/** Command-line value validation (`filterArg`) and the normalisation `main`
    applies to the values of `--write-mode`, `--nuke-level`, `--passes` and
    `--block-size`. A rejection stands for the process ending with exit
    status 1 after printing a message. */
module Args {
  import opened CText
  import opened Levels

  /** The bits of `filterArg`'s `flags` argument: NONEGATIVE, NOZERO and
      NEEDNUM. */
  datatype Flags = Flags(noNegative: bool, noZero: bool, needNum: bool)

  /** Which of the three messages `filterArg` prints before `exit(1)`. */
  datatype Rejection = Negative | ZeroValue | NotInteger

  /** `filterArg` either returns 0 or ends the process. */
  datatype Verdict = Accept | Reject(why: Rejection)

  /** The value of an option after validation and normalisation, or the
      rejection that ended the process. */
  datatype Parsed<T> = Parsed(value: T) | Refused(why: Rejection)

  /** The flags `main` passes for each option. */
  const WriteModeFlags := Flags(true, false, true)
  const NukeLevelFlags := Flags(true, false, true)
  const PassesFlags := Flags(false, false, true)
  const BlockSizeFlags := Flags(true, true, true)

  /** When `filterArg` lets a value through: every requested check passes. */
  predicate Acceptable(value: string, f: Flags) {
    && (!f.noNegative || Atoi(value) >= 0)
    && (!f.noZero || Atoi(value) != 0)
    && (!f.needNum || AllDigits(value))
  }

  /** The `isdigit` loop of `filterArg`, from index `test` on. */
  function ScanDigits(value: string, test: nat): (ok: bool)
    requires test <= |value|
    ensures ok <==> forall k | test <= k < |value| :: IsDigit(value[k])
    decreases |value| - test
  {
    if test == |value| then true
    else if !IsDigit(value[test]) then false
    else ScanDigits(value, test + 1)
  }

  /** `filterArg`: the checks run in the order negative, zero, digits, and
      the first one that fails decides the message. The empty string is
      all digits, and `atoi` reads it as 0. */
  function FilterArg(value: string, f: Flags): (v: Verdict)
    ensures v == Accept <==> Acceptable(value, f)
    ensures v == Reject(Negative) <==> f.noNegative && Atoi(value) < 0
    ensures v == Reject(ZeroValue) <==> !(f.noNegative && Atoi(value) < 0) && f.noZero && Atoi(value) == 0
    ensures v == Reject(NotInteger) <==>
      !(f.noNegative && Atoi(value) < 0) && !(f.noZero && Atoi(value) == 0) && f.needNum && !AllDigits(value)
  {
    if f.noNegative && Atoi(value) < 0 then Reject(Negative)
    else if f.noZero && Atoi(value) == 0 then Reject(ZeroValue)
    else if f.needNum && !ScanDigits(value, 0) then Reject(NotInteger)
    else Accept
  }

  /** Under NONEGATIVE a signed negative number is refused with the
      negative message, whatever white space precedes it and whatever
      follows it. */
  lemma NegativeRejected(sp: string, n: nat, rest: string, f: Flags)
    requires forall k | 0 <= k < |sp| :: IsSpace(sp[k])
    requires |rest| > 0 ==> !IsDigit(rest[0])
    requires n > 0 && f.noNegative
    ensures FilterArg(sp + ['-'] + Decimal(n) + rest, f) == Reject(Negative)
  {
    AtoiSigned(sp, n, rest);
  }

  /** Conversion of an `int` to `int8_t` as two's-complement compilers do it. */
  function ToInt8(x: int): (r: int)
    ensures -128 <= r < 128
    ensures r == 0 <==> x % 256 == 0
    ensures (r - x) % 256 == 0
  {
    (x + 128) % 256 - 128
  }

  /** `--write-mode`: the value is stored in an `int8_t`, and any nonzero
      value selects asynchronous writes, so only its low eight bits
      matter: "256" selects synchronous writes. */
  function WriteModeOption(value: string): (r: Parsed<bool>)
    ensures r.Parsed? <==> AllDigits(value)
    ensures r.Parsed? ==> (r.value <==> DigitsValue(value) % 256 != 0)
  {
    match FilterArg(value, WriteModeFlags)
    case Reject(why) => Refused(why)
    case Accept =>
      Parsed(ToInt8(Atoi(value)) != 0)
  }

  /** `--nuke-level`: digits only; 0 to 3 name a level, and anything from 4
      (Rewrite) up becomes Pattern. */
  function NukeLevelOption(value: string): (r: Parsed<NukeLevel>)
    ensures r.Parsed? <==> AllDigits(value)
    ensures r.Parsed? ==> r.value != Rewrite
    ensures r.Parsed? && DigitsValue(value) < 4 ==> Ordinal(r.value) == DigitsValue(value)
    ensures r.Parsed? && DigitsValue(value) >= 4 ==> r.value == Pattern
  {
    match FilterArg(value, NukeLevelFlags)
    case Reject(why) => Refused(why)
    case Accept =>
      Parsed(Clamp(Atoi(value)))
  }

  /** `--passes`: digits only, and a count below one becomes one, so the
      empty string and "0" both mean a single pass. */
  function PassesOption(value: string): (r: Parsed<nat>)
    ensures r.Parsed? <==> AllDigits(value)
    ensures r.Refused? ==> r.why == NotInteger
    ensures r.Parsed? ==> r.value >= 1
    ensures r.Parsed? && DigitsValue(value) >= 1 ==> r.value == DigitsValue(value)
    ensures r.Parsed? && DigitsValue(value) == 0 ==> r.value == 1
  {
    match FilterArg(value, PassesFlags)
    case Reject(why) => Refused(why)
    case Accept =>
      var n := Atoi(value);
      Parsed(if n < 1 then 1 else n)
  }

  /** `--block-size`: a nonempty string of digits that does not denote zero;
      the block size is then at least one byte. */
  function BlockSizeOption(value: string): (r: Parsed<nat>)
    ensures r.Parsed? <==> AllDigits(value) && DigitsValue(value) != 0
    ensures r.Parsed? ==> r.value == DigitsValue(value) >= 1
    ensures value == [] ==> r == Refused(ZeroValue)
  {
    match FilterArg(value, BlockSizeFlags)
    case Reject(why) => Refused(why)
    case Accept =>
      Parsed(Atoi(value))
  }
}
