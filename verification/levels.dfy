/** The nuke level (`nukeLevel_t`): which data a wipe writes. Its numbering
    is the one `--nuke-level` accepts, with Rewrite the largest. */
module Levels {

  datatype NukeLevel = Zero | Pattern | RandomFast | RandomSlow | Rewrite

  function Ordinal(l: NukeLevel): (n: nat)
    ensures n <= 4
  {
    match l
    case Zero => 0
    case Pattern => 1
    case RandomFast => 2
    case RandomSlow => 3
    case Rewrite => 4
  }

  /** The level a number in `0..4` names; the inverse of `Ordinal`. */
  function FromOrdinal(n: nat): (l: NukeLevel)
    requires n <= Ordinal(Rewrite)
    ensures Ordinal(l) == n
  {
    if n == 0 then Zero
    else if n == 1 then Pattern
    else if n == 2 then RandomFast
    else if n == 3 then RandomSlow
    else Rewrite
  }

  /** The two adjustments `main` makes after reading a level: a number
      beyond Rewrite becomes Pattern, and then Rewrite itself, which is not
      implemented, becomes Pattern too. So every level but Rewrite is kept
      and Rewrite never reaches the wipe. */
  function Clamp(n: nat): (l: NukeLevel)
    ensures l != Rewrite
    ensures n < Ordinal(Rewrite) ==> Ordinal(l) == n
    ensures n >= Ordinal(Rewrite) ==> l == Pattern
  {
    var read := if n > Ordinal(Rewrite) then Pattern else FromOrdinal(n);
    if read == Rewrite then Pattern else read
  }
}
