/** `nuke`: the wipe of one device, modelled as the sequence of events it
    produces. The system calls are an oracle; console output other than the
    lines that mark a decision is left out. */
module Wipe {
  import opened Common
  import opened Levels
  import opened Media

  /** The option variables `nuke` reads: nuke level, number of passes,
      block size in bytes, and test mode. */
  datatype WipeConfig = WipeConfig(level: NukeLevel, passes: int, blockSize: nat, testMode: bool)

  /** Test mode wipes 100 MiB of a scratch file instead of the device. */
  const TestModeSize: nat := (1024 * 1024) * 100
  const TestModeTarget := "/tmp/testmode.img"

  /** What the system calls of one wipe return: whether `open` in pass `p`
      succeeds (a failure sets errno), the offset `lseek` in pass `p`
      returns, and the count `write` returns for block `k` of pass `p`
      (negative for a failure, which sets errno). */
  datatype IoOracle = IoOracle(openOk: nat -> bool, seekTo: nat -> int, written: (nat, nat) -> int)

  /** How the write buffer is filled: `fillRandom`, `memset` to zero, or
      `staticPattern`. */
  datatype FillKind = RandomBytes | ZeroBytes | StaticPattern

  datatype Event =
    | Announce(target: string, size: nat)    // "Wiping <target>: <size> bytes"
    | Fill(kind: FillKind)                   // the write buffer is (re)filled
    | Open(pass: nat)                        // the target is opened for a pass
    | SkipDevice(pass: nat)                  // errno is set after open: "Skipping", passes end
    | SeekFailed(pass: nat)                  // lseek did not return 0: passes end, no close
    | Progress(pass: nat, block: nat)        // the status line of one block-loop iteration
    | Write(pass: nat, block: nat, requested: nat, returned: int)
    | ShortWrite(pass: nat, block: nat)      // the write returned another count: message only
    | Close(pass: nat)
    | DivideFault(pass: nat)                 // `size / times` with `times == 0`: the process dies
    | Done                                   // `nuke` returns 0

  /** What one wipe is computed from once the target is chosen. */
  datatype Plan = Plan(size: nat, blockSize: nat, passes: int, level: NukeLevel)

  /** Test mode overrides the device's size and path. */
  function EffectiveSize(dev: Media, cfg: WipeConfig): nat {
    if cfg.testMode then TestModeSize else dev.size
  }

  function EffectiveTarget(dev: Media, cfg: WipeConfig): string {
    if cfg.testMode then TestModeTarget else dev.name
  }

  /** The fill made once before the passes: random bytes for the two random
      levels, zeros for Zero, the static pattern for every other level. */
  function InitialFill(level: NukeLevel): (k: FillKind)
    ensures k == RandomBytes <==> level == RandomFast || level == RandomSlow
    ensures k == ZeroBytes <==> level == Zero
  {
    if level == RandomSlow || level == RandomFast then RandomBytes
    else if level == Zero then ZeroBytes
    else StaticPattern
  }

  /** The refill at the end of each block-loop iteration: only the slow
      random level recycles the buffer. */
  function Refill(level: NukeLevel): (r: seq<Event>)
    ensures |r| <= 1
    ensures r != [] <==> level == RandomSlow
    ensures forall j | 0 <= j < |r| :: r[j] == Fill(RandomBytes)
  {
    if level == RandomSlow then [Fill(RandomBytes)] else []
  }

  /** Whether some write of a pass's block loop failed and so set errno. */
  predicate WriteFailed(pass: nat, times: nat, io: IoOracle) {
    exists k | 0 <= k < times :: io.written(pass, k) < 0
  }

  /** The block loop of one pass from index `block` on: every iteration
      prints its status line and refills the buffer when the level asks for
      it; the iteration with `block == times` stops there, every earlier one
      writes one block and, when the count returned is not the block size,
      prints a message and carries on with the next block. */
  function Blocks(pass: nat, block: nat, times: nat, pl: Plan, io: IoOracle): (t: seq<Event>)
    requires block <= times
    ensures |t| > 0 && t[0] == Progress(pass, block)
    ensures forall j | 0 <= j < |t| && t[j].Write? ::
      t[j].pass == pass && block <= t[j].block < times && t[j].requested == pl.blockSize
    decreases times - block
  {
    var head := [Progress(pass, block)] + Refill(pl.level);
    if block >= times then head
    else
      var n := io.written(pass, block);
      var warn := if n != pl.blockSize then [ShortWrite(pass, block)] else [];
      head + [Write(pass, block, pl.blockSize, n)] + warn + Blocks(pass, block + 1, times, pl, io)
  }

  /** Whether the test after `open` ends the passes. As written it is
      `errno != 0`, and errno is never cleared inside the loop, so a failed
      write of an earlier pass also ends them; corrected, only the failure
      of this `open` does. */
  predicate OpenRejected(errno: bool, openOk: bool, b: Build) {
    match b
    case AsWritten => errno || !openOk
    case Corrected => !openOk
  }

  /** The pass loop from pass `pass` on, with `errno` telling whether an
      earlier call has set errno. */
  function Passes(pass: nat, pl: Plan, errno: bool, io: IoOracle, b: Build): (t: seq<Event>)
    requires pl.blockSize > 0
    ensures |t| > 0 && (pass <= pl.passes ==> t[0] == Open(pass))
    ensures t[|t| - 1] == Done || (b == AsWritten && t[|t| - 1].DivideFault?)
    decreases if pass <= pl.passes then pl.passes - pass + 1 else 0
  {
    if pass > pl.passes then [Done]
    else if OpenRejected(errno, io.openOk(pass), b) then [Open(pass), SkipDevice(pass), Done]
    else if io.seekTo(pass) != 0 then [Open(pass), SeekFailed(pass), Done]
    else
      var times := pl.size / pl.blockSize;
      if times == 0 && b == AsWritten then [Open(pass), DivideFault(pass)]
      else
        var errno' := errno || !io.openOk(pass) || WriteFailed(pass, times, io);
        [Open(pass)] + Blocks(pass, 0, times, pl, io) + [Close(pass)] + Passes(pass + 1, pl, errno', io, b)
  }

  /** `nuke`: announce the target, fill the buffer once, then run the
      passes. The block size is positive because the block-size option
      refuses zero and the default is 512. */
  function Nuke(dev: Media, cfg: WipeConfig, io: IoOracle, b: Build): (t: seq<Event>)
    requires cfg.blockSize > 0
    ensures |t| >= 3
    ensures t[0] == Announce(EffectiveTarget(dev, cfg), EffectiveSize(dev, cfg))
    ensures cfg.testMode ==> t[0] == Announce("/tmp/testmode.img", 104857600)
    ensures t[1] == Fill(InitialFill(cfg.level))
    ensures t[|t| - 1] == Done || (b == AsWritten && t[|t| - 1].DivideFault?)
  {
    var pl := Plan(EffectiveSize(dev, cfg), cfg.blockSize, cfg.passes, cfg.level);
    [Announce(EffectiveTarget(dev, cfg), pl.size), Fill(InitialFill(cfg.level))] + Passes(1, pl, false, io, b)
  }
}
