/** Properties of a whole `nuke` run, and the three places where the wipe
    as written departs from what it evidently means to do. */
module NukeProps {
  import opened Common
  import opened Levels
  import opened Media
  import opened Wipe
  import opened WipeProps

  /** The plan `nuke` runs its passes with. */
  function PlanOf(dev: Media, cfg: WipeConfig): Plan {
    Plan(EffectiveSize(dev, cfg), cfg.blockSize, cfg.passes, cfg.level)
  }

  /** The two events before the pass loop. */
  function Head(dev: Media, cfg: WipeConfig): seq<Event> {
    [Announce(EffectiveTarget(dev, cfg), EffectiveSize(dev, cfg)), Fill(InitialFill(cfg.level))]
  }

  lemma NukeUnfold(dev: Media, cfg: WipeConfig, io: IoOracle, b: Build)
    requires cfg.blockSize > 0
    ensures Nuke(dev, cfg, io, b) == Head(dev, cfg) + Passes(1, PlanOf(dev, cfg), false, io, b)
  {
  }

  /** The count of one kind in a trace that starts with the announcement
      and the first fill. */
  lemma HeadKind(dev: Media, cfg: WipeConfig, rest: seq<Event>, k: Kind)
    ensures Count(Head(dev, cfg) + rest, k) == (if k == KAnnounce || k == KFill then 1 else 0) + Count(rest, k)
  {
    var a := Announce(EffectiveTarget(dev, cfg), EffectiveSize(dev, cfg));
    var f := Fill(InitialFill(cfg.level));
    assert Head(dev, cfg) == [a] + [f];
    SingleKind(a, k);
    SingleKind(f, k);
    CountAppend(Head(dev, cfg), rest, k);
    CountAppend([a], [f], k);
  }

  lemma HeadBytes(dev: Media, cfg: WipeConfig, rest: seq<Event>)
    ensures BytesRequested(Head(dev, cfg) + rest) == BytesRequested(rest)
  {
    var a := Announce(EffectiveTarget(dev, cfg), EffectiveSize(dev, cfg));
    var f := Fill(InitialFill(cfg.level));
    assert Head(dev, cfg) == [a] + [f];
    Single(a);
    Single(f);
    WritesAppend(Head(dev, cfg), rest);
    WritesAppend([a], [f]);
  }


  /** The schedule of one wipe in numbers: one announcement and one initial
      fill; every completed pass writes `size / blockSize` blocks of
      `blockSize` bytes and nothing else writes; the slow random level adds
      `size / blockSize + 1` refills per completed pass; every `open` is
      closed except for the one pass that left the loop early, of which
      there is at most one; and at most `passes` passes complete. */
  lemma NukeCounts(dev: Media, cfg: WipeConfig, io: IoOracle, b: Build)
    requires cfg.blockSize > 0
    ensures var t := Nuke(dev, cfg, io, b);
      var times := EffectiveSize(dev, cfg) / cfg.blockSize;
      var done := Count(t, KClose);
      && Count(t, KAnnounce) == 1
      && Count(t, KWrite) == done * times
      && BytesRequested(t) == done * (times * cfg.blockSize)
      && Count(t, KFill) == 1 + (if cfg.level == RandomSlow then done * (times + 1) else 0)
      && Count(t, KOpen) == done + Count(t, KSkip) + Count(t, KSeekFailed) + Count(t, KFault)
      && Count(t, KSkip) + Count(t, KSeekFailed) + Count(t, KFault) <= 1
      && done <= (if cfg.passes >= 1 then cfg.passes else 0)
  {
    NukeUnfold(dev, cfg, io, b);
    PassesCounts(1, PlanOf(dev, cfg), false, io, b);
    HeadShifts(dev, cfg, Passes(1, PlanOf(dev, cfg), false, io, b));
  }

  /** The head adds one announcement and one fill to the counts of what
      follows it, and no bytes. */
  lemma HeadShifts(dev: Media, cfg: WipeConfig, rest: seq<Event>)
    ensures var t := Head(dev, cfg) + rest;
      && Count(t, KAnnounce) == 1 + Count(rest, KAnnounce)
      && Count(t, KFill) == 1 + Count(rest, KFill)
      && Count(t, KClose) == Count(rest, KClose)
      && Count(t, KWrite) == Count(rest, KWrite)
      && Count(t, KOpen) == Count(rest, KOpen)
      && Count(t, KSkip) == Count(rest, KSkip)
      && Count(t, KSeekFailed) == Count(rest, KSeekFailed)
      && Count(t, KFault) == Count(rest, KFault)
      && BytesRequested(t) == BytesRequested(rest)
  {
    HeadBytes(dev, cfg, rest);
    HeadKind(dev, cfg, rest, KClose);
    HeadKind(dev, cfg, rest, KWrite);
    HeadKind(dev, cfg, rest, KFill);
    HeadKind(dev, cfg, rest, KAnnounce);
    HeadKind(dev, cfg, rest, KOpen);
    HeadKind(dev, cfg, rest, KSkip);
    HeadKind(dev, cfg, rest, KSeekFailed);
    HeadKind(dev, cfg, rest, KFault);
  }

  /** Leaving the pass loop because `open` or `lseek` failed ends the wipe:
      only the return follows the message. */
  lemma NukeBreakIsFinal(dev: Media, cfg: WipeConfig, io: IoOracle, b: Build)
    requires cfg.blockSize > 0
    ensures BreakIsFinal(Nuke(dev, cfg, io, b))
  {
    var t := Nuke(dev, cfg, io, b);
    var rest := Passes(1, PlanOf(dev, cfg), false, io, b);
    NukeUnfold(dev, cfg, io, b);
    PassesBreakIsFinal(1, PlanOf(dev, cfg), false, io, b);
    forall j | 0 <= j < |t| && IsBreak(t[j])
      ensures j == |t| - 2 && t[|t| - 1] == Done
    {
      assert j >= 2;
      assert t[j] == rest[j - 2];
    }
  }

  /** The ordering of a whole wipe: every short-write message is followed
      by the status line of the next block, and at the slow random level
      every block is written from a buffer refilled just before it. */
  lemma NukeOrdering(dev: Media, cfg: WipeConfig, io: IoOracle, b: Build)
    requires cfg.blockSize > 0
    ensures var t := Nuke(dev, cfg, io, b);
      && MovesOnAfterShort(t)
      && (cfg.level == RandomSlow ==> FreshBeforeWrites(t))
  {
    var rest := Passes(1, PlanOf(dev, cfg), false, io, b);
    NukeUnfold(dev, cfg, io, b);
    PassesOrdering(1, PlanOf(dev, cfg), false, io, b);
    Quiet(Head(dev, cfg));
    ConcatKeepsMovesOn(Head(dev, cfg), rest);
    if cfg.level == RandomSlow {
      ConcatKeepsFresh(Head(dev, cfg), rest);
    }
  }

  /** In test mode the device plays no part in the wipe. */
  lemma {:induction false} TestModeIgnoresDevice(d1: Media, d2: Media, cfg: WipeConfig, io: IoOracle, b: Build)
    requires cfg.blockSize > 0 && cfg.testMode
    ensures Nuke(d1, cfg, io, b) == Nuke(d2, cfg, io, b)
    ensures Nuke(d1, cfg, io, b)[0] == Announce(TestModeTarget, TestModeSize)
  {
    assert PlanOf(d1, cfg) == PlanOf(d2, cfg);
    NukeUnfold(d1, cfg, io, b);
    NukeUnfold(d2, cfg, io, b);
  }

  /** Whether every `open` and `lseek` from pass `pass` on succeeds. */
  predicate SystemOk(pass: nat, pl: Plan, io: IoOracle) {
    forall p | pass <= p <= pl.passes :: io.openOk(p) && io.seekTo(p) == 0
  }

  /** Whether every write from pass `pass` on succeeds. */
  predicate WritesOk(pass: nat, pl: Plan, io: IoOracle)
    requires pl.blockSize > 0
  {
    forall p, k | pass <= p <= pl.passes && 0 <= k < pl.size / pl.blockSize :: io.written(p, k) >= 0
  }

  /** `t` completes `n` passes, none of them leaving early, and returns. */
  predicate RunsClean(t: seq<Event>, n: nat) {
    && Count(t, KClose) == n
    && Count(t, KSkip) == 0 && Count(t, KSeekFailed) == 0 && Count(t, KFault) == 0
    && |t| > 0 && t[|t| - 1] == Done
  }

  /** When `open` and `lseek` succeed every time, the pass loop runs every
      remaining pass to its `close`. Corrected, nothing else is assumed; as
      written, the lemma also assumes that errno is clear on entry, that no
      write fails and that the target holds at least one block. These are
      sufficient, not necessary: a failed write in the last pass stops
      nothing, since errno is only read after the next `open`. */
  lemma {:induction false} PassesAllRun(pass: nat, pl: Plan, errno: bool, io: IoOracle, b: Build)
    requires pl.blockSize > 0 && SystemOk(pass, pl, io)
    requires b == AsWritten ==> !errno && pl.size >= pl.blockSize && WritesOk(pass, pl, io)
    ensures RunsClean(Passes(pass, pl, errno, io, b), if pass <= pl.passes then pl.passes - pass + 1 else 0)
    decreases if pass <= pl.passes then pl.passes - pass + 1 else 0
  {
    if pass > pl.passes {
      CleanDone(pass, pl, errno, io, b);
    } else {
      var errno' := errno || !io.openOk(pass) || WriteFailed(pass, pl.size / pl.blockSize, io);
      AllRunNext(pass, pl, errno, io, b);
      PassesAllRun(pass + 1, pl, errno', io, b);
      AllRunStep(pass, pl, errno, io, b);
    }
  }

  lemma CleanDone(pass: nat, pl: Plan, errno: bool, io: IoOracle, b: Build)
    requires pl.blockSize > 0 && pass > pl.passes
    ensures RunsClean(Passes(pass, pl, errno, io, b), 0)
  {
    Single(Done);
  }

  /** The conditions of `PassesAllRun` carry over to the next pass, and the
      present pass completes. */
  lemma AllRunNext(pass: nat, pl: Plan, errno: bool, io: IoOracle, b: Build)
    requires pl.blockSize > 0 && pass <= pl.passes && SystemOk(pass, pl, io)
    requires b == AsWritten ==> !errno && pl.size >= pl.blockSize && WritesOk(pass, pl, io)
    ensures var errno' := errno || !io.openOk(pass) || WriteFailed(pass, pl.size / pl.blockSize, io);
      && SystemOk(pass + 1, pl, io)
      && (b == AsWritten ==> !errno' && WritesOk(pass + 1, pl, io))
      && !OpenRejected(errno, io.openOk(pass), b) && io.seekTo(pass) == 0
      && !(pl.size / pl.blockSize == 0 && b == AsWritten)
  {
    assert io.openOk(pass) && io.seekTo(pass) == 0;
    if b == AsWritten {
      AtLeastOneBlock(pl.size, pl.blockSize);
      assert !WriteFailed(pass, pl.size / pl.blockSize, io);
    }
  }

  /** A completing pass in front of a clean run of the later passes. */
  lemma AllRunStep(pass: nat, pl: Plan, errno: bool, io: IoOracle, b: Build)
    requires pl.blockSize > 0 && pass <= pl.passes && io.seekTo(pass) == 0
    requires !OpenRejected(errno, io.openOk(pass), b) && !(pl.size / pl.blockSize == 0 && b == AsWritten)
    requires var errno' := errno || !io.openOk(pass) || WriteFailed(pass, pl.size / pl.blockSize, io);
      RunsClean(Passes(pass + 1, pl, errno', io, b), pl.passes - pass)
    ensures RunsClean(Passes(pass, pl, errno, io, b), pl.passes - pass + 1)
  {
    var errno' := errno || !io.openOk(pass) || WriteFailed(pass, pl.size / pl.blockSize, io);
    PassesStep(pass, pl, errno, io, b);
    CleanStep(pass, pl, io, Passes(pass + 1, pl, errno', io, b), pl.passes - pass);
  }

  /** A completed pass in front of a clean run makes a clean run one pass
      longer. */
  lemma CleanStep(pass: nat, pl: Plan, io: IoOracle, rest: seq<Event>, n: nat)
    requires pl.blockSize > 0 && RunsClean(rest, n)
    ensures RunsClean([Open(pass)] + Blocks(pass, 0, pl.size / pl.blockSize, pl, io) + [Close(pass)] + rest, n + 1)
  {
    var times := pl.size / pl.blockSize;
    var front := [Open(pass)] + Blocks(pass, 0, times, pl, io) + [Close(pass)];
    BlockCounts(pass, 0, times, pl, io);
    PassKind(pass, times, pl, io, rest, KClose);
    PassKind(pass, times, pl, io, rest, KSkip);
    PassKind(pass, times, pl, io, rest, KSeekFailed);
    PassKind(pass, times, pl, io, rest, KFault);
    LastOfAppend(front, rest);
  }

  lemma NoWholeBlock(size: nat, bs: nat)
    requires size < bs
    ensures size / bs == 0
  {
  }

  lemma LastOfAppend(a: seq<Event>, b: seq<Event>)
    requires |b| > 0
    ensures (a + b)[|a + b| - 1] == b[|b| - 1]
  {
  }

  lemma AtLeastOneBlock(size: nat, bs: nat)
    requires 0 < bs <= size
    ensures size / bs >= 1
  {
  }

  /** When `open` and `lseek` succeed every time, every pass of a wipe
      completes: `passes` closes, `passes * (size / blockSize)` writes, and
      the wipe returns. As written the lemma also assumes that every write
      succeeds and that the target holds at least one block, which suffice
      but are not all needed; corrected, it assumes neither. */
  lemma AllPassesRun(dev: Media, cfg: WipeConfig, io: IoOracle, b: Build)
    requires cfg.blockSize > 0 && SystemOk(1, PlanOf(dev, cfg), io)
    requires b == AsWritten ==> EffectiveSize(dev, cfg) >= cfg.blockSize && WritesOk(1, PlanOf(dev, cfg), io)
    ensures var t := Nuke(dev, cfg, io, b);
      var n := if cfg.passes >= 1 then cfg.passes else 0;
      && Count(t, KClose) == n
      && Count(t, KWrite) == n * (EffectiveSize(dev, cfg) / cfg.blockSize)
      && Count(t, KSkip) == 0 && Count(t, KSeekFailed) == 0
      && t[|t| - 1] == Done
  {
    var rest := Passes(1, PlanOf(dev, cfg), false, io, b);
    NukeUnfold(dev, cfg, io, b);
    AllRunCounts(PlanOf(dev, cfg), io, b);
    HeadShifts(dev, cfg, rest);
    LastOfAppend(Head(dev, cfg), rest);
  }

  /** The pass loop of `AllPassesRun`: every pass completes, each with a
      full block loop. */
  lemma AllRunCounts(pl: Plan, io: IoOracle, b: Build)
    requires pl.blockSize > 0 && SystemOk(1, pl, io)
    requires b == AsWritten ==> pl.size >= pl.blockSize && WritesOk(1, pl, io)
    ensures var rest := Passes(1, pl, false, io, b);
      var n := if pl.passes >= 1 then pl.passes else 0;
      RunsClean(rest, n) && Count(rest, KWrite) == n * (pl.size / pl.blockSize)
  {
    PassesAllRun(1, pl, false, io, b);
    PassesCounts(1, pl, false, io, b);
  }

  /** As written, a write that fails in the first pass leaves errno set,
      so the second pass reports "Skipping" right after a successful
      `open` (whose descriptor is never closed) and the wipe stops after
      one pass. */
  lemma StaleErrnoEndsPasses(dev: Media, cfg: WipeConfig, io: IoOracle)
    requires cfg.blockSize > 0 && cfg.passes >= 2
    requires io.openOk(1) && io.seekTo(1) == 0 && io.openOk(2)
    requires WriteFailed(1, EffectiveSize(dev, cfg) / cfg.blockSize, io)
    ensures var t := Nuke(dev, cfg, io, AsWritten);
      var times := EffectiveSize(dev, cfg) / cfg.blockSize;
      && t == Head(dev, cfg) + ([Open(1)] + Blocks(1, 0, times, PlanOf(dev, cfg), io) + [Close(1)])
              + [Open(2), SkipDevice(2), Done]
      && Count(t, KClose) == 1 < cfg.passes
  {
    var pl := PlanOf(dev, cfg);
    var times := pl.size / pl.blockSize;
    var pass1 := [Open(1)] + Blocks(1, 0, times, pl, io) + [Close(1)];
    var tail := [Open(2), SkipDevice(2), Done];
    StaleErrnoPasses(pl, io);
    NukeUnfold(dev, cfg, io, AsWritten);
    assert Nuke(dev, cfg, io, AsWritten) == Head(dev, cfg) + (pass1 + tail);
    assert tail == [Open(2)] + [SkipDevice(2)] + [Done];
    EndTally(2, SkipDevice(2), [Done], pl);
    TallyStep(1, pl, io, tail);
    HeadKind(dev, cfg, pass1 + tail, KClose);
  }

  /** The pass loop of the stale errno case: pass 1 completes, and pass 2
      is skipped. */
  lemma StaleErrnoPasses(pl: Plan, io: IoOracle)
    requires pl.blockSize > 0 && pl.passes >= 2
    requires io.openOk(1) && io.seekTo(1) == 0 && io.openOk(2)
    requires WriteFailed(1, pl.size / pl.blockSize, io)
    ensures Passes(1, pl, false, io, AsWritten)
      == [Open(1)] + Blocks(1, 0, pl.size / pl.blockSize, pl, io) + [Close(1)] + [Open(2), SkipDevice(2), Done]
  {
    var times := pl.size / pl.blockSize;
    assert times > 0;
    PassesStep(1, pl, false, io, AsWritten);
  }

  /** A pass whose `open` is accepted and whose `lseek` succeeds, in the
      corrected build, reaches its `close`. */
  lemma CorrectedPassCloses(pass: nat, pl: Plan, errno: bool, io: IoOracle)
    requires pl.blockSize > 0 && pass <= pl.passes
    requires io.openOk(pass) && io.seekTo(pass) == 0
    ensures Close(pass) in Passes(pass, pl, errno, io, Corrected)
  {
    var front := [Open(pass)] + Blocks(pass, 0, pl.size / pl.blockSize, pl, io);
    PassesStep(pass, pl, errno, io, Corrected);
    assert (front + [Close(pass)])[|front|] == Close(pass);
  }

  /** Corrected, the same failed write does not stop the second pass. */
  lemma FailedWriteKeepsPasses(dev: Media, cfg: WipeConfig, io: IoOracle)
    requires cfg.blockSize > 0 && cfg.passes >= 2
    requires io.openOk(1) && io.seekTo(1) == 0 && io.openOk(2) && io.seekTo(2) == 0
    ensures Close(2) in Nuke(dev, cfg, io, Corrected)
  {
    var pl := PlanOf(dev, cfg);
    var times := pl.size / pl.blockSize;
    var errno := WriteFailed(1, times, io);
    NukeUnfold(dev, cfg, io, Corrected);
    PassesStep(1, pl, false, io, Corrected);
    CorrectedPassCloses(2, pl, errno, io);
  }

  /** The passes `from` up to but not including `p`, each run to its
      `close`. */
  function CompletedPasses(from: nat, p: nat, pl: Plan, io: IoOracle): seq<Event>
    requires pl.blockSize > 0
    decreases if from < p then p - from else 0
  {
    if from >= p then []
    else [Open(from)] + Blocks(from, 0, pl.size / pl.blockSize, pl, io) + [Close(from)] + CompletedPasses(from + 1, p, pl, io)
  }

  /** The end of a pass whose `open` or `lseek` failed: "Skipping" when
      `open` failed, otherwise the failed seek, and then the return. */
  function EarlyEnd(p: nat, io: IoOracle): seq<Event> {
    if !io.openOk(p) then [Open(p), SkipDevice(p), Done] else [Open(p), SeekFailed(p), Done]
  }

  /** Whether passes `from` up to but not including `p` open and seek, and,
      as written, also write every block and so leave errno clear. */
  predicate EarlierPassesRun(from: nat, p: nat, pl: Plan, io: IoOracle, b: Build)
    requires pl.blockSize > 0
  {
    && (forall q | from <= q < p :: io.openOk(q) && io.seekTo(q) == 0)
    && (b == AsWritten ==> forall q, k | from <= q < p && 0 <= k < pl.size / pl.blockSize :: io.written(q, k) >= 0)
  }

  /** When pass `p` is the first whose `open` or `lseek` fails, the pass
      loop runs the passes before it to their `close` and then stops at
      `p`: "Skipping" for a failed `open`, the failed seek otherwise, and
      the return, with no `close` for pass `p` and no later pass. As
      written the lemma also assumes that errno is clear on entry and,
      when passes come before `p`, that their writes succeed and the target
      holds a block; these suffice for the earlier passes to complete.
      Corrected, nothing more is assumed. */
  lemma FirstFailureEndsPasses(pass: nat, p: nat, pl: Plan, errno: bool, io: IoOracle, b: Build)
    requires pl.blockSize > 0 && pass <= p <= pl.passes
    requires EarlierPassesRun(pass, p, pl, io, b)
    requires !io.openOk(p) || io.seekTo(p) != 0
    requires b == AsWritten ==> !errno && (pass < p ==> pl.size >= pl.blockSize)
    ensures Passes(pass, pl, errno, io, b) == CompletedPasses(pass, p, pl, io) + EarlyEnd(p, io)
  {
    FailureInduction(pass, p, pl, errno, io, b);
  }

  /** The pass loop from `pass` on is the passes up to `p` and then the
      early end of pass `p`. */
  predicate StopsAt(pass: nat, p: nat, pl: Plan, errno: bool, io: IoOracle, b: Build)
    requires pl.blockSize > 0
  {
    Passes(pass, pl, errno, io, b) == CompletedPasses(pass, p, pl, io) + EarlyEnd(p, io)
  }

  /** The conditions of `FirstFailureEndsPasses`, from pass `pass` on. */
  predicate FailureSetting(pass: nat, p: nat, pl: Plan, errno: bool, io: IoOracle, b: Build)
    requires pl.blockSize > 0
  {
    && pass <= p <= pl.passes
    && EarlierPassesRun(pass, p, pl, io, b)
    && (!io.openOk(p) || io.seekTo(p) != 0)
    && (b == AsWritten ==> !errno && (pass < p ==> pl.size >= pl.blockSize))
  }

  lemma {:induction false} FailureInduction(pass: nat, p: nat, pl: Plan, errno: bool, io: IoOracle, b: Build)
    requires pl.blockSize > 0 && FailureSetting(pass, p, pl, errno, io, b)
    ensures StopsAt(pass, p, pl, errno, io, b)
    decreases p - pass
  {
    if pass == p {
      FailureHere(p, pl, errno, io, b);
    } else {
      FailureLater(pass, p, pl, errno, io, b);
      FailureInduction(pass + 1, p, pl, ErrnoAfter(pass, pl, errno, io), io, b);
      FailureAdvance(pass, p, pl, errno, io, b);
    }
  }

  /** Whether errno is set once pass `pass` has run its block loop. */
  predicate ErrnoAfter(pass: nat, pl: Plan, errno: bool, io: IoOracle)
    requires pl.blockSize > 0
  {
    errno || !io.openOk(pass) || WriteFailed(pass, pl.size / pl.blockSize, io)
  }

  /** One completed pass before the failing one. */
  lemma FailureAdvance(pass: nat, p: nat, pl: Plan, errno: bool, io: IoOracle, b: Build)
    requires pl.blockSize > 0 && pass < p <= pl.passes
    requires !OpenRejected(errno, io.openOk(pass), b) && io.seekTo(pass) == 0
    requires !(pl.size / pl.blockSize == 0 && b == AsWritten)
    requires StopsAt(pass + 1, p, pl, ErrnoAfter(pass, pl, errno, io), io, b)
    ensures StopsAt(pass, p, pl, errno, io, b)
  {
    PassesStep(pass, pl, errno, io, b);
    FailureStep(pass, p, pl, io, Passes(pass + 1, pl, ErrnoAfter(pass, pl, errno, io), io, b));
  }

  /** A completed pass in front of the passes up to the failing one. */
  lemma FailureStep(pass: nat, p: nat, pl: Plan, io: IoOracle, rest: seq<Event>)
    requires pl.blockSize > 0 && pass < p
    requires rest == CompletedPasses(pass + 1, p, pl, io) + EarlyEnd(p, io)
    ensures [Open(pass)] + Blocks(pass, 0, pl.size / pl.blockSize, pl, io) + [Close(pass)] + rest
      == CompletedPasses(pass, p, pl, io) + EarlyEnd(p, io)
  {
    var front := [Open(pass)] + Blocks(pass, 0, pl.size / pl.blockSize, pl, io) + [Close(pass)];
    assert front + (CompletedPasses(pass + 1, p, pl, io) + EarlyEnd(p, io))
        == (front + CompletedPasses(pass + 1, p, pl, io)) + EarlyEnd(p, io);
  }

  /** The failing pass itself. */
  lemma FailureHere(p: nat, pl: Plan, errno: bool, io: IoOracle, b: Build)
    requires pl.blockSize > 0 && p <= pl.passes
    requires !io.openOk(p) || io.seekTo(p) != 0
    requires b == AsWritten ==> !errno
    ensures StopsAt(p, p, pl, errno, io, b)
  {
  }

  /** A pass before the failing one completes, and the conditions carry
      over to the next pass. */
  lemma FailureLater(pass: nat, p: nat, pl: Plan, errno: bool, io: IoOracle, b: Build)
    requires pl.blockSize > 0 && pass < p <= pl.passes
    requires EarlierPassesRun(pass, p, pl, io, b)
    requires !io.openOk(p) || io.seekTo(p) != 0
    requires b == AsWritten ==> !errno && pl.size >= pl.blockSize
    ensures FailureSetting(pass + 1, p, pl, ErrnoAfter(pass, pl, errno, io), io, b)
    ensures !OpenRejected(errno, io.openOk(pass), b) && io.seekTo(pass) == 0
      && !(pl.size / pl.blockSize == 0 && b == AsWritten)
  {
    assert io.openOk(pass) && io.seekTo(pass) == 0;
    if b == AsWritten {
      AtLeastOneBlock(pl.size, pl.blockSize);
      assert !WriteFailed(pass, pl.size / pl.blockSize, io);
    }
  }

  /** The number of passes `CompletedPasses` runs to their `close`. */
  lemma {:induction false} CompletedCloses(from: nat, p: nat, pl: Plan, io: IoOracle)
    requires pl.blockSize > 0 && from <= p
    ensures Count(CompletedPasses(from, p, pl, io), KClose) == p - from
    decreases p - from
  {
    if from < p {
      var times := pl.size / pl.blockSize;
      CompletedCloses(from + 1, p, pl, io);
      BlockCounts(from, 0, times, pl, io);
      PassKind(from, times, pl, io, CompletedPasses(from + 1, p, pl, io), KClose);
    }
  }

  /** A wipe whose first failing `open` or `lseek` is in pass `p` completes
      the `p - 1` passes before it and then ends: the announcement and the
      first fill, those passes, the open of pass `p`, "Skipping" or the
      failed seek, and the return. */
  lemma FirstFailureEndsWipe(dev: Media, cfg: WipeConfig, io: IoOracle, b: Build, p: nat)
    requires cfg.blockSize > 0 && 1 <= p <= cfg.passes
    requires EarlierPassesRun(1, p, PlanOf(dev, cfg), io, b)
    requires !io.openOk(p) || io.seekTo(p) != 0
    requires b == AsWritten && p > 1 ==> EffectiveSize(dev, cfg) >= cfg.blockSize
    ensures var t := Nuke(dev, cfg, io, b);
      && t == Head(dev, cfg) + CompletedPasses(1, p, PlanOf(dev, cfg), io) + EarlyEnd(p, io)
      && Count(t, KClose) == p - 1
  {
    var pl := PlanOf(dev, cfg);
    var done := CompletedPasses(1, p, pl, io);
    NukeUnfold(dev, cfg, io, b);
    FirstFailureEndsPasses(1, p, pl, false, io, b);
    assert Head(dev, cfg) + (done + EarlyEnd(p, io)) == Head(dev, cfg) + done + EarlyEnd(p, io);
    CompletedCloses(1, p, pl, io);
    EarlyCloses(p, io);
    CountAppend(done, EarlyEnd(p, io), KClose);
    HeadKind(dev, cfg, done + EarlyEnd(p, io), KClose);
  }

  lemma EarlyCloses(p: nat, io: IoOracle)
    ensures Count(EarlyEnd(p, io), KClose) == 0
  {
    var y := if !io.openOk(p) then SkipDevice(p) else SeekFailed(p);
    assert EarlyEnd(p, io) == [Open(p)] + [y] + [Done];
    EndKind(Open(p), y, [Done], KClose);
  }

  /** As written, a target smaller than one block makes `times` zero, and
      the first pass that opens and seeks divides by it: the wipe dies
      before writing anything and never returns. */
  lemma SmallTargetFaults(dev: Media, cfg: WipeConfig, io: IoOracle)
    requires 0 < cfg.blockSize && EffectiveSize(dev, cfg) < cfg.blockSize && cfg.passes >= 1
    requires io.openOk(1) && io.seekTo(1) == 0
    ensures Nuke(dev, cfg, io, AsWritten) == Head(dev, cfg) + [Open(1), DivideFault(1)]
  {
    NukeUnfold(dev, cfg, io, AsWritten);
  }

  /** Corrected, a target smaller than one block is opened and closed in
      every pass without a write, and the wipe returns. */
  lemma SmallTargetCorrected(dev: Media, cfg: WipeConfig, io: IoOracle)
    requires 0 < cfg.blockSize && EffectiveSize(dev, cfg) < cfg.blockSize
    ensures var t := Nuke(dev, cfg, io, Corrected);
      && Count(t, KWrite) == 0
      && t[|t| - 1] == Done
      && (SystemOk(1, PlanOf(dev, cfg), io) ==> Count(t, KClose) == (if cfg.passes >= 1 then cfg.passes else 0))
  {
    var rest := Passes(1, PlanOf(dev, cfg), false, io, Corrected);
    NukeUnfold(dev, cfg, io, Corrected);
    NoWholeBlock(EffectiveSize(dev, cfg), cfg.blockSize);
    PassesCounts(1, PlanOf(dev, cfg), false, io, Corrected);
    HeadKind(dev, cfg, rest, KWrite);
    if SystemOk(1, PlanOf(dev, cfg), io) {
      AllPassesRun(dev, cfg, io, Corrected);
    }
  }

  /** As written, the size `nuke` wipes is the count of 512-byte sectors
      that BLKGETSIZE reports, taken as bytes: the passes together write at
      most that many bytes each, so of a device of `c` sectors at most its
      first `c` bytes, a 512th of it, are ever overwritten. */
  lemma SectorCountAsBytes(media: string, probe: ProbeOracle, cfg: WipeConfig, io: IoOracle, b: Build)
    requires |DevDir| <= |media| && cfg.blockSize > 0 && !cfg.testMode
    requires probe.blkGetSize(media).Some?
    ensures var c := probe.blkGetSize(media).value;
      var t := Nuke(GetMediaInfo(media, probe, AsWritten), cfg, io, b);
      && BytesRequested(t) <= Count(t, KClose) * c
      && (Count(t, KClose) >= 1 && c >= 1 ==> BytesRequested(t) < Count(t, KClose) * (c * SectorBytes))
  {
    var c := probe.blkGetSize(media).value;
    var dev := GetMediaInfo(media, probe, AsWritten);
    var t := Nuke(dev, cfg, io, b);
    NukeCounts(dev, cfg, io, b);
    assert EffectiveSize(dev, cfg) == c;
    ShortOfSectors(Count(t, KClose), c, cfg.blockSize);
  }

  /** Corrected, the size is the sector count times 512, and every
      completed pass writes all of it but the tail shorter than one block. */
  lemma SectorBytesCovered(media: string, probe: ProbeOracle, cfg: WipeConfig, io: IoOracle, b: Build)
    requires |DevDir| <= |media| && cfg.blockSize > 0 && !cfg.testMode
    requires probe.blkGetSize(media).Some?
    ensures var bytes := probe.blkGetSize(media).value * SectorBytes;
      var t := Nuke(GetMediaInfo(media, probe, Corrected), cfg, io, b);
      var perPass := bytes / cfg.blockSize * cfg.blockSize;
      && BytesRequested(t) == Count(t, KClose) * perPass
      && perPass <= bytes < perPass + cfg.blockSize
  {
    var dev := GetMediaInfo(media, probe, Corrected);
    NukeCounts(dev, cfg, io, b);
    assert EffectiveSize(dev, cfg) == probe.blkGetSize(media).value * SectorBytes;
    WholeBlocks(EffectiveSize(dev, cfg), cfg.blockSize);
  }

  /** Corrected, with a block size that divides 512 every completed pass
      writes the whole device. */
  lemma SectorBytesWhole(media: string, probe: ProbeOracle, cfg: WipeConfig, io: IoOracle, b: Build)
    requires |DevDir| <= |media| && cfg.blockSize > 0 && !cfg.testMode
    requires probe.blkGetSize(media).Some? && SectorBytes % cfg.blockSize == 0
    ensures var t := Nuke(GetMediaInfo(media, probe, Corrected), cfg, io, b);
      BytesRequested(t) == Count(t, KClose) * (probe.blkGetSize(media).value * SectorBytes)
  {
    var c := probe.blkGetSize(media).value;
    var dev := GetMediaInfo(media, probe, Corrected);
    NukeCounts(dev, cfg, io, b);
    assert EffectiveSize(dev, cfg) == c * SectorBytes;
    DividesMultiple(c, SectorBytes, cfg.blockSize);
  }


  /** The arithmetic of the as-written size: `done` passes of whole blocks
      of a `c`-byte target cover at most `done * c` bytes, less than
      `done` times the `c * 512` bytes of the device. */
  lemma ShortOfSectors(done: nat, c: nat, bs: nat)
    requires bs > 0
    ensures done * ((c / bs) * bs) <= done * c
    ensures done >= 1 && c >= 1 ==> done * ((c / bs) * bs) < done * (c * SectorBytes)
  {
    WholeBlocks(c, bs);
    MulLe((c / bs) * bs, c, done);
    if done >= 1 && c >= 1 {
      MulStrict(done, c, c * SectorBytes);
    }
  }

  lemma WholeBlocks(n: nat, bs: nat)
    requires bs > 0
    ensures n / bs * bs <= n < n / bs * bs + bs
  {
  }

  lemma MulLe(a: nat, b: nat, d: nat)
    requires a <= b
    ensures a * d <= b * d
  {
  }

  lemma MulDiv(x: nat, d: nat)
    requires d > 0
    ensures (x * d) / d == x
  {
    var n := x * d;
    assert n == (n / d) * d + n % d;
    if n / d > x {
      MulLe(x + 1, n / d, d);
      assert false;
    } else if n / d < x {
      MulLe(n / d + 1, x, d);
      assert false;
    }
  }

  lemma MulStrict(a: nat, x: nat, y: nat)
    requires a >= 1 && x < y
    ensures a * x < a * y
  {
  }

  /** A multiple of a multiple of `d` is whole in blocks of `d`. */
  lemma DividesMultiple(c: nat, m: nat, d: nat)
    requires d > 0 && m % d == 0
    ensures (c * m) / d * d == c * m
  {
    var q := m / d;
    assert m == q * d;
    assert c * m == (c * q) * d;
    MulDiv(c * q, d);
  }
}
