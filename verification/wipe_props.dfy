/** Properties of the wipe schedule `Wipe.Nuke`, stated over its event
    trace. */
module WipeProps {
  import opened Common
  import opened Levels
  import opened Media
  import opened Wipe

  /** The constructor of an event, for counting. */
  datatype Kind = KAnnounce | KFill | KOpen | KSkip | KSeekFailed | KProgress | KWrite | KShort | KClose | KFault | KDone

  function KindOf(e: Event): Kind {
    match e
    case Announce(_, _) => KAnnounce
    case Fill(_) => KFill
    case Open(_) => KOpen
    case SkipDevice(_) => KSkip
    case SeekFailed(_) => KSeekFailed
    case Progress(_, _) => KProgress
    case Write(_, _, _, _) => KWrite
    case ShortWrite(_, _) => KShort
    case Close(_) => KClose
    case DivideFault(_) => KFault
    case Done => KDone
  }

  /** The kinds of event that belong to the pass loop rather than to a block
      loop. */
  predicate PassLevel(k: Kind) {
    k == KAnnounce || k == KOpen || k == KSkip || k == KSeekFailed || k == KClose || k == KFault || k == KDone
  }

  function Count(t: seq<Event>, k: Kind): nat {
    if |t| == 0 then 0 else (if KindOf(t[0]) == k then 1 else 0) + Count(t[1..], k)
  }

  /** The write events of a trace, in order. */
  function Writes(t: seq<Event>): seq<Event> {
    if |t| == 0 then [] else (if t[0].Write? then [t[0]] else []) + Writes(t[1..])
  }

  /** The number of bytes the writes of a trace ask for. */
  function BytesRequested(t: seq<Event>): nat {
    if |t| == 0 then 0 else (if t[0].Write? then t[0].requested else 0) + BytesRequested(t[1..])
  }

  lemma {:induction false} CountAppend(a: seq<Event>, b: seq<Event>, k: Kind)
    ensures Count(a + b, k) == Count(a, k) + Count(b, k)
  {
    if |a| > 0 {
      assert (a + b)[1..] == a[1..] + b;
      CountAppend(a[1..], b, k);
    } else {
      assert a + b == b;
    }
  }

  lemma {:induction false} WritesAppend(a: seq<Event>, b: seq<Event>)
    ensures Writes(a + b) == Writes(a) + Writes(b)
    ensures BytesRequested(a + b) == BytesRequested(a) + BytesRequested(b)
  {
    if |a| > 0 {
      assert (a + b)[1..] == a[1..] + b;
      WritesAppend(a[1..], b);
    } else {
      assert a + b == b;
    }
  }

  lemma {:induction false} CountZero(t: seq<Event>, k: Kind)
    requires Count(t, k) == 0
    ensures forall j | 0 <= j < |t| :: KindOf(t[j]) != k
  {
    if |t| > 0 {
      CountZero(t[1..], k);
      assert forall j | 1 <= j < |t| :: t[j] == t[1..][j - 1];
    }
  }

  lemma Single(e: Event)
    ensures forall k: Kind :: Count([e], k) == if KindOf(e) == k then 1 else 0
    ensures Writes([e]) == (if e.Write? then [e] else [])
    ensures BytesRequested([e]) == if e.Write? then e.requested else 0
  {
    assert [e][1..] == [];
    forall k: Kind
      ensures Count([e], k) == if KindOf(e) == k then 1 else 0
    {
      SingleKind(e, k);
    }
  }

  /** The count of one kind in a one-event trace. */
  lemma SingleKind(e: Event, k: Kind)
    ensures Count([e], k) == if KindOf(e) == k then 1 else 0
  {
    assert [e][1..] == [];
  }

  /** The counts of an iteration's status line and refill. */
  lemma HeadCounts(pass: nat, block: nat, l: NukeLevel)
    ensures var head := [Progress(pass, block)] + Refill(l);
      && Count(head, KProgress) == 1
      && Count(head, KFill) == (if l == RandomSlow then 1 else 0)
      && (forall k | PassLevel(k) :: Count(head, k) == 0)
      && Writes(head) == [] && BytesRequested(head) == 0
  {
    Single(Progress(pass, block));
    Single(Fill(RandomBytes));
    assert Writes([]) == [] && BytesRequested([]) == 0;
    WritesAppend([Progress(pass, block)], Refill(l));
    forall k: Kind
      ensures Count([Progress(pass, block)] + Refill(l), k) == Count([Progress(pass, block)], k) + Count(Refill(l), k)
    {
      CountAppend([Progress(pass, block)], Refill(l), k);
    }
  }

  /** The counts of an iteration's write and short-write message. */
  lemma WriteCounts(pass: nat, block: nat, w: Event, warn: seq<Event>)
    requires w.Write?
    requires warn == [] || warn == [ShortWrite(pass, block)]
    ensures && (forall k | PassLevel(k) :: Count([w] + warn, k) == 0)
      && Count([w] + warn, KFill) == 0 && Count([w] + warn, KProgress) == 0
      && Writes([w] + warn) == [w] && BytesRequested([w] + warn) == w.requested
  {
    Single(w);
    Single(ShortWrite(pass, block));
    assert Writes([]) == [] && BytesRequested([]) == 0;
    WritesAppend([w], warn);
    forall k: Kind
      ensures Count([w] + warn, k) == Count([w], k) + Count(warn, k)
    {
      CountAppend([w], warn, k);
    }
  }

  /** One unfolding of the block loop, below the last iteration. */
  lemma BlocksStep(pass: nat, block: nat, times: nat, pl: Plan, io: IoOracle)
    requires block < times
    ensures var n := io.written(pass, block);
      Blocks(pass, block, times, pl, io)
      == ([Progress(pass, block)] + Refill(pl.level))
         + ([Write(pass, block, pl.blockSize, n)] + (if n != pl.blockSize then [ShortWrite(pass, block)] else []))
         + Blocks(pass, block + 1, times, pl, io)
  {
  }

  /** What one write-making iteration of the block loop adds to the writes
      of the rest of the loop. */
  lemma IterationWrites(pass: nat, block: nat, times: nat, pl: Plan, io: IoOracle)
    requires block < times
    ensures var t := Blocks(pass, block, times, pl, io);
      var rest := Blocks(pass, block + 1, times, pl, io);
      && Writes(t) == [Write(pass, block, pl.blockSize, io.written(pass, block))] + Writes(rest)
      && BytesRequested(t) == pl.blockSize + BytesRequested(rest)
  {
    var head := [Progress(pass, block)] + Refill(pl.level);
    var n := io.written(pass, block);
    var wr := Write(pass, block, pl.blockSize, n);
    var warn := if n != pl.blockSize then [ShortWrite(pass, block)] else [];
    var rest := Blocks(pass, block + 1, times, pl, io);
    BlocksStep(pass, block, times, pl, io);
    HeadWrites(pass, block, pl.level);
    WriteWrites(pass, block, wr, warn);
    WritesAppend(head + ([wr] + warn), rest);
    WritesAppend(head, [wr] + warn);
  }

  /** An iteration's status line and refill write nothing. */
  lemma HeadWrites(pass: nat, block: nat, l: NukeLevel)
    ensures var head := [Progress(pass, block)] + Refill(l);
      Writes(head) == [] && BytesRequested(head) == 0
  {
    Single(Progress(pass, block));
    Single(Fill(RandomBytes));
    assert Writes([]) == [] && BytesRequested([]) == 0;
    WritesAppend([Progress(pass, block)], Refill(l));
  }

  /** An iteration's write and short-write message list that one write. */
  lemma WriteWrites(pass: nat, block: nat, w: Event, warn: seq<Event>)
    requires w.Write?
    requires warn == [] || warn == [ShortWrite(pass, block)]
    ensures Writes([w] + warn) == [w] && BytesRequested([w] + warn) == w.requested
  {
    Single(w);
    Single(ShortWrite(pass, block));
    assert Writes([]) == [] && BytesRequested([]) == 0;
    WritesAppend([w], warn);
  }

  /** What one write-making iteration of the block loop adds to the counts
      of the rest of the loop. */
  lemma IterationCounts(pass: nat, block: nat, times: nat, pl: Plan, io: IoOracle)
    requires block < times
    ensures var t := Blocks(pass, block, times, pl, io);
      var rest := Blocks(pass, block + 1, times, pl, io);
      && Count(t, KProgress) == 1 + Count(rest, KProgress)
      && Count(t, KFill) == (if pl.level == RandomSlow then 1 else 0) + Count(rest, KFill)
      && (forall k | PassLevel(k) :: Count(t, k) == Count(rest, k))
  {
    var head := [Progress(pass, block)] + Refill(pl.level);
    var n := io.written(pass, block);
    var wr := Write(pass, block, pl.blockSize, n);
    var warn := if n != pl.blockSize then [ShortWrite(pass, block)] else [];
    var rest := Blocks(pass, block + 1, times, pl, io);
    BlocksStep(pass, block, times, pl, io);
    HeadCounts(pass, block, pl.level);
    WriteCounts(pass, block, wr, warn);
    forall k: Kind
      ensures Count(head + ([wr] + warn) + rest, k) == Count(head, k) + Count([wr] + warn, k) + Count(rest, k)
    {
      CountAppend(head + ([wr] + warn), rest, k);
      CountAppend(head, [wr] + warn, k);
    }
  }

  /** The last iteration of the block loop: a status line and the refill. */
  lemma LastIteration(pass: nat, times: nat, pl: Plan, io: IoOracle)
    ensures var t := Blocks(pass, times, times, pl, io);
      && Writes(t) == [] && BytesRequested(t) == 0
      && Count(t, KProgress) == 1
      && Count(t, KFill) == (if pl.level == RandomSlow then 1 else 0)
      && (forall k | PassLevel(k) :: Count(t, k) == 0)
  {
    HeadCounts(pass, times, pl.level);
  }

  /** The block loop of one pass from index `block` on writes blocks
      `block`, `block + 1`, ..., `times - 1` in that order, each of exactly
      the block size, whatever the counts the writes return: a short write
      is neither retried nor resized. */
  lemma {:induction false} BlockWrites(pass: nat, block: nat, times: nat, pl: Plan, io: IoOracle)
    requires block <= times
    ensures var w := Writes(Blocks(pass, block, times, pl, io));
      |w| == times - block && WritesFrom(w, pass, block, pl.blockSize, io)
    decreases times - block
  {
    if block >= times {
      LastIteration(pass, times, pl, io);
    } else {
      IterationWrites(pass, block, times, pl, io);
      BlockWrites(pass, block + 1, times, pl, io);
      WriteListCons(pass, block, pl.blockSize, io, Writes(Blocks(pass, block + 1, times, pl, io)));
    }
  }

  /** `w` is the writes of blocks `block`, `block + 1`, ... of pass `pass`,
      in that order, each asking for `size` bytes. */
  predicate WritesFrom(w: seq<Event>, pass: nat, block: nat, size: nat, io: IoOracle) {
    forall k | 0 <= k < |w| :: w[k] == Write(pass, block + k, size, io.written(pass, block + k))
  }

  /** Putting the write of block `block` in front of the writes of blocks
      `block + 1` on. */
  lemma WriteListCons(pass: nat, block: nat, size: nat, io: IoOracle, wrest: seq<Event>)
    requires WritesFrom(wrest, pass, block + 1, size, io)
    ensures WritesFrom([Write(pass, block, size, io.written(pass, block))] + wrest, pass, block, size, io)
  {
    var w := [Write(pass, block, size, io.written(pass, block))] + wrest;
    forall k | 0 <= k < |w|
      ensures w[k] == Write(pass, block + k, size, io.written(pass, block + k))
    {
      if k > 0 {
        assert w[k] == wrest[k - 1];
        assert wrest[k - 1] == Write(pass, block + 1 + (k - 1), size, io.written(pass, block + 1 + (k - 1)));
      }
    }
  }

  /** So a block loop from `block` asks for `times - block` blocks' worth of
      bytes. */
  lemma {:induction false} BlockBytes(pass: nat, block: nat, times: nat, pl: Plan, io: IoOracle)
    requires block <= times
    ensures BytesRequested(Blocks(pass, block, times, pl, io)) == (times - block) * pl.blockSize
    decreases times - block
  {
    if block >= times {
      BytesBase(pass, times, pl, io);
    } else {
      var r := BytesRequested(Blocks(pass, block + 1, times, pl, io));
      BytesStep(pass, block, times, pl, io, r);
      BlockBytes(pass, block + 1, times, pl, io);
      AddBlock(times - block, times - (block + 1), pl.blockSize, r, BytesRequested(Blocks(pass, block, times, pl, io)));
    }
  }

  lemma BytesBase(pass: nat, times: nat, pl: Plan, io: IoOracle)
    ensures BytesRequested(Blocks(pass, times, times, pl, io)) == 0
  {
    LastIteration(pass, times, pl, io);
  }

  lemma BytesStep(pass: nat, block: nat, times: nat, pl: Plan, io: IoOracle, r: nat)
    requires block < times
    requires BytesRequested(Blocks(pass, block + 1, times, pl, io)) == r
    ensures BytesRequested(Blocks(pass, block, times, pl, io)) == pl.blockSize + r
  {
    IterationWrites(pass, block, times, pl, io);
  }


  /** Every iteration prints a status line, including the last one at
      `block == times`; only the slow random level refills the buffer, once
      per iteration, that last one included; and a block loop holds no
      event of the pass loop. */
  lemma {:induction false} BlockCounts(pass: nat, block: nat, times: nat, pl: Plan, io: IoOracle)
    requires block <= times
    ensures var t := Blocks(pass, block, times, pl, io);
      && Count(t, KProgress) == times - block + 1
      && Count(t, KFill) == (if pl.level == RandomSlow then times - block + 1 else 0)
      && Count(t, KWrite) == times - block
      && forall k | PassLevel(k) :: Count(t, k) == 0
    decreases times - block
  {
    BlockWrites(pass, block, times, pl, io);
    WritesKind(Blocks(pass, block, times, pl, io));
    if block >= times {
      LastIteration(pass, times, pl, io);
    } else {
      IterationCounts(pass, block, times, pl, io);
      BlockCounts(pass, block + 1, times, pl, io);
    }
  }

  /** The number of write events is the length of `Writes`. */
  lemma {:induction false} WritesKind(t: seq<Event>)
    ensures Count(t, KWrite) == |Writes(t)|
  {
    if |t| > 0 {
      WritesKind(t[1..]);
    }
  }

  /** The last iteration, `block == times`, prints its status line, refills
      for the slow random level and leaves the loop without writing. */
  lemma {:induction false} FinalIterationWritesNothing(pass: nat, block: nat, times: nat, pl: Plan, io: IoOracle)
    requires block <= times
    ensures var t := Blocks(pass, block, times, pl, io);
      var tail := [Progress(pass, times)] + Refill(pl.level);
      |tail| <= |t| && t[|t| - |tail|..] == tail
    decreases times - block
  {
    if block < times {
      FinalIterationWritesNothing(pass, block + 1, times, pl, io);
    }
  }

  /** A pass asks for `size / blockSize` whole blocks, that is every byte of
      the target except the `size % blockSize` bytes of the tail, which are
      never written. */
  lemma PassSkipsTail(pass: nat, pl: Plan, io: IoOracle)
    requires pl.blockSize > 0
    ensures var bytes := BytesRequested(Blocks(pass, 0, pl.size / pl.blockSize, pl, io));
      && bytes == (pl.size / pl.blockSize) * pl.blockSize
      && bytes + pl.size % pl.blockSize == pl.size
      && pl.size - bytes < pl.blockSize
  {
    BlockBytes(pass, 0, pl.size / pl.blockSize, pl, io);
  }

  /** Every write comes straight after a refill with fresh random bytes. */
  predicate FreshBeforeWrites(t: seq<Event>) {
    forall j | 0 <= j < |t| :: FreshAt(t, j)
  }

  predicate FreshAt(t: seq<Event>, j: nat)
    requires j < |t|
  {
    t[j].Write? ==> 0 < j && t[j - 1] == Fill(RandomBytes)
  }

  /** After every short-write message comes the status line of the next
      block: the loop moves on, with no retry of the block. */
  predicate MovesOnAfterShort(t: seq<Event>) {
    forall j | 0 <= j < |t| :: MovesOnAt(t, j)
  }

  predicate MovesOnAt(t: seq<Event>, j: nat)
    requires j < |t|
  {
    t[j].ShortWrite? ==> j + 1 < |t| && t[j + 1] == Progress(t[j].pass, t[j].block + 1)
  }

  lemma ConcatKeepsFresh(a: seq<Event>, b: seq<Event>)
    requires FreshBeforeWrites(a) && FreshBeforeWrites(b)
    ensures FreshBeforeWrites(a + b)
  {
    var t := a + b;
    forall j | 0 <= j < |t|
      ensures FreshAt(t, j)
    {
      if j >= |a| {
        assert FreshAt(b, j - |a|);
        assert t[j] == b[j - |a|];
        if t[j].Write? {
          assert t[j - 1] == b[j - |a| - 1];
        }
      } else {
        assert FreshAt(a, j);
        assert t[j] == a[j];
        if t[j].Write? {
          assert t[j - 1] == a[j - 1];
        }
      }
    }
  }

  lemma ConcatKeepsMovesOn(a: seq<Event>, b: seq<Event>)
    requires MovesOnAfterShort(a) && MovesOnAfterShort(b)
    ensures MovesOnAfterShort(a + b)
  {
    var t := a + b;
    forall j | 0 <= j < |t|
      ensures MovesOnAt(t, j)
    {
      if j >= |a| {
        assert MovesOnAt(b, j - |a|);
        assert t[j] == b[j - |a|];
        if t[j].ShortWrite? {
          assert t[j + 1] == b[j - |a| + 1];
        }
      } else {
        assert MovesOnAt(a, j);
        assert t[j] == a[j];
        if t[j].ShortWrite? {
          assert t[j + 1] == a[j + 1];
        }
      }
    }
  }

  lemma BlocksStart(pass: nat, block: nat, times: nat, pl: Plan, io: IoOracle)
    requires block <= times
    ensures |Blocks(pass, block, times, pl, io)| > 0
    ensures Blocks(pass, block, times, pl, io)[0] == Progress(pass, block)
  {
  }

  /** The events of one iteration before its short-write message: status
      line, refill and write. */
  function Front(pass: nat, block: nat, pl: Plan, io: IoOracle): seq<Event> {
    [Progress(pass, block)] + Refill(pl.level) + [Write(pass, block, pl.blockSize, io.written(pass, block))]
  }

  /** The short-write message of one iteration, if any. */
  function Warn(pass: nat, block: nat, pl: Plan, io: IoOracle): seq<Event> {
    if io.written(pass, block) != pl.blockSize then [ShortWrite(pass, block)] else []
  }

  lemma IterationSplit(pass: nat, block: nat, times: nat, pl: Plan, io: IoOracle)
    requires block < times
    ensures Blocks(pass, block, times, pl, io)
      == Front(pass, block, pl, io) + (Warn(pass, block, pl, io) + Blocks(pass, block + 1, times, pl, io))
  {
    BlocksStep(pass, block, times, pl, io);
    var head := [Progress(pass, block)] + Refill(pl.level);
    var wr := [Write(pass, block, pl.blockSize, io.written(pass, block))];
    var warn := Warn(pass, block, pl, io);
    var rest := Blocks(pass, block + 1, times, pl, io);
    assert head + (wr + warn) + rest == (head + wr) + (warn + rest);
  }

  lemma FrontMovesOn(pass: nat, block: nat, pl: Plan, io: IoOracle)
    ensures MovesOnAfterShort(Front(pass, block, pl, io))
  {
    var f := Front(pass, block, pl, io);
    assert forall j | 0 <= j < |f| :: !f[j].ShortWrite?;
  }

  lemma FrontFresh(pass: nat, block: nat, pl: Plan, io: IoOracle)
    requires pl.level == RandomSlow
    ensures FreshBeforeWrites(Front(pass, block, pl, io))
  {
    var f := Front(pass, block, pl, io);
    assert f == [Progress(pass, block), Fill(RandomBytes), Write(pass, block, pl.blockSize, io.written(pass, block))];
    assert forall j | 0 <= j < |f| :: FreshAt(f, j);
  }

  lemma WarnFresh(pass: nat, block: nat, pl: Plan, io: IoOracle)
    ensures FreshBeforeWrites(Warn(pass, block, pl, io))
  {
    var w := Warn(pass, block, pl, io);
    assert forall j | 0 <= j < |w| :: !w[j].Write?;
  }

  /** One iteration keeps every write fresh if the rest of the loop does. */
  lemma FreshStep(pass: nat, block: nat, times: nat, pl: Plan, io: IoOracle)
    requires block < times && pl.level == RandomSlow
    requires FreshBeforeWrites(Blocks(pass, block + 1, times, pl, io))
    ensures FreshBeforeWrites(Blocks(pass, block, times, pl, io))
  {
    IterationSplit(pass, block, times, pl, io);
    FrontFresh(pass, block, pl, io);
    WarnFresh(pass, block, pl, io);
    ConcatKeepsFresh(Warn(pass, block, pl, io), Blocks(pass, block + 1, times, pl, io));
    ConcatKeepsFresh(Front(pass, block, pl, io), Warn(pass, block, pl, io) + Blocks(pass, block + 1, times, pl, io));
  }

  /** At the slow random level every write of a block loop uses a buffer
      refilled just before it. */
  lemma {:induction false} SlowRefillBeforeEachWrite(pass: nat, block: nat, times: nat, pl: Plan, io: IoOracle)
    requires block <= times && pl.level == RandomSlow
    ensures FreshBeforeWrites(Blocks(pass, block, times, pl, io))
    decreases times - block
  {
    if block < times {
      SlowRefillBeforeEachWrite(pass, block + 1, times, pl, io);
      FreshStep(pass, block, times, pl, io);
    } else {
      var t := Blocks(pass, block, times, pl, io);
      assert t == [Progress(pass, block), Fill(RandomBytes)];
      assert forall j | 0 <= j < |t| :: FreshAt(t, j);
    }
  }

  /** A short-write message followed by the rest of the loop moves on. */
  lemma WarnMovesOn(pass: nat, block: nat, times: nat, pl: Plan, io: IoOracle)
    requires block < times
    requires MovesOnAfterShort(Blocks(pass, block + 1, times, pl, io))
    ensures MovesOnAfterShort(Warn(pass, block, pl, io) + Blocks(pass, block + 1, times, pl, io))
  {
    var rest := Blocks(pass, block + 1, times, pl, io);
    if io.written(pass, block) != pl.blockSize {
      BlocksStart(pass, block + 1, times, pl, io);
      ShortThenNext(ShortWrite(pass, block), rest);
    } else {
      assert Warn(pass, block, pl, io) + rest == rest;
    }
  }

  /** One iteration keeps the no-retry property if the rest of the loop
      does. */
  lemma MovesOnStep(pass: nat, block: nat, times: nat, pl: Plan, io: IoOracle)
    requires block < times
    requires MovesOnAfterShort(Blocks(pass, block + 1, times, pl, io))
    ensures MovesOnAfterShort(Blocks(pass, block, times, pl, io))
  {
    IterationSplit(pass, block, times, pl, io);
    FrontMovesOn(pass, block, pl, io);
    WarnMovesOn(pass, block, times, pl, io);
    ConcatKeepsMovesOn(Front(pass, block, pl, io), Warn(pass, block, pl, io) + Blocks(pass, block + 1, times, pl, io));
  }

  /** A write that returns another count than the block size only adds a
      message, and the loop goes on with the next block: no retry. */
  lemma {:induction false} ShortWriteMovesOn(pass: nat, block: nat, times: nat, pl: Plan, io: IoOracle)
    requires block <= times
    ensures MovesOnAfterShort(Blocks(pass, block, times, pl, io))
    decreases times - block
  {
    if block < times {
      ShortWriteMovesOn(pass, block + 1, times, pl, io);
      MovesOnStep(pass, block, times, pl, io);
    } else {
      var t := Blocks(pass, block, times, pl, io);
      assert forall j | 0 <= j < |t| :: !t[j].ShortWrite?;
    }
  }

  lemma ShortThenNext(x: Event, rest: seq<Event>)
    requires x.ShortWrite? && MovesOnAfterShort(rest)
    requires |rest| > 0 && rest[0] == Progress(x.pass, x.block + 1)
    ensures MovesOnAfterShort([x] + rest)
  {
    var t := [x] + rest;
    forall j | 0 <= j < |t|
      ensures MovesOnAt(t, j)
    {
      if j > 0 {
        assert MovesOnAt(rest, j - 1);
        assert t[j] == rest[j - 1];
        if t[j].ShortWrite? {
          assert t[j + 1] == rest[j];
        }
      }
    }
  }

  /** Where the short-write messages of a block loop are. */
  ghost predicate WarnedExactly(t: seq<Event>, pass: nat, block: nat, times: nat, pl: Plan, io: IoOracle) {
    forall k: nat ::
      ShortWrite(pass, k) in t <==> block <= k < times && io.written(pass, k) != pl.blockSize
  }

  lemma WarnedStep(pass: nat, block: nat, times: nat, pl: Plan, io: IoOracle)
    requires block < times
    requires WarnedExactly(Blocks(pass, block + 1, times, pl, io), pass, block + 1, times, pl, io)
    ensures WarnedExactly(Blocks(pass, block, times, pl, io), pass, block, times, pl, io)
  {
    IterationSplit(pass, block, times, pl, io);
    var f := Front(pass, block, pl, io);
    var w := Warn(pass, block, pl, io);
    var rest := Blocks(pass, block + 1, times, pl, io);
    assert forall k: nat :: ShortWrite(pass, k) !in f;
    forall k: nat
      ensures ShortWrite(pass, k) in f + (w + rest) <==> block <= k < times && io.written(pass, k) != pl.blockSize
    {
      assert ShortWrite(pass, k) in f + (w + rest) <==> ShortWrite(pass, k) in w || ShortWrite(pass, k) in rest;
    }
  }

  /** The message appears for exactly the blocks whose write returned
      another count than the block size. */
  lemma {:induction false} ShortWriteExactlyWhen(pass: nat, block: nat, times: nat, pl: Plan, io: IoOracle)
    requires block <= times
    ensures WarnedExactly(Blocks(pass, block, times, pl, io), pass, block, times, pl, io)
    decreases times - block
  {
    if block < times {
      ShortWriteExactlyWhen(pass, block + 1, times, pl, io);
      WarnedStep(pass, block, times, pl, io);
    } else {
      WarnedBase(pass, times, pl, io);
    }
  }

  lemma WarnedBase(pass: nat, times: nat, pl: Plan, io: IoOracle)
    ensures WarnedExactly(Blocks(pass, times, times, pl, io), pass, times, times, pl, io)
  {
    var t := Blocks(pass, times, times, pl, io);
    assert forall k: nat :: ShortWrite(pass, k) !in t;
  }

  /** One unfolding of the pass loop, for a pass that opens and seeks and
      then runs its block loop. */
  lemma PassesStep(pass: nat, pl: Plan, errno: bool, io: IoOracle, b: Build)
    requires pl.blockSize > 0 && pass <= pl.passes
    requires !OpenRejected(errno, io.openOk(pass), b) && io.seekTo(pass) == 0
    requires !(pl.size / pl.blockSize == 0 && b == AsWritten)
    ensures var times := pl.size / pl.blockSize;
      Passes(pass, pl, errno, io, b)
      == [Open(pass)] + Blocks(pass, 0, times, pl, io) + [Close(pass)]
         + Passes(pass + 1, pl, errno || !io.openOk(pass) || WriteFailed(pass, times, io), io, b)
  {
  }

  /** A trace without writes or short-write messages has both ordering
      properties trivially. */
  lemma Quiet(t: seq<Event>)
    requires forall j | 0 <= j < |t| :: !t[j].Write? && !t[j].ShortWrite?
    ensures FreshBeforeWrites(t) && MovesOnAfterShort(t)
  {
    assert forall j | 0 <= j < |t| :: FreshAt(t, j) && MovesOnAt(t, j);
  }

  /** The count of one kind in a completed pass followed by the rest of the
      pass loop. */
  lemma PassKind(pass: nat, times: nat, pl: Plan, io: IoOracle, rest: seq<Event>, k: Kind)
    ensures var blocks := Blocks(pass, 0, times, pl, io);
      Count([Open(pass)] + blocks + [Close(pass)] + rest, k)
      == (if k == KOpen || k == KClose then 1 else 0) + Count(blocks, k) + Count(rest, k)
  {
    var blocks := Blocks(pass, 0, times, pl, io);
    CountAppend([Open(pass)] + blocks + [Close(pass)], rest, k);
    CountAppend([Open(pass)] + blocks, [Close(pass)], k);
    CountAppend([Open(pass)], blocks, k);
    SingleKind(Open(pass), k);
    SingleKind(Close(pass), k);
  }

  lemma PassBytes(pass: nat, times: nat, pl: Plan, io: IoOracle, rest: seq<Event>)
    ensures var blocks := Blocks(pass, 0, times, pl, io);
      BytesRequested([Open(pass)] + blocks + [Close(pass)] + rest) == BytesRequested(blocks) + BytesRequested(rest)
  {
    var blocks := Blocks(pass, 0, times, pl, io);
    WritesAppend([Open(pass)] + blocks + [Close(pass)], rest);
    WritesAppend([Open(pass)] + blocks, [Close(pass)]);
    WritesAppend([Open(pass)], blocks);
    Single(Open(pass));
    Single(Close(pass));
  }


  /** The counting facts of the pass loop, for a trace (or a suffix of
      one) produced with plan `pl`. */
  predicate PassTally(t: seq<Event>, pl: Plan)
    requires pl.blockSize > 0
  {
    var times := pl.size / pl.blockSize;
    && Count(t, KWrite) == Count(t, KClose) * times
    && BytesRequested(t) == Count(t, KClose) * (times * pl.blockSize)
    && Count(t, KFill) == (if pl.level == RandomSlow then Count(t, KClose) * (times + 1) else 0)
    && Count(t, KOpen) == Count(t, KClose) + Count(t, KSkip) + Count(t, KSeekFailed) + Count(t, KFault)
    && Count(t, KSkip) + Count(t, KSeekFailed) + Count(t, KFault) <= 1
    && Count(t, KAnnounce) == 0
  }

  /** A completed pass in front of a suffix keeps the tally. */
  lemma TallyStep(pass: nat, pl: Plan, io: IoOracle, rest: seq<Event>)
    requires pl.blockSize > 0 && PassTally(rest, pl)
    ensures var times := pl.size / pl.blockSize;
      var t := [Open(pass)] + Blocks(pass, 0, times, pl, io) + [Close(pass)] + rest;
      PassTally(t, pl) && Count(t, KClose) == Count(rest, KClose) + 1
  {
    var times := pl.size / pl.blockSize;
    var bs := pl.blockSize;
    var blocks := Blocks(pass, 0, times, pl, io);
    var t := [Open(pass)] + blocks + [Close(pass)] + rest;
    BlockCounts(pass, 0, times, pl, io);
    BlockBytes(pass, 0, times, pl, io);
    PassBytes(pass, times, pl, io, rest);
    PassKind(pass, times, pl, io, rest, KClose);
    PassKind(pass, times, pl, io, rest, KWrite);
    PassKind(pass, times, pl, io, rest, KFill);
    PassKind(pass, times, pl, io, rest, KOpen);
    PassKind(pass, times, pl, io, rest, KSkip);
    PassKind(pass, times, pl, io, rest, KSeekFailed);
    PassKind(pass, times, pl, io, rest, KFault);
    PassKind(pass, times, pl, io, rest, KAnnounce);
    ScaleStep(Count(rest, KClose), times, bs, pl.level == RandomSlow,
      Count(rest, KWrite), BytesRequested(rest), Count(rest, KFill),
      Count(t, KWrite), BytesRequested(t), Count(t, KFill));
  }

  /** The arithmetic of one more completed pass: each pass adds `times`
      writes of `bs` bytes, and at the slow level `times + 1` refills. */
  lemma ScaleStep(c: nat, times: nat, bs: nat, slow: bool, w: nat, bytes: nat, f: nat, w': nat, bytes': nat, f': nat)
    requires w == c * times && bytes == c * (times * bs) && f == (if slow then c * (times + 1) else 0)
    requires w' == times + w && bytes' == times * bs + bytes && f' == (if slow then times + 1 else 0) + f
    ensures w' == (c + 1) * times && bytes' == (c + 1) * (times * bs)
    ensures f' == (if slow then (c + 1) * (times + 1) else 0)
  {
    MulSucc(c + 1, c, times);
    MulSucc(c + 1, c, times * bs);
    MulSucc(c + 1, c, times + 1);
  }


  lemma AddBlock(m: nat, c: nat, bs: nat, r: nat, total: nat)
    requires m == c + 1 && r == c * bs && total == bs + r
    ensures total == m * bs
  {
    MulSucc(m, c, bs);
  }

  lemma MulSucc(m: nat, c: nat, x: nat)
    requires m == c + 1
    ensures m * x == x + c * x
  {
  }

  /** The pass loop in numbers: every completed pass (one that reaches
      `close`) writes `size / blockSize` blocks and only completed passes
      write; the slow random level refills `size / blockSize + 1` times per
      completed pass; every `open` is matched by a `close` except for the
      one pass that left the loop early, and there is at most one such
      pass; and no more passes complete than were asked for. */
  lemma {:induction false} PassesCounts(pass: nat, pl: Plan, errno: bool, io: IoOracle, b: Build)
    requires pl.blockSize > 0
    ensures var t := Passes(pass, pl, errno, io, b);
      && PassTally(t, pl)
      && Count(t, KClose) <= (if pass <= pl.passes then pl.passes - pass + 1 else 0)
    decreases if pass <= pl.passes then pl.passes - pass + 1 else 0
  {
    var t := Passes(pass, pl, errno, io, b);
    var times := pl.size / pl.blockSize;
    if pass > pl.passes {
      assert t == [Done];
      Single(Done);
    } else if OpenRejected(errno, io.openOk(pass), b) {
      assert t == [Open(pass)] + [SkipDevice(pass)] + [Done];
      EndTally(pass, SkipDevice(pass), [Done], pl);
    } else if io.seekTo(pass) != 0 {
      assert t == [Open(pass)] + [SeekFailed(pass)] + [Done];
      EndTally(pass, SeekFailed(pass), [Done], pl);
    } else if times == 0 && b == AsWritten {
      assert t == [Open(pass)] + [DivideFault(pass)] + [];
      EndTally(pass, DivideFault(pass), [], pl);
    } else {
      var errno' := errno || !io.openOk(pass) || WriteFailed(pass, times, io);
      PassesStep(pass, pl, errno, io, b);
      PassesCounts(pass + 1, pl, errno', io, b);
      TallyStep(pass, pl, io, Passes(pass + 1, pl, errno', io, b));
    }
  }

  /** The short traces that end the pass loop early keep the tally. */
  lemma EndTally(pass: nat, y: Event, z: seq<Event>, pl: Plan)
    requires pl.blockSize > 0
    requires y == SkipDevice(pass) || y == SeekFailed(pass) || y == DivideFault(pass)
    requires z == [] || z == [Done]
    ensures PassTally([Open(pass)] + [y] + z, pl) && Count([Open(pass)] + [y] + z, KClose) == 0
  {
    var x := Open(pass);
    EndBytes(x, y, z);
    EndKind(x, y, z, KClose);
    EndKind(x, y, z, KWrite);
    EndKind(x, y, z, KFill);
    EndKind(x, y, z, KOpen);
    EndKind(x, y, z, KSkip);
    EndKind(x, y, z, KSeekFailed);
    EndKind(x, y, z, KFault);
    EndKind(x, y, z, KAnnounce);
  }

  /** The count of one kind in the last events of the pass loop. */
  lemma EndKind(x: Event, y: Event, z: seq<Event>, k: Kind)
    requires z == [] || z == [Done]
    ensures Count([x] + [y] + z, k)
      == (if KindOf(x) == k then 1 else 0) + (if KindOf(y) == k then 1 else 0) + (if z != [] && k == KDone then 1 else 0)
  {
    SingleKind(x, k);
    SingleKind(y, k);
    SingleKind(Done, k);
    CountAppend([x] + [y], z, k);
    CountAppend([x], [y], k);
  }

  lemma EndBytes(x: Event, y: Event, z: seq<Event>)
    requires z == [] || z == [Done]
    requires !x.Write? && !y.Write?
    ensures BytesRequested([x] + [y] + z) == 0
  {
    Single(x);
    Single(y);
    Single(Done);
    WritesAppend([x] + [y], z);
    WritesAppend([x], [y]);
  }

  /** The events that leave the pass loop early because of `open` or
      `lseek`. */
  predicate IsBreak(e: Event) {
    e.SkipDevice? || e.SeekFailed?
  }

  /** Every early exit in `t` is followed by nothing but the return. */
  predicate BreakIsFinal(t: seq<Event>) {
    forall j | 0 <= j < |t| && IsBreak(t[j]) :: j == |t| - 2 && t[|t| - 1] == Done
  }

  predicate NoBreak(t: seq<Event>) {
    forall j | 0 <= j < |t| :: !IsBreak(t[j])
  }

  /** A completed pass holds no early exit. */
  lemma CompletedPassNoBreak(pass: nat, times: nat, pl: Plan, io: IoOracle)
    ensures NoBreak([Open(pass)] + Blocks(pass, 0, times, pl, io) + [Close(pass)])
  {
    var blocks := Blocks(pass, 0, times, pl, io);
    BlockCounts(pass, 0, times, pl, io);
    assert PassLevel(KSkip) && PassLevel(KSeekFailed);
    CountZero(blocks, KSkip);
    CountZero(blocks, KSeekFailed);
    var front := [Open(pass)] + blocks + [Close(pass)];
    forall j | 0 <= j < |front|
      ensures !IsBreak(front[j])
    {
      if 0 < j < |front| - 1 {
        assert front[j] == blocks[j - 1];
      }
    }
  }

  lemma BreakShift(front: seq<Event>, rest: seq<Event>)
    requires NoBreak(front) && BreakIsFinal(rest)
    ensures BreakIsFinal(front + rest)
  {
    var t := front + rest;
    forall j | 0 <= j < |t| && IsBreak(t[j])
      ensures j == |t| - 2 && t[|t| - 1] == Done
    {
      assert j >= |front|;
      assert t[j] == rest[j - |front|];
    }
  }

  /** Leaving the pass loop because of `open` or `lseek` is final: the
      message is followed only by the return, so no later pass runs and,
      since the `close` comes after the block loop, the descriptor of that
      pass is never closed. */
  lemma {:induction false} PassesBreakIsFinal(pass: nat, pl: Plan, errno: bool, io: IoOracle, b: Build)
    requires pl.blockSize > 0
    ensures BreakIsFinal(Passes(pass, pl, errno, io, b))
    decreases if pass <= pl.passes then pl.passes - pass + 1 else 0
  {
    var times := pl.size / pl.blockSize;
    if pass <= pl.passes && !OpenRejected(errno, io.openOk(pass), b) && io.seekTo(pass) == 0 && !(times == 0 && b == AsWritten) {
      var errno' := errno || !io.openOk(pass) || WriteFailed(pass, times, io);
      PassesStep(pass, pl, errno, io, b);
      CompletedPassNoBreak(pass, times, pl, io);
      PassesBreakIsFinal(pass + 1, pl, errno', io, b);
      BreakShift([Open(pass)] + Blocks(pass, 0, times, pl, io) + [Close(pass)], Passes(pass + 1, pl, errno', io, b));
    }
  }

  /** The two ordering properties of the block loop hold of the whole pass
      loop: at the slow random level every write follows a refill, and
      every short-write message is followed by the next block. */
  lemma {:induction false} PassesOrdering(pass: nat, pl: Plan, errno: bool, io: IoOracle, b: Build)
    requires pl.blockSize > 0
    ensures var t := Passes(pass, pl, errno, io, b);
      && MovesOnAfterShort(t)
      && (pl.level == RandomSlow ==> FreshBeforeWrites(t))
    decreases if pass <= pl.passes then pl.passes - pass + 1 else 0
  {
    var t := Passes(pass, pl, errno, io, b);
    var times := pl.size / pl.blockSize;
    if pass <= pl.passes && !OpenRejected(errno, io.openOk(pass), b) && io.seekTo(pass) == 0 && !(times == 0 && b == AsWritten) {
      var errno' := errno || !io.openOk(pass) || WriteFailed(pass, times, io);
      var rest := Passes(pass + 1, pl, errno', io, b);
      var front := [Open(pass)] + Blocks(pass, 0, times, pl, io) + [Close(pass)];
      PassesStep(pass, pl, errno, io, b);
      PassesOrdering(pass + 1, pl, errno', io, b);
      PassOrdering(pass, times, pl, io);
      ConcatKeepsMovesOn(front, rest);
      if pl.level == RandomSlow {
        ConcatKeepsFresh(front, rest);
      }
    } else {
      Quiet(t);
    }
  }

  /** Both orders hold within one completed pass. */
  lemma PassOrdering(pass: nat, times: nat, pl: Plan, io: IoOracle)
    ensures var front := [Open(pass)] + Blocks(pass, 0, times, pl, io) + [Close(pass)];
      && MovesOnAfterShort(front)
      && (pl.level == RandomSlow ==> FreshBeforeWrites(front))
  {
    var blocks := Blocks(pass, 0, times, pl, io);
    Quiet([Open(pass)]);
    Quiet([Close(pass)]);
    ShortWriteMovesOn(pass, 0, times, pl, io);
    ConcatKeepsMovesOn([Open(pass)], blocks);
    ConcatKeepsMovesOn([Open(pass)] + blocks, [Close(pass)]);
    if pl.level == RandomSlow {
      SlowRefillBeforeEachWrite(pass, 0, times, pl, io);
      ConcatKeepsFresh([Open(pass)], blocks);
      ConcatKeepsFresh([Open(pass)] + blocks, [Close(pass)]);
    }
  }
}
