/** `buildMediaList` (Linux build) as a state machine over an abstract probe
    oracle. For every table slot it probes the letters a, b, c, ... until a
    probe comes back unusable, then moves to the next slot. Each usable
    device is stored at index `total - 1` of the devices array after
    `total` has been bumped by the IDE/SCSI test. */
module Scan {
  import opened Common
  import opened CText
  import opened Media

  /** One probe: the table slot `mt` and the letter index `i`. */
  datatype Probe = Probe(entry: nat, letter: nat)

  /** The loop variables (`mt`, `i`, `device_stats.total`), the devices array
      filled so far, and a log of the probes made so far. */
  datatype ScanState = ScanState(mt: nat, i: nat, total: nat, probes: seq<Probe>, devices: seq<Media>)

  /** What the loop leaves behind when it stops. */
  datatype ScanLog = ScanLog(probes: seq<Probe>, devices: seq<Media>, total: nat)

  const Start := ScanState(0, 0, 0, [], [])

  /** The IDE test: `strstr(name, "ad") == 0 || strstr(name, "hd") == 0`,
      which holds when a substring is NOT found. */
  predicate CountsAsIde(name: string) {
    !Contains(name, "ad") || !Contains(name, "hd")
  }

  /** The SCSI test, of the same shape. */
  predicate CountsAsScsi(name: string) {
    !Contains(name, "da") || !Contains(name, "sd")
  }

  predicate ValidProbes(ps: seq<Probe>) {
    forall j | 0 <= j < |ps| :: ps[j].entry < |MediaList|
  }

  predicate Valid(s: ScanState) {
    s.mt < |MediaList| && s.total == |s.devices| && ValidProbes(s.probes)
  }

  function InfoOf(p: Probe, probe: ProbeOracle, b: Build): Media
    requires p.entry < |MediaList|
  {
    GetMediaInfo(ProbeName(p.entry, p.letter), probe, b)
  }

  /** The test that ends the loop after an unusable probe. As written the
      source asks whether the CURRENT slot is the null one, so it first
      probes the null slot; the corrected test asks whether the NEXT slot
      is null. */
  predicate LastSlot(mt: nat, b: Build)
    requires mt < |MediaList|
  {
    match b
    case AsWritten => MediaList[mt].None?
    case Corrected => mt + 1 == |MediaList| || MediaList[mt + 1].None?
  }

  /** The store `devices[slot] = device`. */
  function Store(devices: seq<Media>, slot: nat, dev: Media): (r: seq<Media>)
    requires slot <= |devices|
    ensures |r| == if slot == |devices| then |devices| + 1 else |devices|
    ensures r[slot] == dev
    ensures forall k | 0 <= k < |devices| && k != slot :: r[k] == devices[k]
  {
    if slot < |devices| then devices[slot := dev] else devices + [dev]
  }

  /** No probed name contains "ad", because no table entry nor "/dev/"
      contains the letter 'a' and the probe letter comes last; so every
      usable device passes the IDE test. */
  lemma ProbeNameCountsAsIde(k: nat, i: nat)
    requires k < |MediaList|
    ensures CountsAsIde(ProbeName(k, i))
  {
    var name := ProbeName(k, i);
    var front := DevDir + EntryText(k);
    assert 'a' !in front by {
      assert k == 0 || k == 1 || k == 2 || k == 3 || k == 4;
    }
    assert name == front + [Letter(i)];
    forall j | 0 <= j < |name| - 1
      ensures name[j] != 'a'
    {
      assert name[j] == front[j];
    }
    NoPairStartingWith(name, 'a', "ad");
  }

  /** The probe made after `p`: the next letter of the same slot when `p`
      found a usable device, otherwise letter a of the next slot, which is
      only reached when `p` was not in the last slot. */
  predicate Next(p: Probe, q: Probe, probe: ProbeOracle, b: Build)
    requires p.entry < |MediaList|
  {
    if InfoOf(p, probe, b).usable then q == Probe(p.entry, p.letter + 1)
    else !LastSlot(p.entry, b) && q == Probe(p.entry + 1, 0)
  }

  /** What one trip round the loop does. */
  datatype Outcome = Continue(next: ScanState) | Stop(log: ScanLog)

  /** One iteration: probe slot `mt` at letter `i`. A usable device bumps
      `total` and is stored at `total - 1`, which, because every probed name
      passes the IDE test, appends it; the letter then advances. An unusable
      probe either ends the loop or moves to letter a of the next slot. */
  function Step(s: ScanState, probe: ProbeOracle, b: Build): (o: Outcome)
    requires Valid(s)
    ensures var here := Probe(s.mt, s.i);
      var dev := InfoOf(here, probe, b);
      && (o.Stop? <==> !dev.usable && LastSlot(s.mt, b))
      && (o.Stop? ==> o.log == ScanLog(s.probes + [here], s.devices, s.total))
      && (o.Continue? ==>
            && Valid(o.next)
            && o.next.probes == s.probes + [here]
            && o.next.devices == s.devices + (if dev.usable then [dev] else [])
            && Next(here, Probe(o.next.mt, o.next.i), probe, b))
  {
    var name := ProbeName(s.mt, s.i);
    var dev := GetMediaInfo(name, probe, b);
    var probes := s.probes + [Probe(s.mt, s.i)];
    if dev.usable then
      ProbeNameCountsAsIde(s.mt, s.i);
      var total := if CountsAsIde(name) || CountsAsScsi(name) then s.total + 1 else s.total;
      var slot := if total > 0 then total - 1 else 0;
      Continue(ScanState(s.mt, s.i + 1, total, probes, Store(s.devices, slot, dev)))
    else if LastSlot(s.mt, b) then Stop(ScanLog(probes, s.devices, s.total))
    else Continue(ScanState(s.mt + 1, 0, s.total, probes, s.devices))
  }

  /** The loop from state `s`, with at most `fuel` more probes; None when
      the fuel runs out first (the source loops as long as probes succeed). */
  function ScanFrom(s: ScanState, probe: ProbeOracle, b: Build, fuel: nat): (r: Option<ScanLog>)
    requires Valid(s)
    ensures r.Some? ==> |s.probes| < |r.value.probes| <= |s.probes| + fuel
    decreases fuel
  {
    if fuel == 0 then None
    else
      match Step(s, probe, b)
      case Stop(log) => Some(log)
      case Continue(next) => ScanFrom(next, probe, b, fuel - 1)
  }

  /** `buildMediaList` from the first slot and letter, with no devices. */
  function BuildMediaList(probe: ProbeOracle, b: Build, fuel: nat): (r: Option<ScanLog>)
    ensures r.Some? ==> 0 < |r.value.probes| <= fuel && Summarises(Start, r.value, probe, b)
  {
    ScanListsUsableProbes(Start, probe, b, fuel);
    ScanFrom(Start, probe, b, fuel)
  }

  /** The devices among the probes that came back usable, in probe order:
      the reference for what the devices array should hold. */
  function UsableInfos(ps: seq<Probe>, probe: ProbeOracle, b: Build): seq<Media>
    requires ValidProbes(ps)
  {
    if |ps| == 0 then []
    else
      var m := InfoOf(ps[|ps| - 1], probe, b);
      UsableInfos(ps[..|ps| - 1], probe, b) + (if m.usable then [m] else [])
  }

  /** What the loop has gathered by the time it stops, from state `s` on:
      the probes extend those of `s`, and the devices are exactly the usable
      ones among them, counted by `total`. */
  predicate Summarises(s: ScanState, log: ScanLog, probe: ProbeOracle, b: Build) {
    && ValidProbes(log.probes)
    && s.probes <= log.probes
    && log.devices == UsableInfos(log.probes, probe, b)
    && log.total == |log.devices|
  }

  /** Because every probed name passes the IDE test, the store at
      `total - 1` always appends: when the loop stops, the devices array
      holds exactly the usable probes in the order they were made, and
      `total` is their number. */
  lemma {:induction false} ScanListsUsableProbes(s: ScanState, probe: ProbeOracle, b: Build, fuel: nat)
    requires Valid(s) && s.devices == UsableInfos(s.probes, probe, b)
    ensures ScanFrom(s, probe, b, fuel).Some? ==> Summarises(s, ScanFrom(s, probe, b, fuel).value, probe, b)
    decreases fuel
  {
    if fuel > 0 {
      var o := Step(s, probe, b);
      StepKeepsUsable(s, probe, b);
      if o.Stop? {
        ScanUnfold(s, probe, b, fuel);
      } else {
        ScanListsUsableProbes(o.next, probe, b, fuel - 1);
        ContinueSummarises(s, probe, b, fuel);
      }
    }
  }

  /** A step that goes on passes the summary of the rest of the loop back
      to the state before it. */
  lemma ContinueSummarises(s: ScanState, probe: ProbeOracle, b: Build, fuel: nat)
    requires Valid(s) && fuel > 0 && Step(s, probe, b).Continue?
    requires s.probes <= Step(s, probe, b).next.probes
    requires var next := Step(s, probe, b).next;
      ScanFrom(next, probe, b, fuel - 1).Some? ==> Summarises(next, ScanFrom(next, probe, b, fuel - 1).value, probe, b)
    ensures ScanFrom(s, probe, b, fuel).Some? ==> Summarises(s, ScanFrom(s, probe, b, fuel).value, probe, b)
  {
    var next := Step(s, probe, b).next;
    ScanUnfold(s, probe, b, fuel);
    if ScanFrom(next, probe, b, fuel - 1).Some? {
      SummarisesWiden(s, next, ScanFrom(next, probe, b, fuel - 1).value, probe, b);
    }
  }

  lemma SummarisesWiden(s: ScanState, next: ScanState, log: ScanLog, probe: ProbeOracle, b: Build)
    requires s.probes <= next.probes && Summarises(next, log, probe, b)
    ensures Summarises(s, log, probe, b)
  {
  }

  /** One step of the probe loop. */
  lemma ScanUnfold(s: ScanState, probe: ProbeOracle, b: Build, fuel: nat)
    requires Valid(s) && fuel > 0
    ensures var o := Step(s, probe, b);
      && (o.Stop? ==> ScanFrom(s, probe, b, fuel) == Some(o.log))
      && (o.Continue? ==> ScanFrom(s, probe, b, fuel) == ScanFrom(o.next, probe, b, fuel - 1))
  {
  }

  /** One iteration keeps the devices array equal to the usable probes. */
  lemma StepKeepsUsable(s: ScanState, probe: ProbeOracle, b: Build)
    requires Valid(s) && s.devices == UsableInfos(s.probes, probe, b)
    ensures var o := Step(s, probe, b);
      && (o.Stop? ==> Summarises(s, o.log, probe, b))
      && (o.Continue? ==> Valid(o.next) && s.probes <= o.next.probes && o.next.devices == UsableInfos(o.next.probes, probe, b))
  {
    var here := Probe(s.mt, s.i);
    var dev := InfoOf(here, probe, b);
    var probes := s.probes + [here];
    assert probes[..|probes| - 1] == s.probes;
    assert UsableInfos(probes, probe, b) == s.devices + (if dev.usable then [dev] else []);
  }

  /** The order the whole loop probes in: it starts at slot 0, letter a,
      every probe follows the one before, and it ends on an unusable probe
      in the last slot. */
  predicate ProbeOrder(ps: seq<Probe>, probe: ProbeOracle, b: Build) {
    && ValidProbes(ps)
    && |ps| > 0
    && ps[0] == Probe(0, 0)
    && (forall j | 0 <= j < |ps| - 1 :: Next(ps[j], ps[j + 1], probe, b))
    && !InfoOf(ps[|ps| - 1], probe, b).usable
    && LastSlot(ps[|ps| - 1].entry, b)
  }

  /** A state whose probe log so far is in order and whose next probe is
      `(mt, i)`. */
  predicate Ordered(s: ScanState, probe: ProbeOracle, b: Build) {
    && ValidProbes(s.probes)
    && (forall j | 0 <= j < |s.probes| - 1 :: Next(s.probes[j], s.probes[j + 1], probe, b))
    && (|s.probes| == 0 ==> s.mt == 0 && s.i == 0)
    && (|s.probes| > 0 ==> s.probes[0] == Probe(0, 0) && Next(s.probes[|s.probes| - 1], Probe(s.mt, s.i), probe, b))
  }

  lemma {:induction false} ScanProbesInOrder(s: ScanState, probe: ProbeOracle, b: Build, fuel: nat)
    requires Valid(s) && Ordered(s, probe, b)
    ensures ScanFrom(s, probe, b, fuel).Some? ==> ProbeOrder(ScanFrom(s, probe, b, fuel).value.probes, probe, b)
    decreases fuel
  {
    if fuel > 0 {
      StepKeepsOrder(s, probe, b);
      match Step(s, probe, b)
      case Stop(log) =>
      case Continue(next) =>
        ScanProbesInOrder(next, probe, b, fuel - 1);
    }
  }

  /** One iteration keeps the probe log in order, and a stop leaves it
      complete. */
  lemma StepKeepsOrder(s: ScanState, probe: ProbeOracle, b: Build)
    requires Valid(s) && Ordered(s, probe, b)
    ensures var o := Step(s, probe, b);
      && (o.Stop? ==> ProbeOrder(o.log.probes, probe, b))
      && (o.Continue? ==> Ordered(o.next, probe, b))
  {
    var here := Probe(s.mt, s.i);
    var probes := s.probes + [here];
    forall j | 0 <= j < |probes| - 1
      ensures Next(probes[j], probes[j + 1], probe, b)
    {
      if j < |s.probes| - 1 {
        assert probes[j] == s.probes[j] && probes[j + 1] == s.probes[j + 1];
      } else {
        assert probes[j] == s.probes[|s.probes| - 1] && probes[j + 1] == here;
      }
    }
  }

  /** Whole-run form: a run that stops lists exactly the usable probes, in
      the probe order above. */
  lemma BuildMediaListSound(probe: ProbeOracle, b: Build, fuel: nat)
    ensures BuildMediaList(probe, b, fuel).Some? ==>
      var log := BuildMediaList(probe, b, fuel).value;
      && ProbeOrder(log.probes, probe, b)
      && log.devices == UsableInfos(log.probes, probe, b)
      && log.total == |log.devices|
  {
    ScanListsUsableProbes(Start, probe, b, fuel);
    ScanProbesInOrder(Start, probe, b, fuel);
  }

  /** As written, the loop only stops on an unusable probe of the null slot:
      every run that ends makes a probe whose name is printed from a null
      pointer ("/dev/(null)a" with the GNU C library). */
  lemma AsWrittenProbesNullSlot(probe: ProbeOracle, fuel: nat)
    ensures BuildMediaList(probe, AsWritten, fuel).Some? ==>
      var ps := BuildMediaList(probe, AsWritten, fuel).value.probes;
      && |ps| > 0
      && ps[|ps| - 1].entry == |MediaList| - 1
      && MediaList[ps[|ps| - 1].entry].None?
      && ProbeName(ps[|ps| - 1].entry, ps[|ps| - 1].letter)[..|DevDir| + 6] == "/dev/(null)"
  {
    BuildMediaListSound(probe, AsWritten, fuel);
    if BuildMediaList(probe, AsWritten, fuel).Some? {
      var ps := BuildMediaList(probe, AsWritten, fuel).value.probes;
      var last := ps[|ps| - 1];
      assert LastSlot(last.entry, AsWritten);
      assert last.entry == 4;
    }
  }

  /** Every probe of an ordered log in the corrected build names a real
      table entry. */
  lemma {:induction false} CorrectedEntriesNamed(ps: seq<Probe>, probe: ProbeOracle, j: nat)
    requires ProbeOrder(ps, probe, Corrected) && j < |ps|
    ensures MediaList[ps[j].entry].Some?
  {
    if j > 0 {
      CorrectedEntriesNamed(ps, probe, j - 1);
      assert Next(ps[j - 1], ps[j], probe, Corrected);
    }
  }

  /** Corrected, the loop never probes the null slot: every probed name is
      built from one of "hd", "sd", "sg", "st", and the run ends on the
      first unusable "st" probe. */
  lemma CorrectedSkipsNullSlot(probe: ProbeOracle, fuel: nat)
    ensures BuildMediaList(probe, Corrected, fuel).Some? ==>
      var ps := BuildMediaList(probe, Corrected, fuel).value.probes;
      && ProbeOrder(ps, probe, Corrected)
      && (forall j | 0 <= j < |ps| :: MediaList[ps[j].entry].Some?)
      && ps[|ps| - 1].entry == |MediaList| - 2
  {
    BuildMediaListSound(probe, Corrected, fuel);
    if BuildMediaList(probe, Corrected, fuel).Some? {
      var ps := BuildMediaList(probe, Corrected, fuel).value.probes;
      forall j | 0 <= j < |ps|
        ensures MediaList[ps[j].entry].Some?
      {
        CorrectedEntriesNamed(ps, probe, j);
      }
      CorrectedEntriesNamed(ps, probe, |ps| - 1);
    }
  }
}
