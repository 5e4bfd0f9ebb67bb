/** The throughput sampler: from byte counters to rates, tick by tick. */
module Netstats {
  import opened Clock
  import opened Results
  import opened Text
  import opened LastWins
  import opened ProcNetDev
  import Seqs

  datatype Sample = Sample(rxBytes: uint64, txBytes: uint64, at: Time, present: bool)

  datatype InterfaceStats = InterfaceStats(
    name: string, up: bool, rxMbps: real, txMbps: real, rxTotalBytes: uint64, txTotalBytes: uint64)

  datatype Snapshot = Snapshot(at: Time, interfaces: map<string, InterfaceStats>)

  function ElapsedSeconds(prevAt: Time, curAt: Time): real {
    Sub(curAt, prevAt) as real / SECOND as real
  }

  function ComputeMbps(prevBytes: uint64, curBytes: uint64, prevAt: Time, curAt: Time): real {
    var elapsed := ElapsedSeconds(prevAt, curAt);
    if elapsed <= 0.0 then 0.0
    else if curBytes < prevBytes then 0.0
    else (curBytes - prevBytes) as real * 8.0 / 1_000_000.0 / elapsed
  }

  // ----- The batch view: what every tick of a run should show, from what was observed

  /** What one tick reads: the counters, None if the source failed, and the states that could be read. */
  datatype Observation = Observation(at: Time, counters: Option<map<string, Counters>>, operstate: map<string, string>)

  function SampleOf(o: Observation, name: string): Sample {
    if o.counters.Some? && name in o.counters.value then
      Sample(o.counters.value[name].rxBytes, o.counters.value[name].txBytes, o.at, true)
    else
      Sample(0, 0, o.at, false)
  }

  datatype Direction = Rx | Tx

  function BytesOf(s: Sample, d: Direction): uint64 {
    if d == Rx then s.rxBytes else s.txBytes
  }

  /** Whether two consecutive samples of an interface give a rate. */
  predicate Counted(prev: Sample, cur: Sample, d: Direction) {
    prev.present && cur.present && prev.at < cur.at && BytesOf(prev, d) <= BytesOf(cur, d)
  }

  /** The rate shown at tick `k`: it depends on the samples `k - 1` and `k` alone. */
  function RateAt(history: seq<Observation>, k: nat, name: string, d: Direction): real
    requires k < |history|
  {
    if k == 0 then 0.0
    else
      var prev, cur := SampleOf(history[k - 1], name), SampleOf(history[k], name);
      if cur.present && prev.present then ComputeMbps(BytesOf(prev, d), BytesOf(cur, d), prev.at, cur.at) else 0.0
  }

  function StatsAt(history: seq<Observation>, k: nat, name: string): InterfaceStats
    requires k < |history|
  {
    var cur := SampleOf(history[k], name);
    var up := name in history[k].operstate && history[k].operstate[name] == "up";
    InterfaceStats(name, up, RateAt(history, k, name, Rx), RateAt(history, k, name, Tx), cur.rxBytes, cur.txBytes)
  }

  /** The snapshot published after a history: its keys are the configured interfaces, from the first one on. */
  function Batch(ifaces: seq<string>, start: Time, history: seq<Observation>): Snapshot {
    if history == [] then Snapshot(start, map name | name in ifaces :: InterfaceStats(name, false, 0.0, 0.0, 0, 0))
    else
      var k := |history| - 1;
      Snapshot(history[k].at, map name | name in ifaces :: StatsAt(history, k, name))
  }

  /** The snapshots published over a history, the initial one first. */
  ghost predicate Publishes(ifaces: seq<string>, start: Time, history: seq<Observation>, published: seq<Snapshot>) {
    && |published| == |history| + 1
    && forall k :: 0 <= k < |published| ==> published[k] == Batch(ifaces, start, history[..k])
  }

  lemma PublishesMore(ifaces: seq<string>, start: Time, history: seq<Observation>, published: seq<Snapshot>, o: Observation)
    requires Publishes(ifaces, start, history, published)
    ensures Publishes(ifaces, start, history + [o], published + [Batch(ifaces, start, history + [o])])
  {
    var more := history + [o];
    assert forall k :: 0 <= k <= |history| ==> more[..k] == history[..k];
    assert more[..|more|] == more;
  }

  // ----- The sampler

  /** The non-empty names, in their order. */
  function Kept(s: seq<string>): seq<string> {
    if s == [] then []
    else Kept(s[..|s| - 1]) + (if s[|s| - 1] == "" then [] else [s[|s| - 1]])
  }

  /** Filtering the parts filters the whole: no name overtakes another. */
  lemma {:induction false} KeptConcat(a: seq<string>, b: seq<string>)
    ensures Kept(a + b) == Kept(a) + Kept(b)
  {
    if b == [] {
      assert a + b == a;
    } else {
      var n := |b| - 1;
      KeptConcat(a, b[..n]);
      Seqs.CutConcat(a, b, n);
    }
  }

  lemma KeptOne(name: string)
    requires name != ""
    ensures Kept([name]) == [name]
  {
    assert [name][..0] == [];
  }

  /** Two configured names stay in their order, whatever stands around them. */
  lemma OrderIsKept(a: seq<string>, first: string, b: seq<string>, second: string, c: seq<string>)
    requires first != "" && second != ""
    ensures Kept(a + [first] + b + [second] + c) == Kept(a) + [first] + Kept(b) + [second] + Kept(c)
  {
    KeptOne(first);
    KeptOne(second);
    KeptConcat(a, [first]);
    KeptConcat(a + [first], b);
    KeptConcat(a + [first] + b, [second]);
    KeptConcat(a + [first] + b + [second], c);
  }

  lemma {:induction false} KeptCounts(s: seq<string>)
    ensures "" !in Kept(s) && forall v :: v != "" ==> multiset(Kept(s))[v] == multiset(s)[v]
  {
    if s != [] {
      var front := s[..|s| - 1];
      KeptCounts(front);
      assert s == front + [s[|s| - 1]];
    }
  }

  lemma KeptNext(s: seq<string>, i: nat)
    requires i < |s|
    ensures Kept(s[..i + 1]) == if s[i] == "" then Kept(s[..i]) else Kept(s[..i]) + [s[i]]
  {
    assert s[..i + 1][..i] == s[..i];
  }

  method FilterEmpty(s: seq<string>) returns (out: seq<string>)
    ensures out == Kept(s)
    ensures "" !in out && forall v :: v != "" ==> multiset(out)[v] == multiset(s)[v]
  {
    out := [];
    for i := 0 to |s|
      invariant out == Kept(s[..i])
    {
      KeptNext(s, i);
      if s[i] != "" {
        out := out + [s[i]];
      }
    }
    assert s[..|s|] == s;
    KeptCounts(s);
  }

  method InitialInterfaces(ifaces: seq<string>) returns (out: map<string, InterfaceStats>)
    ensures out == map name | name in ifaces :: InterfaceStats(name, false, 0.0, 0.0, 0, 0)
  {
    out := map[];
    for i := 0 to |ifaces|
      invariant out.Keys == set name | name in ifaces[..i]
      invariant forall name :: name in out ==> out[name] == InterfaceStats(name, false, 0.0, 0.0, 0, 0)
    {
      assert ifaces[..i + 1] == ifaces[..i] + [ifaces[i]];
      out := out[ifaces[i] := InterfaceStats(ifaces[i], false, 0.0, 0.0, 0, 0)];
    }
    assert ifaces[..|ifaces|] == ifaces;
  }

  class Collector {
    const ifaces: seq<string>
    const start: Time
    var prev: map<string, Sample>
    var snap: Snapshot
    ghost var history: seq<Observation>
    ghost var published: seq<Snapshot>

    ghost predicate Valid()
      reads this
    {
      && prev == (if history == [] then map[] else map name | name in ifaces :: SampleOf(history[|history| - 1], name))
      && snap == Batch(ifaces, start, history)
      && Publishes(ifaces, start, history, published)
    }

    constructor (ifaces: seq<string>, start: Time)
      ensures Valid() && this.ifaces == ifaces && this.start == start && history == [] && published == [snap]
    {
      this.ifaces, this.start := ifaces, start;
      prev, history := map[], [];
      var initial := InitialInterfaces(ifaces);
      snap := Snapshot(start, initial);
      published := [Snapshot(start, initial)];
    }

    /** The samples of a tick whose source could be read. */
    method ReadSamples(now: Time, parsed: map<string, Counters>) returns (current: map<string, Sample>)
      ensures current == map name | name in ifaces :: SampleOf(Observation(now, Some(parsed), map[]), name)
    {
      current := map[];
      for i := 0 to |ifaces|
        invariant current.Keys == set name | name in ifaces[..i]
        invariant forall name :: name in current ==> current[name] == SampleOf(Observation(now, Some(parsed), map[]), name)
      {
        assert ifaces[..i + 1] == ifaces[..i] + [ifaces[i]];
        var name := ifaces[i];
        if name in parsed {
          current := current[name := Sample(parsed[name].rxBytes, parsed[name].txBytes, now, true)];
        } else {
          current := current[name := Sample(0, 0, now, false)];
        }
      }
      assert ifaces[..|ifaces|] == ifaces;
    }

    /** The samples of a tick whose source failed: every interface is absent. */
    method AbsentSamples(now: Time) returns (current: map<string, Sample>)
      ensures current == map name | name in ifaces :: SampleOf(Observation(now, None, map[]), name)
    {
      current := map[];
      for i := 0 to |ifaces|
        invariant current.Keys == set name | name in ifaces[..i]
        invariant forall name :: name in current ==> current[name] == Sample(0, 0, now, false)
      {
        assert ifaces[..i + 1] == ifaces[..i] + [ifaces[i]];
        current := current[ifaces[i] := Sample(0, 0, now, false)];
      }
      assert ifaces[..|ifaces|] == ifaces;
    }

    method Read(now: Time, raw: Result<string>) returns (current: map<string, Sample>, ghost counters: Option<map<string, Counters>>)
      ensures counters == match raw case Ok(text) => Some(Table(ScanLines(text), CountersOf)) case Err(_) => None
      ensures current == map name | name in ifaces :: SampleOf(Observation(now, counters, map[]), name)
    {
      if raw.Ok? {
        var parsed := ParseProcNetDev(raw.value);
        counters := Some(parsed);
        current := ReadSamples(now, parsed);
      } else {
        counters := None;
        current := AbsentSamples(now);
      }
    }

    method StatsFor(name: string, cur: Sample, operstate: map<string, string>, ghost o: Observation) returns (stats: InterfaceStats)
      requires Valid() && name in ifaces && cur == SampleOf(o, name) && operstate == o.operstate
      ensures stats == StatsAt(history + [o], |history|, name)
    {
      assert (history + [o])[|history|] == o;
      assert history != [] ==> (history + [o])[|history| - 1] == history[|history| - 1];
      stats := InterfaceStats(name, name in operstate && operstate[name] == "up", 0.0, 0.0, cur.rxBytes, cur.txBytes);
      if cur.present && name in prev && prev[name].present {
        stats := stats.(rxMbps := ComputeMbps(prev[name].rxBytes, cur.rxBytes, prev[name].at, cur.at));
        stats := stats.(txMbps := ComputeMbps(prev[name].txBytes, cur.txBytes, prev[name].at, cur.at));
      }
    }

    method AllStats(current: map<string, Sample>, operstate: map<string, string>, ghost o: Observation)
      returns (stats: map<string, InterfaceStats>)
      requires Valid() && operstate == o.operstate && current == map name | name in ifaces :: SampleOf(o, name)
      ensures stats == map name | name in ifaces :: StatsAt(history + [o], |history|, name)
    {
      stats := map[];
      for i := 0 to |ifaces|
        invariant stats.Keys == set name | name in ifaces[..i]
        invariant forall name :: name in stats ==> stats[name] == StatsAt(history + [o], |history|, name)
      {
        assert ifaces[..i + 1] == ifaces[..i] + [ifaces[i]];
        var name := ifaces[i];
        var s := StatsFor(name, current[name], operstate, o);
        stats := stats[name := s];
      }
      assert ifaces[..|ifaces|] == ifaces;
    }

    /** `tick`: the published snapshot stays the batch function of everything observed. */
    method Tick(now: Time, raw: Result<string>, operstate: map<string, string>)
      requires Valid()
      modifies this
      ensures Valid()
      ensures published == old(published) + [snap]
      ensures history == old(history) + [Observation(now,
        match raw case Ok(text) => Some(Table(ScanLines(text), CountersOf)) case Err(_) => None, operstate)]
    {
      var current, counters := Read(now, raw);
      ghost var o := Observation(now, counters, operstate);
      assert forall name :: SampleOf(o, name) == SampleOf(Observation(now, counters, map[]), name);
      var stats := AllStats(current, operstate, o);
      prev := current;
      snap := Snapshot(now, stats);
      PublishesMore(ifaces, start, history, published, o);
      history := history + [o];
      published := published + [snap];
    }

    /** The rates of all snapshots published so far, multiplied by the time between them, add up to the bytes counted. */
    lemma PublishedRatesAddUp(name: string)
      requires Valid() && name in ifaces
      ensures Sum(Volumes(published, name, RxMbps)) == Sum(Increases(history, name, RxBytes))
      ensures Sum(Volumes(published, name, TxMbps)) == Sum(Increases(history, name, TxBytes))
    {
      ShownIsCounted(ifaces, start, history, published, name);
    }

    /** Every snapshot published after a tick shows, for every configured interface, what that tick read. */
    lemma PublishedFields(k: nat, name: string)
      requires Valid() && k < |history| && name in ifaces
      ensures published[k + 1].at == history[k].at && published[k + 1].interfaces.Keys == set n | n in ifaces
      ensures
        var shown := published[k + 1].interfaces[name];
        && shown.name == name
        && (shown.up <==> name in history[k].operstate && history[k].operstate[name] == "up")
        && shown.rxTotalBytes == (if Saw(history[k], name) then history[k].counters.value[name].rxBytes else 0)
        && shown.txTotalBytes == (if Saw(history[k], name) then history[k].counters.value[name].txBytes else 0)
    {
      assert history[..k + 1][k] == history[k];
    }

    /** A published rate is never negative, and positive exactly when its counter went up. */
    lemma PublishedSign(k: nat, name: string)
      requires Valid() && k < |history| && name in ifaces
      ensures
        var shown := published[k + 1].interfaces[name];
        && shown.rxMbps >= 0.0 && (shown.rxMbps > 0.0 <==> Increase(history, k, name, RxBytes) > 0)
        && shown.txMbps >= 0.0 && (shown.txMbps > 0.0 <==> Increase(history, k, name, TxBytes) > 0)
    {
      ShownAt(ifaces, start, history, published, k, name);
      RateSign(history, k, name, Rx);
      RateSign(history, k, name, Tx);
    }
  }

  // ----- Conservation

  /** The bytes that the rates shown up to tick `n` amount to. */
  function BytesShown(history: seq<Observation>, n: nat, name: string, d: Direction): real
    requires n < |history|
  {
    if n == 0 then 0.0
    else
      BytesShown(history, n - 1, name, d)
      + RateAt(history, n, name, d) * ElapsedSeconds(history[n - 1].at, history[n].at) * 1_000_000.0 / 8.0
  }

  /** The counter increases between consecutive ticks that can be compared. */
  function BytesCounted(history: seq<Observation>, n: nat, name: string, d: Direction): nat
    requires n < |history|
  {
    if n == 0 then 0
    else
      var prev, cur := SampleOf(history[n - 1], name), SampleOf(history[n], name);
      BytesCounted(history, n - 1, name, d) + if Counted(prev, cur, d) then BytesOf(cur, d) - BytesOf(prev, d) else 0
  }

  lemma ElapsedSign(a: Time, b: Time)
    ensures ElapsedSeconds(a, b) > 0.0 <==> a < b
  {
  }

  lemma DivideBack(x: real, e: real)
    requires e > 0.0
    ensures x * 8.0 / 1_000_000.0 / e * e * 1_000_000.0 / 8.0 == x
  {
    var q := x * 8.0 / 1_000_000.0;
    assert q / e * e == q;
  }

  /** One tick's rate, multiplied out, is the increase it was computed from. */
  lemma RateGivesBytes(history: seq<Observation>, k: nat, name: string, d: Direction)
    requires 0 < k < |history|
    ensures
      var prev, cur := SampleOf(history[k - 1], name), SampleOf(history[k], name);
      RateAt(history, k, name, d) * ElapsedSeconds(history[k - 1].at, history[k].at) * 1_000_000.0 / 8.0 ==
      if Counted(prev, cur, d) then (BytesOf(cur, d) - BytesOf(prev, d)) as real else 0.0
  {
    var prev, cur := SampleOf(history[k - 1], name), SampleOf(history[k], name);
    var e := ElapsedSeconds(prev.at, cur.at);
    ElapsedSign(prev.at, cur.at);
    if Counted(prev, cur, d) {
      DivideBack((BytesOf(cur, d) - BytesOf(prev, d)) as real, e);
    } else {
      assert RateAt(history, k, name, d) == 0.0;
    }
  }

  // ----- Conservation, over the published snapshots

  /** The seconds between two readings, as long as they fit a duration of 64 bits in nanoseconds. */
  function Seconds(a: Time, b: Time): real {
    (if b - a > 0x7FFF_FFFF_FFFF_FFFF then 0x7FFF_FFFF_FFFF_FFFF
     else if b - a < -0x8000_0000_0000_0000 then -0x8000_0000_0000_0000
     else b - a) as real / 1_000_000_000.0
  }

  function RxMbps(s: InterfaceStats): real { s.rxMbps }

  function TxMbps(s: InterfaceStats): real { s.txMbps }

  function RxBytes(c: Counters): nat { c.rxBytes }

  function TxBytes(c: Counters): nat { c.txBytes }

  function Sum(s: seq<real>): real {
    if s == [] then 0.0 else Sum(s[..|s| - 1]) + s[|s| - 1]
  }

  /** The bytes that megabits per second come to between two readings. */
  function Bytes(mbps: real, before: Time, now: Time): real {
    mbps * Seconds(before, now) * 1_000_000.0 / 8.0
  }

  /** The bytes that a rate shown in a snapshot amounts to, over the time since the snapshot before. */
  function Volume(before: Snapshot, now: Snapshot, name: string, rate: InterfaceStats -> real): real {
    if name !in now.interfaces then 0.0 else Bytes(rate(now.interfaces[name]), before.at, now.at)
  }

  function Volumes(published: seq<Snapshot>, name: string, rate: InterfaceStats -> real): seq<real>
    requires published != []
  {
    seq(|published| - 1, k requires 0 <= k < |published| - 1 => Volume(published[k], published[k + 1], name, rate))
  }

  /** The tick read counters for the interface. */
  predicate Saw(o: Observation, name: string) {
    o.counters.Some? && name in o.counters.value
  }

  /** The increase of a counter at tick `k`, if the tick before read it too, at an earlier time, and no higher. */
  function Increase(history: seq<Observation>, k: nat, name: string, bytes: Counters -> nat): nat
    requires k < |history|
  {
    if k == 0 || !Saw(history[k - 1], name) || !Saw(history[k], name) || history[k].at <= history[k - 1].at then 0
    else
      var before, now := bytes(history[k - 1].counters.value[name]), bytes(history[k].counters.value[name]);
      if now < before then 0 else now - before
  }

  function Increases(history: seq<Observation>, name: string, bytes: Counters -> nat): seq<real> {
    seq(|history|, k requires 0 <= k < |history| => Increase(history, k, name, bytes) as real)
  }

  lemma SecondsAreElapsed(a: Time, b: Time)
    ensures Seconds(a, b) == ElapsedSeconds(a, b)
  {
  }

  /** What snapshot `k + 1` shows of an interface. */
  lemma ShownAt(ifaces: seq<string>, start: Time, history: seq<Observation>, published: seq<Snapshot>, k: nat, name: string)
    requires Publishes(ifaces, start, history, published) && k < |history| && name in ifaces
    ensures published[k + 1].at == history[k].at && name in published[k + 1].interfaces
    ensures published[k + 1].interfaces[name].rxMbps == RateAt(history, k, name, Rx)
    ensures published[k + 1].interfaces[name].txMbps == RateAt(history, k, name, Tx)
  {
    var prefix := history[..k + 1];
    assert prefix[k] == history[k] && (k > 0 ==> prefix[k - 1] == history[k - 1]);
  }

  lemma RateIsIncrease(history: seq<Observation>, k: nat, name: string)
    requires 0 < k < |history|
    ensures Bytes(RateAt(history, k, name, Rx), history[k - 1].at, history[k].at) == Increase(history, k, name, RxBytes) as real
    ensures Bytes(RateAt(history, k, name, Tx), history[k - 1].at, history[k].at) == Increase(history, k, name, TxBytes) as real
  {
    SecondsAreElapsed(history[k - 1].at, history[k].at);
    RateGivesBytes(history, k, name, Rx);
    RateGivesBytes(history, k, name, Tx);
  }

  lemma VolumeOf(before: Snapshot, now: Snapshot, name: string, rate: InterfaceStats -> real, mbps: real, bytes: real)
    requires name in now.interfaces && rate(now.interfaces[name]) == mbps
    requires mbps == 0.0 == bytes || Bytes(mbps, before.at, now.at) == bytes
    ensures Volume(before, now, name, rate) == bytes
  {
  }

  lemma VolumeIsIncrease(ifaces: seq<string>, start: Time, history: seq<Observation>, published: seq<Snapshot>, k: nat, name: string)
    requires Publishes(ifaces, start, history, published) && k < |history| && name in ifaces
    ensures Volume(published[k], published[k + 1], name, RxMbps) == Increase(history, k, name, RxBytes) as real
    ensures Volume(published[k], published[k + 1], name, TxMbps) == Increase(history, k, name, TxBytes) as real
  {
    ShownAt(ifaces, start, history, published, k, name);
    if k > 0 {
      ShownAt(ifaces, start, history, published, k - 1, name);
      RateIsIncrease(history, k, name);
    }
    VolumeOf(published[k], published[k + 1], name, RxMbps, RateAt(history, k, name, Rx), Increase(history, k, name, RxBytes) as real);
    VolumeOf(published[k], published[k + 1], name, TxMbps, RateAt(history, k, name, Tx), Increase(history, k, name, TxBytes) as real);
  }

  /** The rates published over any run add up to the bytes counted, in each direction. */
  lemma ShownIsCounted(ifaces: seq<string>, start: Time, history: seq<Observation>, published: seq<Snapshot>, name: string)
    requires Publishes(ifaces, start, history, published) && name in ifaces
    ensures Sum(Volumes(published, name, RxMbps)) == Sum(Increases(history, name, RxBytes))
    ensures Sum(Volumes(published, name, TxMbps)) == Sum(Increases(history, name, TxBytes))
  {
    forall k | 0 <= k < |history|
      ensures Volume(published[k], published[k + 1], name, RxMbps) == Increase(history, k, name, RxBytes) as real
      ensures Volume(published[k], published[k + 1], name, TxMbps) == Increase(history, k, name, TxBytes) as real
    {
      VolumeIsIncrease(ifaces, start, history, published, k, name);
    }
    assert Volumes(published, name, RxMbps) == Increases(history, name, RxBytes);
    assert Volumes(published, name, TxMbps) == Increases(history, name, TxBytes);
  }

  /** Over any run, with absences, read errors and resets anywhere, the rates add up to the bytes counted. */
  lemma {:induction false} RatesAddUp(history: seq<Observation>, n: nat, name: string, d: Direction)
    requires n < |history|
    ensures BytesShown(history, n, name, d) == BytesCounted(history, n, name, d) as real
  {
    if n > 0 {
      RatesAddUp(history, n - 1, name, d);
      RateGivesBytes(history, n, name, d);
    }
  }

  /** Without absences, resets or a standing clock, they add up to the last counter minus the first. */
  lemma {:induction false} RatesTelescope(history: seq<Observation>, n: nat, name: string, d: Direction)
    requires n < |history|
    requires forall k :: 0 <= k <= n ==> SampleOf(history[k], name).present
    requires forall k :: 0 < k <= n ==> Counted(SampleOf(history[k - 1], name), SampleOf(history[k], name), d)
    ensures BytesOf(SampleOf(history[0], name), d) <= BytesOf(SampleOf(history[n], name), d)
    ensures BytesShown(history, n, name, d) ==
      (BytesOf(SampleOf(history[n], name), d) - BytesOf(SampleOf(history[0], name), d)) as real
  {
    if n > 0 {
      RatesTelescope(history, n - 1, name, d);
      RateGivesBytes(history, n, name, d);
    }
  }

  /** A rate is never negative, and positive exactly when comparable counters went up. */
  lemma RateSign(history: seq<Observation>, k: nat, name: string, d: Direction)
    requires k < |history|
    ensures RateAt(history, k, name, d) >= 0.0
    ensures RateAt(history, k, name, d) > 0.0 <==>
      k > 0 && Counted(SampleOf(history[k - 1], name), SampleOf(history[k], name), d)
      && BytesOf(SampleOf(history[k - 1], name), d) < BytesOf(SampleOf(history[k], name), d)
  {
    if k > 0 {
      var prev, cur := SampleOf(history[k - 1], name), SampleOf(history[k], name);
      ElapsedSign(prev.at, cur.at);
      if Counted(prev, cur, d) {
        DividePositive((BytesOf(cur, d) - BytesOf(prev, d)) as real * 8.0 / 1_000_000.0, ElapsedSeconds(prev.at, cur.at));
      }
    }
  }

  lemma DividePositive(x: real, e: real)
    requires e > 0.0 && x >= 0.0
    ensures x / e >= 0.0 && (x / e > 0.0 <==> x > 0.0)
  {
    assert x / e * e == x;
  }

  /** A published snapshot has exactly the configured interfaces, and is the same for histories with the same last two observations. */
  lemma SnapshotIsLocal(ifaces: seq<string>, start: Time, a: seq<Observation>, b: seq<Observation>, x: Observation, y: Observation)
    ensures Batch(ifaces, start, a).interfaces.Keys == set name | name in ifaces
    ensures Batch(ifaces, start, a + [x, y]) == Batch(ifaces, start, b + [x, y])
  {
    var h, g := a + [x, y], b + [x, y];
    assert h[|a|] == x && h[|a| + 1] == y && g[|b|] == x && g[|b| + 1] == y;
  }
}
