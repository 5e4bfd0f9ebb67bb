/** The hotspot collector: what a refresh publishes, and what it leaves alone. */
module Hotspot {
  import opened Clock
  import opened Results
  import opened Text
  import opened LastWins
  import opened StationDump
  import opened Leases
  import opened HotspotJoin
  import opened Transitions
  import LazyRefresh
  import Seqs

  datatype FetchError = InterfaceAbsent | IwError(message: string) | LeasesError(message: string)

  /** What reading the lease file gives: a missing file is told apart from other failures. */
  datatype LeaseRead = Contents(text: string) | Missing | Unreadable(message: string)

  /** The published part of a snapshot that a refresh decides. */
  datatype Data = Data(clients: seq<Client>, err: Option<FetchError>)

  datatype Outcome = Absent | IwFailed(message: string) | Listed(clients: seq<Client>, leasesFailure: Option<string>)

  function Publish(prev: Data, o: Outcome): Data {
    match o
    case Absent => Data([], Some(InterfaceAbsent))
    case IwFailed(m) => Data(prev.clients, Some(IwError(m)))
    case Listed(clients, None) => Data(clients, None)
    case Listed(clients, Some(m)) => Data(clients, Some(LeasesError(m)))
  }

  /** The collector as an instance of the refresh protocol. */
  function Protocol(ttl: int): LazyRefresh.Config<Data, Outcome> {
    LazyRefresh.Config(ttl, Data([], None), Publish)
  }

  // ----- The reference

  /** The clients of the latest refresh that listed any or found no interface; none before the first. */
  function LastGood(outcomes: seq<Outcome>): seq<Client> {
    if outcomes == [] then []
    else
      match outcomes[|outcomes| - 1]
      case Listed(clients, _) => clients
      case Absent => []
      case IwFailed(_) => LastGood(outcomes[..|outcomes| - 1])
  }

  /** The error of the latest refresh. */
  function LastError(outcomes: seq<Outcome>): Option<FetchError> {
    if outcomes == [] then None
    else
      match outcomes[|outcomes| - 1]
      case Absent => Some(InterfaceAbsent)
      case IwFailed(m) => Some(IwError(m))
      case Listed(_, Some(m)) => Some(LeasesError(m))
      case Listed(_, None) => None
  }

  /** The number of clients of the latest refresh that listed any. */
  function LastCount(outcomes: seq<Outcome>): nat {
    if outcomes == [] then 0
    else
      match outcomes[|outcomes| - 1]
      case Listed(clients, _) => |clients|
      case _ => LastCount(outcomes[..|outcomes| - 1])
  }

  lemma OutcomeMore(outcomes: seq<Outcome>, o: Outcome)
    ensures LastError(outcomes + [o]) == Publish(Data([], None), o).err
    ensures LastCount(outcomes + [o]) == if o.Listed? then |o.clients| else LastCount(outcomes)
    ensures (outcomes + [o])[..|outcomes|] == outcomes
  {
  }

  /** After any history, the fold that the protocol publishes is the last good list with the latest error. */
  lemma {:induction false} FoldIsLastGood(ttl: int, outcomes: seq<Outcome>)
    ensures LazyRefresh.Folded(Protocol(ttl), outcomes) == Data(LastGood(outcomes), LastError(outcomes))
    decreases |outcomes|
  {
    if outcomes != [] {
      FoldIsLastGood(ttl, outcomes[..|outcomes| - 1]);
    }
  }

  /** Whatever the threads do, the snapshot shows the last good list with the latest error. */
  lemma SnapshotShowsLastGood(ttl: int, clock: Time, threads: nat, acts: seq<LazyRefresh.Action<Outcome>>)
    requires ValidTtl(ttl) && clock >= ZERO_TIME
    ensures
      var s := LazyRefresh.Exec(Protocol(ttl), LazyRefresh.Init(Protocol(ttl), clock, threads), acts);
      s.snap.data == Data(LastGood(s.outcomes), LastError(s.outcomes))
  {
    LazyRefresh.PublishedIsFold(Protocol(ttl), clock, threads, acts);
    FoldIsLastGood(ttl, LazyRefresh.Exec(Protocol(ttl), LazyRefresh.Init(Protocol(ttl), clock, threads), acts).outcomes);
  }

  // ----- What the documentation promises instead

  /** The clients of the latest refresh without an error; none before the first. */
  function LastSuccess(outcomes: seq<Outcome>): seq<Client> {
    if outcomes == [] then []
    else
      match outcomes[|outcomes| - 1]
      case Listed(clients, None) => clients
      case _ => LastSuccess(outcomes[..|outcomes| - 1])
  }

  /** The index of the latest refresh that did not fail to run `iw`, -1 if all did. */
  function LatestShown(outcomes: seq<Outcome>): (g: int)
    ensures -1 <= g < |outcomes|
    ensures g >= 0 ==> !outcomes[g].IwFailed?
  {
    if outcomes == [] then -1
    else if !outcomes[|outcomes| - 1].IwFailed? then |outcomes| - 1
    else LatestShown(outcomes[..|outcomes| - 1])
  }

  /**
   The list shown with an error is that of the last successful refresh exactly when the latest refresh
   past `iw` did succeed or happens to show the same: an absent interface blanks the list, and one read
   without its leases replaces it.
   */
  lemma {:induction false} DocumentedExactlyWhen(outcomes: seq<Outcome>)
    ensures LastGood(outcomes) == LastSuccess(outcomes) <==>
      var g := LatestShown(outcomes);
      g < 0 ||
      match outcomes[g]
      case Absent => LastSuccess(outcomes[..g]) == []
      case Listed(clients, failure) => failure == None || LastSuccess(outcomes[..g]) == clients
  {
    if outcomes != [] && outcomes[|outcomes| - 1].IwFailed? {
      var front := outcomes[..|outcomes| - 1];
      DocumentedExactlyWhen(front);
      assert LatestShown(front) >= 0 ==> outcomes[..LatestShown(front)] == front[..LatestShown(front)];
    }
  }

  /** Two histories on which it is not. */
  lemma DocumentedFails(c: Client)
    ensures LastSuccess([Listed([c], None), Absent]) == [c] && LastGood([Listed([c], None), Absent]) == []
    ensures LastSuccess([Listed([c], None), Listed([], Some("denied"))]) == [c]
    ensures LastGood([Listed([c], None), Listed([], Some("denied"))]) == []
  {
    var first := [Listed([c], None)];
    assert (first + [Absent])[..1] == first && (first + [Listed([], Some("denied"))])[..1] == first;
    assert LastSuccess(first + [Absent]) == LastSuccess(first);
    assert LastSuccess(first + [Listed([], Some("denied"))]) == LastSuccess(first);
  }

  // ----- One refresh

  /** The clients a successful `iw` and the lease file amount to, in no particular order. */
  function Expected(dump: string, leases: LeaseRead): seq<Client> {
    var stations := Clients(ScanLines(dump));
    match leases
    case Contents(text) => Joined(stations, Table(ScanLines(text), LeaseOf))
    case _ => stations
  }

  /** What the commands of one refresh amount to. */
  predicate Describes(o: Outcome, present: bool, iw: Result<string>, leases: LeaseRead) {
    if !present then o == Absent
    else
      match iw
      case Err(m) => o == IwFailed(m)
      case Ok(dump) =>
        && o.Listed?
        && SortedByMac(o.clients) && multiset(o.clients) == multiset(Expected(dump, leases))
        && o.leasesFailure == LeasesFailure(leases)
  }

  /** A missing lease file is no failure. */
  function LeasesFailure(leases: LeaseRead): Option<string> {
    match leases
    case Unreadable(m) => Some(m)
    case _ => None
  }

  // ----- What a refresh shows, read off its inputs

  /** The stations of the dump in the order of their MAC addresses, each with its lease where leases could be read. */
  ghost predicate ShowsStations(clients: seq<Client>, dump: string, leases: LeaseRead) {
    && SortedByMac(clients)
    && multiset(Stations(clients)) == multiset(Clients(ScanLines(dump)))
    && forall i :: 0 <= i < |clients| ==>
         match leases
         case Contents(text) => GotLease(ScanLines(text), clients[i].mac, clients[i].ip, clients[i].hostname)
         case _ => clients[i].ip == "" && clients[i].hostname == ""
  }

  /** What is shown after a refresh: nothing without the interface, the previous list if `iw` failed, else the stations. */
  ghost predicate Shows(prev: Data, next: Data, present: bool, iw: Result<string>, leases: LeaseRead) {
    && (!present ==> next.clients == [] && next.err == Some(InterfaceAbsent))
    && (present && iw.Err? ==> next.clients == prev.clients && next.err == Some(IwError(iw.error)))
    && (present && iw.Ok? ==>
          && ShowsStations(next.clients, iw.value, leases)
          && next.err == if leases.Unreadable? then Some(LeasesError(leases.message)) else None)
  }

  lemma ExpectedShowsStations(list: seq<Client>, dump: string, leases: LeaseRead)
    requires SortedByMac(list) && multiset(list) == multiset(Expected(dump, leases))
    ensures ShowsStations(list, dump, leases)
  {
    match leases
    case Contents(text) => ListShowsLeases(list, ScanLines(dump), ScanLines(text));
    case _ => ListShowsStations(list, ScanLines(dump));
  }

  /** What is shown of a printed dump are the printed stations. */
  lemma PrintedDumpShows(clients: seq<Client>, stations: seq<Printed>, leases: LeaseRead)
    requires forall i :: 0 <= i < |stations| ==> stations[i].Valid()
    requires PlainLines(DumpLines(stations))
    requires ShowsStations(clients, Unlines(DumpLines(stations)), leases)
    ensures multiset(Stations(clients)) == multiset(StationDump.Listed(stations))
  {
    TextRoundTrip(stations);
  }

  /** The outcome of a refresh, published, shows what its inputs say. */
  lemma PublishedShows(prev: Data, o: Outcome, present: bool, iw: Result<string>, leases: LeaseRead)
    requires Describes(o, present, iw, leases)
    ensures Shows(prev, Publish(prev, o), present, iw, leases)
  {
    if present && iw.Ok? {
      ExpectedShowsStations(o.clients, iw.value, leases);
    }
  }

  datatype LogLine = AbsentLine | PresentLine | IwFailedLine(message: string) | CountLine(before: nat, after: nat)

  /** The lines about the interface's presence; true for absent. */
  function PresenceChanges(log: seq<LogLine>): seq<bool> {
    if log == [] then []
    else
      var front := PresenceChanges(log[..|log| - 1]);
      match log[|log| - 1]
      case AbsentLine => front + [true]
      case PresentLine => front + [false]
      case _ => front
  }

  lemma LogMore(log: seq<LogLine>, line: LogLine)
    ensures PresenceChanges(log + [line]) ==
      match line
      case AbsentLine => PresenceChanges(log) + [true]
      case PresentLine => PresenceChanges(log) + [false]
      case _ => PresenceChanges(log)
  {
    assert (log + [line])[..|log|] == log;
  }

  /** The lines a refresh logs about the interface's presence, if that changed. */
  function PresenceLines(wasAbsent: bool, absent: bool): seq<LogLine> {
    if absent == wasAbsent then [] else if absent then [AbsentLine] else [PresentLine]
  }

  /** The lines a refresh logs about its commands: every failure of `iw`, and every change of the number of clients. */
  function FetchLines(before: seq<Outcome>, o: Outcome): seq<LogLine> {
    match o
    case Absent => []
    case IwFailed(m) => [IwFailedLine(m)]
    case Listed(clients, _) => if |clients| == LastCount(before) then [] else [CountLine(LastCount(before), |clients|)]
  }

  function LinesFor(before: seq<Outcome>, o: Outcome): seq<LogLine> {
    PresenceLines(LastError(before) == Some(InterfaceAbsent), o.Absent?) + FetchLines(before, o)
  }

  datatype SnapshotValue = SnapshotValue(at: Time, iface: string, data: Data)

  /** The values are those of one interface, and their data is the fold of the outcomes before them. */
  ghost predicate Follows(ttl: int, iface: string, values: seq<SnapshotValue>, outcomes: seq<Outcome>) {
    && |values| == |outcomes| + 1
    && forall k :: 0 <= k < |values| ==>
         values[k].iface == iface && values[k].data == LazyRefresh.Folded(Protocol(ttl), outcomes[..k])
  }

  lemma FollowsMore(ttl: int, iface: string, values: seq<SnapshotValue>, outcomes: seq<Outcome>, value: SnapshotValue, o: Outcome)
    requires Follows(ttl, iface, values, outcomes)
    requires value.iface == iface && value.data == Publish(values[|outcomes|].data, o)
    ensures Follows(ttl, iface, values + [value], outcomes + [o])
  {
    LazyRefresh.FoldedMore(Protocol(ttl), outcomes, o);
  }

  /** One more published value shows what the inputs of its refresh say. */
  lemma FollowsShows(ttl: int, iface: string, values: seq<SnapshotValue>, outcomes: seq<Outcome>, value: SnapshotValue, o: Outcome,
                     present: bool, iw: Result<string>, leases: LeaseRead)
    requires Follows(ttl, iface, values, outcomes) && Follows(ttl, iface, values + [value], outcomes + [o])
    requires Describes(o, present, iw, leases)
    ensures Shows(values[|outcomes|].data, value.data, present, iw, leases)
  {
    LazyRefresh.FoldedMore(Protocol(ttl), outcomes, o);
    assert (values + [value])[|outcomes| + 1] == value;
    PublishedShows(values[|outcomes|].data, o, present, iw, leases);
  }

  class Snapshot {
    var at: Time
    var iface: string
    var clients: array<Client>
    var err: Option<FetchError>

    constructor (at: Time, iface: string, clients: array<Client>, err: Option<FetchError>)
      ensures this.at == at && this.iface == iface && this.clients == clients && this.err == err
    {
      this.at, this.iface, this.clients, this.err := at, iface, clients, err;
    }

    function Value(): SnapshotValue
      reads this, clients
    {
      SnapshotValue(at, iface, Data(clients[..], err))
    }
  }

  class Collector {
    const iface: string
    const ttl: int
    var lastAt: Time
    var snap: Snapshot
    var prevClientCount: nat
    var prevAbsent: bool
    var log: seq<LogLine>

    // Every snapshot ever published, the value it was published with, and the outcome behind it.
    ghost var published: seq<Snapshot>
    ghost var values: seq<SnapshotValue>
    ghost var outcomes: seq<Outcome>
    ghost var Repr: set<object>

    /** Every published snapshot still has the value it was published with, the fold of the outcomes before it. */
    ghost predicate HistoryKept()
      reads this, Repr
    {
      && |published| == |values| && Follows(ttl, iface, values, outcomes)
      && snap == published[|outcomes|]
      && (forall k :: 0 <= k < |published| ==>
            published[k] in Repr && published[k].clients in Repr && published[k].Value() == values[k])
    }

    /** The fields kept between refreshes and the log say what the outcomes were. */
    ghost predicate FlagsKept()
      reads this
    {
      && prevAbsent == (LastError(outcomes) == Some(InterfaceAbsent))
      && Alternating(PresenceChanges(log), prevAbsent)
      && prevClientCount == LastCount(outcomes)
    }

    ghost predicate Valid()
      reads this, Repr
    {
      HistoryKept() && FlagsKept() && lastAt <= snap.at && (outcomes != [] ==> lastAt == snap.at)
    }

    constructor (iface: string, ttl: int, clock: Time)
      requires clock >= ZERO_TIME
      ensures Valid() && this.iface == iface && this.ttl == ttl
      ensures lastAt == ZERO_TIME && outcomes == [] && log == []
      ensures fresh(snap) && snap.at == clock && snap.clients[..] == [] && snap.err == None
    {
      this.iface, this.ttl := iface, ttl;
      var none := new Client[0];
      var first := new Snapshot(clock, iface, none, None);
      lastAt, snap := ZERO_TIME, first;
      prevClientCount, prevAbsent, log := 0, false, [];
      published, outcomes := [first], [];
      values := [SnapshotValue(clock, iface, Data([], None))];
      Repr := {first, none};
      new;
      assert none[..] == [];
    }

    /** Publishes a snapshot for the outcome `o`. */
    method Store(next: Snapshot, ghost o: Outcome)
      requires HistoryKept()
      requires next.Value() == SnapshotValue(next.at, iface, Publish(snap.Value().data, o))
      modifies this`snap, this`lastAt, this`published, this`values, this`outcomes, this`Repr
      ensures HistoryKept() && snap == next && lastAt == next.at
      ensures published == old(published) + [next] && outcomes == old(outcomes) + [o]
      ensures values == old(values) + [next.Value()]
    {
      FollowsMore(ttl, iface, values, outcomes, next.Value(), o);
      snap := next;
      lastAt := next.at;
      published, values := published + [next], values + [next.Value()];
      outcomes := outcomes + [o];
      Repr := Repr + {next, next.clients};
    }

    method Log(line: LogLine)
      modifies this`log
      ensures log == old(log) + [line]
      ensures PresenceChanges(log) ==
        match line
        case AbsentLine => PresenceChanges(old(log)) + [true]
        case PresentLine => PresenceChanges(old(log)) + [false]
        case _ => PresenceChanges(old(log))
    {
      LogMore(log, line);
      log := log + [line];
    }

    /** The presence check: logs a change, and tells whether the interface is there. */
    method NotePresence(present: bool)
      requires Alternating(PresenceChanges(log), prevAbsent) && HistoryKept()
      modifies this`log, this`prevAbsent
      ensures HistoryKept()
      ensures prevAbsent == !present && log == old(log) + PresenceLines(old(prevAbsent), !present)
      ensures PresenceChanges(log) == Record(PresenceChanges(old(log)), old(prevAbsent), !present)
      ensures Alternating(PresenceChanges(log), prevAbsent)
    {
      RecordAlternates(PresenceChanges(log), prevAbsent, !present);
      if !present {
        if !prevAbsent {
          Log(AbsentLine);
          prevAbsent := true;
        }
      } else if prevAbsent {
        Log(PresentLine);
        prevAbsent := false;
      }
    }

    /** The stations of a dump, enriched and sorted in an array of their own. */
    method Collect(dump: string, leases: LeaseRead) returns (clients: array<Client>)
      ensures fresh(clients)
      ensures SortedByMac(clients[..]) && multiset(clients[..]) == multiset(Expected(dump, leases))
      ensures ShowsStations(clients[..], dump, leases)
    {
      var parsed := ParseStationDump(dump);
      clients := new Client[|parsed|](i requires 0 <= i < |parsed| => parsed[i]);
      assert clients[..] == parsed;
      if leases.Contents? {
        var entries := ParseLeases(leases.text);
        Enrich(clients, entries);
      }
      assert clients[..] == Expected(dump, leases);
      SortByMac(clients);
      ExpectedShowsStations(clients[..], dump, leases);
    }

    /** The flags in the middle of a refresh: presence is noted, its outcome is not stored yet. */
    ghost predicate PresenceNoted(present: bool)
      reads this
    {
      prevAbsent == !present && Alternating(PresenceChanges(log), prevAbsent) && prevClientCount == LastCount(outcomes)
    }

    method StoreAbsent(now: Time)
      requires HistoryKept() && PresenceNoted(false)
      modifies this
      ensures Valid() && fresh(snap) && snap.at == now && log == old(log)
      ensures published == old(published) + [snap] && values == old(values) + [snap.Value()]
      ensures outcomes == old(outcomes) + [Absent]
    {
      var none := new Client[0];
      var next := new Snapshot(now, iface, none, Some(InterfaceAbsent));
      assert none[..] == [];
      Store(next, Absent);
      OutcomeMore(old(outcomes), Absent);
    }

    method NewFailed(now: Time, prev: Snapshot, message: string) returns (next: Snapshot)
      ensures fresh(next) && next.clients == prev.clients
      ensures next.Value() == SnapshotValue(now, iface, Publish(prev.Value().data, IwFailed(message)))
    {
      next := new Snapshot(now, iface, prev.clients, Some(IwError(message)));
    }

    method StoreIwFailure(now: Time, message: string)
      requires HistoryKept() && PresenceNoted(true)
      modifies this
      ensures Valid() && fresh(snap) && snap.at == now && snap.clients == old(snap.clients)
      ensures published == old(published) + [snap] && values == old(values) + [snap.Value()]
      ensures outcomes == old(outcomes) + [IwFailed(message)] && log == old(log) + [IwFailedLine(message)]
    {
      var next := NewFailed(now, snap, message);
      Log(IwFailedLine(message));
      Store(next, IwFailed(message));
      OutcomeMore(old(outcomes), IwFailed(message));
    }

    method NoteCount(count: nat)
      modifies this`log, this`prevClientCount
      ensures prevClientCount == count && PresenceChanges(log) == PresenceChanges(old(log))
      ensures log == old(log) + if count == old(prevClientCount) then [] else [CountLine(old(prevClientCount), count)]
    {
      if count != prevClientCount {
        Log(CountLine(prevClientCount, count));
        prevClientCount := count;
      }
    }

    method NewListed(now: Time, clients: array<Client>, leases: LeaseRead) returns (next: Snapshot)
      ensures fresh(next) && next.at == now && next.iface == iface && next.clients == clients
      ensures next.err == match leases case Unreadable(m) => Some(LeasesError(m)) case _ => None
    {
      next := new Snapshot(now, iface, clients, None);
      if leases.Unreadable? {
        next.err := Some(LeasesError(leases.message));
      }
    }

    method StoreListed(now: Time, clients: array<Client>, leases: LeaseRead)
      requires HistoryKept() && PresenceNoted(true)
      modifies this
      ensures Valid() && fresh(snap) && snap.at == now && snap.clients == clients
      ensures published == old(published) + [snap] && values == old(values) + [snap.Value()]
      ensures outcomes == old(outcomes) + [Listed(clients[..], LeasesFailure(leases))]
      ensures log == old(log) + FetchLines(old(outcomes), outcomes[|outcomes| - 1])
    {
      var next := NewListed(now, clients, leases);
      NoteCount(clients.Length);
      Store(next, Listed(clients[..], LeasesFailure(leases)));
      OutcomeMore(old(outcomes), Listed(clients[..], LeasesFailure(leases)));
    }

    /** The part of `refresh` that runs `iw` and reads the leases. */
    method FetchAndStore(now: Time, iw: Result<string>, leases: LeaseRead) returns (ghost o: Outcome)
      requires HistoryKept() && PresenceNoted(true)
      modifies this
      ensures Valid() && fresh(snap) && snap.at == now
      ensures published == old(published) + [snap] && values == old(values) + [snap.Value()]
      ensures outcomes == old(outcomes) + [o] && Describes(o, true, iw, leases)
      ensures log == old(log) + FetchLines(old(outcomes), o)
    {
      if iw.Err? {
        StoreIwFailure(now, iw.error);
        return IwFailed(iw.error);
      }
      var clients := Collect(iw.value, leases);
      assert HistoryKept();
      StoreListed(now, clients, leases);
      return Listed(clients[..], LeasesFailure(leases));
    }

    /** The body of `refresh`, after a failed re-check. */
    method StoreOutcome(now: Time, present: bool, iw: Result<string>, leases: LeaseRead) returns (ghost o: Outcome)
      requires Valid()
      modifies this
      ensures Valid() && fresh(snap) && snap.at == now
      ensures published == old(published) + [snap] && values == old(values) + [snap.Value()]
      ensures outcomes == old(outcomes) + [o] && Describes(o, present, iw, leases)
      ensures log == old(log) + LinesFor(old(outcomes), o)
    {
      NotePresence(present);
      if present {
        o := FetchAndStore(now, iw, leases);
      } else {
        StoreAbsent(now);
        o := Absent;
      }
      Seqs.Assoc(old(log), PresenceLines(old(prevAbsent), !present), FetchLines(old(outcomes), o));
    }

    method RefreshStale(now: Time, present: bool, iw: Result<string>, leases: LeaseRead) returns (ghost o: Outcome)
      requires Valid()
      modifies this
      ensures Valid() && fresh(snap) && snap.at == now
      ensures published == old(published) + [snap] && values == old(values) + [snap.Value()]
      ensures outcomes == old(outcomes) + [o] && Describes(o, present, iw, leases)
      ensures log == old(log) + LinesFor(old(outcomes), o)
      ensures Shows(old(snap.Value().data), snap.Value().data, present, iw, leases)
    {
      o := StoreOutcome(now, present, iw, leases);
      FollowsShows(ttl, iface, old(values), old(outcomes), snap.Value(), o, present, iw, leases);
    }

    /**
     `refresh`, given its two clock readings and what the commands return. Only the collector's own
     fields change: no snapshot published earlier does, although a failed refresh shares its clients.
     */
    method Refresh(recheck: Time, now: Time, present: bool, iw: Result<string>, leases: LeaseRead)
      requires Valid()
      modifies this
      ensures Valid()
      ensures Sub(recheck, old(lastAt)) < ttl ==> unchanged(this)
      ensures Sub(recheck, old(lastAt)) >= ttl ==>
        && published == old(published) + [snap] && fresh(snap) && snap.at == lastAt == now
        && values == old(values) + [snap.Value()]
        && outcomes != [] && outcomes[..|outcomes| - 1] == old(outcomes)
        && Describes(outcomes[|outcomes| - 1], present, iw, leases)
        && Shows(old(snap.Value().data), snap.Value().data, present, iw, leases)
        && log == old(log) + LinesFor(old(outcomes), outcomes[|outcomes| - 1])
      ensures forall k :: 0 <= k < |old(published)| ==>
        published[k] == old(published)[k] && published[k].Value() == old(published[k].Value())
    {
      if Sub(recheck, lastAt) < ttl {
        return;
      }
      ghost var o := RefreshStale(now, present, iw, leases);
    }

    /** `Snapshot` with no other thread about: refreshes a stale cache, then loads. */
    method GetSnapshot(first: Time, recheck: Time, now: Time, present: bool, iw: Result<string>, leases: LeaseRead) returns (s: Snapshot)
      requires Valid()
      modifies this
      ensures Valid() && s == snap
      ensures Sub(first, old(lastAt)) < ttl ==> unchanged(this)
      ensures Sub(first, old(lastAt)) >= ttl && Sub(recheck, old(lastAt)) >= ttl ==>
        Shows(old(snap.Value().data), s.Value().data, present, iw, leases)
      ensures ValidTtl(ttl) && first <= recheck <= now ==> lastAt <= s.at && s.at > first - ttl
    {
      var age := Sub(first, lastAt);
      if age >= ttl {
        Refresh(recheck, now, present, iw, leases);
      }
      s := snap;
    }

    /** The absence flag is set exactly when the published error says so; the log lines about it alternate. */
    lemma AbsenceIsPublished()
      requires Valid()
      ensures prevAbsent <==> snap.err == Some(InterfaceAbsent)
      ensures forall i :: 0 <= i < |PresenceChanges(log)| ==> PresenceChanges(log)[i] == (i % 2 == 0)
      ensures prevAbsent <==> |PresenceChanges(log)| % 2 == 1
    {
      FoldIsLastGood(ttl, outcomes);
      assert snap.Value() == values[|outcomes|] && outcomes[..|outcomes|] == outcomes;
    }
  }
}
