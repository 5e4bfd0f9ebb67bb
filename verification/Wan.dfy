/** The WAN collector: its outcome machine, and the refresh that drives it. */
module Wan {
  import opened Clock
  import opened Results
  import opened Text
  import opened WanLink
  import opened IpTool
  import opened Transitions
  import LazyRefresh

  datatype Info = Info(
    iface: string, interfacePresent: bool, supplicantActive: bool, connected: bool,
    ssid: string, bssid: string, signalDBm: int64, freqMHz: int, txBitrateMbps: real,
    ip: string, gateway: string)

  function BareInfo(iface: string): Info {
    Info(iface, false, false, false, "", "", 0, 0, 0.0, "", "")
  }

  datatype FetchError = InterfaceAbsent | IwError(message: string) | AddrError(message: string) | RouteError(message: string)

  datatype Data = Data(info: Info, err: Option<FetchError>)

  datatype Outcome =
    | Absent
    | IwFailed(message: string)
    | Disconnected(supplicant: bool)
    | AddrFailed(link: Link, message: string)
    | RouteFailed(link: Link, message: string)
    | Connected(link: Link, supplicant: bool, ip: string, gateway: string)

  /** The information of a refresh that went all the way. */
  function ConnectedInfo(iface: string, link: Link, supplicant: bool, ip: string, gateway: string): Info {
    Info(iface, true, supplicant, true, link.ssid, link.bssid, link.signalDBm, link.freqMHz, link.txBitrateMbps, ip, gateway)
  }

  function Publish(iface: string, prev: Data, o: Outcome): Data {
    match o
    case Absent => Data(BareInfo(iface), Some(InterfaceAbsent))
    case IwFailed(m) => Data(prev.info, Some(IwError(m)))
    case Disconnected(supplicant) => Data(BareInfo(iface).(interfacePresent := true, supplicantActive := supplicant), None)
    case AddrFailed(_, m) => Data(prev.info, Some(AddrError(m)))
    case RouteFailed(_, m) => Data(prev.info, Some(RouteError(m)))
    case Connected(link, supplicant, ip, gateway) => Data(ConnectedInfo(iface, link, supplicant, ip, gateway), None)
  }

  function Protocol(iface: string, ttl: int): LazyRefresh.Config<Data, Outcome> {
    LazyRefresh.Config(ttl, Data(BareInfo(iface), None), (prev, o) => Publish(iface, prev, o))
  }

  // ----- The reference

  predicate Failed(o: Outcome) {
    o.IwFailed? || o.AddrFailed? || o.RouteFailed?
  }

  /** What an outcome that did not fail says about the interface. */
  function InfoOf(iface: string, o: Outcome): Info
    requires !Failed(o)
  {
    match o
    case Absent => BareInfo(iface)
    case Disconnected(supplicant) => BareInfo(iface).(interfacePresent := true, supplicantActive := supplicant)
    case Connected(link, supplicant, ip, gateway) => ConnectedInfo(iface, link, supplicant, ip, gateway)
  }

  /** The index of the latest outcome that did not fail, -1 if all did. */
  function LatestGood(outcomes: seq<Outcome>): (g: int)
    ensures -1 <= g < |outcomes|
    ensures g >= 0 ==> !Failed(outcomes[g])
    ensures forall i :: g < i < |outcomes| ==> Failed(outcomes[i])
  {
    if outcomes == [] then -1
    else if !Failed(outcomes[|outcomes| - 1]) then |outcomes| - 1
    else LatestGood(outcomes[..|outcomes| - 1])
  }

  /** The last good information: from the latest outcome that did not fail, else the initial one. */
  function LastGood(iface: string, outcomes: seq<Outcome>): Info {
    var g := LatestGood(outcomes);
    if g < 0 then BareInfo(iface) else InfoOf(iface, outcomes[g])
  }

  function LastError(outcomes: seq<Outcome>): Option<FetchError> {
    if outcomes == [] then None
    else
      match outcomes[|outcomes| - 1]
      case Absent => Some(InterfaceAbsent)
      case IwFailed(m) => Some(IwError(m))
      case AddrFailed(_, m) => Some(AddrError(m))
      case RouteFailed(_, m) => Some(RouteError(m))
      case _ => None
  }

  /** The network of a link state that an outcome reports, None if disconnected; else the one before. */
  function LinkAfter(before: Option<string>, o: Outcome): Option<string> {
    match o
    case Absent => before
    case IwFailed(_) => before
    case Disconnected(_) => None
    case AddrFailed(link, _) => Some(link.ssid)
    case RouteFailed(link, _) => Some(link.ssid)
    case Connected(link, _, _, _) => Some(link.ssid)
  }

  /** The network of the latest link state that was read, whether or not it was published. */
  function LastLink(outcomes: seq<Outcome>): Option<string> {
    if outcomes == [] then None else LinkAfter(LastLink(outcomes[..|outcomes| - 1]), outcomes[|outcomes| - 1])
  }

  /** After any history, the published fold is the last good information with the latest error. */
  lemma {:induction false} FoldIsLastGood(iface: string, ttl: int, outcomes: seq<Outcome>)
    ensures LazyRefresh.Folded(Protocol(iface, ttl), outcomes) == Data(LastGood(iface, outcomes), LastError(outcomes))
    decreases |outcomes|
  {
    if outcomes != [] {
      FoldIsLastGood(iface, ttl, outcomes[..|outcomes| - 1]);
    }
  }

  lemma HistoryMore(iface: string, ttl: int, outcomes: seq<Outcome>, o: Outcome)
    ensures LazyRefresh.Folded(Protocol(iface, ttl), outcomes + [o]) ==
      Publish(iface, LazyRefresh.Folded(Protocol(iface, ttl), outcomes), o)
    ensures LastLink(outcomes + [o]) == LinkAfter(LastLink(outcomes), o)
    ensures LastError(outcomes + [o]) == Some(InterfaceAbsent) <==> o.Absent?
  {
    LazyRefresh.FoldedMore(Protocol(iface, ttl), outcomes, o);
    assert (outcomes + [o])[..|outcomes|] == outcomes;
  }

  /** Not connected means that nothing of an earlier association is shown. */
  predicate NothingStale(info: Info) {
    info.connected ||
    (info.ssid == "" && info.bssid == "" && info.signalDBm == 0 && info.freqMHz == 0 && info.txBitrateMbps == 0.0
     && info.ip == "" && info.gateway == "")
  }

  /** Whatever the threads do, the snapshot is the reference fold, and a disconnected one is cleared. */
  lemma SnapshotShowsLastGood(iface: string, ttl: int, clock: Time, threads: nat, acts: seq<LazyRefresh.Action<Outcome>>)
    requires ValidTtl(ttl) && clock >= ZERO_TIME
    ensures
      var c := Protocol(iface, ttl);
      var s := LazyRefresh.Exec(c, LazyRefresh.Init(c, clock, threads), acts);
      && s.snap.data == Data(LastGood(iface, s.outcomes), LastError(s.outcomes))
      && NothingStale(s.snap.data.info)
      && s.snap.data.info.iface == iface
  {
    var c := Protocol(iface, ttl);
    LazyRefresh.PublishedIsFold(c, clock, threads, acts);
    FoldIsLastGood(iface, ttl, LazyRefresh.Exec(c, LazyRefresh.Init(c, clock, threads), acts).outcomes);
  }

  /** A run of failures, however long, changes the error and nothing else. */
  lemma FailuresKeepInfo(iface: string, outcomes: seq<Outcome>, failures: seq<Outcome>)
    requires forall i :: 0 <= i < |failures| ==> Failed(failures[i])
    ensures LastGood(iface, outcomes + failures) == LastGood(iface, outcomes)
  {
    var all := outcomes + failures;
    var g := LatestGood(outcomes);
    assert forall i :: |outcomes| <= i < |all| ==> all[i] == failures[i - |outcomes|];
    assert forall i :: 0 <= i < |outcomes| ==> all[i] == outcomes[i];
    if g >= 0 {
      assert !Failed(all[g]);
    }
    assert LatestGood(all) == g;
  }

  // ----- What the documentation promises instead

  predicate Succeeded(o: Outcome) {
    o.Disconnected? || o.Connected?
  }

  /** The information of the latest refresh without an error, else the initial one. */
  function LastSuccess(iface: string, outcomes: seq<Outcome>): Info {
    if outcomes == [] then BareInfo(iface)
    else if Succeeded(outcomes[|outcomes| - 1]) then InfoOf(iface, outcomes[|outcomes| - 1])
    else LastSuccess(iface, outcomes[..|outcomes| - 1])
  }

  predicate AnySucceeded(outcomes: seq<Outcome>) {
    outcomes != [] && (Succeeded(outcomes[|outcomes| - 1]) || AnySucceeded(outcomes[..|outcomes| - 1]))
  }

  /** Every success shows the interface as present. */
  lemma {:induction false} SuccessShowsPresent(iface: string, outcomes: seq<Outcome>)
    ensures LastSuccess(iface, outcomes).interfacePresent <==> AnySucceeded(outcomes)
  {
    if outcomes != [] {
      SuccessShowsPresent(iface, outcomes[..|outcomes| - 1]);
    }
  }

  /**
   The information shown is that of the last successful refresh exactly when the latest outcome that is
   not a failed command is no absence, or comes before any success: an absent interface blanks it.
   */
  lemma {:induction false} DocumentedExactlyWhen(iface: string, outcomes: seq<Outcome>)
    ensures LastGood(iface, outcomes) == LastSuccess(iface, outcomes) <==>
      var g := LatestGood(outcomes);
      g < 0 || !outcomes[g].Absent? || !AnySucceeded(outcomes[..g])
  {
    if outcomes != [] {
      var front := outcomes[..|outcomes| - 1];
      SuccessShowsPresent(iface, front);
      if Failed(outcomes[|outcomes| - 1]) {
        DocumentedExactlyWhen(iface, front);
        assert LatestGood(front) >= 0 ==> outcomes[..LatestGood(front)] == front[..LatestGood(front)];
      } else {
        NothingIsBare(iface, front);
      }
    }
  }

  lemma {:induction false} NothingIsBare(iface: string, outcomes: seq<Outcome>)
    ensures !AnySucceeded(outcomes) ==> LastSuccess(iface, outcomes) == BareInfo(iface)
  {
    if outcomes != [] {
      NothingIsBare(iface, outcomes[..|outcomes| - 1]);
    }
  }

  /** Two outcomes after which it is not. */
  lemma DocumentedFails(iface: string)
    ensures LastError([Disconnected(true), Absent]) == Some(InterfaceAbsent)
    ensures LastSuccess(iface, [Disconnected(true), Absent]).interfacePresent
    ensures LastGood(iface, [Disconnected(true), Absent]) == BareInfo(iface)
  {
    var before := [Disconnected(true)];
    assert (before + [Absent])[..1] == before;
    assert LastSuccess(iface, before + [Absent]) == LastSuccess(iface, before);
  }

  // ----- One refresh

  /** What a link found connected leads to, with the results of the two commands that follow. */
  function AddressOutcome(iface: string, link: Link, supplicant: bool, addr: Result<AddrDoc>, route: Result<RouteDoc>): Outcome {
    match (addr, route)
    case (Err(m), _) => AddrFailed(link, m)
    case (Ok(_), Err(m)) => RouteFailed(link, m)
    case (Ok(a), Ok(r)) => Connected(link, supplicant, AddressOf(a), GatewayOf(r, iface))
  }

  function LinkOutcome(iface: string, link: Link, supplicant: bool, addr: Result<AddrDoc>, route: Result<RouteDoc>): Outcome {
    if link.connected then AddressOutcome(iface, link, supplicant, addr, route) else Disconnected(supplicant)
  }

  /** What the commands of one refresh amount to; those after a failed one are not run. */
  function OutcomeOf(iface: string, present: bool, iw: Result<string>, supplicant: bool,
                     addr: Result<AddrDoc>, route: Result<RouteDoc>, parse: FloatParser): Outcome {
    if !present then Absent
    else
      match iw
      case Err(m) => IwFailed(m)
      case Ok(raw) => LinkOutcome(iface, LinkOf(ScanLines(raw), parse), supplicant, addr, route)
  }

  // ----- What a refresh shows, read off its inputs

  /** Some line announces an association and none denies it. */
  ghost predicate Announced(lines: seq<string>) {
    && (exists i :: 0 <= i < |lines| && "Connected to " <= Trim(lines[i]))
    && (forall i :: 0 <= i < |lines| ==> !("Not connected" <= Trim(lines[i])))
  }

  /** The values that were printed, each in its own field, with the first address and the first gateway. */
  ghost predicate ShowsAssociation(info: Info, iface: string, lines: seq<string>, supplicant: bool, addr: AddrDoc, route: RouteDoc,
                                   parse: FloatParser) {
    && info.iface == iface && info.interfacePresent && info.connected && info.supplicantActive == supplicant
    && FirstIPv4(addr, info.ip) && FirstHop(route, iface, info.gateway)
    && forall p: Association :: p.Prints(lines) ==>
         && info.ssid == Trim(p.ssid)
         && SameButCase(p.accessPoint, info.bssid) && NoCapitals(info.bssid)
         && info.signalDBm == p.signal
         && WholePart(info.freqMHz, Number(p.freq, parse))
         && info.txBitrateMbps == Number(p.rate, parse)
  }

  /** Nothing but the interface, its presence and the supplicant. */
  predicate ShowsNothing(info: Info, iface: string, present: bool, supplicant: bool) {
    && info.iface == iface && info.interfacePresent == present && info.supplicantActive == supplicant
    && !info.connected && info.ssid == "" && info.bssid == "" && info.signalDBm == 0 && info.freqMHz == 0
    && info.txBitrateMbps == 0.0 && info.ip == "" && info.gateway == ""
  }

  /** What is shown once `iw` has printed these lines. */
  ghost predicate ShowsLink(iface: string, prev: Data, next: Data, lines: seq<string>, supplicant: bool,
                            addr: Result<AddrDoc>, route: Result<RouteDoc>, parse: FloatParser) {
    if !Announced(lines) then ShowsNothing(next.info, iface, true, supplicant) && next.err == None
    else if addr.Err? then next.info == prev.info && next.err == Some(AddrError(addr.error))
    else if route.Err? then next.info == prev.info && next.err == Some(RouteError(route.error))
    else ShowsAssociation(next.info, iface, lines, supplicant, addr.value, route.value, parse) && next.err == None
  }

  /** What is shown after a refresh with these results of its commands. */
  ghost predicate Shows(iface: string, prev: Data, next: Data, present: bool, iw: Result<string>, supplicant: bool,
                        addr: Result<AddrDoc>, route: Result<RouteDoc>, parse: FloatParser) {
    if !present then ShowsNothing(next.info, iface, false, false) && next.err == Some(InterfaceAbsent)
    else if iw.Err? then next.info == prev.info && next.err == Some(IwError(iw.error))
    else ShowsLink(iface, prev, next, ScanLines(iw.value), supplicant, addr, route, parse)
  }

  lemma ConnectedShows(iface: string, lines: seq<string>, supplicant: bool, addr: AddrDoc, route: RouteDoc, parse: FloatParser)
    requires LinkOf(lines, parse).connected
    ensures ShowsAssociation(ConnectedInfo(iface, LinkOf(lines, parse), supplicant, AddressOf(addr), GatewayOf(route, iface)),
                             iface, lines, supplicant, addr, route, parse)
  {
    ScansFindFirst(addr, route, iface);
    forall p: Association | p.Prints(lines)
      ensures Reads(LinkOf(lines, parse), p, parse)
    {
      PrintedLinkReads(p, lines, parse);
    }
  }

  lemma AnnouncedIsConnected(lines: seq<string>, parse: FloatParser)
    ensures Announced(lines) <==> LinkOf(lines, parse).connected
  {
    ConnectedExactlyWhen(lines, parse);
  }

  lemma LinkShows(iface: string, prev: Data, lines: seq<string>, supplicant: bool,
                  addr: Result<AddrDoc>, route: Result<RouteDoc>, parse: FloatParser)
    ensures ShowsLink(iface, prev, Publish(iface, prev, LinkOutcome(iface, LinkOf(lines, parse), supplicant, addr, route)),
                      lines, supplicant, addr, route, parse)
  {
    AnnouncedIsConnected(lines, parse);
    var link := LinkOf(lines, parse);
    if link.connected && addr.Ok? && route.Ok? {
      ConnectedShows(iface, lines, supplicant, addr.value, route.value, parse);
      assert LinkOutcome(iface, link, supplicant, addr, route) ==
        Connected(link, supplicant, AddressOf(addr.value), GatewayOf(route.value, iface));
    }
  }

  /** The outcome of a refresh, published, shows what its inputs say. */
  lemma PublishedShows(iface: string, prev: Data, present: bool, iw: Result<string>, supplicant: bool,
                       addr: Result<AddrDoc>, route: Result<RouteDoc>, parse: FloatParser)
    ensures Shows(iface, prev, Publish(iface, prev, OutcomeOf(iface, present, iw, supplicant, addr, route, parse)),
                  present, iw, supplicant, addr, route, parse)
  {
    if present && iw.Ok? {
      LinkShows(iface, prev, ScanLines(iw.value), supplicant, addr, route, parse);
    }
  }

  datatype LogLine =
    | AbsentLine | PresentLine | IwFailedLine(message: string)
    | DisconnectedLine(was: string) | ConnectedLine(ssid: string, signalDBm: int64, freqMHz: int)

  function PresenceChanges(log: seq<LogLine>): seq<bool> {
    if log == [] then []
    else
      var front := PresenceChanges(log[..|log| - 1]);
      match log[|log| - 1]
      case AbsentLine => front + [true]
      case PresentLine => front + [false]
      case _ => front
  }

  /** The lines about the link: the network, or None for a disconnection. */
  function LinkChanges(log: seq<LogLine>): seq<Option<string>> {
    if log == [] then []
    else
      var front := LinkChanges(log[..|log| - 1]);
      match log[|log| - 1]
      case ConnectedLine(ssid, _, _) => front + [Some(ssid)]
      case DisconnectedLine(_) => front + [None]
      case _ => front
  }

  lemma LogMore(log: seq<LogLine>, line: LogLine)
    ensures PresenceChanges(log + [line]) == PresenceChanges(log) +
      match line case AbsentLine => [true] case PresentLine => [false] case _ => []
    ensures LinkChanges(log + [line]) == LinkChanges(log) +
      match line case ConnectedLine(ssid, _, _) => [Some(ssid)] case DisconnectedLine(_) => [None] case _ => []
  {
    assert (log + [line])[..|log|] == log;
  }

  /** The lines a refresh logs about the interface's presence, if that changed. */
  function PresenceLines(wasAbsent: bool, absent: bool): seq<LogLine> {
    if absent == wasAbsent then [] else if absent then [AbsentLine] else [PresentLine]
  }

  /** The line a refresh logs about the link it read: the lost network, or the new one with its radio values. */
  function LinkLines(before: Option<string>, link: Link): seq<LogLine> {
    if !link.connected then (match before case Some(ssid) => [DisconnectedLine(ssid)] case None => [])
    else if before == Some(link.ssid) then []
    else [ConnectedLine(link.ssid, link.signalDBm, link.freqMHz)]
  }

  /** The lines a refresh logs about `iw`, which runs if the interface is present; `before` is the network read before. */
  function FetchLines(before: Option<string>, present: bool, iw: Result<string>, parse: FloatParser): seq<LogLine> {
    if !present then []
    else
      match iw
      case Err(m) => [IwFailedLine(m)]
      case Ok(raw) => LinkLines(before, LinkOf(ScanLines(raw), parse))
  }

  class Collector {
    const iface: string
    const ttl: int
    const parse: FloatParser
    var lastAt: Time
    var snap: LazyRefresh.Snap<Data>
    var prevConnected: bool
    var prevSSID: string
    var prevAbsent: bool
    var log: seq<LogLine>
    ghost var outcomes: seq<Outcome>

    /** The fields kept between refreshes as one value. */
    function PrevLink(): Option<string>
      reads this
    {
      if prevConnected then Some(prevSSID) else None
    }

    ghost predicate Valid()
      reads this
    {
      && snap.data == LazyRefresh.Folded(Protocol(iface, ttl), outcomes) && lastAt <= snap.at
      && prevAbsent == (LastError(outcomes) == Some(InterfaceAbsent))
      && Alternating(PresenceChanges(log), prevAbsent)
      && PrevLink() == LastLink(outcomes) && (!prevConnected ==> prevSSID == "")
      && Tracks(None, LinkChanges(log), PrevLink())
    }

    constructor (iface: string, ttl: int, parse: FloatParser, clock: Time)
      requires clock >= ZERO_TIME
      ensures Valid() && this.iface == iface && this.ttl == ttl && this.parse == parse
      ensures lastAt == ZERO_TIME && outcomes == [] && log == [] && snap.at == clock
    {
      this.iface, this.ttl, this.parse := iface, ttl, parse;
      lastAt, snap := ZERO_TIME, LazyRefresh.Snap(clock, Data(BareInfo(iface), None));
      prevConnected, prevSSID, prevAbsent := false, "", false;
      log, outcomes := [], [];
    }

    method NotePresence(present: bool)
      requires Alternating(PresenceChanges(log), prevAbsent)
      modifies this`log, this`prevAbsent
      ensures prevAbsent == !present && Alternating(PresenceChanges(log), prevAbsent)
      ensures LinkChanges(log) == LinkChanges(old(log)) && log == old(log) + PresenceLines(old(prevAbsent), !present)
    {
      RecordAlternates(PresenceChanges(log), prevAbsent, !present);
      if !present {
        if !prevAbsent {
          LogMore(log, AbsentLine);
          log := log + [AbsentLine];
          prevAbsent := true;
        }
      } else if prevAbsent {
        LogMore(log, PresentLine);
        log := log + [PresentLine];
        prevAbsent := false;
      }
    }

    /** Logs a change of the link state that was read. */
    method NoteLink(link: Link)
      requires Tracks(None, LinkChanges(log), PrevLink()) && (!prevConnected ==> prevSSID == "")
      modifies this`log, this`prevConnected, this`prevSSID
      ensures Tracks(None, LinkChanges(log), PrevLink()) && (!prevConnected ==> prevSSID == "")
      ensures PrevLink() == if link.connected then Some(link.ssid) else None
      ensures PresenceChanges(log) == PresenceChanges(old(log)) && log == old(log) + LinkLines(old(PrevLink()), link)
    {
      if !link.connected {
        if prevConnected {
          LogMore(log, DisconnectedLine(prevSSID));
          TracksMore(None, LinkChanges(log), PrevLink(), None);
          log := log + [DisconnectedLine(prevSSID)];
          prevConnected := false;
          prevSSID := "";
        }
        return;
      }
      if !prevConnected || link.ssid != prevSSID {
        var line := ConnectedLine(link.ssid, link.signalDBm, link.freqMHz);
        LogMore(log, line);
        TracksMore(None, LinkChanges(log), PrevLink(), Some(link.ssid));
        log := log + [line];
        prevConnected := true;
        prevSSID := link.ssid;
      }
    }

    method StoreSuccess(now: Time, info: Info)
      modifies this`snap, this`lastAt
      ensures snap == LazyRefresh.Snap(now, Data(info, None)) && lastAt == now
    {
      snap := LazyRefresh.Snap(now, Data(info, None));
      lastAt := now;
    }

    method StoreFailure(now: Time, prev: LazyRefresh.Snap<Data>, err: FetchError)
      modifies this`snap, this`lastAt
      ensures snap == LazyRefresh.Snap(now, Data(prev.data.info, Some(err))) && lastAt == now
    {
      snap := LazyRefresh.Snap(now, Data(prev.data.info, Some(err)));
      lastAt := now;
    }

    /** The part of `refresh` that follows a link found connected: the address, then the route. */
    method FetchAddresses(now: Time, prev: LazyRefresh.Snap<Data>, link: Link, supplicant: bool,
                          addr: Result<AddrDoc>, route: Result<RouteDoc>)
      modifies this`snap, this`lastAt
      ensures lastAt == now && snap.at == now
      ensures snap.data == Publish(iface, prev.data, AddressOutcome(iface, link, supplicant, addr, route))
      ensures addr.Err? || route.Err? ==> snap.data.info == prev.data.info && snap.data.err.Some?
      ensures addr.Ok? && route.Ok? ==>
        var info := snap.data.info;
        && snap.data.err == None && info.iface == iface && info.interfacePresent && info.connected
        && info.supplicantActive == supplicant && info.ssid == link.ssid && info.bssid == link.bssid
        && info.signalDBm == link.signalDBm && info.freqMHz == link.freqMHz && info.txBitrateMbps == link.txBitrateMbps
        && FirstIPv4(addr.value, info.ip) && FirstHop(route.value, iface, info.gateway)
    {
      var info := BareInfo(iface).(interfacePresent := true, supplicantActive := supplicant, connected := true);
      info := info.(ssid := link.ssid);
      info := info.(bssid := link.bssid);
      info := info.(signalDBm := link.signalDBm);
      info := info.(freqMHz := link.freqMHz);
      info := info.(txBitrateMbps := link.txBitrateMbps);
      if addr.Err? {
        StoreFailure(now, prev, AddrError(addr.error));
        return;
      }
      var ip := ParseIPAddr(addr.value);
      info := info.(ip := ip);
      if route.Err? {
        StoreFailure(now, prev, RouteError(route.error));
        return;
      }
      var gateway := ParseIPRoute(route.value, iface);
      info := info.(gateway := gateway);
      StoreSuccess(now, info);
    }

    /** The flags in the middle of a refresh. */
    ghost predicate FlagsKept(absent: bool, link: Option<string>)
      reads this
    {
      && prevAbsent == absent && Alternating(PresenceChanges(log), prevAbsent)
      && PrevLink() == link && (!prevConnected ==> prevSSID == "") && Tracks(None, LinkChanges(log), PrevLink())
    }

    /** The part of `refresh` that follows a successful `iw`. */
    method FetchLink(now: Time, prev: LazyRefresh.Snap<Data>, link: Link, supplicant: bool,
                     addr: Result<AddrDoc>, route: Result<RouteDoc>)
      requires FlagsKept(false, PrevLink())
      modifies this`snap, this`lastAt, this`log, this`prevConnected, this`prevSSID
      ensures lastAt == now && snap.at == now
      ensures
        var o := LinkOutcome(iface, link, supplicant, addr, route);
        snap.data == Publish(iface, prev.data, o) && FlagsKept(false, LinkAfter(old(PrevLink()), o))
      ensures log == old(log) + LinkLines(old(PrevLink()), link)
    {
      NoteLink(link);
      if !link.connected {
        StoreSuccess(now, BareInfo(iface).(interfacePresent := true, supplicantActive := supplicant));
        return;
      }
      FetchAddresses(now, prev, link, supplicant, addr, route);
    }

    method LogIwFailure(message: string)
      modifies this`log
      ensures log == old(log) + [IwFailedLine(message)]
      ensures PresenceChanges(log) == PresenceChanges(old(log)) && LinkChanges(log) == LinkChanges(old(log))
    {
      LogMore(log, IwFailedLine(message));
      log := log + [IwFailedLine(message)];
    }

    /** The part of `refresh` that runs the commands. */
    method FetchAll(now: Time, prev: LazyRefresh.Snap<Data>, iw: Result<string>, supplicant: bool,
                    addr: Result<AddrDoc>, route: Result<RouteDoc>)
      requires FlagsKept(false, PrevLink())
      modifies this`snap, this`lastAt, this`log, this`prevConnected, this`prevSSID
      ensures lastAt == now && snap.at == now
      ensures
        var o := OutcomeOf(iface, true, iw, supplicant, addr, route, parse);
        snap.data == Publish(iface, prev.data, o) && FlagsKept(false, LinkAfter(old(PrevLink()), o))
      ensures log == old(log) + FetchLines(old(PrevLink()), true, iw, parse)
    {
      if iw.Err? {
        LogIwFailure(iw.error);
        StoreFailure(now, prev, IwError(iw.error));
        return;
      }
      var link := ParseIwLink(iw.value, parse);
      FetchLink(now, prev, link, supplicant, addr, route);
    }

    method StoreAbsent(now: Time)
      modifies this`snap, this`lastAt
      ensures snap.data == Publish(iface, old(snap.data), Absent) && lastAt == now && snap.at == now
    {
      snap := LazyRefresh.Snap(now, Data(BareInfo(iface), Some(InterfaceAbsent)));
      lastAt := now;
    }

    /** The body of `refresh`, after a failed re-check. */
    method RefreshStale(now: Time, present: bool, iw: Result<string>, supplicant: bool,
                        addr: Result<AddrDoc>, route: Result<RouteDoc>) returns (ghost o: Outcome)
      requires FlagsKept(prevAbsent, PrevLink())
      modifies this`snap, this`lastAt, this`log, this`prevAbsent, this`prevConnected, this`prevSSID
      ensures lastAt == now && snap.at == now
      ensures o == OutcomeOf(iface, present, iw, supplicant, addr, route, parse)
      ensures snap.data == Publish(iface, old(snap.data), o)
      ensures FlagsKept(!present, LinkAfter(old(PrevLink()), o))
      ensures log == old(log) + PresenceLines(old(prevAbsent), !present) + FetchLines(old(PrevLink()), present, iw, parse)
    {
      o := OutcomeOf(iface, present, iw, supplicant, addr, route, parse);
      var prev := snap;
      NotePresence(present);
      if present {
        FetchAll(now, prev, iw, supplicant, addr, route);
      } else {
        StoreAbsent(now);
      }
    }

    /** `refresh`, given its two clock readings and what the commands return. */
    method Refresh(recheck: Time, now: Time, present: bool, iw: Result<string>, supplicant: bool,
                   addr: Result<AddrDoc>, route: Result<RouteDoc>)
      requires Valid()
      modifies this
      ensures Valid()
      ensures Sub(recheck, old(lastAt)) < ttl ==> unchanged(this)
      ensures Sub(recheck, old(lastAt)) >= ttl ==>
        && outcomes == old(outcomes) + [OutcomeOf(iface, present, iw, supplicant, addr, route, parse)]
        && snap.at == lastAt == now
        && Shows(iface, old(snap.data), snap.data, present, iw, supplicant, addr, route, parse)
        && log == old(log) + PresenceLines(old(prevAbsent), !present) + FetchLines(old(PrevLink()), present, iw, parse)
    {
      if Sub(recheck, lastAt) < ttl {
        return;
      }
      ghost var o := RefreshStale(now, present, iw, supplicant, addr, route);
      PublishedShows(iface, old(snap.data), present, iw, supplicant, addr, route, parse);
      HistoryMore(iface, ttl, outcomes, o);
      outcomes := outcomes + [o];
    }

    /** `Snapshot` with no other thread about: refreshes a stale cache, then loads. */
    method GetSnapshot(first: Time, recheck: Time, now: Time, present: bool, iw: Result<string>, supplicant: bool,
                       addr: Result<AddrDoc>, route: Result<RouteDoc>) returns (s: LazyRefresh.Snap<Data>)
      requires Valid()
      modifies this
      ensures Valid() && s == snap
      ensures Sub(first, old(lastAt)) < ttl ==> unchanged(this)
      ensures Sub(first, old(lastAt)) >= ttl && Sub(recheck, old(lastAt)) >= ttl ==>
        Shows(iface, old(snap.data), s.data, present, iw, supplicant, addr, route, parse)
      ensures ValidTtl(ttl) && first <= recheck <= now ==> lastAt <= s.at && s.at > first - ttl
    {
      var age := Sub(first, lastAt);
      if age >= ttl {
        Refresh(recheck, now, present, iw, supplicant, addr, route);
      }
      s := snap;
    }

    /** The absence flag is set exactly when the published error says so; the log lines about it alternate. */
    lemma AbsenceIsPublished()
      requires Valid()
      ensures prevAbsent <==> snap.data.err == Some(InterfaceAbsent)
      ensures forall i :: 0 <= i < |PresenceChanges(log)| ==> PresenceChanges(log)[i] == (i % 2 == 0)
      ensures prevAbsent <==> |PresenceChanges(log)| % 2 == 1
    {
      FoldIsLastGood(iface, ttl, outcomes);
    }
  }
}
