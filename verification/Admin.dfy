/** The admin-interface collector: the same protocol, with retention field by field. */
module Admin {
  import opened Clock
  import opened Results
  import opened IpTool
  import opened Transitions
  import LazyRefresh

  datatype Info = Info(iface: string, ip: string, gateway: string, link: bool)

  datatype FetchError =
    | InterfaceAbsent
    | AddrError(message: string, operstate: Option<string>)
    | OperstateError(message: string)

  datatype Data = Data(info: Info, err: Option<FetchError>)

  /** `link` and `operstate` are what reading the operstate gave: the flag, and the error if it failed. */
  datatype Outcome =
    | Absent
    | AddrFailed(link: bool, operstate: Option<string>, message: string)
    | Fetched(link: bool, operstate: Option<string>, ip: string, gateway: string)

  function Publish(iface: string, prev: Data, o: Outcome): Data {
    match o
    case Absent => Data(Info(iface, "", "", false), Some(InterfaceAbsent))
    case AddrFailed(link, operstate, m) =>
      Data(Info(iface, prev.info.ip, prev.info.gateway, link), Some(AddrError(m, operstate)))
    case Fetched(link, None, ip, gateway) => Data(Info(iface, ip, gateway, link), None)
    case Fetched(link, Some(m), ip, gateway) => Data(Info(iface, ip, gateway, link), Some(OperstateError(m)))
  }

  function Protocol(iface: string, ttl: int): LazyRefresh.Config<Data, Outcome> {
    LazyRefresh.Config(ttl, Data(Info(iface, "", "", false), None), (prev, o) => Publish(iface, prev, o))
  }

  // ----- The reference

  /** Address and gateway of the latest outcome that did not fail to get the address; both empty at first. */
  function LastAddress(outcomes: seq<Outcome>): (string, string) {
    if outcomes == [] then ("", "")
    else
      match outcomes[|outcomes| - 1]
      case Absent => ("", "")
      case AddrFailed(_, _, _) => LastAddress(outcomes[..|outcomes| - 1])
      case Fetched(_, _, ip, gateway) => (ip, gateway)
  }

  /** The link flag depends on the latest refresh alone. */
  function LatestLink(outcomes: seq<Outcome>): bool {
    outcomes != [] && !outcomes[|outcomes| - 1].Absent? && outcomes[|outcomes| - 1].link
  }

  function LastError(outcomes: seq<Outcome>): Option<FetchError> {
    if outcomes == [] then None
    else
      match outcomes[|outcomes| - 1]
      case Absent => Some(InterfaceAbsent)
      case AddrFailed(_, operstate, m) => Some(AddrError(m, operstate))
      case Fetched(_, Some(m), _, _) => Some(OperstateError(m))
      case Fetched(_, None, _, _) => None
  }

  /** Link and address of the latest refresh that got the address, as the change log compares them. */
  function LastFetched(outcomes: seq<Outcome>): (bool, string) {
    if outcomes == [] then (false, "")
    else
      match outcomes[|outcomes| - 1]
      case Fetched(link, _, ip, _) => (link, ip)
      case _ => LastFetched(outcomes[..|outcomes| - 1])
  }

  /** After any history, the published fold keeps address and gateway together and takes the link from the latest outcome. */
  lemma {:induction false} FoldIsLastAddress(iface: string, ttl: int, outcomes: seq<Outcome>)
    ensures LazyRefresh.Folded(Protocol(iface, ttl), outcomes) ==
      Data(Info(iface, LastAddress(outcomes).0, LastAddress(outcomes).1, LatestLink(outcomes)), LastError(outcomes))
    decreases |outcomes|
  {
    if outcomes != [] {
      FoldIsLastAddress(iface, ttl, outcomes[..|outcomes| - 1]);
    }
  }

  /** Whatever the threads do, the snapshot is the reference fold. */
  lemma SnapshotShowsLastAddress(iface: string, ttl: int, clock: Time, threads: nat, acts: seq<LazyRefresh.Action<Outcome>>)
    requires ValidTtl(ttl) && clock >= ZERO_TIME
    ensures
      var c := Protocol(iface, ttl);
      var s := LazyRefresh.Exec(c, LazyRefresh.Init(c, clock, threads), acts);
      s.snap.data ==
        Data(Info(iface, LastAddress(s.outcomes).0, LastAddress(s.outcomes).1, LatestLink(s.outcomes)), LastError(s.outcomes))
  {
    var c := Protocol(iface, ttl);
    LazyRefresh.PublishedIsFold(c, clock, threads, acts);
    FoldIsLastAddress(iface, ttl, LazyRefresh.Exec(c, LazyRefresh.Init(c, clock, threads), acts).outcomes);
  }

  // ----- What the documentation promises instead

  /**
   A failed refresh keeps the previous information exactly when it found the same link, and the same
   address and gateway where it got those; an absent interface counts as one with nothing.
   */
  lemma RetainedExactlyWhen(iface: string, ttl: int, outcomes: seq<Outcome>, o: Outcome)
    requires LastError(outcomes + [o]).Some?
    ensures
      var before := LazyRefresh.Folded(Protocol(iface, ttl), outcomes).info;
      var after := LazyRefresh.Folded(Protocol(iface, ttl), outcomes + [o]).info;
      after == before <==>
        match o
        case Absent => LastAddress(outcomes) == ("", "") && !LatestLink(outcomes)
        case AddrFailed(link, _, _) => link == LatestLink(outcomes)
        case Fetched(link, _, ip, gateway) => (ip, gateway) == LastAddress(outcomes) && link == LatestLink(outcomes)
  {
    FoldIsLastAddress(iface, ttl, outcomes);
    FoldIsLastAddress(iface, ttl, outcomes + [o]);
    assert (outcomes + [o])[..|outcomes|] == outcomes;
  }

  /** A link that goes down while the address cannot be read: the link shown is not the previous one. */
  lemma RetainedFails(iface: string, ttl: int)
    ensures
      var good := Fetched(true, None, "10.0.0.5", "10.0.0.1");
      var bad := AddrFailed(false, None, "no address");
      && LazyRefresh.Folded(Protocol(iface, ttl), [good]).info.link
      && !LazyRefresh.Folded(Protocol(iface, ttl), [good, bad]).info.link
  {
    var good := Fetched(true, None, "10.0.0.5", "10.0.0.1");
    FoldIsLastAddress(iface, ttl, [good]);
    FoldIsLastAddress(iface, ttl, [good, AddrFailed(false, None, "no address")]);
  }

  // ----- One refresh

  /** The route is not fatal: when it cannot be fetched the gateway is empty. */
  function OutcomeOf(iface: string, present: bool, operstate: Result<string>, addr: Result<AddrDoc>, route: Result<RouteDoc>): Outcome {
    if !present then Absent
    else
      var link := operstate == Ok("up");
      var opErr := match operstate case Ok(_) => None case Err(m) => Some(m);
      match addr
      case Err(m) => AddrFailed(link, opErr, m)
      case Ok(a) => Fetched(link, opErr, AddressOf(a), match route case Ok(r) => GatewayOf(r, iface) case Err(_) => "")
  }

  // ----- What a refresh shows, read off its inputs

  /** Nothing without the interface; else the link of this refresh, with the first address and gateway or the previous ones. */
  ghost predicate Shows(iface: string, prev: Data, next: Data, present: bool, operstate: Result<string>,
                        addr: Result<AddrDoc>, route: Result<RouteDoc>) {
    && next.info.iface == iface
    && if !present then
         next.info.ip == "" && next.info.gateway == "" && !next.info.link && next.err == Some(InterfaceAbsent)
       else
         && (next.info.link <==> operstate.Ok? && operstate.value == "up")
         && match addr
            case Err(m) =>
              && next.info.ip == prev.info.ip && next.info.gateway == prev.info.gateway
              && next.err == Some(AddrError(m, if operstate.Err? then Some(operstate.error) else None))
            case Ok(a) =>
              && FirstIPv4(a, next.info.ip)
              && (if route.Ok? then FirstHop(route.value, iface, next.info.gateway) else next.info.gateway == "")
              && next.err == if operstate.Err? then Some(OperstateError(operstate.error)) else None
  }

  /** The outcome of a refresh, published, shows what its inputs say. */
  lemma PublishedShows(iface: string, prev: Data, present: bool, operstate: Result<string>,
                       addr: Result<AddrDoc>, route: Result<RouteDoc>)
    ensures Shows(iface, prev, Publish(iface, prev, OutcomeOf(iface, present, operstate, addr, route)),
                  present, operstate, addr, route)
  {
    if addr.Ok? {
      ScansFindFirst(addr.value, if route.Ok? then route.value else None, iface);
    }
  }

  datatype LogLine = AbsentLine | PresentLine | StateLine(link: bool, ip: string, gateway: string)

  function PresenceChanges(log: seq<LogLine>): seq<bool> {
    if log == [] then []
    else
      var front := PresenceChanges(log[..|log| - 1]);
      match log[|log| - 1]
      case AbsentLine => front + [true]
      case PresentLine => front + [false]
      case StateLine(_, _, _) => front
  }

  function StateChanges(log: seq<LogLine>): seq<(bool, string)> {
    if log == [] then []
    else
      var front := StateChanges(log[..|log| - 1]);
      match log[|log| - 1]
      case StateLine(link, ip, _) => front + [(link, ip)]
      case _ => front
  }

  lemma LogMore(log: seq<LogLine>, line: LogLine)
    ensures PresenceChanges(log + [line]) == PresenceChanges(log) +
      match line case AbsentLine => [true] case PresentLine => [false] case _ => []
    ensures StateChanges(log + [line]) == StateChanges(log) +
      match line case StateLine(link, ip, _) => [(link, ip)] case _ => []
  {
    assert (log + [line])[..|log|] == log;
  }

  /** The lines a refresh logs about the interface's presence, if that changed. */
  function PresenceLines(wasAbsent: bool, absent: bool): seq<LogLine> {
    if absent == wasAbsent then [] else if absent then [AbsentLine] else [PresentLine]
  }

  /** The line a refresh logs when the link or the address it fetched differs from the one fetched before. */
  function StateLines(before: (bool, string), o: Outcome): seq<LogLine> {
    if o.Fetched? && (o.link, o.ip) != before then [StateLine(o.link, o.ip, o.gateway)] else []
  }

  class Collector {
    const iface: string
    const ttl: int
    var lastAt: Time
    var snap: LazyRefresh.Snap<Data>
    var prevLink: bool
    var prevIP: string
    var prevAbsent: bool
    var log: seq<LogLine>
    ghost var outcomes: seq<Outcome>

    /** The flags in agreement with the log. */
    ghost predicate FlagsKept(absent: bool, fetched: (bool, string))
      reads this
    {
      && prevAbsent == absent && Alternating(PresenceChanges(log), prevAbsent)
      && (prevLink, prevIP) == fetched && Tracks((false, ""), StateChanges(log), fetched)
    }

    ghost predicate Valid()
      reads this
    {
      && snap.data == LazyRefresh.Folded(Protocol(iface, ttl), outcomes) && lastAt <= snap.at
      && FlagsKept(LastError(outcomes) == Some(InterfaceAbsent), LastFetched(outcomes))
    }

    constructor (iface: string, ttl: int, clock: Time)
      requires clock >= ZERO_TIME
      ensures Valid() && this.iface == iface && this.ttl == ttl
      ensures lastAt == ZERO_TIME && outcomes == [] && log == [] && snap.at == clock
    {
      this.iface, this.ttl := iface, ttl;
      lastAt, snap := ZERO_TIME, LazyRefresh.Snap(clock, Data(Info(iface, "", "", false), None));
      prevLink, prevIP, prevAbsent := false, "", false;
      log, outcomes := [], [];
    }

    method NotePresence(present: bool)
      requires FlagsKept(prevAbsent, (prevLink, prevIP))
      modifies this`log, this`prevAbsent
      ensures FlagsKept(!present, (prevLink, prevIP))
      ensures log == old(log) + PresenceLines(old(prevAbsent), !present)
    {
      RecordAlternates(PresenceChanges(log), prevAbsent, !present);
      if !present {
        if !prevAbsent {
          LogMore(log, AbsentLine);
          log := log + [AbsentLine];
          prevAbsent := true;
        }
      } else if prevAbsent {
        LogMore(log, PresentLine);
        log := log + [PresentLine];
        prevAbsent := false;
      }
    }

    method NoteState(info: Info)
      requires FlagsKept(false, (prevLink, prevIP))
      modifies this`log, this`prevLink, this`prevIP
      ensures FlagsKept(false, (info.link, info.ip))
      ensures log == old(log) +
        if (info.link, info.ip) == old((prevLink, prevIP)) then [] else [StateLine(info.link, info.ip, info.gateway)]
    {
      if info.link != prevLink || info.ip != prevIP {
        var line := StateLine(info.link, info.ip, info.gateway);
        LogMore(log, line);
        TracksMore((false, ""), StateChanges(log), (prevLink, prevIP), (info.link, info.ip));
        log := log + [line];
        prevLink := info.link;
        prevIP := info.ip;
      }
    }

    /** The part of `refresh` for an interface that is present. */
    method Fetch(now: Time, operstate: Result<string>, addr: Result<AddrDoc>, route: Result<RouteDoc>)
      requires FlagsKept(false, (prevLink, prevIP))
      modifies this`snap, this`lastAt, this`log, this`prevLink, this`prevIP
      ensures snap.at == lastAt == now
      ensures
        var o := OutcomeOf(iface, true, operstate, addr, route);
        && snap.data == Publish(iface, old(snap).data, o)
        && FlagsKept(false, if o.Fetched? then (o.link, o.ip) else old((prevLink, prevIP)))
        && log == old(log) + StateLines(old((prevLink, prevIP)), o)
      ensures Shows(iface, old(snap.data), snap.data, true, operstate, addr, route)
    {
      PublishedShows(iface, snap.data, true, operstate, addr, route);
      var prev := snap;
      var info := Info(iface, "", "", false);
      info := info.(link := operstate.Ok? && operstate.value == "up");
      var opErr := match operstate case Ok(_) => None case Err(m) => Some(m);
      if addr.Err? {
        info := info.(ip := prev.data.info.ip, gateway := prev.data.info.gateway);
        snap := LazyRefresh.Snap(now, Data(info, Some(AddrError(addr.error, opErr))));
        lastAt := now;
        return;
      }
      var ip := ParseIPAddr(addr.value);
      info := info.(ip := ip);
      if route.Ok? {
        var gateway := ParseIPRoute(route.value, iface);
        info := info.(gateway := gateway);
      }
      NoteState(info);
      var err := match opErr case Some(m) => Some(OperstateError(m)) case None => None;
      snap := LazyRefresh.Snap(now, Data(info, err));
      lastAt := now;
    }

    /** `refresh`, given its two clock readings and what the reads and commands return. */
    method Refresh(recheck: Time, now: Time, present: bool, operstate: Result<string>,
                   addr: Result<AddrDoc>, route: Result<RouteDoc>)
      requires Valid()
      modifies this
      ensures Valid()
      ensures Sub(recheck, old(lastAt)) < ttl ==> unchanged(this)
      ensures Sub(recheck, old(lastAt)) >= ttl ==>
        && outcomes == old(outcomes) + [OutcomeOf(iface, present, operstate, addr, route)]
        && snap.at == lastAt == now
        && Shows(iface, old(snap.data), snap.data, present, operstate, addr, route)
        && log == old(log) + PresenceLines(old(prevAbsent), !present) +
             StateLines(old((prevLink, prevIP)), OutcomeOf(iface, present, operstate, addr, route))
    {
      if Sub(recheck, lastAt) < ttl {
        return;
      }
      ghost var o := OutcomeOf(iface, present, operstate, addr, route);
      LazyRefresh.FoldedMore(Protocol(iface, ttl), outcomes, o);
      assert (outcomes + [o])[..|outcomes|] == outcomes;
      NotePresence(present);
      if !present {
        snap := LazyRefresh.Snap(now, Data(Info(iface, "", "", false), Some(InterfaceAbsent)));
        lastAt := now;
      } else {
        Fetch(now, operstate, addr, route);
      }
      outcomes := outcomes + [o];
    }

    /** `Snapshot` with no other thread about: refreshes a stale cache, then loads. */
    method GetSnapshot(first: Time, recheck: Time, now: Time, present: bool, operstate: Result<string>,
                       addr: Result<AddrDoc>, route: Result<RouteDoc>) returns (s: LazyRefresh.Snap<Data>)
      requires Valid()
      modifies this
      ensures Valid() && s == snap
      ensures Sub(first, old(lastAt)) < ttl ==> unchanged(this)
      ensures Sub(first, old(lastAt)) >= ttl && Sub(recheck, old(lastAt)) >= ttl ==>
        Shows(iface, old(snap.data), s.data, present, operstate, addr, route)
      ensures ValidTtl(ttl) && first <= recheck <= now ==> lastAt <= s.at && s.at > first - ttl
    {
      var age := Sub(first, lastAt);
      if age >= ttl {
        Refresh(recheck, now, present, operstate, addr, route);
      }
      s := snap;
    }

    /** The absence flag is set exactly when the published error says so; the log lines about it alternate. */
    lemma AbsenceIsPublished()
      requires Valid()
      ensures prevAbsent <==> snap.data.err == Some(InterfaceAbsent)
      ensures forall i :: 0 <= i < |PresenceChanges(log)| ==> PresenceChanges(log)[i] == (i % 2 == 0)
      ensures prevAbsent <==> |PresenceChanges(log)| % 2 == 1
    {
      FoldIsLastAddress(iface, ttl, outcomes);
    }
  }
}
