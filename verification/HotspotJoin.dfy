/** Joining the stations of a dump with the leases, and ordering the result by MAC address. */
module HotspotJoin {
  import opened Results
  import opened Text
  import opened LastWins
  import opened StationDump
  import opened Leases
  import Blocks
  import Seqs

  /** A station with the address and name of its lease, if it has one. */
  function Enriched(c: Client, leases: map<string, Lease>): Client {
    if c.mac in leases then c.(ip := leases[c.mac].ip, hostname := leases[c.mac].hostname) else c
  }

  function Joined(clients: seq<Client>, leases: map<string, Lease>): seq<Client> {
    seq(|clients|, i requires 0 <= i < |clients| => Enriched(clients[i], leases))
  }

  /** No client comes before one with a smaller MAC address. */
  predicate SortedByMac(s: seq<Client>) {
    forall i, j :: 0 <= i < j < |s| ==> !Less(s[j].mac, s[i].mac)
  }

  function Insert(c: Client, s: seq<Client>): seq<Client> {
    if s == [] || !Less(s[0].mac, c.mac) then [c] + s else [s[0]] + Insert(c, s[1..])
  }

  function Ordered(s: seq<Client>): seq<Client> {
    if s == [] then [] else Insert(s[0], Ordered(s[1..]))
  }

  lemma NotLessChains(a: string, b: string, c: string)
    requires !Less(b, a) && !Less(c, b)
    ensures !Less(c, a)
  {
    LessIsTotal(a, b);
    LessIsTotal(b, c);
    if Less(a, b) && Less(b, c) {
      LessIsTransitive(a, b, c);
    }
    LessIsTotal(a, c);
  }

  lemma InsertInFront(c: Client, s: seq<Client>)
    requires SortedByMac(s) && s != [] && !Less(s[0].mac, c.mac)
    ensures SortedByMac([c] + s)
  {
    forall j | 0 <= j < |s|
      ensures !Less(s[j].mac, c.mac)
    {
      if j > 0 {
        NotLessChains(c.mac, s[0].mac, s[j].mac);
      }
    }
  }

  lemma KeepHead(c: Client, s: seq<Client>, rest: seq<Client>)
    requires SortedByMac(s) && s != [] && Less(s[0].mac, c.mac)
    requires SortedByMac(rest) && multiset(rest) == multiset(s[1..]) + multiset{c}
    ensures SortedByMac([s[0]] + rest)
  {
    LessIsTotal(s[0].mac, c.mac);
    forall j | 0 <= j < |rest|
      ensures !Less(rest[j].mac, s[0].mac)
    {
      assert rest[j] in multiset(rest);
      assert rest[j] == c || rest[j] in s[1..];
    }
  }

  lemma {:induction false} InsertSorts(c: Client, s: seq<Client>)
    requires SortedByMac(s)
    ensures SortedByMac(Insert(c, s)) && multiset(Insert(c, s)) == multiset(s) + multiset{c}
  {
    if s == [] {
    } else if !Less(s[0].mac, c.mac) {
      InsertInFront(c, s);
    } else {
      InsertSorts(c, s[1..]);
      KeepHead(c, s, Insert(c, s[1..]));
      assert s == [s[0]] + s[1..];
    }
  }

  lemma {:induction false} OrderedSorts(s: seq<Client>)
    ensures SortedByMac(Ordered(s)) && multiset(Ordered(s)) == multiset(s)
  {
    if s != [] {
      OrderedSorts(s[1..]);
      InsertSorts(s[0], Ordered(s[1..]));
      assert s == [s[0]] + s[1..];
    }
  }

  predicate DistinctMacs(s: seq<Client>) {
    forall i, j :: 0 <= i < j < |s| ==> s[i].mac != s[j].mac
  }

  lemma HeadsAgree(a: seq<Client>, b: seq<Client>)
    requires SortedByMac(a) && SortedByMac(b) && DistinctMacs(a) && multiset(a) == multiset(b) && a != [] && b != []
    ensures a[0] == b[0]
  {
    var i := Seqs.IndexIn(b, a, 0);
    var j := Seqs.IndexIn(a, b, 0);
    LessIsTotal(a[0].mac, b[0].mac);
    assert !Less(b[0].mac, a[0].mac) && !Less(a[0].mac, b[0].mac);
    assert i == 0;
  }

  /** With distinct MAC addresses there is only one sorted order, whichever sort produced it. */
  lemma {:induction false} SortedIsUnique(a: seq<Client>, b: seq<Client>)
    requires SortedByMac(a) && SortedByMac(b) && DistinctMacs(a) && multiset(a) == multiset(b)
    ensures a == b
  {
    Seqs.SameLength(a, b);
    if a != [] {
      HeadsAgree(a, b);
      Seqs.TailMultiset(a);
      Seqs.TailMultiset(b);
      SortedIsUnique(a[1..], b[1..]);
    }
  }

  lemma {:induction false} DistinctOnce(s: seq<Client>, c: Client)
    requires DistinctMacs(s)
    ensures multiset(s)[c] <= 1
  {
    if s != [] {
      DistinctOnce(s[1..], c);
      Seqs.TailMultiset(s);
    }
  }

  lemma DistinctPermuted(s: seq<Client>, t: seq<Client>)
    requires DistinctMacs(s) && multiset(s) == multiset(t)
    ensures DistinctMacs(t)
  {
    forall i, j | 0 <= i < j < |t|
      ensures t[i].mac != t[j].mac
    {
      if t[i] == t[j] {
        Seqs.TwiceIn(t, i, j);
        DistinctOnce(s, t[i]);
      } else {
        var k := Seqs.IndexIn(t, s, i);
        var l := Seqs.IndexIn(t, s, j);
        assert s[k].mac == t[i].mac && s[l].mac == t[j].mac && k != l;
      }
    }
  }

  /** Enriches the parsed clients where they are. */
  method Enrich(clients: array<Client>, leases: map<string, Lease>)
    modifies clients
    ensures clients[..] == Joined(old(clients[..]), leases)
  {
    for i := 0 to clients.Length
      invariant forall k :: 0 <= k < i ==> clients[k] == Enriched(old(clients[k]), leases)
      invariant forall k :: i <= k < clients.Length ==> clients[k] == old(clients[k])
    {
      if clients[i].mac in leases {
        var entry := leases[clients[i].mac];
        clients[i] := clients[i].(ip := entry.ip);
        clients[i] := clients[i].(hostname := entry.hostname);
      }
    }
  }

  /** `sort.Slice` by MAC address: sorted, and a permutation; callers may not rely on more. */
  method SortByMac(clients: array<Client>)
    modifies clients
    ensures SortedByMac(clients[..]) && multiset(clients[..]) == multiset(old(clients[..]))
  {
    var ordered := Ordered(clients[..]);
    OrderedSorts(clients[..]);
    assert |ordered| == |multiset(ordered)| == |multiset(clients[..])| == clients.Length;
    forall i | 0 <= i < clients.Length {
      clients[i] := ordered[i];
    }
    assert clients[..] == ordered;
  }

  // ----- What a joined client is

  /**
   Every joined client is its station with nothing changed but the address and the name, which come
   from the last well-formed lease line with its MAC address, or stay empty if there is none.
   */
  lemma JoinMeaning(dump: string, leaseFile: string, i: nat)
    requires i < |Clients(ScanLines(dump))|
    ensures
      var station := Clients(ScanLines(dump))[i];
      var client := Joined(Clients(ScanLines(dump)), Table(ScanLines(leaseFile), LeaseOf))[i];
      && client.(ip := "", hostname := "") == station.(ip := "", hostname := "")
      && match Last(ScanLines(leaseFile), LeaseOf, station.mac)
         case Some(lease) => client.ip == lease.ip && client.hostname == lease.hostname
         case None => client == station
  {
    TableIsLast(ScanLines(leaseFile), LeaseOf, Clients(ScanLines(dump))[i].mac);
  }

  /** Stations come out of the dump without address and name. */
  lemma {:induction false} StationsAreBare(lines: seq<string>)
    ensures forall c :: c in Clients(lines) ==> c.ip == "" && c.hostname == ""
    decreases |lines|
  {
    var h := Blocks.LastHeader(lines, IsHeader);
    if h >= 0 {
      StationsAreBare(lines[..h]);
    }
  }

  /** MAC addresses come out in lower case. */
  lemma {:induction false} StationsAreLower(lines: seq<string>)
    ensures forall c :: c in Clients(lines) ==> NoCapitals(c.mac)
    decreases |lines|
  {
    var h := Blocks.LastHeader(lines, IsHeader);
    if h >= 0 {
      StationsAreLower(lines[..h]);
      if MacOf(lines[h]).Some? {
        LowerIsSpelling(Fields(Trim(lines[h]))[1], MacOf(lines[h]).value);
      }
    }
  }

  // ----- What a list of joined clients shows

  /** A client without its lease. */
  function Station(c: Client): Client {
    c.(ip := "", hostname := "")
  }

  function Stations(s: seq<Client>): seq<Client> {
    Seqs.Map(s, Station)
  }

  lemma JoinedStations(stations: seq<Client>, leases: map<string, Lease>)
    requires forall c :: c in stations ==> c.ip == "" && c.hostname == ""
    ensures Stations(Joined(stations, leases)) == stations
  {
    forall i | 0 <= i < |stations|
      ensures Station(Enriched(stations[i], leases)) == stations[i]
    {
      assert stations[i] in stations;
    }
  }

  lemma JoinedLease(stations: seq<Client>, lines: seq<string>, i: nat)
    requires i < |stations| && NoCapitals(stations[i].mac) && stations[i].ip == "" && stations[i].hostname == ""
    ensures
      var c := Joined(stations, Table(lines, LeaseOf))[i];
      c.mac == stations[i].mac && GotLease(lines, c.mac, c.ip, c.hostname)
  {
    TableIsLast(lines, LeaseOf, stations[i].mac);
    LookupGetsLease(lines, stations[i].mac);
  }

  /** A sorted permutation of the joined stations lists the stations of the dump, each with its lease. */
  lemma ListShowsLeases(list: seq<Client>, dump: seq<string>, lines: seq<string>)
    requires multiset(list) == multiset(Joined(Clients(dump), Table(lines, LeaseOf)))
    ensures multiset(Stations(list)) == multiset(Clients(dump))
    ensures forall i :: 0 <= i < |list| ==> GotLease(lines, list[i].mac, list[i].ip, list[i].hostname)
  {
    var stations := Clients(dump);
    var joined := Joined(stations, Table(lines, LeaseOf));
    StationsAreBare(dump);
    StationsAreLower(dump);
    Seqs.MapPermutes(list, joined, Station);
    JoinedStations(stations, Table(lines, LeaseOf));
    forall i | 0 <= i < |list|
      ensures GotLease(lines, list[i].mac, list[i].ip, list[i].hostname)
    {
      var j := Seqs.IndexIn(list, joined, i);
      assert stations[j] in stations;
      JoinedLease(stations, lines, j);
    }
  }

  lemma ListShowsStations(list: seq<Client>, dump: seq<string>)
    requires multiset(list) == multiset(Clients(dump))
    ensures multiset(Stations(list)) == multiset(Clients(dump))
    ensures forall i :: 0 <= i < |list| ==> list[i].ip == "" && list[i].hostname == ""
  {
    StationsAreBare(dump);
    forall i | 0 <= i < |list|
      ensures Station(list[i]) == list[i]
    {
      var j := Seqs.IndexIn(list, Clients(dump), i);
      assert Clients(dump)[j] in Clients(dump);
    }
    assert Stations(list) == list;
  }

  // ----- The case of MAC addresses

  /** Equal, or two headers whose MAC addresses differ at most in case. */
  predicate SameStationLine(s: string, t: string) {
    var f, g := Fields(Trim(s)), Fields(Trim(t));
    s == t || (IsHeader(s) && IsHeader(t) && |f| >= 2 && |g| >= 2 && SameButCase(f[1], g[1]))
  }

  /** Equal, or two lease lines whose MAC addresses differ at most in case. */
  predicate SameLeaseLine(s: string, t: string) {
    var f, g := Fields(Trim(s)), Fields(Trim(t));
    || s == t
    || (&& Trim(s) != "" && Trim(t) != "" && !("#" <= Trim(s)) && !("#" <= Trim(t))
        && |f| >= 4 && |g| >= 4 && SameButCase(f[1], g[1]) && f[2] == g[2] && f[3] == g[3])
  }

  lemma SameStationEntry(s: string, t: string)
    requires SameStationLine(s, t)
    ensures IsHeader(s) == IsHeader(t) && KeyValue(s) == KeyValue(t)
    ensures IsHeader(s) ==> MacOf(s) == MacOf(t)
  {
    if s != t {
      LowerForgetsCase(Fields(Trim(s))[1], Fields(Trim(t))[1]);
    }
  }

  lemma SameLeaseEntry(s: string, t: string)
    requires SameLeaseLine(s, t)
    ensures LeaseOf(s) == LeaseOf(t)
  {
    if s != t {
      LowerForgetsCase(Fields(Trim(s))[1], Fields(Trim(t))[1]);
    }
  }

  lemma SameBody(mac: string, a: seq<string>, b: seq<string>)
    requires |a| == |b| && forall i :: 0 <= i < |a| ==> KeyValue(a[i]) == KeyValue(b[i])
    ensures ClientOf(mac, a) == ClientOf(mac, b)
  {
    LastDependsOnEntries(a, b, KeyValue, "signal");
    LastDependsOnEntries(a, b, KeyValue, "connected time");
    LastDependsOnEntries(a, b, KeyValue, "rx bytes");
    LastDependsOnEntries(a, b, KeyValue, "tx bytes");
  }

  lemma SameClients(a: seq<string>, b: seq<string>)
    requires |a| == |b| && forall i :: 0 <= i < |a| ==> SameStationLine(a[i], b[i])
    ensures Clients(a) == Clients(b)
  {
    forall i | 0 <= i < |a|
      ensures IsHeader(a[i]) == IsHeader(b[i]) && KeyValue(a[i]) == KeyValue(b[i])
      ensures IsHeader(a[i]) ==> MacOf(a[i]) == MacOf(b[i])
    {
      SameStationEntry(a[i], b[i]);
    }
    forall h, k | 0 <= h < k <= |a| && IsHeader(a[h])
      ensures Blocks.SameBlock(a, b, BlockOf, h, k)
    {
      if MacOf(a[h]).Some? {
        SameBody(MacOf(a[h]).value, a[h + 1..k], b[h + 1..k]);
      }
    }
    Blocks.ReadDependsOnBlocks(a, b, IsHeader, BlockOf);
  }

  /** The joined clients do not change with the case of the MAC addresses in the dump or in the leases. */
  lemma JoinForgetsCase(dump: seq<string>, dump': seq<string>, leaseFile: seq<string>, leaseFile': seq<string>)
    requires |dump| == |dump'| && forall i :: 0 <= i < |dump| ==> SameStationLine(dump[i], dump'[i])
    requires |leaseFile| == |leaseFile'| && forall i :: 0 <= i < |leaseFile| ==> SameLeaseLine(leaseFile[i], leaseFile'[i])
    ensures Joined(Clients(dump), Table(leaseFile, LeaseOf)) == Joined(Clients(dump'), Table(leaseFile', LeaseOf))
  {
    SameClients(dump, dump');
    forall i | 0 <= i < |leaseFile|
      ensures LeaseOf(leaseFile[i]) == LeaseOf(leaseFile'[i])
    {
      SameLeaseEntry(leaseFile[i], leaseFile'[i]);
    }
    TableDependsOnEntries(leaseFile, leaseFile', LeaseOf);
  }

  /**
   So the published list does not change with the case of MAC addresses either: whatever sort is used,
   as long as the stations have different MAC addresses.
   */
  lemma PublishedForgetsCase(dump: seq<string>, dump': seq<string>, leaseFile: seq<string>, leaseFile': seq<string>,
                             list: seq<Client>, list': seq<Client>)
    requires |dump| == |dump'| && forall i :: 0 <= i < |dump| ==> SameStationLine(dump[i], dump'[i])
    requires |leaseFile| == |leaseFile'| && forall i :: 0 <= i < |leaseFile| ==> SameLeaseLine(leaseFile[i], leaseFile'[i])
    requires SortedByMac(list) && multiset(list) == multiset(Joined(Clients(dump), Table(leaseFile, LeaseOf)))
    requires SortedByMac(list') && multiset(list') == multiset(Joined(Clients(dump'), Table(leaseFile', LeaseOf)))
    requires DistinctMacs(Clients(dump))
    ensures list == list'
  {
    JoinForgetsCase(dump, dump', leaseFile, leaseFile');
    DistinctPermuted(Joined(Clients(dump), Table(leaseFile, LeaseOf)), list);
    SortedIsUnique(list, list');
  }
}
