/** The parser for `iw dev <iface> station dump`. */
module StationDump {
  import opened Results
  import opened Text
  import opened LastWins
  import Blocks

  datatype Client = Client(
    mac: string, ip: string, hostname: string,
    signalDBm: int64, connectedSeconds: uint64, rxBytes: uint64, txBytes: uint64)

  /** The client a Station header opens. */
  function NewClient(mac: string): Client {
    Client(mac, "", "", 0, 0, 0, 0)
  }

  /** The leading unsigned integer of a value, or 0. */
  function LeadingUint(value: string): uint64 {
    var fields := Fields(value);
    if fields == [] then 0
    else
      match ParseUint(fields[0])
      case Some(n) => n
      case None => 0
  }

  // ----- What a dump says: a sequence of blocks, each read by the last line for every key

  predicate IsHeader(line: string) {
    "Station " <= Trim(line)
  }

  /** The MAC address of a header; the parser gives up on a header that has none. */
  function MacOf(header: string): Option<string> {
    var fields := Fields(Trim(header));
    if |fields| < 2 then None else Some(ToLower(fields[1]))
  }

  /** The key and value of a line inside a block. */
  function KeyValue(line: string): Option<(string, string)> {
    if Trim(line) == "" || IsHeader(line) then None else SplitKeyValue(Trim(line))
  }

  function UintFor(body: seq<string>, key: string): uint64 {
    match Last(body, KeyValue, key)
    case Some(value) => LeadingUint(value)
    case None => 0
  }

  function IntFor(body: seq<string>, key: string): int64 {
    match Last(body, KeyValue, key)
    case Some(value) => LeadingInt(value)
    case None => 0
  }

  function ClientOf(mac: string, body: seq<string>): Client {
    Client(mac, "", "", IntFor(body, "signal"), UintFor(body, "connected time"),
           UintFor(body, "rx bytes"), UintFor(body, "tx bytes"))
  }

  function BlockOf(header: string, body: seq<string>): seq<Client> {
    match MacOf(header)
    case Some(mac) => [ClientOf(mac, body)]
    case None => []
  }

  /** The clients a dump lists, in its order. */
  function Clients(lines: seq<string>): seq<Client> {
    Blocks.Read(lines, IsHeader, BlockOf)
  }

  // ----- The parser

  /** What one key/value line does to the client of the open block. */
  function Update(cur: Client, key: string, value: string): Client {
    match key
    case "rx bytes" => cur.(rxBytes := LeadingUint(value))
    case "tx bytes" => cur.(txBytes := LeadingUint(value))
    case "signal" => cur.(signalDBm := LeadingInt(value))
    case "connected time" => cur.(connectedSeconds := LeadingUint(value))
    case _ => cur
  }

  /** The client of a block that is still open. */
  function OpenBlock(header: string, body: seq<string>): Option<Client> {
    match MacOf(header)
    case Some(mac) => Some(ClientOf(mac, body))
    case None => None
  }

  /** The client of the last block. */
  function Open(lines: seq<string>): Option<Client> {
    Blocks.Open(lines, IsHeader, OpenBlock)
  }

  /** What a line of an open block does to its client. */
  function UpdateBy(cur: Client, line: string): Client {
    match KeyValue(line)
    case Some((key, value)) => Update(cur, key, value)
    case None => cur
  }

  lemma ClientOfMore(mac: string, body: seq<string>, line: string)
    ensures ClientOf(mac, []) == NewClient(mac)
    ensures ClientOf(mac, body + [line]) == UpdateBy(ClientOf(mac, body), line)
  {
    assert (body + [line])[..|body|] == body;
  }

  /** The clients of the blocks before the last one. */
  function Closed(lines: seq<string>): seq<Client> {
    Blocks.Closed(lines, IsHeader, BlockOf)
  }

  lemma OpenAndClosed(lines: seq<string>)
    ensures Clients(lines) == Closed(lines) + (match Open(lines) case Some(c) => [c] case None => [])
  {
  }

  lemma SeeHeader(lines: seq<string>, line: string)
    requires IsHeader(line)
    ensures Closed(lines + [line]) == Clients(lines)
    ensures Open(lines + [line]) == (match MacOf(line) case Some(mac) => Some(NewClient(mac)) case None => None)
  {
    Blocks.SeeHeader(lines, line, IsHeader, BlockOf);
    Blocks.OpenAfterHeader(lines, line, IsHeader, OpenBlock);
  }

  lemma OpenBlockMore(header: string, body: seq<string>, line: string)
    ensures OpenBlock(header, body + [line]) ==
      match OpenBlock(header, body) case Some(c) => Some(UpdateBy(c, line)) case None => None
  {
    if MacOf(header).Some? {
      ClientOfMore(MacOf(header).value, body, line);
    }
  }

  lemma LineUpdates(line: string)
    ensures Blocks.Updates(OpenBlock, UpdateBy, line)
  {
    forall header, body
      ensures OpenBlock(header, body + [line]) ==
        match OpenBlock(header, body) case Some(c) => Some(UpdateBy(c, line)) case None => None
    {
      OpenBlockMore(header, body, line);
    }
  }

  lemma SeeLine(lines: seq<string>, line: string)
    requires !IsHeader(line)
    ensures Closed(lines + [line]) == Closed(lines)
    ensures Open(lines + [line]) == (match Open(lines) case Some(c) => Some(UpdateBy(c, line)) case None => None)
  {
    Blocks.SeeLine(lines, line, IsHeader, BlockOf);
    LineUpdates(line);
    Blocks.OpenAfterLine(lines, line, IsHeader, OpenBlock, UpdateBy);
  }

  method ParseStationDump(raw: string) returns (clients: seq<Client>)
    ensures clients == Clients(ScanLines(raw))
  {
    var lines := ScanLines(raw);
    clients := [];
    var cur: Option<Client> := None;
    for i := 0 to |lines|
      invariant clients == Closed(lines[..i])
      invariant cur == Open(lines[..i])
    {
      assert lines[..i + 1] == lines[..i] + [lines[i]];
      var trimmed := Trim(lines[i]);
      if trimmed == "" {
        SeeLine(lines[..i], lines[i]);
        continue;
      }
      if "Station " <= trimmed {
        OpenAndClosed(lines[..i]);
        SeeHeader(lines[..i], lines[i]);
        if cur.Some? {
          clients := clients + [cur.value];
          cur := None;
        }
        var fields := Fields(trimmed);
        if |fields| < 2 {
          continue;
        }
        cur := Some(NewClient(ToLower(fields[1])));
        continue;
      }
      SeeLine(lines[..i], lines[i]);
      if cur.None? {
        continue;
      }
      var pair := SplitKeyValue(trimmed);
      if pair.None? {
        continue;
      }
      var (key, value) := pair.value;
      cur := Some(Update(cur.value, key, value));
    }
    assert lines[..|lines|] == lines;
    OpenAndClosed(lines);
    if cur.Some? {
      clients := clients + [cur.value];
    }
  }

  /** A header always has a MAC address: the parser's guard for one without never fires. */
  lemma HeaderHasMac(line: string)
    requires IsHeader(line)
    ensures |Fields(Trim(line))| >= 2 && MacOf(line).Some?
  {
    var t := Trim(line);
    TrimIsTrimmed(line);
    assert t == "Station" + t[7..] && t[7] == ' ';
    assert !Blank(t[7..]) by {
      assert t[7..][|t| - 8] == t[|t| - 1];
    }
    FieldsCons("Station", t[7..]);
    FieldsNonBlank(t[7..]);
  }

  /** A dump cut before a header lists the clients of its two parts. */
  lemma BlockLaw(a: seq<string>, b: seq<string>)
    requires b == [] || IsHeader(b[0])
    ensures Clients(a + b) == Clients(a) + Clients(b)
  {
    Blocks.BlockLaw(a, b, IsHeader, BlockOf);
  }

  /** The same for the bytes of a dump, cut after a line feed. */
  lemma TextBlockLaw(a: string, b: string)
    requires ScanLines(b) == [] || IsHeader(ScanLines(b)[0])
    ensures Clients(ScanLines(a + "\n" + b)) == Clients(ScanLines(a + "\n")) + Clients(ScanLines(b))
  {
    ScanCut(a, b);
    BlockLaw(ScanLines(a + "\n"), ScanLines(b));
  }

  /** A value that does not begin with a number that fits reads as 0. */
  lemma UnreadableIsZero(value: string)
    requires Fields(value) == [] || !AllDigits(Fields(value)[0]) || Decimal(Fields(value)[0]) > MAX_UINT64
    ensures LeadingUint(value) == 0
  {
  }

  // ----- Rendering a dump

  function Header(mac: string, iface: string): string {
    "Station" + (" " + (mac + (" (on " + iface + ")")))
  }

  function KeyLine(key: string, value: string): string {
    "\t" + (key + ":" + ("\t" + value))
  }

  function BodyLines(c: Client): seq<string> {
    [KeyLine("rx bytes", Render(c.rxBytes)),
     KeyLine("tx bytes", Render(c.txBytes)),
     KeyLine("signal", RenderInt(c.signalDBm) + " dBm"),
     KeyLine("connected time", Render(c.connectedSeconds) + " seconds")]
  }

  predicate Known(key: string) {
    key == "rx bytes" || key == "tx bytes" || key == "signal" || key == "connected time"
  }

  /** The lines of a block that the parser looks at. */
  function KnownLines(body: seq<string>): seq<string> {
    if body == [] then []
    else
      var front := KnownLines(body[..|body| - 1]);
      var line := body[|body| - 1];
      match KeyValue(line)
      case Some((key, _)) => if Known(key) then front + [line] else front
      case None => front
  }

  /**
   One printed station: a header with its MAC address in any case, then its four lines with blank
   lines and lines with other keys anywhere among them.
   */
  datatype Printed = Printed(client: Client, mac: string, iface: string, body: seq<string>) {
    predicate Valid() {
      && Token(mac) && SameButCase(mac, client.mac) && NoCapitals(client.mac) && client.ip == "" && client.hostname == ""
      && (forall i :: 0 <= i < |body| ==> !IsHeader(body[i]))
      && KnownLines(body) == BodyLines(client)
    }

    function Lines(): seq<string> {
      [Header(mac, iface)] + body
    }
  }

  function DumpLines(stations: seq<Printed>): seq<string> {
    if stations == [] then [] else stations[0].Lines() + DumpLines(stations[1..])
  }

  function Listed(stations: seq<Printed>): seq<Client> {
    seq(|stations|, i requires 0 <= i < |stations| => stations[i].client)
  }

  lemma HeaderParses(mac: string, iface: string)
    requires Token(mac)
    ensures IsHeader(Header(mac, iface)) && MacOf(Header(mac, iface)) == Some(ToLower(mac))
  {
    var rest := " (on " + iface + ")";
    TrimOfTrimmed(Header(mac, iface));
    FirstTwoFields("Station", mac, rest);
    assert "Station " <= Header(mac, iface);
  }

  lemma KeyLineParses(key: string, value: string)
    requires ':' !in key && key != "" && Trimmed(key) && Trimmed(value) && value != "" && key[0] != 'S'
    ensures KeyValue(KeyLine(key, value)) == Some((key, value))
  {
    var text := key + ":" + ("\t" + value);
    assert text[0] == key[0] && text[|text| - 1] == value[|value| - 1];
    TrimPadded("\t", text, "");
    assert "\t" + text + "" == KeyLine(key, value);
    SplitRendered(key, "\t", value);
  }

  lemma NumberLeads(n: uint64, unit: string)
    requires Unit(unit)
    ensures LeadingUint(Render(n) + unit) == n && Trimmed(Render(n) + unit)
  {
    RenderIsToken(n);
    WithUnit(Render(n), unit);
    ParseRendered(n);
  }

  lemma BareNumberLeads(n: uint64)
    ensures LeadingUint(Render(n)) == n && Trimmed(Render(n))
  {
    RenderIsToken(n);
    FieldsOfToken(Render(n));
    ParseRendered(n);
  }

  lemma UintLine(cur: Client, key: string, value: string, n: uint64)
    requires key == "rx bytes" || key == "tx bytes" || key == "connected time"
    requires LeadingUint(value) == n && Trimmed(value) && value != ""
    ensures UpdateBy(cur, KeyLine(key, value)) ==
      if key == "rx bytes" then cur.(rxBytes := n)
      else if key == "tx bytes" then cur.(txBytes := n)
      else cur.(connectedSeconds := n)
  {
    KeyLineParses(key, value);
  }

  lemma IntLine(cur: Client, value: string, n: int64)
    requires LeadingInt(value) == n && Trimmed(value) && value != ""
    ensures UpdateBy(cur, KeyLine("signal", value)) == cur.(signalDBm := n)
  {
    KeyLineParses("signal", value);
  }

  lemma RxLine(c: Client, cur: Client)
    ensures UpdateBy(cur, KeyLine("rx bytes", Render(c.rxBytes))) == cur.(rxBytes := c.rxBytes)
  {
    BareNumberLeads(c.rxBytes);
    UintLine(cur, "rx bytes", Render(c.rxBytes), c.rxBytes);
  }

  lemma TxLine(c: Client, cur: Client)
    ensures UpdateBy(cur, KeyLine("tx bytes", Render(c.txBytes))) == cur.(txBytes := c.txBytes)
  {
    BareNumberLeads(c.txBytes);
    UintLine(cur, "tx bytes", Render(c.txBytes), c.txBytes);
  }

  lemma SignalLine(c: Client, cur: Client)
    ensures UpdateBy(cur, KeyLine("signal", RenderInt(c.signalDBm) + " dBm")) == cur.(signalDBm := c.signalDBm)
  {
    IntLeads(c.signalDBm, " dBm");
    IntLine(cur, RenderInt(c.signalDBm) + " dBm", c.signalDBm);
  }

  lemma ConnectedLine(c: Client, cur: Client)
    ensures UpdateBy(cur, KeyLine("connected time", Render(c.connectedSeconds) + " seconds")) == cur.(connectedSeconds := c.connectedSeconds)
  {
    NumberLeads(c.connectedSeconds, " seconds");
    UintLine(cur, "connected time", Render(c.connectedSeconds) + " seconds", c.connectedSeconds);
  }

  lemma BodyOfFour(c: Client)
    ensures ClientOf(c.mac, BodyLines(c)) == c.(ip := "", hostname := "")
  {
    var lines := BodyLines(c);
    ClientOfMore(c.mac, [], lines[0]);
    ClientOfMore(c.mac, [lines[0]], lines[1]);
    ClientOfMore(c.mac, [lines[0], lines[1]], lines[2]);
    ClientOfMore(c.mac, [lines[0], lines[1], lines[2]], lines[3]);
    assert [] + [lines[0]] == [lines[0]];
    assert [lines[0]] + [lines[1]] == [lines[0], lines[1]];
    assert [lines[0], lines[1]] + [lines[2]] == [lines[0], lines[1], lines[2]];
    assert [lines[0], lines[1], lines[2]] + [lines[3]] == lines;
    UpdatesToClient(c);
  }

  lemma UpdatesToClient(c: Client)
    ensures
      var lines := BodyLines(c);
      UpdateBy(UpdateBy(UpdateBy(UpdateBy(NewClient(c.mac), lines[0]), lines[1]), lines[2]), lines[3]) ==
      c.(ip := "", hostname := "")
  {
    var rx := NewClient(c.mac).(rxBytes := c.rxBytes);
    var tx := rx.(txBytes := c.txBytes);
    var signal := tx.(signalDBm := c.signalDBm);
    RxLine(c, NewClient(c.mac));
    TxLine(c, rx);
    SignalLine(c, tx);
    ConnectedLine(c, signal);
  }

  /** Only the known lines of a block count. */
  lemma {:induction false} NoiseIsIgnored(mac: string, body: seq<string>)
    ensures ClientOf(mac, KnownLines(body)) == ClientOf(mac, body)
  {
    if body != [] {
      var front, line := body[..|body| - 1], body[|body| - 1];
      NoiseIsIgnored(mac, front);
      ClientOfMore(mac, front, line);
      ClientOfMore(mac, KnownLines(front), line);
      assert front + [line] == body;
    }
  }

  lemma BlockParses(p: Printed)
    requires p.Valid()
    ensures IsHeader(p.Lines()[0]) && Clients(p.Lines()) == [p.client]
  {
    HeaderParses(p.mac, p.iface);
    LowerIsSpelling(p.mac, p.client.mac);
    Blocks.OneBlock(Header(p.mac, p.iface), p.body, IsHeader, BlockOf);
    NoiseIsIgnored(p.client.mac, p.body);
    BodyOfFour(p.client);
  }

  lemma BlockBefore(p: Printed, rest: seq<string>)
    requires p.Valid() && (rest != [] ==> IsHeader(rest[0]))
    ensures Clients(p.Lines() + rest) == [p.client] + Clients(rest)
    ensures IsHeader((p.Lines() + rest)[0])
  {
    BlockParses(p);
    BlockLaw(p.Lines(), rest);
  }

  lemma ListedFirst(stations: seq<Printed>)
    requires stations != []
    ensures Listed(stations) == [stations[0].client] + Listed(stations[1..])
  {
  }

  /** Parsing a printed dump gives back the stations, whatever else its blocks contain. */
  lemma {:induction false} RoundTrip(stations: seq<Printed>)
    requires forall i :: 0 <= i < |stations| ==> stations[i].Valid()
    ensures Clients(DumpLines(stations)) == Listed(stations)
    ensures stations != [] ==> DumpLines(stations) != [] && IsHeader(DumpLines(stations)[0])
  {
    if stations != [] {
      RoundTrip(stations[1..]);
      BlockBefore(stations[0], DumpLines(stations[1..]));
      ListedFirst(stations);
    }
  }

  /** The same for the bytes of a dump. */
  lemma TextRoundTrip(stations: seq<Printed>)
    requires forall i :: 0 <= i < |stations| ==> stations[i].Valid()
    requires PlainLines(DumpLines(stations))
    ensures Clients(ScanLines(Unlines(DumpLines(stations)))) == Listed(stations)
  {
    RoundTrip(stations);
    ScanUnlines(DumpLines(stations));
  }
}
