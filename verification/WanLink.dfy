/** The parser for `iw dev <iface> link`. */
module WanLink {
  import opened Results
  import opened Text
  import opened LastWins
  import Seqs

  datatype Link = Link(
    connected: bool, ssid: string, bssid: string, signalDBm: int64, freqMHz: int, txBitrateMbps: real)

  const NO_LINK := Link(false, "", "", 0, 0, 0.0)

  /** The leading number of a value, or 0. */
  function LeadingFloat(value: string, parse: FloatParser): real {
    var fields := Fields(value);
    if fields == [] then 0.0
    else
      match parse(fields[0])
      case Some(x) => x
      case None => 0.0
  }

  /** Conversion to an integer: the fraction is dropped. */
  function Truncate(x: real): int {
    if x >= 0.0 then x.Floor else -((-x).Floor)
  }

  // ----- What the output says

  predicate IsDisconnect(line: string) {
    "Not connected" <= Trim(line)
  }

  predicate IsConnect(line: string) {
    "Connected to " <= Trim(line)
  }

  /** The access point of a line that announces the association, under one key for all lines. */
  function AccessPoint(line: string): Option<(string, string)> {
    var fields := Fields(Trim(line));
    if IsConnect(line) && |fields| >= 3 then Some(("bssid", ToLower(fields[2]))) else None
  }

  function KeyValue(line: string): Option<(string, string)> {
    if Trim(line) == "" || IsConnect(line) then None else SplitKeyValue(Trim(line))
  }

  /** The last value for `key`, or the empty string: it reads as 0 when a number is wanted. */
  function ValueFor(lines: seq<string>, entry: string -> Option<(string, string)>, key: string): string {
    match Last(lines, entry, key)
    case Some(value) => value
    case None => ""
  }

  predicate Any(lines: seq<string>, p: string -> bool) {
    exists i :: 0 <= i < |lines| && p(lines[i])
  }

  /** The link state, from the last line for every field. */
  function ReadLink(lines: seq<string>, parse: FloatParser): Link {
    Link(Any(lines, IsConnect),
         ValueFor(lines, KeyValue, "SSID"),
         ValueFor(lines, AccessPoint, "bssid"),
         LeadingInt(ValueFor(lines, KeyValue, "signal")),
         Truncate(LeadingFloat(ValueFor(lines, KeyValue, "freq"), parse)),
         LeadingFloat(ValueFor(lines, KeyValue, "tx bitrate"), parse))
  }

  /** One line saying "Not connected" anywhere overrides all others. */
  function LinkOf(lines: seq<string>, parse: FloatParser): Link {
    if Any(lines, IsDisconnect) then NO_LINK else ReadLink(lines, parse)
  }

  // ----- The parser

  function Update(out: Link, key: string, value: string, parse: FloatParser): Link {
    match key
    case "SSID" => out.(ssid := value)
    case "freq" => out.(freqMHz := Truncate(LeadingFloat(value, parse)))
    case "signal" => out.(signalDBm := LeadingInt(value))
    case "tx bitrate" => out.(txBitrateMbps := LeadingFloat(value, parse))
    case _ => out
  }

  lemma ReadNothing(parse: FloatParser)
    ensures ReadLink([], parse) == NO_LINK
  {
    assert Fields("") == [];
  }

  lemma ValueForMore(lines: seq<string>, line: string, entry: string -> Option<(string, string)>, key: string)
    ensures ValueFor(lines + [line], entry, key) ==
      match entry(line)
      case Some((k, v)) => if k == key then v else ValueFor(lines, entry, key)
      case None => ValueFor(lines, entry, key)
  {
    LastMore(lines, line, entry, key);
  }

  lemma AnyMore(lines: seq<string>, line: string, p: string -> bool)
    ensures Any(lines + [line], p) <==> Any(lines, p) || p(line)
  {
    if i :| 0 <= i < |lines| && p(lines[i]) {
      assert p((lines + [line])[i]);
    }
    assert (lines + [line])[|lines|] == line;
  }

  lemma ReadConnect(lines: seq<string>, line: string, parse: FloatParser)
    requires IsConnect(line)
    ensures ReadLink(lines + [line], parse) ==
      var out := ReadLink(lines, parse).(connected := true);
      match AccessPoint(line)
      case Some((_, bssid)) => out.(bssid := bssid)
      case None => out
  {
    AnyMore(lines, line, IsConnect);
    ValueForMore(lines, line, AccessPoint, "bssid");
    ValueForMore(lines, line, KeyValue, "SSID");
    ValueForMore(lines, line, KeyValue, "signal");
    ValueForMore(lines, line, KeyValue, "freq");
    ValueForMore(lines, line, KeyValue, "tx bitrate");
  }

  lemma ReadOther(lines: seq<string>, line: string, parse: FloatParser)
    requires !IsConnect(line)
    ensures ReadLink(lines + [line], parse) ==
      match KeyValue(line)
      case Some((key, value)) => Update(ReadLink(lines, parse), key, value, parse)
      case None => ReadLink(lines, parse)
  {
    AnyMore(lines, line, IsConnect);
    ValueForMore(lines, line, AccessPoint, "bssid");
    ValueForMore(lines, line, KeyValue, "SSID");
    ValueForMore(lines, line, KeyValue, "signal");
    ValueForMore(lines, line, KeyValue, "freq");
    ValueForMore(lines, line, KeyValue, "tx bitrate");
  }

  /** What one line does to the link read so far. */
  function Step(out: Link, line: string, parse: FloatParser): Link {
    if IsConnect(line) then
      match AccessPoint(line)
      case Some((_, bssid)) => out.(connected := true, bssid := bssid)
      case None => out.(connected := true)
    else
      match KeyValue(line)
      case Some((key, value)) => Update(out, key, value, parse)
      case None => out
  }

  lemma ReadMore(lines: seq<string>, line: string, parse: FloatParser)
    ensures ReadLink(lines + [line], parse) == Step(ReadLink(lines, parse), line, parse)
  {
    if IsConnect(line) {
      ReadConnect(lines, line, parse);
    } else {
      ReadOther(lines, line, parse);
    }
  }

  function StepBy(parse: FloatParser): (Link, string) -> Link {
    (out, line) => Step(out, line, parse)
  }

  /** The loop body for a line that does not end the loop. */
  method ReadLine(before: Link, raw: string, parse: FloatParser) returns (out: Link)
    ensures out == StepBy(parse)(before, raw)
  {
    out := before;
    var line := Trim(raw);
    if line == "" {
      return;
    }
    if "Connected to " <= line {
      out := out.(connected := true);
      var fields := Fields(line);
      if |fields| >= 3 {
        out := out.(bssid := ToLower(fields[2]));
      }
      return;
    }
    var pair := SplitKeyValue(line);
    if pair.None? {
      return;
    }
    var (key, value) := pair.value;
    out := Update(out, key, value, parse);
  }

  /** Reading the last line for every field is what taking the lines one by one comes to. */
  lemma {:induction false} ReadIsFold(lines: seq<string>, parse: FloatParser)
    ensures ReadLink(lines, parse) == Seqs.Fold(lines, NO_LINK, StepBy(parse))
  {
    if lines == [] {
      ReadNothing(parse);
    } else {
      var front, line := lines[..|lines| - 1], lines[|lines| - 1];
      ReadIsFold(front, parse);
      ReadMore(front, line, parse);
      assert front + [line] == lines;
    }
  }

  lemma UndeniedLink(lines: seq<string>, parse: FloatParser)
    requires !Any(lines, IsDisconnect)
    ensures LinkOf(lines, parse) == Seqs.Fold(lines, NO_LINK, StepBy(parse))
  {
    ReadIsFold(lines, parse);
  }

  /** Lines after or before a denial change nothing: the result is the zero value. */
  lemma DenialAbsorbs(before: seq<string>, line: string, after: seq<string>, parse: FloatParser)
    requires IsDisconnect(line)
    ensures LinkOf(before + [line] + after, parse) == NO_LINK
  {
    assert (before + [line] + after)[|before|] == line;
  }

  /** The loop: it ends at the first denial, or has taken every line. */
  method ReadLines(lines: seq<string>, parse: FloatParser) returns (denied: bool, out: Link)
    ensures denied <==> Any(lines, IsDisconnect)
    ensures !denied ==> out == Seqs.Fold(lines, NO_LINK, StepBy(parse))
  {
    out := NO_LINK;
    for i := 0 to |lines|
      invariant !Any(lines[..i], IsDisconnect)
      invariant out == Seqs.Fold(lines[..i], NO_LINK, StepBy(parse))
    {
      AnyNext(lines, i, IsDisconnect);
      denied := SaysNotConnected(lines[i]);
      if denied {
        return;
      }
      Seqs.FoldNext(lines, i, NO_LINK, StepBy(parse));
      out := ReadLine(out, lines[i], parse);
    }
    denied := false;
    assert lines[..|lines|] == lines;
  }

  method SaysNotConnected(line: string) returns (yes: bool)
    ensures yes == IsDisconnect(line)
  {
    yes := "Not connected" <= Trim(line);
  }

  lemma AnyNext(lines: seq<string>, i: nat, p: string -> bool)
    requires i < |lines|
    ensures Any(lines[..i + 1], p) <==> Any(lines[..i], p) || p(lines[i])
    ensures p(lines[i]) ==> Any(lines, p)
  {
    Seqs.NextPrefix(lines, i);
    AnyMore(lines[..i], lines[i], p);
  }

  method ParseIwLink(raw: string, parse: FloatParser) returns (out: Link)
    ensures out == LinkOf(ScanLines(raw), parse)
  {
    var lines := ScanLines(raw);
    var denied, link := ReadLines(lines, parse);
    if denied {
      return NO_LINK;
    }
    UndeniedLink(lines, parse);
    return link;
  }

  /** A link is reported exactly when some line announces one and none denies it. */
  lemma ConnectedExactlyWhen(lines: seq<string>, parse: FloatParser)
    ensures LinkOf(lines, parse).connected <==>
      (exists i :: 0 <= i < |lines| && IsConnect(lines[i])) && forall i :: 0 <= i < |lines| ==> !IsDisconnect(lines[i])
  {
  }

  lemma FieldsAfterAnnouncement(rest: string)
    ensures Fields("Connected to " + rest) == ["Connected", "to"] + Fields(rest)
  {
    assert "Connected to " + rest == "Connected" + (" " + ("to" + (" " + rest)));
    FirstTwoFields("Connected", "to", " " + rest);
    FieldsAfterSpace(rest);
  }

  /** An announcement always names an access point: the parser's length guard never fails. */
  lemma AnnouncementHasAccessPoint(line: string)
    requires IsConnect(line)
    ensures |Fields(Trim(line))| >= 3
  {
    var t := Trim(line);
    TrimIsTrimmed(line);
    assert t[12] == ' ';
    assert t[13..][|t| - 14] == t[|t| - 1];
    FieldsAfterAnnouncement(t[13..]);
    assert t == "Connected to " + t[13..];
    FieldsNonBlank(t[13..]);
  }

  // ----- Printed output

  /** What `iw` prints about an association; the units are what follows the two numbers. */
  datatype Association = Association(
    accessPoint: string, iface: string, ssid: string,
    signal: int64, signalUnit: string, freq: string, rate: string, rateUnit: string)
  {
    predicate Valid() {
      Token(accessPoint) && Token(freq) && Token(rate) && Unit(signalUnit) && Unit(rateUnit)
    }

    function ConnectLine(): string {
      "Connected" + (" " + ("to" + (" " + (accessPoint + (" (on " + iface + ")")))))
    }

    function SsidLine(): string {
      "\t" + ("SSID" + ":" + (" " + ssid))
    }

    function FreqLine(): string {
      "\t" + ("freq" + ":" + (" " + freq))
    }

    function SignalLine(): string {
      "\t" + ("signal" + ":" + (" " + (RenderInt(signal) + signalUnit)))
    }

    function RateLine(): string {
      "\t" + ("tx bitrate" + ":" + (" " + (rate + rateUnit)))
    }

    predicate Has(line: string) {
      line == ConnectLine() || line == SsidLine() || line == FreqLine() || line == SignalLine() || line == RateLine()
    }

    /** The five lines are all there, in any order, with any other lines among them. */
    predicate Prints(lines: seq<string>) {
      && Valid()
      && ConnectLine() in lines && SsidLine() in lines && FreqLine() in lines && SignalLine() in lines && RateLine() in lines
      && forall i :: 0 <= i < |lines| ==> Has(lines[i]) || Noise(lines[i])
    }
  }

  /** A line that says nothing about the association. */
  predicate Noise(line: string) {
    var t := Trim(line);
    && !("Connected to " <= t) && !("Not connected" <= t)
    && match SplitKeyValue(t)
       case Some((key, _)) => key != "SSID" && key != "freq" && key != "signal" && key != "tx bitrate"
       case None => true
  }

  /** `n` is `x` without its fraction. */
  predicate WholePart(n: int, x: real) {
    if x >= 0.0 then n as real <= x < n as real + 1.0 else n as real - 1.0 < x <= n as real
  }

  function Number(text: string, parse: FloatParser): real {
    match parse(text)
    case Some(x) => x
    case None => 0.0
  }

  /** The link has the printed values, each in its own field: the name trimmed, the access point in lower case. */
  predicate Reads(l: Link, p: Association, parse: FloatParser) {
    && l.connected && l.ssid == Trim(p.ssid)
    && SameButCase(p.accessPoint, l.bssid) && NoCapitals(l.bssid)
    && l.signalDBm == p.signal
    && WholePart(l.freqMHz, Number(p.freq, parse))
    && l.txBitrateMbps == Number(p.rate, parse)
  }

  lemma AnnouncementReads(rest: string)
    requires rest != "" && !IsSpace(rest[|rest| - 1])
    ensures
      var line := "Connected" + (" " + ("to" + (" " + rest)));
      Trim(line) == line && IsConnect(line) && !IsDisconnect(line) && KeyValue(line) == None
  {
    var line := "Connected" + (" " + ("to" + (" " + rest)));
    assert line == "Connected to " + rest;
    assert line[|line| - 1] == rest[|rest| - 1];
    TrimOfTrimmed(line);
  }

  lemma ConnectLineReads(p: Association)
    requires p.Valid()
    ensures IsConnect(p.ConnectLine()) && !IsDisconnect(p.ConnectLine()) && KeyValue(p.ConnectLine()) == None
    ensures AccessPoint(p.ConnectLine()) == Some(("bssid", ToLower(p.accessPoint)))
  {
    var rest := " (on " + p.iface + ")";
    AnnouncementReads(p.accessPoint + rest);
    FirstThreeFields("Connected", "to", p.accessPoint, rest);
  }

  predicate SaysOnly(line: string, key: string, value: string) {
    && !IsConnect(line) && !IsDisconnect(line) && AccessPoint(line) == None
    && KeyValue(line) == Some((key, value))
  }

  predicate PlainKey(key: string) {
    key != "" && Trimmed(key) && ':' !in key && key[0] != 'C' && key[0] != 'N'
  }

  lemma ValueLine(key: string, text: string)
    requires PlainKey(key)
    ensures SaysOnly("\t" + (key + ":" + text), key, Trim(text))
  {
    SplitLine(key, text);
    assert Trim("\t" + (key + ":" + text))[0] == key[0];
  }

  lemma TrimmedValueLine(key: string, value: string)
    requires PlainKey(key) && Trimmed(value)
    ensures SaysOnly("\t" + (key + ":" + (" " + value)), key, value)
  {
    ValueLine(key, " " + value);
    TrimOfTrimmed(value);
  }

  lemma SsidLineReads(p: Association)
    ensures SaysOnly(p.SsidLine(), "SSID", Trim(p.ssid))
  {
    ValueLine("SSID", " " + p.ssid);
  }

  lemma FreqLineReads(p: Association)
    requires p.Valid()
    ensures SaysOnly(p.FreqLine(), "freq", p.freq)
  {
    TrimmedValueLine("freq", p.freq);
  }

  lemma SignalLineReads(p: Association)
    requires p.Valid()
    ensures SaysOnly(p.SignalLine(), "signal", RenderInt(p.signal) + p.signalUnit)
  {
    RenderIntIsToken(p.signal);
    WithUnit(RenderInt(p.signal), p.signalUnit);
    TrimmedValueLine("signal", RenderInt(p.signal) + p.signalUnit);
  }

  lemma RateLineReads(p: Association)
    requires p.Valid()
    ensures SaysOnly(p.RateLine(), "tx bitrate", p.rate + p.rateUnit)
  {
    WithUnit(p.rate, p.rateUnit);
    TrimmedValueLine("tx bitrate", p.rate + p.rateUnit);
  }

  lemma NoiseReads(line: string)
    requires Noise(line)
    ensures !IsConnect(line) && !IsDisconnect(line) && AccessPoint(line) == None
    ensures KeyValue(line).Some? ==> KeyValue(line).value.0 !in {"SSID", "freq", "signal", "tx bitrate"}
  {
  }

  lemma ValueLinesRead(p: Association)
    requires p.Valid()
    ensures SaysOnly(p.SsidLine(), "SSID", Trim(p.ssid))
    ensures SaysOnly(p.FreqLine(), "freq", p.freq)
    ensures SaysOnly(p.SignalLine(), "signal", RenderInt(p.signal) + p.signalUnit)
    ensures SaysOnly(p.RateLine(), "tx bitrate", p.rate + p.rateUnit)
  {
    SsidLineReads(p);
    FreqLineReads(p);
    SignalLineReads(p);
    RateLineReads(p);
  }

  /** What one line of printed output says, for every key that matters. */
  lemma PrintedLineReads(p: Association, line: string)
    requires p.Valid() && (p.Has(line) || Noise(line))
    ensures !IsDisconnect(line)
    ensures Gives(AccessPoint(line), "bssid") ==> AccessPoint(line).value.1 == ToLower(p.accessPoint)
    ensures Gives(KeyValue(line), "SSID") ==> KeyValue(line).value.1 == Trim(p.ssid)
    ensures Gives(KeyValue(line), "freq") ==> KeyValue(line).value.1 == p.freq
    ensures Gives(KeyValue(line), "signal") ==> KeyValue(line).value.1 == RenderInt(p.signal) + p.signalUnit
    ensures Gives(KeyValue(line), "tx bitrate") ==> KeyValue(line).value.1 == p.rate + p.rateUnit
  {
    ConnectLineReads(p);
    ValueLinesRead(p);
    if Noise(line) {
      NoiseReads(line);
    }
  }

  lemma PrintedValue(lines: seq<string>, entry: string -> Option<(string, string)>, key: string, value: string, line: string)
    requires line in lines && entry(line) == Some((key, value))
    requires forall i :: 0 <= i < |lines| && Gives(entry(lines[i]), key) ==> entry(lines[i]).value.1 == value
    ensures ValueFor(lines, entry, key) == value
  {
    var i :| 0 <= i < |lines| && lines[i] == line;
    LastOfMany(lines, entry, key, value, i);
  }

  lemma PrintedValues(p: Association, lines: seq<string>)
    requires p.Prints(lines)
    ensures !Any(lines, IsDisconnect) && Any(lines, IsConnect)
    ensures ValueFor(lines, AccessPoint, "bssid") == ToLower(p.accessPoint)
    ensures ValueFor(lines, KeyValue, "SSID") == Trim(p.ssid)
    ensures ValueFor(lines, KeyValue, "freq") == p.freq
    ensures ValueFor(lines, KeyValue, "signal") == RenderInt(p.signal) + p.signalUnit
    ensures ValueFor(lines, KeyValue, "tx bitrate") == p.rate + p.rateUnit
  {
    forall i | 0 <= i < |lines|
      ensures !IsDisconnect(lines[i])
      ensures Gives(AccessPoint(lines[i]), "bssid") ==> AccessPoint(lines[i]).value.1 == ToLower(p.accessPoint)
      ensures Gives(KeyValue(lines[i]), "SSID") ==> KeyValue(lines[i]).value.1 == Trim(p.ssid)
      ensures Gives(KeyValue(lines[i]), "freq") ==> KeyValue(lines[i]).value.1 == p.freq
      ensures Gives(KeyValue(lines[i]), "signal") ==> KeyValue(lines[i]).value.1 == RenderInt(p.signal) + p.signalUnit
      ensures Gives(KeyValue(lines[i]), "tx bitrate") ==> KeyValue(lines[i]).value.1 == p.rate + p.rateUnit
    {
      PrintedLineReads(p, lines[i]);
    }
    ConnectLineReads(p);
    ValueLinesRead(p);
    PrintedValue(lines, AccessPoint, "bssid", ToLower(p.accessPoint), p.ConnectLine());
    PrintedValue(lines, KeyValue, "SSID", Trim(p.ssid), p.SsidLine());
    PrintedValue(lines, KeyValue, "freq", p.freq, p.FreqLine());
    PrintedValue(lines, KeyValue, "signal", RenderInt(p.signal) + p.signalUnit, p.SignalLine());
    PrintedValue(lines, KeyValue, "tx bitrate", p.rate + p.rateUnit, p.RateLine());
  }

  lemma NumbersRead(p: Association, parse: FloatParser)
    requires p.Valid()
    ensures LeadingFloat(p.freq, parse) == Number(p.freq, parse)
    ensures LeadingFloat(p.rate + p.rateUnit, parse) == Number(p.rate, parse)
    ensures LeadingInt(RenderInt(p.signal) + p.signalUnit) == p.signal
  {
    FieldsOfToken(p.freq);
    WithUnit(p.rate, p.rateUnit);
    IntLeads(p.signal, p.signalUnit);
  }

  /** Reading printed output gives the printed values back, whatever other lines it has, and in whatever order. */
  lemma PrintedLinkReads(p: Association, lines: seq<string>, parse: FloatParser)
    requires p.Prints(lines)
    ensures Reads(LinkOf(lines, parse), p, parse)
  {
    PrintedValues(p, lines);
    NumbersRead(p, parse);
    LowerIsSpelling(p.accessPoint, ToLower(p.accessPoint));
  }
}
