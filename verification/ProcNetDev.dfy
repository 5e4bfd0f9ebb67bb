/** The parser for /proc/net/dev. */
module ProcNetDev {
  import opened Results
  import opened Text
  import opened LastWins

  datatype Counters = Counters(rxBytes: uint64, txBytes: uint64)

  function DigitsLength(s: string): (n: nat)
    ensures n <= |s| && AllDigits(s[..n])
    ensures n < |s| ==> !IsDigit(s[n])
  {
    if s == "" || !IsDigit(s[0]) then 0 else 1 + DigitsLength(s[1..])
  }

  /** `fmt.Sscanf(s, "%d", &n)` into a 64-bit unsigned integer: the leading digits count. */
  function ScanUint(s: string): Option<uint64> {
    ParseUint(s[..DigitsLength(s)])
  }

  /** The interface name and the two counters of a line that has both. */
  function CountersOf(line: string): Option<(string, Counters)> {
    var colon := IndexOf(line, ':');
    if colon < 0 || Trim(line[..colon]) == "" then None
    else
      var fields := Fields(line[colon + 1..]);
      if |fields| < 16 then None
      else
        match (ScanUint(fields[0]), ScanUint(fields[8]))
        case (Some(rx), Some(tx)) => Some((Trim(line[..colon]), Counters(rx, tx)))
        case _ => None
  }

  method ParseProcNetDev(raw: string) returns (out: map<string, Counters>)
    ensures out == Table(ScanLines(raw), CountersOf)
  {
    var lines := ScanLines(raw);
    out := map[];
    for i := 0 to |lines|
      invariant out == Table(lines[..i], CountersOf)
    {
      assert lines[..i + 1][..i] == lines[..i];
      var line := lines[i];
      var colon := IndexOf(line, ':');
      if colon < 0 {
        continue;
      }
      var name := Trim(line[..colon]);
      if name == "" {
        continue;
      }
      var fields := Fields(line[colon + 1..]);
      if |fields| < 16 {
        continue;
      }
      var rx := ScanUint(fields[0]);
      if rx.None? {
        continue;
      }
      var tx := ScanUint(fields[8]);
      if tx.None? {
        continue;
      }
      out := out[name := Counters(rx.value, tx.value)];
    }
    assert lines[..|lines|] == lines;
  }

  /** A file cut after a line feed gives the right-biased merge of its two parts. */
  lemma CountersMerge(a: string, b: string)
    ensures Table(ScanLines(a + "\n" + b), CountersOf) ==
      Table(ScanLines(a + "\n"), CountersOf) + Table(ScanLines(b), CountersOf)
  {
    ScanCut(a, b);
    TableConcat(ScanLines(a + "\n"), ScanLines(b), CountersOf);
  }

  // ----- Rendering the file

  function Columns(cols: seq<string>): string {
    if cols == [] then "" else " " + cols[0] + Columns(cols[1..])
  }

  /** One printed interface: sixteen columns, of which the first and the ninth are the byte counters. */
  datatype Row = Row(padding: string, name: string, cols: seq<string>, counters: Counters) {
    predicate Valid() {
      && Blank(padding) && Trimmed(name) && name != "" && ':' !in name && |cols| == 16
      && (forall i :: 0 <= i < |cols| ==> Token(cols[i]))
      && cols[0] == Render(counters.rxBytes) && cols[8] == Render(counters.txBytes)
    }

    function Line(): string {
      padding + name + ":" + Columns(cols)
    }
  }

  function RowLines(rows: seq<Row>): seq<string> {
    seq(|rows|, i requires 0 <= i < |rows| => rows[i].Line())
  }

  lemma {:induction false} ColumnsSplit(cols: seq<string>)
    requires forall i :: 0 <= i < |cols| ==> Token(cols[i])
    ensures Fields(Columns(cols)) == cols
  {
    if cols != [] {
      var rest := Columns(cols[1..]);
      assert Token(cols[0]);
      ColumnsSplit(cols[1..]);
      assert Columns(cols) == " " + (cols[0] + rest);
      FieldsSkip(" ", cols[0] + rest);
      FieldsCons(cols[0], rest);
    }
  }

  lemma ScanRendered(n: uint64)
    ensures ScanUint(Render(n)) == Some(n)
  {
    ScanReadsDigits(Render(n), "");
    assert Render(n) + "" == Render(n);
  }

  lemma RowParses(row: Row)
    requires row.Valid()
    ensures CountersOf(row.Line()) == Some((row.name, row.counters))
  {
    var front := row.padding + row.name;
    assert ':' !in row.padding;
    IndexOfFirst(front, ':', Columns(row.cols));
    assert row.padding + row.name + "" == front;
    TrimPadded(row.padding, row.name, "");
    ColumnsSplit(row.cols);
    ScanRendered(row.counters.rxBytes);
    ScanRendered(row.counters.txBytes);
  }

  function Names(rows: seq<Row>): set<string> {
    set i | 0 <= i < |rows| :: rows[i].name
  }

  /** A row of the table. */
  predicate Agree(row: Row, m: map<string, Counters>) {
    row.Valid() && row.name in m && row.counters == m[row.name]
  }

  /**
   Which lines count: a name before the first colon, at least sixteen columns after it, and digits at the
   start of the first and the ninth.
   */
  lemma CountsExactlyWhen(name: string, columns: string)
    requires ':' !in name
    ensures
      var f := Fields(columns);
      CountersOf(name + ":" + columns).Some? <==>
        Trim(name) != "" && |f| >= 16 && ScanUint(f[0]).Some? && ScanUint(f[8]).Some?
    ensures ':' !in columns ==> CountersOf(name + columns) == None
  {
    IndexOfFirst(name, ':', columns);
    IndexOfMeaning(name + columns, ':');
  }

  /** A number is read up to its first other character; one that does not fit 64 bits is not read. */
  lemma ScanReadsDigits(digits: string, rest: string)
    requires digits != "" && AllDigits(digits) && (rest == "" || !IsDigit(rest[0]))
    ensures ScanUint(digits + rest) == if Decimal(digits) <= 0xFFFF_FFFF_FFFF_FFFF then Some(Decimal(digits)) else None
    ensures ScanUint(rest) == None
  {
    DigitsBefore(digits, rest);
    assert (digits + rest)[..|digits|] == digits;
  }

  lemma {:induction false} DigitsBefore(digits: string, rest: string)
    requires AllDigits(digits) && (rest == "" || !IsDigit(rest[0]))
    ensures DigitsLength(digits + rest) == |digits|
  {
    if digits == "" {
      assert digits + rest == rest;
    } else {
      assert IsDigit(digits[0]) && (digits + rest)[1..] == digits[1..] + rest;
      DigitsBefore(digits[1..], rest);
    }
  }

  /** The rows print the table: all of it, and nothing else. */
  predicate Prints(rows: seq<Row>, m: map<string, Counters>) {
    (forall i :: 0 <= i < |rows| ==> Agree(rows[i], m)) && Names(rows) == m.Keys
  }

  lemma RowsParse(rows: seq<Row>, m: map<string, Counters>)
    requires Prints(rows, m)
    ensures
      var lines := RowLines(rows);
      && (forall i :: 0 <= i < |lines| ==> Agrees(CountersOf(lines[i]), m))
      && (forall i :: 0 <= i < |rows| ==> CountersOf(lines[i]).Some? && CountersOf(lines[i]).value.0 == rows[i].name)
  {
    forall i | 0 <= i < |rows|
      ensures CountersOf(rows[i].Line()) == Some((rows[i].name, rows[i].counters)) && Agree(rows[i], m)
    {
      assert Agree(rows[i], m);
      RowParses(rows[i]);
    }
  }

  lemma EveryNameIsMentioned(rows: seq<Row>, lines: seq<string>, entry: string -> Option<(string, Counters)>, k: string)
    requires k in Names(rows) && |lines| == |rows|
    requires forall i :: 0 <= i < |rows| ==> entry(lines[i]).Some? && entry(lines[i]).value.0 == rows[i].name
    ensures exists i :: 0 <= i < |lines| && entry(lines[i]).Some? && entry(lines[i]).value.0 == k
  {
    var i :| 0 <= i < |rows| && rows[i].name == k;
    assert entry(lines[i]).value.0 == k;
  }

  lemma RowsGive(rows: seq<Row>, m: map<string, Counters>)
    requires Prints(rows, m)
    ensures Table(RowLines(rows), CountersOf) == m
  {
    RowsParse(rows, m);
    forall k | k in m
      ensures exists i :: 0 <= i < |RowLines(rows)| && CountersOf(RowLines(rows)[i]).Some? && CountersOf(RowLines(rows)[i]).value.0 == k
    {
      EveryNameIsMentioned(rows, RowLines(rows), CountersOf, k);
    }
    TableIs(RowLines(rows), CountersOf, m);
  }

  lemma AfterHeader(header: seq<string>, lines: seq<string>, m: map<string, Counters>)
    requires Table(header, CountersOf) == map[] && Table(lines, CountersOf) == m && PlainLines(header + lines)
    ensures Table(ScanLines(Unlines(header + lines)), CountersOf) == m
  {
    ScanUnlines(header + lines);
    TableConcat(header, lines, CountersOf);
  }

  /** Parsing rows printed for a table, after any lines that are not counters, gives the table back. */
  lemma RoundTrip(header: seq<string>, rows: seq<Row>, m: map<string, Counters>)
    requires Table(header, CountersOf) == map[] && PlainLines(header + RowLines(rows))
    requires Prints(rows, m)
    ensures Table(ScanLines(Unlines(header + RowLines(rows))), CountersOf) == m
  {
    RowsGive(rows, m);
    AfterHeader(header, RowLines(rows), m);
  }

  // ----- Which tables can be printed

  /** What can stand before the colon of a line. */
  predicate LegalName(name: string) {
    Trimmed(name) && name != "" && ':' !in name && '\n' !in name
  }

  ghost predicate LegalNames(m: map<string, Counters>) {
    forall k :: k in m ==> LegalName(k)
  }

  /** Zeros for the columns that do not matter. */
  function Zeros(n: nat): seq<string> {
    seq(n, _ => "0")
  }

  /** A row of the file for one interface. */
  function RowFor(name: string, c: Counters): Row {
    Row("  ", name, [Render(c.rxBytes)] + Zeros(7) + [Render(c.txBytes)] + Zeros(7), c)
  }

  lemma SixteenColumns(rx: string, tx: string)
    requires Token(rx) && Token(tx)
    ensures
      var cols := [rx] + Zeros(7) + [tx] + Zeros(7);
      && |cols| == 16 && cols[0] == rx && cols[8] == tx
      && forall i :: 0 <= i < |cols| ==> Token(cols[i])
  {
    assert Token("0");
  }

  lemma RowForIsValid(name: string, c: Counters)
    requires LegalName(name)
    ensures RowFor(name, c).Valid()
  {
    RenderIsToken(c.rxBytes);
    RenderIsToken(c.txBytes);
    SixteenColumns(Render(c.rxBytes), Render(c.txBytes));
  }

  lemma {:induction false} ColumnsArePlain(cols: seq<string>)
    requires forall i :: 0 <= i < |cols| ==> Token(cols[i])
    ensures '\n' !in Columns(cols)
    ensures cols != [] ==> Columns(cols) != "" && !IsSpace(Columns(cols)[|Columns(cols)| - 1])
  {
    if cols != [] {
      assert Token(cols[0]);
      ColumnsArePlain(cols[1..]);
    }
  }

  lemma RowIsPlain(row: Row)
    requires row.Valid() && '\n' !in row.padding && '\n' !in row.name
    ensures PlainLine(row.Line())
  {
    ColumnsArePlain(row.cols);
    assert row.Line()[|row.Line()| - 1] == Columns(row.cols)[|Columns(row.cols)| - 1];
  }

  lemma NamesMore(rows: seq<Row>, row: Row)
    ensures Names(rows + [row]) == Names(rows) + {row.name}
  {
    var all := rows + [row];
    assert forall i :: 0 <= i < |rows| ==> all[i] == rows[i];
    assert all[|rows|] == row;
  }

  lemma PrintsMore(rows: seq<Row>, m: map<string, Counters>, row: Row)
    requires row.Valid() && row.name in m && row.counters == m[row.name] && Prints(rows, m - {row.name})
    ensures Prints(rows + [row], m)
  {
    NamesMore(rows, row);
    var rest := m - {row.name};
    assert m.Keys == rest.Keys + {row.name};
    forall i | 0 <= i < |rows|
      ensures Agree(rows[i], m)
    {
      assert Agree(rows[i], rest);
    }
  }

  lemma PlainMore(rows: seq<Row>, row: Row)
    requires PlainLines(RowLines(rows)) && PlainLine(row.Line())
    ensures PlainLines(RowLines(rows + [row]))
  {
    assert RowLines(rows + [row]) == RowLines(rows) + [row.Line()];
  }

  /** Every table with legal names has rows that print it. */
  lemma {:induction false} RowsExist(m: map<string, Counters>) returns (rows: seq<Row>)
    requires LegalNames(m)
    ensures Prints(rows, m) && PlainLines(RowLines(rows))
    decreases |m|
  {
    if m == map[] {
      rows := [];
    } else {
      var name :| name in m;
      rows := RowsExist(m - {name});
      var row := RowFor(name, m[name]);
      RowForIsValid(name, m[name]);
      RowIsPlain(row);
      PrintsMore(rows, m, row);
      PlainMore(rows, row);
      rows := rows + [row];
    }
  }

  lemma {:induction false} ScannedLinesHaveNoLineFeed(text: string)
    ensures forall i :: 0 <= i < |ScanLines(text)| ==> '\n' !in ScanLines(text)[i]
    decreases |text|
  {
    IndexOfMeaning(text, '\n');
    var end := IndexOf(text, '\n');
    if end >= 0 {
      ScannedLinesHaveNoLineFeed(text[end + 1..]);
    }
  }

  lemma NamesOfLinesAreLegal(line: string)
    requires '\n' !in line
    ensures CountersOf(line).Some? ==> LegalName(CountersOf(line).value.0)
  {
    var colon := IndexOf(line, ':');
    IndexOfMeaning(line, ':');
    if colon >= 0 {
      TrimIsTrimmed(line[..colon]);
      TrimIsPart(line[..colon]);
    }
  }

  lemma {:induction false} KeysComeFromLines(lines: seq<string>)
    requires forall i :: 0 <= i < |lines| ==> '\n' !in lines[i]
    ensures LegalNames(Table(lines, CountersOf))
  {
    if lines != [] {
      KeysComeFromLines(lines[..|lines| - 1]);
      NamesOfLinesAreLegal(lines[|lines| - 1]);
    }
  }

  /** The parser gives exactly the tables whose names are legal: those, printed, it gives back, and it gives no others. */
  lemma ParsesExactlyLegalTables(m: map<string, Counters>)
    ensures LegalNames(m) <==> exists raw :: Table(ScanLines(raw), CountersOf) == m
  {
    if LegalNames(m) {
      var rows := RowsExist(m);
      assert [] + RowLines(rows) == RowLines(rows);
      RoundTrip([], rows, m);
    }
    if raw :| Table(ScanLines(raw), CountersOf) == m {
      ScannedLinesHaveNoLineFeed(raw);
      KeysComeFromLines(ScanLines(raw));
    }
  }

  /** Every table with legal names can be printed after a header so that parsing gives it back. */
  lemma PrintedTable(header: seq<string>, m: map<string, Counters>) returns (rows: seq<Row>)
    requires Table(header, CountersOf) == map[] && PlainLines(header) && LegalNames(m)
    ensures Prints(rows, m) && Table(ScanLines(Unlines(header + RowLines(rows))), CountersOf) == m
  {
    rows := RowsExist(m);
    RoundTrip(header, rows, m);
  }
}
