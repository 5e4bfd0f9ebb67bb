/**
 The Go library routines the parsers are built on, over ASCII text: trimming, splitting into fields
 and lines, key/value lines, decimal numbers, lower case and the order of strings.
 */
module Text {
  import opened Results
  import Seqs

  const MAX_UINT64: int := 0xFFFF_FFFF_FFFF_FFFF
  type uint64 = n: int | 0 <= n <= MAX_UINT64

  /** `int` on the platforms the program is built for. */
  const MAX_INT64: int := 0x7FFF_FFFF_FFFF_FFFF
  const MIN_INT64: int := -0x8000_0000_0000_0000
  type int64 = n: int | MIN_INT64 <= n <= MAX_INT64

  // ----- White space

  predicate IsSpace(c: char) {
    c == ' ' || c == '\t' || c == '\n' || c == '\r' || c == '\U{0B}' || c == '\U{0C}'
  }

  predicate Blank(s: string) {
    forall i :: 0 <= i < |s| ==> IsSpace(s[i])
  }

  /** A non-empty run of characters other than white space. */
  predicate Token(s: string) {
    s != "" && forall i :: 0 <= i < |s| ==> !IsSpace(s[i])
  }

  /** Neither starts nor ends with white space. */
  predicate Trimmed(s: string) {
    s != "" ==> !IsSpace(s[0]) && !IsSpace(s[|s| - 1])
  }

  function TrimLeft(s: string): string {
    if s != "" && IsSpace(s[0]) then TrimLeft(s[1..]) else s
  }

  function TrimRight(s: string): string {
    if s != "" && IsSpace(s[|s| - 1]) then TrimRight(s[..|s| - 1]) else s
  }

  /** `strings.TrimSpace`. */
  function Trim(s: string): string {
    TrimRight(TrimLeft(s))
  }

  lemma {:induction false} TrimRightKeepsHead(s: string)
    ensures TrimRight(s) <= s && (TrimRight(s) != "" ==> !IsSpace(TrimRight(s)[|TrimRight(s)| - 1]))
  {
    if s != "" && IsSpace(s[|s| - 1]) {
      TrimRightKeepsHead(s[..|s| - 1]);
    }
  }

  lemma {:induction false} TrimLeftBare(s: string)
    ensures TrimLeft(s) != "" ==> !IsSpace(TrimLeft(s)[0])
  {
    if s != "" && IsSpace(s[0]) {
      TrimLeftBare(s[1..]);
    }
  }

  /** Trimming puts nothing in. */
  lemma TrimIsPart(s: string)
    ensures forall c :: c in Trim(s) ==> c in s
  {
    TrimLeftIsPart(s);
    TrimRightKeepsHead(TrimLeft(s));
  }

  lemma {:induction false} TrimLeftIsPart(s: string)
    ensures forall c :: c in TrimLeft(s) ==> c in s
  {
    if s != "" && IsSpace(s[0]) {
      TrimLeftIsPart(s[1..]);
    }
  }

  lemma TrimIsTrimmed(s: string)
    ensures Trimmed(Trim(s))
  {
    TrimLeftBare(s);
    TrimRightKeepsHead(TrimLeft(s));
  }

  lemma {:induction false} TrimLeftPadded(a: string, s: string)
    requires Blank(a) && (s != "" ==> !IsSpace(s[0]))
    ensures TrimLeft(a + s) == s
  {
    if a == "" {
      assert a + s == s;
    } else {
      TrimLeftPadded(a[1..], s);
      assert (a + s)[1..] == a[1..] + s;
    }
  }

  lemma {:induction false} TrimRightPadded(s: string, b: string)
    requires Blank(b) && (s != "" ==> !IsSpace(s[|s| - 1]))
    ensures TrimRight(s + b) == s
  {
    if b == "" {
      assert s + b == s;
    } else {
      TrimRightPadded(s, b[..|b| - 1]);
      assert (s + b)[..|s + b| - 1] == s + b[..|b| - 1];
    }
  }

  /** Trimming removes exactly the padding. */
  lemma TrimPadded(a: string, s: string, b: string)
    requires Blank(a) && Blank(b) && Trimmed(s)
    ensures Trim(a + s + b) == s
  {
    if s == "" {
      assert a + s + b == (a + b) + "";
      TrimLeftPadded(a + b, "");
    } else {
      assert a + s + b == a + (s + b);
      TrimLeftPadded(a, s + b);
      TrimRightPadded(s, b);
    }
  }

  lemma TrimOfTrimmed(s: string)
    requires Trimmed(s)
    ensures Trim(s) == s
  {
    TrimPadded("", s, "");
    assert "" + s + "" == s;
  }

  lemma {:induction false} TrimRightAfter(front: string, s: string)
    requires front != "" && !IsSpace(front[|front| - 1])
    ensures TrimRight(front + s) == front + TrimRight(s)
  {
    if s == "" {
      assert front + s == front;
    } else if IsSpace(s[|s| - 1]) {
      TrimRightAfter(front, s[..|s| - 1]);
      assert (front + s)[..|front + s| - 1] == front + s[..|s| - 1];
    }
  }

  lemma {:induction false} TrimSpaceAfter(s: string, c: char)
    requires IsSpace(c)
    ensures Trim(s + [c]) == Trim(s)
  {
    if s == "" {
      assert ("" + [c])[1..] == "";
    } else if IsSpace(s[0]) {
      TrimSpaceAfter(s[1..], c);
      assert (s + [c])[1..] == s[1..] + [c];
    } else {
      assert (s + [c])[..|s|] == s;
    }
  }

  lemma {:induction false} TrimOfTrimRight(s: string)
    ensures Trim(TrimRight(s)) == Trim(s)
  {
    if s != "" && IsSpace(s[|s| - 1]) {
      var front := s[..|s| - 1];
      TrimOfTrimRight(front);
      TrimSpaceAfter(front, s[|s| - 1]);
      assert front + [s[|s| - 1]] == s;
    }
  }

  // ----- Fields

  function TokenLength(s: string): (n: nat)
    ensures n <= |s|
    ensures forall i :: 0 <= i < n ==> !IsSpace(s[i])
    ensures n < |s| ==> IsSpace(s[n])
  {
    if s == "" || IsSpace(s[0]) then 0 else 1 + TokenLength(s[1..])
  }

  /** `strings.Fields`: the maximal runs of characters other than white space. */
  function Fields(s: string): seq<string>
    decreases |s|
  {
    if s == "" then []
    else if IsSpace(s[0]) then Fields(s[1..])
    else
      var n := TokenLength(s);
      [s[..n]] + Fields(s[n..])
  }

  lemma {:induction false} FieldsSkip(a: string, s: string)
    requires Blank(a)
    ensures Fields(a + s) == Fields(s)
  {
    if a == "" {
      assert a + s == s;
    } else {
      FieldsSkip(a[1..], s);
      assert (a + s)[1..] == a[1..] + s;
    }
  }

  lemma {:induction false} TokenLengthOf(tok: string, rest: string)
    requires Token(tok) && (rest == "" || IsSpace(rest[0]))
    ensures TokenLength(tok + rest) == |tok|
  {
    var s := tok + rest;
    assert forall i :: 0 <= i < |tok| ==> s[i] == tok[i];
    assert rest != "" ==> s[|tok|] == rest[0];
  }

  lemma FieldsCons(tok: string, rest: string)
    requires Token(tok) && (rest == "" || IsSpace(rest[0]))
    ensures Fields(tok + rest) == [tok] + Fields(rest)
  {
    TokenLengthOf(tok, rest);
    var s := tok + rest;
    assert s[0] == tok[0];
    assert s[..|tok|] == tok && s[|tok|..] == rest;
  }

  lemma FieldsAfterSpace(s: string)
    ensures Fields(" " + s) == Fields(s)
  {
  }

  lemma FieldsFrom(tok: string, rest: string, more: seq<string>)
    requires Token(tok) && (rest == "" || IsSpace(rest[0])) && Fields(rest) == more
    ensures Fields(tok + rest) == [tok] + more && Fields(" " + (tok + rest)) == [tok] + more
  {
    FieldsCons(tok, rest);
    FieldsAfterSpace(tok + rest);
  }

  lemma FirstTwoFields(first: string, second: string, rest: string)
    requires Token(first) && Token(second) && (rest == "" || IsSpace(rest[0]))
    ensures Fields(first + (" " + (second + rest))) == [first, second] + Fields(rest)
  {
    FieldsFrom(second, rest, Fields(rest));
    FieldsFrom(first, " " + (second + rest), [second] + Fields(rest));
  }

  lemma FirstThreeFields(first: string, second: string, third: string, rest: string)
    requires Token(first) && Token(second) && Token(third) && (rest == "" || IsSpace(rest[0]))
    ensures Fields(first + (" " + (second + (" " + (third + rest))))) == [first, second, third] + Fields(rest)
  {
    FieldsFrom(third, rest, Fields(rest));
    FieldsFrom(second, " " + (third + rest), [third] + Fields(rest));
    FieldsFrom(first, " " + (second + (" " + (third + rest))), [second] + ([third] + Fields(rest)));
    Seqs.FirstThree(first, second, third, Fields(rest));
  }

  lemma FieldsOfToken(tok: string)
    requires Token(tok)
    ensures Fields(tok) == [tok]
  {
    FieldsCons(tok, "");
    assert tok + "" == tok;
  }

  lemma {:induction false} FieldsNonBlank(s: string)
    requires !Blank(s)
    ensures Fields(s) != []
  {
    if IsSpace(s[0]) {
      var i :| 0 <= i < |s| && !IsSpace(s[i]);
      assert s[1..][i - 1] == s[i];
      FieldsNonBlank(s[1..]);
    }
  }

  // ----- Key/value lines

  /** `strings.IndexByte`: the first index of `c`, or -1. */
  function IndexOf(s: string, c: char): (i: int)
    ensures -1 <= i < |s|
  {
    if s == "" then -1
    else if s[0] == c then 0
    else
      var i := IndexOf(s[1..], c);
      if i < 0 then -1 else i + 1
  }

  lemma {:induction false} IndexOfMeaning(s: string, c: char)
    ensures
      var i := IndexOf(s, c);
      if i < 0 then c !in s else s[i] == c && c !in s[..i]
  {
    if s != "" && s[0] != c {
      IndexOfMeaning(s[1..], c);
      var i := IndexOf(s, c);
      assert i >= 0 ==> s[..i] == [s[0]] + s[1..][..i - 1];
    }
  }

  /** The halves of a line around its first colon, trimmed; none without a colon. */
  function SplitKeyValue(line: string): Option<(string, string)> {
    var colon := IndexOf(line, ':');
    if colon < 0 then None else Some((Trim(line[..colon]), Trim(line[colon + 1..])))
  }

  lemma {:induction false} IndexOfFirst(a: string, c: char, b: string)
    requires c !in a
    ensures IndexOf(a + [c] + b, c) == |a|
    ensures (a + [c] + b)[..|a|] == a && (a + [c] + b)[|a| + 1..] == b
  {
    if a != "" {
      assert a[0] != c && c !in a[1..];
      IndexOfFirst(a[1..], c, b);
      assert (a + [c] + b)[1..] == a[1..] + [c] + b;
    }
  }

  /** A rendered key/value line, with any padding around the two halves. */
  lemma SplitRendered(key: string, gap: string, value: string)
    requires ':' !in key && Trimmed(key) && Blank(gap) && Trimmed(value)
    ensures SplitKeyValue(key + ":" + (gap + value)) == Some((key, value))
  {
    IndexOfFirst(key, ':', gap + value);
    TrimOfTrimmed(key);
    TrimPadded(gap, value, "");
    assert gap + value + "" == gap + value;
  }

  /** An indented key/value line: the key as it is, the value trimmed. */
  lemma SplitLine(key: string, text: string)
    requires key != "" && Trimmed(key) && ':' !in key
    ensures Trim("\t" + (key + ":" + text)) == key + ":" + TrimRight(text)
    ensures SplitKeyValue(Trim("\t" + (key + ":" + text))) == Some((key, Trim(text)))
  {
    var line := key + ":" + text;
    TrimLeftPadded("\t", line);
    TrimRightAfter(key + ":", text);
    IndexOfFirst(key, ':', TrimRight(text));
    TrimOfTrimmed(key);
    TrimOfTrimRight(text);
  }

  // ----- Decimal numbers

  predicate IsDigit(c: char) {
    '0' <= c <= '9'
  }

  predicate AllDigits(s: string) {
    forall i :: 0 <= i < |s| ==> IsDigit(s[i])
  }

  function DigitValue(c: char): nat
    requires IsDigit(c)
  {
    c as int - '0' as int
  }

  function DigitChar(d: nat): (c: char)
    requires d < 10
    ensures IsDigit(c) && DigitValue(c) == d
  {
    '0' + d as char
  }

  function Decimal(s: string): nat
    requires AllDigits(s)
  {
    if s == "" then 0 else Decimal(s[..|s| - 1]) * 10 + DigitValue(s[|s| - 1])
  }

  /** `strconv.ParseUint(s, 10, 64)`. */
  function ParseUint(s: string): Option<uint64> {
    if s != "" && AllDigits(s) && Decimal(s) <= MAX_UINT64 then Some(Decimal(s)) else None
  }

  /** `strconv.Atoi`: an optional sign, then digits. */
  function Atoi(s: string): Option<int64> {
    var signed := s != "" && (s[0] == '-' || s[0] == '+');
    var digits := if signed then s[1..] else s;
    if digits == "" || !AllDigits(digits) then None
    else
      var size: int := Decimal(digits);
      var n := if signed && s[0] == '-' then -size else size;
      if MIN_INT64 <= n <= MAX_INT64 then Some(n) else None
  }

  /** The leading signed integer of a value, or 0. */
  function LeadingInt(value: string): int64 {
    var fields := Fields(value);
    if fields == [] then 0
    else
      match Atoi(fields[0])
      case Some(n) => n
      case None => 0
  }

  /** `strconv.ParseFloat`, with exact values. */
  type FloatParser = string -> Option<real>

  lemma AppendDigit(front: string, d: nat)
    requires AllDigits(front) && d < 10
    ensures AllDigits(front + [DigitChar(d)]) && Decimal(front + [DigitChar(d)]) == Decimal(front) * 10 + d
  {
    assert (front + [DigitChar(d)])[..|front|] == front;
  }

  /** The number printed in decimal. */
  function Render(n: nat): (s: string)
    ensures s != "" && AllDigits(s) && Decimal(s) == n
  {
    var front := if n < 10 then "" else Render(n / 10);
    AppendDigit(front, n % 10);
    front + [DigitChar(n % 10)]
  }

  function RenderInt(n: int): string {
    if n < 0 then "-" + Render(-n) else Render(n)
  }

  lemma DigitsAreToken(s: string)
    requires s != "" && AllDigits(s)
    ensures Token(s) && ':' !in s && Trimmed(s)
  {
    assert forall i :: 0 <= i < |s| ==> IsDigit(s[i]);
  }

  lemma RenderIsToken(n: nat)
    ensures Token(Render(n)) && ':' !in Render(n) && Trimmed(Render(n))
  {
    DigitsAreToken(Render(n));
  }

  lemma SignedIsToken(digits: string)
    requires Token(digits)
    ensures Token("-" + digits) && Trimmed("-" + digits)
  {
  }

  lemma RenderIntIsToken(n: int)
    ensures Token(RenderInt(n)) && Trimmed(RenderInt(n))
  {
    if n < 0 {
      RenderIsToken(-n);
      SignedIsToken(Render(-n));
    } else {
      RenderIsToken(n);
    }
  }

  lemma ParseRendered(n: uint64)
    ensures ParseUint(Render(n)) == Some(n)
  {
  }

  lemma AtoiOfDigits(s: string)
    requires s != "" && AllDigits(s) && Decimal(s) <= MAX_INT64
    ensures Atoi(s) == Some(Decimal(s))
  {
    assert IsDigit(s[0]);
  }

  lemma AtoiOfNegative(s: string)
    requires s != "" && AllDigits(s) && Decimal(s) <= -MIN_INT64
    ensures Atoi("-" + s) == Some(-(Decimal(s) as int))
  {
    assert ("-" + s)[1..] == s;
  }

  /** A plus sign may stand before digits, a minus sign negates them; what does not fit 64 bits is not read. */
  lemma AtoiExactly(digits: string)
    requires digits != "" && AllDigits(digits)
    ensures Atoi(digits) == if Decimal(digits) <= 0x7FFF_FFFF_FFFF_FFFF then Some(Decimal(digits)) else None
    ensures Atoi("+" + digits) == Atoi(digits)
    ensures Atoi("-" + digits) == if Decimal(digits) <= 0x8000_0000_0000_0000 then Some(-(Decimal(digits) as int)) else None
    ensures Atoi("") == None && Atoi("-") == None && Atoi("+") == None
  {
    assert IsDigit(digits[0]);
    assert ("+" + digits)[1..] == digits && ("-" + digits)[1..] == digits;
  }

  lemma AtoiRendered(n: int64)
    ensures Atoi(RenderInt(n)) == Some(n)
  {
    if n < 0 {
      AtoiOfNegative(Render(-(n as int)));
    } else {
      AtoiOfDigits(Render(n));
    }
  }

  /** A unit after a number: white space first, none last. */
  predicate Unit(unit: string) {
    unit != "" && IsSpace(unit[0]) && !IsSpace(unit[|unit| - 1])
  }

  lemma WithUnit(number: string, unit: string)
    requires Token(number) && Unit(unit)
    ensures Fields(number + unit) == [number] + Fields(unit) && Trimmed(number + unit)
  {
    FieldsCons(number, unit);
  }

  lemma IntLeads(n: int64, unit: string)
    requires Unit(unit)
    ensures LeadingInt(RenderInt(n) + unit) == n && Trimmed(RenderInt(n) + unit)
  {
    RenderIntIsToken(n);
    WithUnit(RenderInt(n), unit);
    AtoiRendered(n);
  }

  // ----- Lower case

  function LowerChar(c: char): char {
    if 'A' <= c <= 'Z' then c + 32 as char else c
  }

  /** `strings.ToLower`. */
  function ToLower(s: string): string {
    seq(|s|, i requires 0 <= i < |s| => LowerChar(s[i]))
  }

  /** The same character, or the two cases of one letter. */
  predicate SameLetter(c: char, d: char) {
    c == d || ('A' <= c <= 'Z' && d as int == c as int + 32) || ('A' <= d <= 'Z' && c as int == d as int + 32)
  }

  /** The two strings differ at most in the case of letters. */
  predicate SameButCase(s: string, t: string) {
    |s| == |t| && forall i :: 0 <= i < |s| ==> SameLetter(s[i], t[i])
  }

  predicate NoCapitals(s: string) {
    forall i :: 0 <= i < |s| ==> !('A' <= s[i] <= 'Z')
  }

  /** Lower case is the one spelling without capitals that differs from a text at most in case. */
  lemma LowerIsSpelling(s: string, t: string)
    ensures ToLower(s) == t <==> SameButCase(s, t) && NoCapitals(t)
  {
    if SameButCase(s, t) && NoCapitals(t) {
      assert forall i :: 0 <= i < |s| ==> SameLetter(s[i], t[i]) && !('A' <= t[i] <= 'Z');
    }
  }

  lemma LowerForgetsCase(s: string, t: string)
    ensures ToLower(s) == ToLower(t) <==> SameButCase(s, t)
  {
    if ToLower(s) == ToLower(t) {
      assert |s| == |ToLower(s)| == |t|;
      forall i | 0 <= i < |s|
        ensures SameLetter(s[i], t[i])
      {
        assert ToLower(s)[i] == ToLower(t)[i];
      }
    }
  }

  // ----- The order of strings

  /** `s < t` on Go strings. */
  predicate Less(s: string, t: string) {
    t != "" && (s == "" || s[0] < t[0] || (s[0] == t[0] && Less(s[1..], t[1..])))
  }

  /** The two agree up to `k`, where `s` ends or has the smaller character. */
  predicate SmallerAt(s: string, t: string, k: nat) {
    k <= |s| && k < |t| && s[..k] == t[..k] && (k == |s| || s[k] < t[k])
  }

  lemma SmallerInTail(s: string, t: string, k: nat)
    requires s != "" && t != "" && s[0] == t[0]
    ensures SmallerAt(s[1..], t[1..], k) <==> SmallerAt(s, t, k + 1)
  {
    if k <= |s| - 1 && k <= |t| - 1 {
      assert s[..k + 1] == [s[0]] + s[1..][..k] && t[..k + 1] == [t[0]] + t[1..][..k];
      assert s[1..][..k] == s[..k + 1][1..] && t[1..][..k] == t[..k + 1][1..];
    }
  }

  lemma SmallerAtHead(s: string, t: string)
    requires s == "" || t == "" || s[0] != t[0]
    ensures forall k: nat :: SmallerAt(s, t, k) ==> k == 0
  {
    forall k: nat | 0 < k <= |s| && k <= |t|
      ensures s[..k][0] == s[0] && t[..k][0] == t[0]
    {
    }
  }

  /** A string comes first if it ends, or has the smaller character, where the two first differ. */
  lemma {:induction false} LessMeaning(s: string, t: string)
    ensures Less(s, t) <==> exists k: nat :: SmallerAt(s, t, k)
  {
    if s != "" && t != "" && s[0] == t[0] {
      LessMeaning(s[1..], t[1..]);
      forall k: nat
        ensures SmallerAt(s[1..], t[1..], k) <==> SmallerAt(s, t, k + 1)
      {
        SmallerInTail(s, t, k);
      }
      if k: nat :| SmallerAt(s, t, k) {
        assert SmallerAt(s[1..], t[1..], k - 1);
      }
    } else {
      SmallerAtHead(s, t);
      assert Less(s, t) ==> SmallerAt(s, t, 0);
    }
  }

  lemma {:induction false} LessIsTotal(s: string, t: string)
    ensures Less(s, t) || s == t || Less(t, s)
    ensures !(Less(s, t) && Less(t, s))
    ensures !Less(s, s)
  {
    if s != "" && t != "" && s[0] == t[0] {
      LessIsTotal(s[1..], t[1..]);
      assert s == [s[0]] + s[1..] && t == [t[0]] + t[1..];
    }
    if s != "" {
      LessIsTotal(s[1..], s[1..]);
    }
  }

  lemma {:induction false} LessIsTransitive(s: string, t: string, u: string)
    requires Less(s, t) && Less(t, u)
    ensures Less(s, u)
  {
    if s != "" && s[0] == t[0] == u[0] {
      LessIsTransitive(s[1..], t[1..], u[1..]);
    }
  }

  // ----- Lines

  /** One line without the carriage return that may end it. */
  function DropReturn(line: string): string {
    if line != "" && line[|line| - 1] == '\r' then line[..|line| - 1] else line
  }

  /** The lines `bufio.Scanner` gives for a text. */
  function ScanLines(text: string): seq<string>
    decreases |text|
  {
    if text == "" then []
    else
      var end := IndexOf(text, '\n');
      if end < 0 then [DropReturn(text)]
      else [DropReturn(text[..end])] + ScanLines(text[end + 1..])
  }

  /** The text with every line ended by a line feed. */
  function Unlines(lines: seq<string>): string {
    if lines == [] then "" else lines[0] + "\n" + Unlines(lines[1..])
  }

  predicate PlainLine(line: string) {
    '\n' !in line && DropReturn(line) == line
  }

  predicate PlainLines(lines: seq<string>) {
    forall i :: 0 <= i < |lines| ==> PlainLine(lines[i])
  }

  lemma ScanFirst(line: string, rest: string)
    requires '\n' !in line
    ensures ScanLines(line + "\n" + rest) == [DropReturn(line)] + ScanLines(rest)
  {
    IndexOfFirst(line, '\n', rest);
  }

  /** A line ends at its line feed, with the carriage return before it, if any, or at the end of the text. */
  lemma LineEnds(line: string, rest: string)
    requires PlainLine(line)
    ensures ScanLines(line + "\r" + "\n" + rest) == [line] + ScanLines(rest)
    ensures ScanLines(line + "\n" + rest) == [line] + ScanLines(rest)
    ensures line != "" ==> ScanLines(line) == [line]
  {
    ScanFirst(line + "\r", rest);
    ScanFirst(line, rest);
    assert (line + "\r")[..|line|] == line;
    IndexOfMeaning(line, '\n');
  }

  /** Scanning gives back the lines a text was made of. */
  lemma {:induction false} ScanUnlines(lines: seq<string>)
    requires PlainLines(lines)
    ensures ScanLines(Unlines(lines)) == lines
  {
    if lines != [] {
      assert PlainLine(lines[0]);
      ScanFirst(lines[0], Unlines(lines[1..]));
      ScanUnlines(lines[1..]);
    }
  }

  lemma CutAtLine(a: string, b: string, line: string, rest: string)
    requires a == line + "\n" + rest
    ensures a + "\n" + b == line + "\n" + (rest + "\n" + b)
    ensures a + "\n" == line + "\n" + (rest + "\n")
  {
  }

  lemma FirstCut(a: string) returns (line: string, rest: string)
    requires IndexOf(a, '\n') >= 0
    ensures a == line + "\n" + rest && '\n' !in line
  {
    IndexOfMeaning(a, '\n');
    var end := IndexOf(a, '\n');
    line, rest := a[..end], a[end + 1..];
  }

  lemma ScanCutLast(a: string, b: string)
    requires '\n' !in a
    ensures ScanLines(a + "\n" + b) == ScanLines(a + "\n") + ScanLines(b)
  {
    ScanFirst(a, b);
    ScanFirst(a, "");
    assert a + "\n" == a + "\n" + "";
  }

  lemma ScanCutStep(line: string, rest: string, b: string)
    requires '\n' !in line && ScanLines(rest + "\n" + b) == ScanLines(rest + "\n") + ScanLines(b)
    ensures ScanLines(line + "\n" + (rest + "\n" + b)) == ScanLines(line + "\n" + (rest + "\n")) + ScanLines(b)
  {
    ScanFirst(line, rest + "\n" + b);
    ScanFirst(line, rest + "\n");
    Seqs.PrependConcat(DropReturn(line), ScanLines(rest + "\n"), ScanLines(b));
  }

  /** A text cut after a line feed scans as its two parts. */
  lemma {:induction false} ScanCut(a: string, b: string)
    ensures ScanLines(a + "\n" + b) == ScanLines(a + "\n") + ScanLines(b)
    decreases |a|
  {
    if IndexOf(a, '\n') < 0 {
      IndexOfMeaning(a, '\n');
      ScanCutLast(a, b);
    } else {
      var line, rest := FirstCut(a);
      ScanCut(rest, b);
      ScanCutStep(line, rest, b);
      CutAtLine(a, b, line, rest);
    }
  }
}
