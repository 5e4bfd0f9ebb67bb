/** The escaping that the network list relies on when it builds its rows as HTML. */
module Escape {
  import opened Results
  import opened Text
  import Seqs

  /** `s.replace(/c/g, ref)`. */
  function ReplaceAll(s: string, c: char, ref: string): string {
    if s == "" then "" else (if s[0] == c then ref else [s[0]]) + ReplaceAll(s[1..], c, ref)
  }

  function EscHtml(s: string): string {
    ReplaceAll(ReplaceAll(ReplaceAll(ReplaceAll(s, '&', "&amp;"), '<', "&lt;"), '>', "&gt;"), '"', "&quot;")
  }

  function EscAttr(s: string): string {
    EscHtml(s)
  }

  // ----- The single-pass view

  /** What stands for one character. */
  function Ref(c: char): string {
    if c == '&' then "&amp;"
    else if c == '<' then "&lt;"
    else if c == '>' then "&gt;"
    else if c == '"' then "&quot;"
    else [c]
  }

  function SinglePass(s: string): string {
    if s == "" then "" else Ref(s[0]) + SinglePass(s[1..])
  }

  lemma {:induction false} ReplaceConcat(a: string, b: string, c: char, ref: string)
    ensures ReplaceAll(a + b, c, ref) == ReplaceAll(a, c, ref) + ReplaceAll(b, c, ref)
  {
    if a == "" {
      assert a + b == b;
    } else {
      assert (a + b)[1..] == a[1..] + b;
      ReplaceConcat(a[1..], b, c, ref);
    }
  }

  lemma {:induction false} ReplaceNothing(s: string, c: char, ref: string)
    requires c !in s
    ensures ReplaceAll(s, c, ref) == s
  {
    if s != "" {
      ReplaceNothing(s[1..], c, ref);
    }
  }

  /** The chain on a text is the chain on its parts. */
  lemma ChainConcat(a: string, b: string)
    ensures EscHtml(a + b) == EscHtml(a) + EscHtml(b)
  {
    ReplaceConcat(a, b, '&', "&amp;");
    var a1, b1 := ReplaceAll(a, '&', "&amp;"), ReplaceAll(b, '&', "&amp;");
    ReplaceConcat(a1, b1, '<', "&lt;");
    var a2, b2 := ReplaceAll(a1, '<', "&lt;"), ReplaceAll(b1, '<', "&lt;");
    ReplaceConcat(a2, b2, '>', "&gt;");
    ReplaceConcat(ReplaceAll(a2, '>', "&gt;"), ReplaceAll(b2, '>', "&gt;"), '"', "&quot;");
  }

  lemma ReplaceOne(c: char, ref: string)
    ensures ReplaceAll([c], c, ref) == ref
  {
    assert [c][1..] == "";
    assert ref + "" == ref;
  }

  /** The last replacements of the chain leave a text alone that has none of their characters. */
  lemma LastTwoKeep(s: string)
    requires '>' !in s && '"' !in s
    ensures ReplaceAll(ReplaceAll(s, '>', "&gt;"), '"', "&quot;") == s
  {
    ReplaceNothing(s, '>', "&gt;");
    ReplaceNothing(s, '"', "&quot;");
  }

  lemma LastThreeKeep(s: string)
    requires '<' !in s && '>' !in s && '"' !in s
    ensures ReplaceAll(ReplaceAll(ReplaceAll(s, '<', "&lt;"), '>', "&gt;"), '"', "&quot;") == s
  {
    ReplaceNothing(s, '<', "&lt;");
    LastTwoKeep(s);
  }

  lemma ChainOnLater(c: char)
    requires c != '&' && c != '<'
    ensures EscHtml([c]) == Ref(c)
  {
    ReplaceNothing([c], '&', "&amp;");
    ReplaceNothing([c], '<', "&lt;");
    if c == '>' {
      ReplaceOne('>', "&gt;");
      ReplaceNothing("&gt;", '"', "&quot;");
    } else {
      ReplaceNothing([c], '>', "&gt;");
      if c == '"' {
        ReplaceOne('"', "&quot;");
      } else {
        ReplaceNothing([c], '"', "&quot;");
      }
    }
  }

  /** No later replacement touches what an earlier one put in. */
  lemma ChainOnOne(c: char)
    ensures EscHtml([c]) == Ref(c)
  {
    if c == '&' {
      ReplaceOne('&', "&amp;");
      LastThreeKeep("&amp;");
    } else if c == '<' {
      ReplaceNothing([c], '&', "&amp;");
      ReplaceOne('<', "&lt;");
      LastTwoKeep("&lt;");
    } else {
      ChainOnLater(c);
    }
  }

  /** Four replacements one after the other are one pass that replaces every character by itself. */
  lemma {:induction false} ChainIsSinglePass(s: string)
    ensures EscHtml(s) == SinglePass(s)
  {
    if s != "" {
      ChainConcat([s[0]], s[1..]);
      ChainOnOne(s[0]);
      ChainIsSinglePass(s[1..]);
      assert [s[0]] + s[1..] == s;
    }
  }

  // ----- What the output looks like

  /** A text that starts with one of the four references. */
  predicate StartsWithRef(s: string) {
    "&amp;" <= s || "&lt;" <= s || "&gt;" <= s || "&quot;" <= s
  }

  /** At index `i` there is no raw special character. */
  predicate SafeAt(s: string, i: nat)
    requires i < |s|
  {
    && s[i] != '<' && s[i] != '>' && s[i] != '"'
    && (s[i] == '&' ==> StartsWithRef(s[i..]))
  }

  lemma RefIsSafe(c: char, rest: string, i: nat)
    requires i < |Ref(c)|
    ensures SafeAt(Ref(c) + rest, i)
  {
    var s := Ref(c) + rest;
    if i == 0 {
      assert s[0..] == s;
    }
  }

  lemma {:induction false} SinglePassIsSafe(s: string, i: nat)
    requires i < |SinglePass(s)|
    ensures SafeAt(SinglePass(s), i)
  {
    var n := |Ref(s[0])|;
    if i < n {
      RefIsSafe(s[0], SinglePass(s[1..]), i);
    } else {
      SinglePassIsSafe(s[1..], i - n);
      assert SinglePass(s)[i..] == SinglePass(s[1..])[i - n..];
    }
  }

  /** The output has no raw `<`, `>` or `"`, and every `&` in it starts one of the four references. */
  lemma OutputIsSafe(s: string, i: nat)
    requires i < |EscHtml(s)|
    ensures SafeAt(EscHtml(s), i)
  {
    ChainIsSinglePass(s);
    SinglePassIsSafe(s, i);
  }

  // ----- Reading it back

  /** The tokenizer's named character references, as far as these four (section 13.2.5.72 of the WHATWG HTML Standard). */
  function Decode(s: string): string
    decreases |s|
  {
    if s == "" then ""
    else if "&amp;" <= s then "&" + Decode(s[5..])
    else if "&lt;" <= s then "<" + Decode(s[4..])
    else if "&gt;" <= s then ">" + Decode(s[4..])
    else if "&quot;" <= s then "\"" + Decode(s[6..])
    else [s[0]] + Decode(s[1..])
  }

  lemma DecodeRef(c: char, rest: string)
    ensures Decode(Ref(c) + rest) == [c] + Decode(rest)
  {
    var s := Ref(c) + rest;
    assert s[|Ref(c)|..] == rest && s[0] == Ref(c)[0];
    if c == '<' || c == '>' || c == '"' {
      assert s[1] == Ref(c)[1];
    }
  }

  lemma {:induction false} DecodeSinglePass(s: string)
    ensures Decode(SinglePass(s)) == s
  {
    if s != "" {
      DecodeRef(s[0], SinglePass(s[1..]));
      DecodeSinglePass(s[1..]);
      assert [s[0]] + s[1..] == s;
    }
  }

  /** Decoding gives back the escaped text. */
  lemma DecodeUndoesEscape(s: string)
    ensures Decode(EscHtml(s)) == s
  {
    ChainIsSinglePass(s);
    DecodeSinglePass(s);
  }

  /** The newlines of HTML before it is tokenized (section 13.2.3.5 of the WHATWG HTML Standard). */
  function NormalizeNewlines(s: string): string
    decreases |s|
  {
    if s == "" then ""
    else if s[0] == '\r' then "\n" + NormalizeNewlines(AfterReturn(s[1..]))
    else [s[0]] + NormalizeNewlines(s[1..])
  }

  /** A line feed right after a carriage return belongs to it. */
  function AfterReturn(s: string): (rest: string)
    ensures |rest| <= |s|
  {
    if s != "" && s[0] == '\n' then s[1..] else s
  }

  /** What becomes of U+0000 in an attribute value. */
  function ReplaceNul(s: string): string {
    if s == "" then "" else [if s[0] == '\0' then '\U{FFFD}' else s[0]] + ReplaceNul(s[1..])
  }

  /** The double-quoted attribute value that `html` begins with, as the parser reads it; None if it never ends. */
  function ReadAttribute(html: string): Option<string> {
    var input := NormalizeNewlines(html);
    var end := IndexOf(input, '"');
    if end < 0 then None else Some(ReplaceNul(Decode(input[..end])))
  }

  lemma NormalizeCons(c: char, s: string)
    ensures NormalizeNewlines([c] + s) ==
      if c == '\r' then "\n" + NormalizeNewlines(AfterReturn(s)) else [c] + NormalizeNewlines(s)
  {
    assert ([c] + s)[1..] == s;
  }

  lemma {:induction false} NormalizePlain(a: string, b: string)
    requires '\r' !in a
    ensures NormalizeNewlines(a + b) == a + NormalizeNewlines(b)
  {
    if a == "" {
      assert a + b == b;
    } else {
      var c, rest := a[0], a[1..];
      NormalizePlain(rest, b);
      NormalizeCons(c, rest + b);
      Seqs.PrependConcat(c, rest, b);
      Seqs.PrependConcat(c, rest, NormalizeNewlines(b));
      assert [c] + rest == a;
    }
  }

  lemma AfterReturnConcat(a: string, b: string)
    requires b == "" || b[0] != '\n'
    ensures AfterReturn(a + b) == AfterReturn(a) + b
  {
    if a == "" {
      assert a + b == b;
    } else {
      assert (a + b)[1..] == a[1..] + b;
    }
  }

  lemma {:induction false} NormalizeConcat(a: string, b: string)
    requires b == "" || b[0] != '\n'
    ensures NormalizeNewlines(a + b) == NormalizeNewlines(a) + NormalizeNewlines(b)
    decreases |a|
  {
    if a == "" {
      assert a + b == b;
    } else {
      assert (a + b)[1..] == a[1..] + b;
      if a[0] == '\r' {
        AfterReturnConcat(a[1..], b);
        NormalizeConcat(AfterReturn(a[1..]), b);
      } else {
        NormalizeConcat(a[1..], b);
      }
    }
  }

  lemma SinglePassCons(c: char, s: string)
    ensures SinglePass([c] + s) == Ref(c) + SinglePass(s)
  {
    assert ([c] + s)[1..] == s;
  }

  lemma AfterReturnEscaped(s: string)
    ensures AfterReturn(SinglePass(s)) == SinglePass(AfterReturn(s))
  {
    if s != "" {
      assert SinglePass(s) == Ref(s[0]) + SinglePass(s[1..]);
      assert Ref(s[0])[0] == '\n' <==> s[0] == '\n';
      assert s[0] == '\n' ==> SinglePass(s)[1..] == SinglePass(s[1..]);
    }
  }

  lemma EscapeThenNormalize(s: string)
    ensures NormalizeNewlines(SinglePass(['\r'] + s)) == "\n" + NormalizeNewlines(SinglePass(AfterReturn(s)))
  {
    SinglePassCons('\r', s);
    NormalizeCons('\r', SinglePass(s));
    AfterReturnEscaped(s);
  }

  lemma NormalizeThenEscape(s: string)
    ensures SinglePass(NormalizeNewlines(['\r'] + s)) == "\n" + SinglePass(NormalizeNewlines(AfterReturn(s)))
  {
    NormalizeCons('\r', s);
    SinglePassCons('\n', NormalizeNewlines(AfterReturn(s)));
  }

  lemma NormalizeEscapedOne(c: char, s: string)
    requires c != '\r' && NormalizeNewlines(SinglePass(s)) == SinglePass(NormalizeNewlines(s))
    ensures NormalizeNewlines(SinglePass([c] + s)) == SinglePass(NormalizeNewlines([c] + s))
  {
    SinglePassCons(c, s);
    NormalizePlain(Ref(c), SinglePass(s));
    NormalizeCons(c, s);
    SinglePassCons(c, NormalizeNewlines(s));
  }

  /** Newlines are normalized alike before and after escaping. */
  lemma {:induction false} NormalizeEscaped(s: string)
    ensures NormalizeNewlines(SinglePass(s)) == SinglePass(NormalizeNewlines(s))
    decreases |s|
  {
    if s != "" {
      var c, rest := s[0], s[1..];
      assert [c] + rest == s;
      if c == '\r' {
        NormalizeEscaped(AfterReturn(rest));
        EscapeThenNormalize(rest);
        NormalizeThenEscape(rest);
      } else {
        NormalizeEscaped(rest);
        NormalizeEscapedOne(c, rest);
      }
    }
  }

  /** What reading a name back makes of it: itself exactly without carriage returns and U+0000. */
  lemma SubstitutionsExactlyWhen(s: string)
    ensures ReplaceNul(NormalizeNewlines(s)) == s <==> '\r' !in s && '\0' !in s
  {
    if '\r' !in s && '\0' !in s {
      NormalizePlain(s, "");
      assert s + "" == s;
      ReplaceNothingNul(s);
    } else {
      SubstitutedHasNeither(s);
    }
  }

  lemma {:induction false} ReplaceNothingNul(s: string)
    requires '\0' !in s
    ensures ReplaceNul(s) == s
  {
    if s != "" {
      ReplaceNothingNul(s[1..]);
    }
  }

  lemma {:induction false} SubstitutedHasNeither(s: string)
    ensures '\r' !in ReplaceNul(NormalizeNewlines(s)) && '\0' !in ReplaceNul(NormalizeNewlines(s))
    decreases |s|
  {
    if s != "" {
      SubstitutedHasNeither(if s[0] == '\r' then AfterReturn(s[1..]) else s[1..]);
    }
  }

  lemma EscapedHasNoQuote(s: string)
    ensures '"' !in EscAttr(s)
  {
    forall i | 0 <= i < |EscAttr(s)|
      ensures EscAttr(s)[i] != '"'
    {
      OutputIsSafe(s, i);
    }
  }

  lemma NormalizeBeforeQuote(value: string, rest: string)
    ensures NormalizeNewlines(value + "\"" + rest) == NormalizeNewlines(value) + "\"" + NormalizeNewlines(rest)
  {
    assert value + "\"" + rest == value + ("\"" + rest);
    NormalizeConcat(value, "\"" + rest);
    NormalizePlain("\"", rest);
    assert NormalizeNewlines(value) + ("\"" + NormalizeNewlines(rest)) ==
      NormalizeNewlines(value) + "\"" + NormalizeNewlines(rest);
  }

  lemma NormalizeEscHtml(s: string)
    ensures NormalizeNewlines(EscHtml(s)) == EscHtml(NormalizeNewlines(s))
  {
    ChainIsSinglePass(s);
    ChainIsSinglePass(NormalizeNewlines(s));
    NormalizeEscaped(s);
  }

  /**
   A double-quoted attribute with an escaped network name ends where the escaped value ends. It reads
   back with the parser's own two substitutions and no other change: as the original name if and only
   if the name has no carriage return and no U+0000.
   */
  lemma AttributeReadBack(ssid: string, rest: string)
    ensures
      var read := ReadAttribute(EscAttr(ssid) + "\"" + rest);
      && read == Some(ReplaceNul(NormalizeNewlines(ssid)))
      && (read == Some(ssid) <==> '\r' !in ssid && '\0' !in ssid)
  {
    var name := NormalizeNewlines(ssid);
    NormalizeBeforeQuote(EscAttr(ssid), rest);
    NormalizeEscHtml(ssid);
    EscapedHasNoQuote(name);
    IndexOfFirst(EscAttr(name), '"', NormalizeNewlines(rest));
    DecodeUndoesEscape(name);
    SubstitutionsExactlyWhen(ssid);
  }

  /** Different names are never shown or sent as the same one. */
  lemma EscapeIsInjective(s: string, t: string)
    requires EscHtml(s) == EscHtml(t)
    ensures s == t
  {
    DecodeUndoesEscape(s);
    DecodeUndoesEscape(t);
  }
}
