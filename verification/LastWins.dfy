/**
 Tables built from lines where a later line for a key replaces an earlier one. `entry` says which
 lines give a key and a value.
 */
module LastWins {
  import opened Results

  /** The value of the last line for `key`. */
  function Last<V>(lines: seq<string>, entry: string -> Option<(string, V)>, key: string): Option<V> {
    if lines == [] then None
    else
      var n := |lines| - 1;
      match entry(lines[n])
      case Some((k, v)) => if k == key then Some(v) else Last(lines[..n], entry, key)
      case None => Last(lines[..n], entry, key)
  }

  /** The table after all lines were written into it in order. */
  function Table<V>(lines: seq<string>, entry: string -> Option<(string, V)>): map<string, V> {
    if lines == [] then map[]
    else
      var n := |lines| - 1;
      match entry(lines[n])
      case Some((k, v)) => Table(lines[..n], entry)[k := v]
      case None => Table(lines[..n], entry)
  }

  lemma LastMore<V>(lines: seq<string>, line: string, entry: string -> Option<(string, V)>, key: string)
    ensures Last(lines + [line], entry, key) ==
      match entry(line)
      case Some((k, v)) => if k == key then Some(v) else Last(lines, entry, key)
      case None => Last(lines, entry, key)
  {
    assert (lines + [line])[..|lines|] == lines;
  }

  lemma TableMore<V>(lines: seq<string>, line: string, entry: string -> Option<(string, V)>)
    ensures Table(lines + [line], entry) ==
      match entry(line)
      case Some((k, v)) => Table(lines, entry)[k := v]
      case None => Table(lines, entry)
  {
    assert (lines + [line])[..|lines|] == lines;
  }

  /** What the line gives, if anything, is in `m`. */
  predicate Agrees<V(==)>(e: Option<(string, V)>, m: map<string, V>) {
    e.Some? ==> e.value.0 in m && m[e.value.0] == e.value.1
  }

  /** A table of lines that all agree with `m` is the part of `m` that the lines mention. */
  lemma {:induction false} TableWithin<V>(lines: seq<string>, entry: string -> Option<(string, V)>, m: map<string, V>)
    requires forall i :: 0 <= i < |lines| ==> Agrees(entry(lines[i]), m)
    ensures forall k :: k in Table(lines, entry) ==> k in m && Table(lines, entry)[k] == m[k]
    ensures forall i :: 0 <= i < |lines| && entry(lines[i]).Some? ==> entry(lines[i]).value.0 in Table(lines, entry)
  {
    if lines != [] {
      var n := |lines| - 1;
      assert Agrees(entry(lines[n]), m);
      TableWithin(lines[..n], entry, m);
      forall i | 0 <= i < n && entry(lines[i]).Some?
        ensures entry(lines[i]).value.0 in Table(lines, entry)
      {
        assert lines[..n][i] == lines[i];
      }
    }
  }

  /** A table of lines that agree with `m` and mention all of its keys is `m`. */
  lemma TableIs<V>(lines: seq<string>, entry: string -> Option<(string, V)>, m: map<string, V>)
    requires forall i :: 0 <= i < |lines| ==> Agrees(entry(lines[i]), m)
    requires forall k :: k in m ==> exists i :: 0 <= i < |lines| && entry(lines[i]).Some? && entry(lines[i]).value.0 == k
    ensures Table(lines, entry) == m
  {
    TableWithin(lines, entry, m);
  }

  /** Looking a key up in the table finds the last line for it. */
  lemma {:induction false} TableIsLast<V>(lines: seq<string>, entry: string -> Option<(string, V)>, key: string)
    ensures key in Table(lines, entry) <==> Last(lines, entry, key).Some?
    ensures key in Table(lines, entry) ==> Last(lines, entry, key) == Some(Table(lines, entry)[key])
  {
    if lines != [] {
      TableIsLast(lines[..|lines| - 1], entry, key);
    }
  }

  predicate Gives<V>(e: Option<(string, V)>, key: string) {
    e.Some? && e.value.0 == key
  }

  /** The index of the line that `Last` finds, -1 if there is none. */
  lemma {:induction false} LastAt<V>(lines: seq<string>, entry: string -> Option<(string, V)>, key: string) returns (i: int)
    ensures -1 <= i < |lines| && (i < 0 ==> Last(lines, entry, key) == None)
    ensures i >= 0 ==> Gives(entry(lines[i]), key) && Last(lines, entry, key) == Some(entry(lines[i]).value.1)
    ensures forall j :: i < j < |lines| ==> !Gives(entry(lines[j]), key)
  {
    if lines == [] {
      i := -1;
    } else {
      var n := |lines| - 1;
      if Gives(entry(lines[n]), key) {
        i := n;
      } else {
        i := LastAt(lines[..n], entry, key);
        assert forall j :: 0 <= j < n ==> lines[..n][j] == lines[j];
      }
    }
  }

  /** A key that all its lines give one value has that value. */
  lemma LastOfMany<V>(lines: seq<string>, entry: string -> Option<(string, V)>, key: string, v: V, i: nat)
    requires i < |lines| && Gives(entry(lines[i]), key)
    requires forall j :: 0 <= j < |lines| && Gives(entry(lines[j]), key) ==> entry(lines[j]).value.1 == v
    ensures Last(lines, entry, key) == Some(v)
  {
    var k := LastAt(lines, entry, key);
  }

  lemma {:induction false} LastConcat<V>(a: seq<string>, b: seq<string>, entry: string -> Option<(string, V)>, key: string)
    ensures Last(a + b, entry, key) == if Last(b, entry, key).Some? then Last(b, entry, key) else Last(a, entry, key)
  {
    if b == [] {
      assert a + b == a;
    } else {
      var n := |b| - 1;
      LastConcat(a, b[..n], entry, key);
      assert (a + b)[..|a| + n] == a + b[..n];
    }
  }

  /** The table of two texts one after the other is the right-biased merge of their tables. */
  lemma {:induction false} TableConcat<V>(a: seq<string>, b: seq<string>, entry: string -> Option<(string, V)>)
    ensures Table(a + b, entry) == Table(a, entry) + Table(b, entry)
  {
    if b == [] {
      assert a + b == a;
    } else {
      var front, line := b[..|b| - 1], b[|b| - 1];
      TableConcat(a, front, entry);
      TableMore(a + front, line, entry);
      TableMore(front, line, entry);
      assert a + front + [line] == a + b && front + [line] == b;
    }
  }

  lemma {:induction false} LastDependsOnEntries<V>(a: seq<string>, b: seq<string>, entry: string -> Option<(string, V)>, key: string)
    requires |a| == |b| && forall i :: 0 <= i < |a| ==> entry(a[i]) == entry(b[i])
    ensures Last(a, entry, key) == Last(b, entry, key)
  {
    if a != [] {
      LastDependsOnEntries(a[..|a| - 1], b[..|b| - 1], entry, key);
    }
  }

  lemma {:induction false} TableDependsOnEntries<V>(a: seq<string>, b: seq<string>, entry: string -> Option<(string, V)>)
    requires |a| == |b| && forall i :: 0 <= i < |a| ==> entry(a[i]) == entry(b[i])
    ensures Table(a, entry) == Table(b, entry)
  {
    if a != [] {
      TableDependsOnEntries(a[..|a| - 1], b[..|b| - 1], entry);
    }
  }
}
