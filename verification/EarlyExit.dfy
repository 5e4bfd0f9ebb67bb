/** Scans that stop as soon as what they have read so far is enough. */
module EarlyExit {
  import Seqs

  /** The length of the shortest prefix that is enough, or of the whole text if none is. */
  function StopAt(lines: seq<string>, enough: seq<string> -> bool): (n: nat)
    ensures n <= |lines|
  {
    if lines == [] then 0
    else
      var front := lines[..|lines| - 1];
      var n := StopAt(front, enough);
      if n < |front| || enough(front) then n else |lines|
  }

  /** It is what it is said to be. */
  lemma {:induction false} StopIsShortest(lines: seq<string>, enough: seq<string> -> bool)
    ensures forall k :: 0 <= k < StopAt(lines, enough) ==> !enough(lines[..k])
    ensures StopAt(lines, enough) < |lines| ==> enough(lines[..StopAt(lines, enough)])
  {
    if lines != [] {
      var front := lines[..|lines| - 1];
      StopIsShortest(front, enough);
      assert forall k :: 0 <= k <= |front| ==> front[..k] == lines[..k];
    }
  }

  /** And nothing else is. */
  lemma StopAtIs(lines: seq<string>, n: nat, enough: seq<string> -> bool)
    requires n <= |lines| && enough(lines[..n]) && forall k :: 0 <= k < n ==> !enough(lines[..k])
    ensures StopAt(lines, enough) == n
  {
    StopIsShortest(lines, enough);
  }

  lemma {:induction false} StopStays(lines: seq<string>, n: nat, enough: seq<string> -> bool)
    requires n <= |lines| && StopAt(lines[..n], enough) == n && enough(lines[..n])
    ensures StopAt(lines, enough) == n
    decreases |lines|
  {
    if n == |lines| {
      assert lines[..n] == lines;
    } else {
      var front := lines[..|lines| - 1];
      assert front[..n] == lines[..n];
      StopStays(front, n, enough);
    }
  }

  lemma StopAfter(front: seq<string>, line: string, enough: seq<string> -> bool)
    requires StopAt(front, enough) == |front| && !enough(front)
    ensures StopAt(front + [line], enough) == |front| + 1
  {
    Seqs.CutAll(front, line);
  }

  /** A scan that has not had enough reads one more line; if that is enough, it stops there. */
  lemma OneMoreLine(lines: seq<string>, i: nat, enough: seq<string> -> bool)
    requires i < |lines| && StopAt(lines[..i], enough) == i && !enough(lines[..i])
    ensures lines[..i + 1] == lines[..i] + [lines[i]]
    ensures StopAt(lines[..i + 1], enough) == i + 1
    ensures enough(lines[..i + 1]) ==> StopAt(lines, enough) == i + 1
  {
    Seqs.NextPrefix(lines, i);
    StopAfter(lines[..i], lines[i], enough);
    if enough(lines[..i + 1]) {
      StopStays(lines, i + 1, enough);
    }
  }
}
