/** Texts made of blocks: a header line and the lines up to the next header. */
module Blocks {
  import opened Results
  import Seqs

  /** The index of the last header, -1 if there is none. */
  function LastHeader(lines: seq<string>, isHeader: string -> bool): (h: int)
    ensures -1 <= h < |lines|
  {
    if lines == [] then -1
    else if isHeader(lines[|lines| - 1]) then |lines| - 1
    else LastHeader(lines[..|lines| - 1], isHeader)
  }

  /** What the blocks of a text give, in order; lines before the first header give nothing. */
  function Read<C>(lines: seq<string>, isHeader: string -> bool, block: (string, seq<string>) -> seq<C>): seq<C>
    decreases |lines|
  {
    var h := LastHeader(lines, isHeader);
    if h < 0 then [] else Read(lines[..h], isHeader, block) + block(lines[h], lines[h + 1..])
  }

  /** What the blocks before the last one give. */
  function Closed<C>(lines: seq<string>, isHeader: string -> bool, block: (string, seq<string>) -> seq<C>): seq<C> {
    var h := LastHeader(lines, isHeader);
    if h < 0 then [] else Read(lines[..h], isHeader, block)
  }

  /** What `open` makes of the last block; nothing without one. */
  function Open<C>(lines: seq<string>, isHeader: string -> bool, open: (string, seq<string>) -> Option<C>): Option<C> {
    var h := LastHeader(lines, isHeader);
    if h < 0 then None else open(lines[h], lines[h + 1..])
  }

  lemma OpenAfterHeader<C>(lines: seq<string>, line: string, isHeader: string -> bool, open: (string, seq<string>) -> Option<C>)
    requires isHeader(line)
    ensures Open(lines + [line], isHeader, open) == open(line, [])
  {
    Seqs.CutAll(lines, line);
  }

  /** `line` at the end of a block updates what `open` makes of it. */
  ghost predicate Updates<C(!new)>(open: (string, seq<string>) -> Option<C>, update: (C, string) -> C, line: string) {
    forall header, body ::
      open(header, body + [line]) == match open(header, body) case Some(c) => Some(update(c, line)) case None => None
  }

  /** A line that is no header goes to the block that is open. */
  lemma OpenAfterLine<C(!new)>(lines: seq<string>, line: string, isHeader: string -> bool, open: (string, seq<string>) -> Option<C>,
                         update: (C, string) -> C)
    requires !isHeader(line) && Updates(open, update, line)
    ensures Open(lines + [line], isHeader, open) ==
      match Open(lines, isHeader, open) case Some(c) => Some(update(c, line)) case None => None
  {
    Seqs.CutAll(lines, line);
    var h := LastHeader(lines, isHeader);
    if h >= 0 {
      Seqs.CutAppend(lines, line, h + 1);
    }
  }

  lemma SeeHeader<C>(lines: seq<string>, line: string, isHeader: string -> bool, block: (string, seq<string>) -> seq<C>)
    requires isHeader(line)
    ensures LastHeader(lines + [line], isHeader) == |lines|
    ensures (lines + [line])[|lines| + 1..] == []
    ensures Closed(lines + [line], isHeader, block) == Read(lines, isHeader, block)
  {
    Seqs.CutAll(lines, line);
  }

  lemma SeeLine<C>(lines: seq<string>, line: string, isHeader: string -> bool, block: (string, seq<string>) -> seq<C>)
    requires !isHeader(line)
    ensures
      var h := LastHeader(lines, isHeader);
      && LastHeader(lines + [line], isHeader) == h
      && (h >= 0 ==> (lines + [line])[h + 1..] == lines[h + 1..] + [line])
      && Closed(lines + [line], isHeader, block) == Closed(lines, isHeader, block)
  {
    Seqs.CutAll(lines, line);
    var h := LastHeader(lines, isHeader);
    if h >= 0 {
      Seqs.CutAppend(lines, line, h);
      Seqs.CutAppend(lines, line, h + 1);
    }
  }

  lemma {:induction false} LastHeaderConcat(a: seq<string>, b: seq<string>, isHeader: string -> bool)
    requires LastHeader(b, isHeader) >= 0
    ensures LastHeader(a + b, isHeader) == |a| + LastHeader(b, isHeader)
  {
    var n := |b| - 1;
    if !isHeader(b[n]) {
      Seqs.CutConcat(a, b, n);
      LastHeaderConcat(a, b[..n], isHeader);
    }
  }

  lemma {:induction false} HeaderIsFound(lines: seq<string>, isHeader: string -> bool, i: nat)
    requires i < |lines| && isHeader(lines[i])
    ensures LastHeader(lines, isHeader) >= i && isHeader(lines[LastHeader(lines, isHeader)])
  {
    var n := |lines| - 1;
    if !isHeader(lines[n]) {
      HeaderIsFound(lines[..n], isHeader, i);
    }
  }

  lemma LastHeaderOfConcat(a: seq<string>, b: seq<string>, isHeader: string -> bool) returns (h: nat)
    requires b != [] && isHeader(b[0])
    ensures h < |b| && LastHeader(b, isHeader) == h && LastHeader(a + b, isHeader) == |a| + h
    ensures (a + b)[..|a| + h] == a + b[..h]
    ensures (a + b)[|a| + h..] == b[h..] && (a + b)[|a| + h + 1..] == b[h + 1..]
    ensures h > 0 ==> b[..h][0] == b[0]
  {
    HeaderIsFound(b, isHeader, 0);
    LastHeaderConcat(a, b, isHeader);
    h := LastHeader(b, isHeader);
    Seqs.CutConcat(a, b, h);
    Seqs.CutConcat(a, b, h + 1);
  }

  lemma ReadCut<C>(lines: seq<string>, isHeader: string -> bool, block: (string, seq<string>) -> seq<C>,
                   h: nat, front: seq<string>, body: seq<string>)
    requires h < |lines| && LastHeader(lines, isHeader) == h && front == lines[..h] && body == lines[h + 1..]
    ensures Read(lines, isHeader, block) == Read(front, isHeader, block) + block(lines[h], body)
  {
  }

  lemma BlockLawStep<C>(a: seq<string>, b: seq<string>, isHeader: string -> bool, block: (string, seq<string>) -> seq<C>, h: nat)
    requires h < |b| && LastHeader(b, isHeader) == h && LastHeader(a + b, isHeader) == |a| + h
    requires Read(a + b[..h], isHeader, block) == Read(a, isHeader, block) + Read(b[..h], isHeader, block)
    ensures Read(a + b, isHeader, block) == Read(a, isHeader, block) + Read(b, isHeader, block)
  {
    Seqs.CutConcat(a, b, h);
    Seqs.CutConcat(a, b, h + 1);
    ReadCut(a + b, isHeader, block, |a| + h, a + b[..h], b[h + 1..]);
    ReadCut(b, isHeader, block, h, b[..h], b[h + 1..]);
    Seqs.Regroup(Read(a + b, isHeader, block), Read(a + b[..h], isHeader, block), block(b[h], b[h + 1..]),
                 Read(a, isHeader, block), Read(b, isHeader, block), Read(b[..h], isHeader, block));
  }

  /** A text cut before a header gives what its two parts give. */
  lemma {:induction false} BlockLaw<C>(a: seq<string>, b: seq<string>, isHeader: string -> bool, block: (string, seq<string>) -> seq<C>)
    requires b == [] || isHeader(b[0])
    ensures Read(a + b, isHeader, block) == Read(a, isHeader, block) + Read(b, isHeader, block)
    decreases |b|
  {
    if b == [] {
      assert a + b == a && Read(b, isHeader, block) == [];
    } else {
      var h := LastHeaderOfConcat(a, b, isHeader);
      BlockLaw(a, b[..h], isHeader, block);
      BlockLawStep(a, b, isHeader, block, h);
    }
  }

  /** A text that is one block gives what that block gives. */
  lemma {:induction false} OneBlock<C>(header: string, body: seq<string>, isHeader: string -> bool, block: (string, seq<string>) -> seq<C>)
    requires isHeader(header) && forall i :: 0 <= i < |body| ==> !isHeader(body[i])
    ensures LastHeader([header] + body, isHeader) == 0
    ensures Read([header] + body, isHeader, block) == block(header, body)
  {
    var lines := [header] + body;
    if body != [] {
      var n := |body| - 1;
      assert lines[..n + 1] == [header] + body[..n];
      OneBlock(header, body[..n], isHeader, block);
    }
    assert lines[..0] == [] && lines[1..] == body;
  }

  lemma {:induction false} LastHeaderDependsOnHeaders(a: seq<string>, b: seq<string>, isHeader: string -> bool)
    requires |a| == |b| && forall i :: 0 <= i < |a| ==> isHeader(a[i]) == isHeader(b[i])
    ensures LastHeader(a, isHeader) == LastHeader(b, isHeader)
    ensures LastHeader(a, isHeader) >= 0 ==> isHeader(a[LastHeader(a, isHeader)])
  {
    if a != [] {
      LastHeaderDependsOnHeaders(a[..|a| - 1], b[..|b| - 1], isHeader);
    }
  }

  /** The block that starts at `h` gives the same in both texts when they are cut at `k`. */
  predicate SameBlock<C(==)>(a: seq<string>, b: seq<string>, block: (string, seq<string>) -> seq<C>, h: int, k: int)
    requires 0 <= h < k <= |a| == |b|
  {
    block(a[h], a[h + 1..k]) == block(b[h], b[h + 1..k])
  }

  lemma SameBlockInFront<C>(a: seq<string>, b: seq<string>, block: (string, seq<string>) -> seq<C>, g: nat, k: nat, h: nat)
    requires g < k <= h <= |a| == |b| && SameBlock(a, b, block, g, k)
    ensures SameBlock(a[..h], b[..h], block, g, k)
  {
    assert a[..h][g + 1..k] == a[g + 1..k] && b[..h][g + 1..k] == b[g + 1..k];
  }

  lemma ReadSameStep<C>(a: seq<string>, b: seq<string>, isHeader: string -> bool, block: (string, seq<string>) -> seq<C>, h: nat)
    requires h < |a| == |b| && LastHeader(a, isHeader) == h && LastHeader(b, isHeader) == h
    requires SameBlock(a, b, block, h, |a|) && Read(a[..h], isHeader, block) == Read(b[..h], isHeader, block)
    ensures Read(a, isHeader, block) == Read(b, isHeader, block)
  {
    ReadCut(a, isHeader, block, h, a[..h], a[h + 1..|a|]);
    ReadCut(b, isHeader, block, h, b[..h], b[h + 1..|a|]);
  }

  /** Two texts with the same headers, whose blocks give the same, give the same. */
  lemma {:induction false} ReadDependsOnBlocks<C>(a: seq<string>, b: seq<string>, isHeader: string -> bool, block: (string, seq<string>) -> seq<C>)
    requires |a| == |b| && forall i :: 0 <= i < |a| ==> isHeader(a[i]) == isHeader(b[i])
    requires forall h, k :: 0 <= h < k <= |a| && isHeader(a[h]) ==> SameBlock(a, b, block, h, k)
    ensures Read(a, isHeader, block) == Read(b, isHeader, block)
    decreases |a|
  {
    var h := LastHeader(a, isHeader);
    LastHeaderDependsOnHeaders(a, b, isHeader);
    if h >= 0 {
      forall g: nat, k: nat | g < k <= h && isHeader(a[..h][g])
        ensures SameBlock(a[..h], b[..h], block, g, k)
      {
        SameBlockInFront(a, b, block, g, k, h);
      }
      ReadDependsOnBlocks(a[..h], b[..h], isHeader, block);
      ReadSameStep(a, b, isHeader, block, h);
    }
  }
}
