/** What the pages of an executable hold before they are written, and what may be done with them. */
module Images {
  import opened Paging
  import opened MmuFrames

  /** No page is in two segments. */
  ghost predicate Separate(segments: seq<Segment>) {
    forall i, j, g :: 0 <= i < |segments| && 0 <= j < |segments| && Covers(segments[i], g) && Covers(segments[j], g) ==> i == j
  }

  predicate Covers(s: Segment, g: nat) {
    g >= s.first && g - s.first < s.npages
  }

  ghost predicate NoBlocks(segments: seq<Segment>, from: nat, to: nat)
    requires to <= |segments|
  {
    forall m :: from <= m < to ==> segments[m].nblocks == 0
  }

  ghost predicate Block(segments: seq<Segment>, i: nat, k: nat) {
    i < |segments| && k < segments[i].nblocks
  }

  /** Block h of segment j is the first one in the file after block k of segment i. */
  ghost predicate Follows(segments: seq<Segment>, i: nat, k: nat, j: nat, h: nat) {
    && Block(segments, i, k) && Block(segments, j, h)
    && if j == i then h == k + 1 else j > i && k + 1 == segments[i].nblocks && h == 0 && NoBlocks(segments, i + 1, j)
  }

  /** Pages of the file for the blocks of each segment: the first block of all is where the header says, and each
      next one follows at once. */
  ghost predicate InFileOrder(at: seq<seq<nat>>, segments: seq<Segment>, offset: nat) {
    && |at| == |segments| && (forall i :: 0 <= i < |segments| ==> |at[i]| == segments[i].nblocks)
    && (forall i: nat :: Block(segments, i, 0) && NoBlocks(segments, 0, i) ==> at[i][0] == offset)
    && forall i: nat, k: nat, j: nat, h: nat :: Follows(segments, i, k, j, h) ==> at[j][h] == at[i][k] + 1
  }

  /** A page of the file; zeros past its end */
  function FilePage(e: Exec, b: nat, size: nat): Page {
    if b < |e.file| then e.file[b] else Zeros(size)
  }

  lemma {:induction false} BlocksFrom(segments: seq<Segment>, j: nat, i: nat)
    requires j <= i <= |segments| && NoBlocks(segments, j, i)
    ensures BlocksBefore(segments, i) == BlocksBefore(segments, j)
  {
    if j < i { BlocksFrom(segments, j, i - 1); }
  }

  /** The last segment before i that has blocks, or -1 */
  lemma {:induction false} LastWithBlocks(segments: seq<Segment>, i: nat) returns (j: int)
    requires i <= |segments|
    ensures -1 <= j < i && NoBlocks(segments, j + 1, i) && (j >= 0 ==> segments[j].nblocks > 0)
  {
    if i == 0 || segments[i - 1].nblocks > 0 { j := i - 1; } else { j := LastWithBlocks(segments, i - 1); }
  }

  lemma {:induction false} OrderIs(at: seq<seq<nat>>, segments: seq<Segment>, offset: nat, i: nat, k: nat)
    requires InFileOrder(at, segments, offset) && Block(segments, i, k)
    ensures at[i][k] == offset + BlocksBefore(segments, i) + k
    decreases i, k
  {
    if k > 0 {
      OrderIs(at, segments, offset, i, k - 1);
      assert Follows(segments, i, k - 1, i, k);
    } else {
      var j := LastWithBlocks(segments, i);
      if j < 0 {
        BlocksFrom(segments, 0, i);
      } else {
        var n := segments[j].nblocks - 1;
        OrderIs(at, segments, offset, j, n);
        BlocksFrom(segments, j + 1, i);
        assert Follows(segments, j, n, i, 0);
      }
    }
  }

  lemma {:induction false} SegmentIs(segments: seq<Segment>, g: nat, i: nat, from: nat)
    requires Separate(segments) && from <= i < |segments| && Covers(segments[i], g)
    ensures SegmentOf(segments, g, from) == i
    decreases i - from
  {
    if from < i {
      assert !Covers(segments[from], g);
      SegmentIs(segments, g, i, from + 1);
    }
  }

  lemma {:induction false} NoSegment(segments: seq<Segment>, g: nat, from: nat)
    requires from <= |segments| && forall i :: 0 <= i < |segments| ==> !Covers(segments[i], g)
    ensures SegmentOf(segments, g, from) == -1
    decreases |segments| - from
  {
    if from < |segments| { NoSegment(segments, g, from + 1); }
  }

  /** If no page is in two segments, page p of a process holds its block of the file, if it is among the blocks of a
      segment, and zeros in the rest of each segment and outside all of them. */
  ghost predicate ImagePage(e: Exec, at: seq<seq<nat>>, g: nat, size: nat, p: Page)
    requires InFileOrder(at, e.segments, e.offset)
  {
    Separate(e.segments) ==>
      && (forall i: nat :: i < |e.segments| && Covers(e.segments[i], g) ==>
            var k: nat := g - e.segments[i].first;
            p == if k < e.segments[i].nblocks then FilePage(e, at[i][k], size) else Zeros(size))
      && ((forall i :: 0 <= i < |e.segments| ==> !Covers(e.segments[i], g)) ==> p == Zeros(size))
  }

  /** At first the pages of a process hold the blocks of the file in order. */
  lemma ImageInOrder(e: Exec, at: seq<seq<nat>>, g: nat, size: nat)
    requires InFileOrder(at, e.segments, e.offset)
    ensures ImagePage(e, at, g, size, Initial(e, g, size))
  {
    if !Separate(e.segments) { return; }
    if i: nat :| i < |e.segments| && Covers(e.segments[i], g) {
      SegmentIs(e.segments, g, i, 0);
      var k: nat := g - e.segments[i].first;
      if k < e.segments[i].nblocks { OrderIs(at, e.segments, e.offset, i, k); }
    } else {
      NoSegment(e.segments, g, 0);
    }
  }

  function Orders(segments: seq<Segment>, offset: nat, n: nat): (at: seq<seq<nat>>)
    requires n <= |segments|
    ensures |at| == n
    ensures forall i :: 0 <= i < n ==> |at[i]| == segments[i].nblocks
    ensures forall i, k :: 0 <= i < n && 0 <= k < segments[i].nblocks ==> at[i][k] == offset + BlocksBefore(segments, i) + k
  {
    if n == 0 then [] else
      var b := offset + BlocksBefore(segments, n - 1);
      Orders(segments, offset, n - 1) + [seq(segments[n - 1].nblocks, (k: nat) => b + k)]
  }

  /** There is such an order for every executable. */
  lemma SomeOrder(segments: seq<Segment>, offset: nat) returns (at: seq<seq<nat>>)
    ensures InFileOrder(at, segments, offset)
  {
    at := Orders(segments, offset, |segments|);
    forall i: nat | Block(segments, i, 0) && NoBlocks(segments, 0, i) ensures at[i][0] == offset {
      BlocksFrom(segments, 0, i);
    }
    forall i: nat, k: nat, j: nat, h: nat | Follows(segments, i, k, j, h) ensures at[j][h] == at[i][k] + 1 {
      if j > i { BlocksFrom(segments, i + 1, j); }
    }
  }

  /** A page may be written by its process unless it is in a segment that may not. */
  lemma ReadOnlyExactly(e: Exec, g: nat)
    requires Separate(e.segments)
    ensures ReadOnlyIn(e, g) <==> exists i :: 0 <= i < |e.segments| && Covers(e.segments[i], g) && !e.segments[i].prot.w
  {
    if i: nat :| i < |e.segments| && Covers(e.segments[i], g) {
      SegmentIs(e.segments, g, i, 0);
    } else {
      NoSegment(e.segments, g, 0);
    }
  }
}
