/** `extractChunks` (src/utils/extractChunks.ts, duplicated in
    src/utils/utils-clone.ts): one forward pass over the top-level
    statements that cuts them into maximal runs the rules may reorder. */
module Chunks {
  import opened Wrappers
  import opened CommonUtils
  import opened AstNodeTypes

  /** The classifier's verdict on one statement. `Unrecognized` stands for
      any other value a classifier might return. */
  datatype ChunkSource = NotPartOfChunk | PartOfChunk | PartOfNewChunk | Unrecognized(tag: string)

  /** The statement is put into a chunk. */
  predicate Joins(s: ChunkSource) { s.PartOfChunk? || s.PartOfNewChunk? }

  function UnknownChunk(s: ChunkSource): string
  {
    "Unknown chunk result: " + if s.Unrecognized? then s.tag else ""
  }

  /** The loop state: the chunks pushed so far and the open `chunk`. */
  datatype Acc<T> = Acc(chunks: seq<seq<T>>, chunk: seq<T>)

  /** One iteration of the `switch`. */
  function Push<T>(a: Acc<T>, x: T, src: ChunkSource): Acc<T>
    requires !src.Unrecognized?
  {
    if src.NotPartOfChunk? then
      if |a.chunk| > 0 then Acc(a.chunks + [a.chunk], []) else a
    else if src.PartOfChunk? then
      a.(chunk := a.chunk + [x])
    else
      Acc(if |a.chunk| > 0 then a.chunks + [a.chunk] else a.chunks, [x])
  }

  /** The `for` loop over `xs`, `srcs[i]` being the verdict on `xs[i]`; it
      stops with the error at the first unrecognised verdict. */
  function Run<T>(xs: seq<T>, srcs: seq<ChunkSource>): (r: Result<Acc<T>>)
    requires |xs| == |srcs|
  {
    if |xs| == 0 then Success(Acc([], []))
    else
      var n := |xs| - 1;
      var prev := Run(xs[..n], srcs[..n]);
      if prev.Failure? then prev
      else if srcs[n].Unrecognized? then Failure(UnknownChunk(srcs[n]))
      else Success(Push(prev.value, xs[n], srcs[n]))
  }

  /** `if (chunk.length > 0) chunks.push(chunk)` after the loop. */
  function Close<T>(a: Acc<T>): seq<seq<T>>
  {
    if |a.chunk| > 0 then a.chunks + [a.chunk] else a.chunks
  }

  function Partition<T>(xs: seq<T>, srcs: seq<ChunkSource>): Result<seq<seq<T>>>
    requires |xs| == |srcs|
  {
    var r := Run(xs, srcs);
    if r.Failure? then Failure(r.error) else Success(Close(r.value))
  }

  /** The `previousNode` the classifier receives: the statement just before,
      whatever its verdict, and `undefined` for the first. */
  function Previous(body: seq<Node>, i: nat): (r: Option<Node>)
    requires i < |body|
    ensures r.None? <==> i == 0
    ensures r.Some? ==> r.value == body[i - 1]
  {
    if i == 0 then None else Some(body[i - 1])
  }

  /** The verdicts of `getSource(node, previousNode)` over the body. The
      classifier is pure, so computing them up front changes nothing. */
  function Sources(body: seq<Node>, classify: (Node, Option<Node>) -> ChunkSource): (srcs: seq<ChunkSource>)
    ensures |srcs| == |body|
    ensures forall i :: 0 <= i < |body| ==> srcs[i] == classify(body[i], Previous(body, i))
  {
    seq(|body|, i requires 0 <= i < |body| => classify(body[i], Previous(body, i)))
  }

  /** `extractChunks(program, getSource)`. */
  function ExtractChunks(body: seq<Node>, classify: (Node, Option<Node>) -> ChunkSource): Result<seq<seq<Node>>>
  {
    Partition(body, Sources(body, classify))
  }

  // ---------------------------------------------------------------------
  // Errors
  // ---------------------------------------------------------------------

  /** The pass fails exactly when some verdict is unrecognised, and then
      with the message naming the first such verdict. */
  lemma {:induction false} RunFails<T>(xs: seq<T>, srcs: seq<ChunkSource>)
    requires |xs| == |srcs|
    ensures Run(xs, srcs).Failure? <==> exists i :: 0 <= i < |srcs| && srcs[i].Unrecognized?
    ensures Run(xs, srcs).Failure? ==>
      exists k :: 0 <= k < |srcs| && srcs[k].Unrecognized? && Run(xs, srcs).error == UnknownChunk(srcs[k])
        && forall i :: 0 <= i < k ==> !srcs[i].Unrecognized?
    decreases |xs|
  {
    if |xs| > 0 {
      var n := |xs| - 1;
      RunFails(xs[..n], srcs[..n]);
      assert forall i :: 0 <= i < n ==> srcs[..n][i] == srcs[i];
    }
  }

  lemma ExtractChunksFails(body: seq<Node>, classify: (Node, Option<Node>) -> ChunkSource)
    ensures var srcs := Sources(body, classify);
      && (ExtractChunks(body, classify).Failure? <==> exists i :: 0 <= i < |body| && srcs[i].Unrecognized?)
      && (ExtractChunks(body, classify).Failure? ==>
            exists k :: 0 <= k < |body| && srcs[k].Unrecognized?
              && ExtractChunks(body, classify).error == UnknownChunk(srcs[k])
              && forall i :: 0 <= i < k ==> !srcs[i].Unrecognized?)
  {
    RunFails(body, Sources(body, classify));
  }

  /** An empty body yields no chunks. */
  lemma ExtractChunksEmpty(classify: (Node, Option<Node>) -> ChunkSource)
    ensures ExtractChunks([], classify) == Success([])
  {
  }

  // ---------------------------------------------------------------------
  // Chunks are non-empty and hold the joined statements in order
  // ---------------------------------------------------------------------

  predicate AllNonEmpty<T>(ss: seq<seq<T>>)
  {
    forall c :: 0 <= c < |ss| ==> |ss[c]| > 0
  }

  /** The statements whose verdict puts them into a chunk, in order. */
  function Kept<T>(xs: seq<T>, srcs: seq<ChunkSource>): seq<T>
    requires |xs| == |srcs|
  {
    if |xs| == 0 then []
    else
      var n := |xs| - 1;
      Kept(xs[..n], srcs[..n]) + if Joins(srcs[n]) then [xs[n]] else []
  }

  /** One step keeps the chunks non-empty and appends the statement to the
      concatenation exactly when it joins. */
  lemma PushInvariant<T>(a: Acc<T>, x: T, src: ChunkSource)
    requires !src.Unrecognized? && AllNonEmpty(a.chunks)
    ensures AllNonEmpty(Push(a, x, src).chunks)
    ensures Flatten(Push(a, x, src).chunks) + Push(a, x, src).chunk ==
      Flatten(a.chunks) + a.chunk + if Joins(src) then [x] else []
  {
    if |a.chunk| > 0 && !src.PartOfChunk? {
      FlattenAppend(a.chunks, [a.chunk]);
      assert Flatten([a.chunk]) == a.chunk by {
        assert [a.chunk][..0] == [];
      }
    }
  }

  lemma {:induction false} RunInvariant<T>(xs: seq<T>, srcs: seq<ChunkSource>)
    requires |xs| == |srcs| && Run(xs, srcs).Success?
    ensures var a := Run(xs, srcs).value;
      AllNonEmpty(a.chunks) && Flatten(a.chunks) + a.chunk == Kept(xs, srcs)
    decreases |xs|
  {
    if |xs| > 0 {
      var n := |xs| - 1;
      RunInvariant(xs[..n], srcs[..n]);
      var a := Run(xs[..n], srcs[..n]).value;
      assert Run(xs, srcs).value == Push(a, xs[n], srcs[n]);
      PushInvariant(a, xs[n], srcs[n]);
    }
  }

  /** Every chunk is non-empty, and concatenating the chunks gives back
      exactly the statements classified PartOfChunk or PartOfNewChunk, in
      body order. */
  lemma PartitionKeeps<T>(xs: seq<T>, srcs: seq<ChunkSource>)
    requires |xs| == |srcs| && Partition(xs, srcs).Success?
    ensures AllNonEmpty(Partition(xs, srcs).value)
    ensures Flatten(Partition(xs, srcs).value) == Kept(xs, srcs)
  {
    var a := Run(xs, srcs).value;
    RunInvariant(xs, srcs);
    if |a.chunk| > 0 {
      FlattenAppend(a.chunks, [a.chunk]);
      assert Flatten([a.chunk]) == a.chunk by {
        assert [a.chunk][..0] == [];
      }
    } else {
      assert Flatten(a.chunks) + a.chunk == Flatten(a.chunks);
    }
  }

  // ---------------------------------------------------------------------
  // Chunks are the maximal runs
  // ---------------------------------------------------------------------

  /** The positions `0 .. n-1`. */
  function Ids(n: nat): (r: seq<nat>)
    ensures |r| == n && forall i :: 0 <= i < n ==> r[i] == i
  {
    seq(n, i requires 0 <= i => i)
  }

  /** A chunk of positions is a run: consecutive positions, all after the
      first classified PartOfChunk. It starts where the previous statement
      was NotPartOfChunk, or at a PartOfNewChunk, or at the first
      statement. */
  predicate IsRun(c: seq<nat>, srcs: seq<ChunkSource>)
  {
    && |c| > 0
    && (forall k :: 0 <= k < |c| ==> c[k] < |srcs|)
    && (forall k :: 0 < k < |c| ==> c[k] == c[k - 1] + 1)
    && (forall k :: 0 < k < |c| ==> srcs[c[k]].PartOfChunk?)
    && Joins(srcs[c[0]])
    && (c[0] == 0 || srcs[c[0] - 1].NotPartOfChunk? || srcs[c[0]].PartOfNewChunk?)
  }

  /** A run that cannot be extended: the statement after its last one is
      not PartOfChunk (or there is none). */
  predicate IsMaximalRun(c: seq<nat>, srcs: seq<ChunkSource>)
  {
    IsRun(c, srcs) && (c[|c| - 1] + 1 < |srcs| ==> !srcs[c[|c| - 1] + 1].PartOfChunk?)
  }

  /** Pushed chunks over the first `n` positions: maximal runs inside the
      prefix. */
  predicate ChunksOk(cs: seq<seq<nat>>, srcs: seq<ChunkSource>, n: nat)
  {
    && n <= |srcs|
    && (forall c :: 0 <= c < |cs| ==> IsRun(cs[c], srcs) && cs[c][|cs[c]| - 1] + 1 < n)
    && (forall c :: 0 <= c < |cs| ==> !srcs[cs[c][|cs[c]| - 1] + 1].PartOfChunk?)
  }

  /** The loop state over the first `n` positions: every pushed chunk is a
      maximal run inside the prefix, and the open chunk is a run ending at
      the last position (or empty). */
  predicate AccOk(a: Acc<nat>, srcs: seq<ChunkSource>, n: nat)
  {
    && ChunksOk(a.chunks, srcs, n)
    && (forall i :: 0 <= i < n ==> !srcs[i].Unrecognized?)
    && (|a.chunk| > 0 ==> IsRun(a.chunk, srcs) && a.chunk[|a.chunk| - 1] == n - 1)
    && (|a.chunk| == 0 && n > 0 ==> !Joins(srcs[n - 1]))
  }

  lemma ChunksGrow(cs: seq<seq<nat>>, srcs: seq<ChunkSource>, n: nat)
    requires n < |srcs| && ChunksOk(cs, srcs, n)
    ensures ChunksOk(cs, srcs, n + 1)
  {
  }

  /** Closing the open chunk before a statement that does not continue it
      adds a maximal run. */
  lemma ChunksClose(cs: seq<seq<nat>>, open: seq<nat>, srcs: seq<ChunkSource>, n: nat)
    requires n < |srcs| && ChunksOk(cs, srcs, n) && !srcs[n].PartOfChunk?
    requires |open| > 0 && IsRun(open, srcs) && open[|open| - 1] == n - 1
    ensures ChunksOk(cs + [open], srcs, n + 1)
  {
    var ds := cs + [open];
    forall c | 0 <= c < |ds|
      ensures IsRun(ds[c], srcs) && ds[c][|ds[c]| - 1] + 1 < n + 1
      ensures !srcs[ds[c][|ds[c]| - 1] + 1].PartOfChunk?
    {
      if c < |cs| {
        assert ds[c] == cs[c];
      }
    }
  }

  lemma PushNotPart(a: Acc<nat>, srcs: seq<ChunkSource>, n: nat)
    requires n < |srcs| && AccOk(a, srcs, n) && srcs[n].NotPartOfChunk?
    ensures AccOk(Push(a, n, srcs[n]), srcs, n + 1)
  {
    if |a.chunk| > 0 {
      ChunksClose(a.chunks, a.chunk, srcs, n);
    } else {
      ChunksGrow(a.chunks, srcs, n);
    }
  }

  /** A PartOfChunk statement right after a run extends it. */
  lemma RunExtends(c: seq<nat>, srcs: seq<ChunkSource>, n: nat)
    requires n < |srcs| && srcs[n].PartOfChunk?
    requires IsRun(c, srcs) && c[|c| - 1] == n - 1
    ensures IsRun(c + [n], srcs)
  {
    var d := c + [n];
    forall k | 0 < k < |d|
      ensures d[k] == d[k - 1] + 1 && srcs[d[k]].PartOfChunk?
    {
      if k < |d| - 1 {
        assert d[k] == c[k] && d[k - 1] == c[k - 1];
      }
    }
    assert d[0] == c[0];
  }

  lemma PushPart(a: Acc<nat>, srcs: seq<ChunkSource>, n: nat)
    requires n < |srcs| && AccOk(a, srcs, n) && srcs[n].PartOfChunk?
    ensures AccOk(Push(a, n, srcs[n]), srcs, n + 1)
  {
    if |a.chunk| == 0 {
      assert a.chunk + [n] == [n];
    } else {
      RunExtends(a.chunk, srcs, n);
    }
    ChunksGrow(a.chunks, srcs, n);
  }

  lemma PushNew(a: Acc<nat>, srcs: seq<ChunkSource>, n: nat)
    requires n < |srcs| && AccOk(a, srcs, n) && srcs[n].PartOfNewChunk?
    ensures AccOk(Push(a, n, srcs[n]), srcs, n + 1)
  {
    var b := Push(a, n, srcs[n]);
    assert b.chunk == [n];
    if |a.chunk| > 0 {
      ChunksClose(a.chunks, a.chunk, srcs, n);
    } else {
      ChunksGrow(a.chunks, srcs, n);
    }
  }

  lemma {:induction false} RunOverIds(srcs: seq<ChunkSource>)
    requires Run(Ids(|srcs|), srcs).Success?
    ensures AccOk(Run(Ids(|srcs|), srcs).value, srcs, |srcs|)
    decreases |srcs|
  {
    if |srcs| > 0 {
      var n := |srcs| - 1;
      assert Ids(|srcs|)[..n] == Ids(n);
      RunOverIds(srcs[..n]);
      var a := Run(Ids(n), srcs[..n]).value;
      assert AccOk(a, srcs, n) by {
        forall c | 0 <= c < |a.chunks|
          ensures IsRun(a.chunks[c], srcs)
        {
          assert IsRun(a.chunks[c], srcs[..n]);
        }
        if |a.chunk| > 0 {
          assert IsRun(a.chunk, srcs[..n]);
        }
      }
      if srcs[n].NotPartOfChunk? {
        PushNotPart(a, srcs, n);
      } else if srcs[n].PartOfChunk? {
        PushPart(a, srcs, n);
      } else {
        PushNew(a, srcs, n);
      }
    }
  }

  /** Over positions, every chunk is a maximal run of consecutive joined
      statements. */
  lemma PartitionMaximalRuns(srcs: seq<ChunkSource>)
    requires Partition(Ids(|srcs|), srcs).Success?
    ensures var cs := Partition(Ids(|srcs|), srcs).value;
      forall c :: 0 <= c < |cs| ==> IsMaximalRun(cs[c], srcs)
  {
    var a := Run(Ids(|srcs|), srcs).value;
    RunOverIds(srcs);
    var cs := Close(a);
    forall c | 0 <= c < |cs|
      ensures IsMaximalRun(cs[c], srcs)
    {
      if c < |a.chunks| {
        assert cs[c] == a.chunks[c];
      }
    }
  }

  // ---------------------------------------------------------------------
  // Statements are pushed, not inspected: chunks of nodes are the chunks
  // of positions looked up in the body
  // ---------------------------------------------------------------------

  function Lookup<T>(xs: seq<T>, c: seq<nat>): (r: seq<T>)
    requires forall k :: 0 <= k < |c| ==> c[k] < |xs|
    ensures |r| == |c| && forall k :: 0 <= k < |c| ==> r[k] == xs[c[k]]
  {
    seq(|c|, k requires 0 <= k < |c| => xs[c[k]])
  }

  predicate InRange(ss: seq<seq<nat>>, n: nat)
  {
    forall c, k :: 0 <= c < |ss| && 0 <= k < |ss[c]| ==> ss[c][k] < n
  }

  /** `ys` is `xs` with every position replaced by the statement there. */
  ghost predicate LooksUp<T>(ys: seq<seq<T>>, xs: seq<T>, ids: seq<seq<nat>>)
  {
    |ys| == |ids| && forall c :: 0 <= c < |ids| ==>
      |ys[c]| == |ids[c]| && forall k :: 0 <= k < |ids[c]| ==> ids[c][k] < |xs| && ys[c][k] == xs[ids[c][k]]
  }

  lemma LooksUpAppend<T>(ys: seq<seq<T>>, xs: seq<T>, ids: seq<seq<nat>>, y: seq<T>, id: seq<nat>)
    requires LooksUp(ys, xs, ids) && LooksUp([y], xs, [id])
    ensures LooksUp(ys + [y], xs, ids + [id])
  {
    var ys' := ys + [y];
    var ids' := ids + [id];
    forall c | 0 <= c < |ids'|
      ensures |ys'[c]| == |ids'[c]| && forall k :: 0 <= k < |ids'[c]| ==> ids'[c][k] < |xs| && ys'[c][k] == xs[ids'[c][k]]
    {
      if c == |ids| {
        assert ys'[c] == [y][0] && ids'[c] == [id][0];
      } else {
        assert ys'[c] == ys[c] && ids'[c] == ids[c];
      }
    }
  }

  /** The same lookup, for the loop state. */
  ghost predicate AccLooksUp<T>(a: Acc<T>, xs: seq<T>, b: Acc<nat>)
  {
    LooksUp(a.chunks, xs, b.chunks) && LooksUp([a.chunk], xs, [b.chunk])
  }

  lemma PushLooksUp<T>(a: Acc<T>, xs: seq<T>, b: Acc<nat>, n: nat, src: ChunkSource)
    requires n < |xs| && !src.Unrecognized? && AccLooksUp(a, xs, b)
    ensures AccLooksUp(Push(a, xs[n], src), xs, Push(b, n, src))
  {
    assert |a.chunk| == |b.chunk| by {
      assert [a.chunk][0] == a.chunk && [b.chunk][0] == b.chunk;
    }
    if !src.PartOfChunk? && |a.chunk| > 0 {
      LooksUpAppend(a.chunks, xs, b.chunks, a.chunk, b.chunk);
    }
    if src.PartOfChunk? {
      var c := a.chunk + [xs[n]];
      var d := b.chunk + [n];
      forall k | 0 <= k < |d|
        ensures d[k] < |xs| && c[k] == xs[d[k]]
      {
        if k < |b.chunk| {
          assert [b.chunk][0][k] == b.chunk[k];
          assert [a.chunk][0][k] == a.chunk[k];
        }
      }
    }
  }

  lemma {:induction false} RunLooksUp<T>(xs: seq<T>, srcs: seq<ChunkSource>, n: nat)
    requires |xs| == |srcs| && n <= |xs|
    ensures Run(xs[..n], srcs[..n]).Success? <==> Run(Ids(n), srcs[..n]).Success?
    ensures Run(xs[..n], srcs[..n]).Success? ==>
      AccLooksUp(Run(xs[..n], srcs[..n]).value, xs, Run(Ids(n), srcs[..n]).value)
    decreases n
  {
    if n > 0 {
      var m := n - 1;
      assert xs[..n][..m] == xs[..m];
      assert srcs[..n][..m] == srcs[..m];
      assert Ids(n)[..m] == Ids(m);
      RunLooksUp(xs, srcs, m);
      var r := Run(xs[..m], srcs[..m]);
      if r.Success? && !srcs[m].Unrecognized? {
        PushLooksUp(r.value, xs, Run(Ids(m), srcs[..m]).value, m, srcs[m]);
      }
    }
  }

  /** The chunks of statements are the chunks of positions, each position
      replaced by the statement there; the outcome (success or the error)
      does not depend on the statements themselves. */
  lemma PartitionLooksUp<T>(xs: seq<T>, srcs: seq<ChunkSource>)
    requires |xs| == |srcs|
    ensures Partition(xs, srcs).Success? <==> Partition(Ids(|xs|), srcs).Success?
    ensures Partition(xs, srcs).Success? ==>
      LooksUp(Partition(xs, srcs).value, xs, Partition(Ids(|xs|), srcs).value)
  {
    RunLooksUp(xs, srcs, |xs|);
    assert xs[..|xs|] == xs && srcs[..|xs|] == srcs;
    var r := Run(xs, srcs);
    if r.Success? {
      var a := r.value;
      var b := Run(Ids(|xs|), srcs).value;
      if |a.chunk| > 0 {
        LooksUpAppend(a.chunks, xs, b.chunks, a.chunk, b.chunk);
      } else {
        assert |b.chunk| == |[b.chunk][0]| == |[a.chunk][0]|;
      }
    }
  }

  // ---------------------------------------------------------------------
  // Consequences for the statements
  // ---------------------------------------------------------------------

  lemma {:induction false} RunStride(c: seq<nat>, srcs: seq<ChunkSource>, a: nat, d: nat)
    requires IsRun(c, srcs) && a + d < |c|
    ensures c[a + d] == c[a] + d
    decreases d
  {
    if d > 0 {
      RunStride(c, srcs, a, d - 1);
    }
  }

  /** Every statement strictly between two members of a chunk is
      PartOfChunk, so two statements with a NotPartOfChunk (or a
      PartOfNewChunk) statement between them never share a chunk. */
  lemma RunHasNoGap(srcs: seq<ChunkSource>, c: seq<nat>, p: nat, q: nat)
    requires IsRun(c, srcs) && p < q < |c|
    ensures forall m :: c[p] < m < c[q] ==> srcs[m].PartOfChunk?
  {
    RunStride(c, srcs, p, q - p);
    forall m | c[p] < m < c[q]
      ensures srcs[m].PartOfChunk?
    {
      RunStride(c, srcs, p, m - c[p]);
      assert c[p + (m - c[p])] == m;
    }
  }

  /** When the verdicts put exactly the elements satisfying `p` into
      chunks, the kept statements are the filter by `p`. */
  lemma {:induction false} KeptIsFilter<T>(xs: seq<T>, srcs: seq<ChunkSource>, p: T -> bool)
    requires |xs| == |srcs|
    requires forall i :: 0 <= i < |xs| ==> (Joins(srcs[i]) <==> p(xs[i]))
    ensures Kept(xs, srcs) == Filter(xs, p)
    decreases |xs|
  {
    if |xs| > 0 {
      var n := |xs| - 1;
      KeptIsFilter(xs[..n], srcs[..n], p);
    }
  }

  lemma {:induction false} KeptHas<T>(xs: seq<T>, srcs: seq<ChunkSource>, i: nat)
    requires |xs| == |srcs| && i < |xs| && Joins(srcs[i])
    ensures xs[i] in Kept(xs, srcs)
    decreases |xs|
  {
    var n := |xs| - 1;
    if i < n {
      KeptHas(xs[..n], srcs[..n], i);
    }
  }

  /** Positions `i` and `j` are in the same chunk. */
  predicate SameChunk(ids: seq<seq<nat>>, i: nat, j: nat)
  {
    exists c :: 0 <= c < |ids| && i in ids[c] && j in ids[c]
  }

  lemma RunSeparates(srcs: seq<ChunkSource>, c: seq<nat>, i: nat, m: nat, j: nat)
    requires IsRun(c, srcs) && i < m < j && m < |srcs| && srcs[m].NotPartOfChunk?
    ensures !(i in c && j in c)
  {
    if i in c && j in c {
      var p :| 0 <= p < |c| && c[p] == i;
      var q :| 0 <= q < |c| && c[q] == j;
      RunStride(c, srcs, 0, p);
      RunStride(c, srcs, 0, q);
      RunHasNoGap(srcs, c, p, q);
    }
  }

  /** The whole contract of `extractChunks` on a body all of whose
      verdicts are recognised: the result is the body's maximal runs of
      joined statements, in order, none empty, and nothing else. */
  lemma ExtractChunksMaximalRuns(body: seq<Node>, classify: (Node, Option<Node>) -> ChunkSource)
    requires forall i :: 0 <= i < |body| ==> !classify(body[i], Previous(body, i)).Unrecognized?
    ensures var srcs := Sources(body, classify);
      && ExtractChunks(body, classify).Success?
      && Partition(Ids(|body|), srcs).Success?
      && var cs := ExtractChunks(body, classify).value;
         var ids := Partition(Ids(|body|), srcs).value;
         && LooksUp(cs, body, ids)
         && (forall c :: 0 <= c < |ids| ==> IsMaximalRun(ids[c], srcs))
         && AllNonEmpty(cs)
         && Flatten(cs) == Kept(body, srcs)
         && Flatten(ids) == Kept(Ids(|body|), srcs)
  {
    var srcs := Sources(body, classify);
    RunFails(body, srcs);
    RunFails(Ids(|body|), srcs);
    PartitionLooksUp(body, srcs);
    PartitionMaximalRuns(srcs);
    PartitionKeeps(body, srcs);
    PartitionKeeps(Ids(|body|), srcs);
  }

  /** A PartOfNewChunk statement always opens its chunk. */
  lemma PartOfNewChunkIsFirst(body: seq<Node>, classify: (Node, Option<Node>) -> ChunkSource, i: nat)
    requires forall i :: 0 <= i < |body| ==> !classify(body[i], Previous(body, i)).Unrecognized?
    requires i < |body| && classify(body[i], Previous(body, i)).PartOfNewChunk?
    ensures Partition(Ids(|body|), Sources(body, classify)).Success?
    ensures var ids := Partition(Ids(|body|), Sources(body, classify)).value;
      exists c :: 0 <= c < |ids| && |ids[c]| > 0 && ids[c][0] == i
  {
    var srcs := Sources(body, classify);
    ExtractChunksMaximalRuns(body, classify);
    var ids := Partition(Ids(|body|), srcs).value;
    KeptHas(Ids(|body|), srcs, i);
    FlattenHas(ids, i);
    var c, k :| 0 <= c < |ids| && 0 <= k < |ids[c]| && ids[c][k] == i;
    assert IsRun(ids[c], srcs);
    assert k == 0;
  }

  /** Two statements with a NotPartOfChunk statement between them never
      share a chunk. */
  lemma NotPartOfChunkSeparates(body: seq<Node>, classify: (Node, Option<Node>) -> ChunkSource, i: nat, m: nat, j: nat)
    requires forall i :: 0 <= i < |body| ==> !classify(body[i], Previous(body, i)).Unrecognized?
    requires i < m < j < |body| && classify(body[m], Previous(body, m)).NotPartOfChunk?
    ensures Partition(Ids(|body|), Sources(body, classify)).Success?
    ensures !SameChunk(Partition(Ids(|body|), Sources(body, classify)).value, i, j)
  {
    var srcs := Sources(body, classify);
    ExtractChunksMaximalRuns(body, classify);
    var ids := Partition(Ids(|body|), srcs).value;
    forall c | 0 <= c < |ids|
      ensures !(i in ids[c] && j in ids[c])
    {
      RunSeparates(srcs, ids[c], i, m, j);
    }
  }
}
