/** The chunk loop of `rnacount` (draft.py:286-299): the exons of one
    chromosome are cut into chunks, each handed to `process_chunk` with the
    running maximum of the ends seen before the exon that closes it. An
    exon joins the current chunk when it starts at or before that running
    maximum, or when it has the same gene id as the exon before it. */
module Chunking {
  import opened Common
  import opened Features

  /** Whether exon `e` joins the current chunk. */
  predicate Joins(e: Exon, lastend: int, lastgeneid: string) {
    e.start <= lastend || e.geneId == lastgeneid
  }

  function Max(a: int, b: int): int {
    if a >= b then a else b
  }

  /** `lastend` after the exons `xs`, starting from `m`. */
  function RunMax(m: int, xs: seq<Exon>): int {
    if xs == [] then m else Max(xs[|xs| - 1].end, RunMax(m, xs[..|xs| - 1]))
  }

  /** `lastgeneid` when exon `i` is reached. */
  function PrevGene(s: seq<Exon>, i: nat): string
    requires i <= |s|
  {
    if i == 0 then "" else s[i - 1].geneId
  }

  /** Exon `i` of `s` joins the chunk open when it is reached. */
  predicate Joined(s: seq<Exon>, i: nat) {
    0 < |s| && i < |s| && Joins(s[i], RunMax(s[0].end, s[..i]), PrevGene(s, i))
  }

  /** Exon `i` of `s` closes the open chunk and starts a new one. */
  predicate Breaks(s: seq<Exon>, i: nat) {
    0 < |s| && i < |s| && !Joins(s[i], RunMax(s[0].end, s[..i]), PrevGene(s, i))
  }

  /** The chunks one after the other. */
  function Flatten(chunks: seq<seq<Exon>>): seq<Exon> {
    if chunks == [] then [] else Flatten(chunks[..|chunks| - 1]) + chunks[|chunks| - 1]
  }

  /** Position in the exon list of the first exon of chunk `k`. */
  function Offset(chunks: seq<seq<Exon>>, k: nat): nat
    requires k <= |chunks|
  {
    |Flatten(chunks[..k])|
  }

  /** The loop's variables: the chunks already processed with the
      `lastend` each was processed with, `ckexons`, `lastend` and
      `lastgeneid`. */
  datatype Sweep = Sweep(done: seq<seq<Exon>>, ends: seq<int>, current: seq<Exon>, lastend: int, lastgeneid: string)

  /** The variables before the loop. */
  function Start(s: seq<Exon>): Sweep
    requires |s| > 0
  {
    Sweep([], [], [], s[0].end, "")
  }

  /** One turn of the loop. */
  function Advance(st: Sweep, e: Exon): Sweep {
    var st1 :=
      if Joins(e, st.lastend, st.lastgeneid) then st.(current := st.current + [e])
      else st.(done := st.done + [st.current], ends := st.ends + [st.lastend], current := [e]);
    st1.(lastend := Max(e.end, st.lastend), lastgeneid := e.geneId)
  }

  /** The loop over the exons `xs`. */
  function Run(st: Sweep, xs: seq<Exon>): Sweep {
    if xs == [] then st else Advance(Run(st, xs[..|xs| - 1]), xs[|xs| - 1])
  }

  /** Every chunk handed to `process_chunk` (the last one after the loop)
      with its `lastend`. */
  function Chunked(s: seq<Exon>): (seq<seq<Exon>>, seq<int>)
    requires |s| > 0
  {
    var st := Run(Start(s), s);
    (st.done + [st.current], st.ends + [st.lastend])
  }

  /** The chunk loop. `chrexons[0]` raises IndexError on an empty list:
      None. */
  method Chunks(chrexons: seq<Exon>) returns (r: Option<(seq<seq<Exon>>, seq<int>)>)
    ensures r.None? <==> chrexons == []
    ensures r.Some? ==> r.value == Chunked(chrexons)
  {
    if |chrexons| == 0 {
      return None;
    }
    var lastend := chrexons[0].end;
    var lastgeneid := "";
    var ckexons: seq<Exon> := [];
    var done: seq<seq<Exon>> := [];
    var ends: seq<int> := [];
    for i := 0 to |chrexons|
      invariant Sweep(done, ends, ckexons, lastend, lastgeneid) == Run(Start(chrexons), chrexons[..i])
    {
      var exon := chrexons[i];
      assert chrexons[..i + 1][..i] == chrexons[..i];
      if exon.start <= lastend || exon.geneId == lastgeneid {
        ckexons := ckexons + [exon];
      } else {
        done := done + [ckexons];
        ends := ends + [lastend];
        ckexons := [exon];
      }
      lastend := if exon.end >= lastend then exon.end else lastend;
      lastgeneid := exon.geneId;
    }
    assert chrexons[..|chrexons|] == chrexons;
    r := Some((done + [ckexons], ends + [lastend]));
  }

  /** Chunk `k` is non-empty and its first exon breaks. */
  predicate StartsAt(s: seq<Exon>, chunks: seq<seq<Exon>>, k: nat)
    requires k < |chunks|
  {
    |chunks[k]| > 0 && Breaks(s, Offset(chunks, k))
  }

  /** Element `j` of chunk `k` joins. */
  predicate JoinsAt(s: seq<Exon>, chunks: seq<seq<Exon>>, k: nat, j: nat)
    requires k < |chunks|
  {
    Joined(s, Offset(chunks, k) + j)
  }

  ghost predicate AllStart(s: seq<Exon>, chunks: seq<seq<Exon>>) {
    forall k :: 0 < k < |chunks| ==> StartsAt(s, chunks, k)
  }

  ghost predicate AllJoin(s: seq<Exon>, chunks: seq<seq<Exon>>) {
    forall k, j :: 0 <= k < |chunks| && 0 <= j < |chunks[k]| && (k == 0 || j > 0) ==> JoinsAt(s, chunks, k, j)
  }

  ghost predicate EndsAreMaxima(m: int, chunks: seq<seq<Exon>>, ends: seq<int>)
    requires |ends| < |chunks|
  {
    forall k :: 0 <= k < |ends| ==> ends[k] == RunMax(m, Flatten(chunks[..k + 1]))
  }

  /** What holds of the chunks formed from the first `i` exons of `s`:
      together they are those exons; every chunk but the first starts with
      an exon that breaks; every other exon joins; and each processed chunk
      carries the running maximum of the ends up to its last exon. */
  ghost predicate Layout(s: seq<Exon>, chunks: seq<seq<Exon>>, ends: seq<int>, i: nat) {
    && 0 < |s| && i <= |s| && |chunks| == |ends| + 1
    && Flatten(chunks) == s[..i]
    && AllStart(s, chunks)
    && AllJoin(s, chunks)
    && EndsAreMaxima(s[0].end, chunks, ends)
  }

  /** The sweep state after `i` exons: its chunks are laid out as above and
      `lastend`/`lastgeneid` are what exon `i` is compared with. */
  ghost predicate SweptTo(s: seq<Exon>, st: Sweep, i: nat) {
    && Layout(s, st.done + [st.current], st.ends, i)
    && st.lastend == RunMax(s[0].end, s[..i])
    && st.lastgeneid == PrevGene(s, i)
  }

  lemma FlattenSnoc(chunks: seq<seq<Exon>>, c: seq<Exon>)
    ensures Flatten(chunks + [c]) == Flatten(chunks) + c
  {
    assert (chunks + [c])[..|chunks|] == chunks;
  }

  lemma RunMaxSnoc(m: int, xs: seq<Exon>, e: Exon)
    ensures RunMax(m, xs + [e]) == Max(e.end, RunMax(m, xs))
  {
    assert (xs + [e])[..|xs|] == xs;
  }

  /** Two chunk lists that agree on their first `n` chunks agree on the
      offsets and prefixes there. */
  lemma SamePrefix(a: seq<seq<Exon>>, b: seq<seq<Exon>>, n: nat)
    requires n <= |a| && n <= |b| && a[..n] == b[..n]
    ensures forall k :: 0 <= k <= n ==> a[..k] == b[..k] && Offset(a, k) == Offset(b, k)
  {
    forall k | 0 <= k <= n ensures a[..k] == b[..k] {
      assert a[..k] == a[..n][..k];
      assert b[..k] == b[..n][..k];
    }
  }

  /** Replacing the last chunk by a longer one keeps the layout of the
      earlier chunks; the new element joins. */
  lemma ExtendLast(s: seq<Exon>, done: seq<seq<Exon>>, cur: seq<Exon>, ends: seq<int>, e: Exon, i: nat)
    requires Layout(s, done + [cur], ends, i) && i < |s| && s[i] == e && Joined(s, i)
    ensures Layout(s, done + [cur + [e]], ends, i + 1)
  {
    FlattenSnoc(done, cur);
    FlattenSnoc(done, cur + [e]);
    assert s[..i + 1] == s[..i] + [s[i]];
    ExtendLastStarts(s, done, cur, e);
    ExtendLastJoins(s, done, cur, e, i);
    ExtendLastEnds(s[0].end, done, cur, e, ends);
  }

  lemma ExtendLastStarts(s: seq<Exon>, done: seq<seq<Exon>>, cur: seq<Exon>, e: Exon)
    requires AllStart(s, done + [cur])
    ensures AllStart(s, done + [cur + [e]])
  {
    var L, L' := done + [cur], done + [cur + [e]];
    var n := |done|;
    assert L[..n] == done == L'[..n];
    SamePrefix(L, L', n);
    forall k | 0 < k < |L'| ensures StartsAt(s, L', k) {
      assert StartsAt(s, L, k);
    }
  }

  lemma ExtendLastJoins(s: seq<Exon>, done: seq<seq<Exon>>, cur: seq<Exon>, e: Exon, i: nat)
    requires i < |s| && s[i] == e && Joined(s, i)
    requires AllJoin(s, done + [cur]) && |Flatten(done)| + |cur| == i
    ensures AllJoin(s, done + [cur + [e]])
  {
    var L, L' := done + [cur], done + [cur + [e]];
    var n := |done|;
    assert L[..n] == done == L'[..n];
    SamePrefix(L, L', n);
    forall k, j | 0 <= k < |L'| && 0 <= j < |L'[k]| && (k == 0 || j > 0) ensures JoinsAt(s, L', k, j) {
      if k == n && j == |cur| {
        assert Offset(L', n) == |Flatten(done)|;
      } else {
        assert j < |L[k]|;
        JoinsAtMoved(s, L, L', k, j);
      }
    }
  }

  lemma JoinsAtMoved(s: seq<Exon>, a: seq<seq<Exon>>, b: seq<seq<Exon>>, k: nat, j: nat)
    requires k < |a| && k < |b| && Offset(a, k) == Offset(b, k) && JoinsAt(s, a, k, j)
    ensures JoinsAt(s, b, k, j)
  {
  }

  lemma ExtendLastEnds(m: int, done: seq<seq<Exon>>, cur: seq<Exon>, e: Exon, ends: seq<int>)
    requires |ends| == |done| && EndsAreMaxima(m, done + [cur], ends)
    ensures EndsAreMaxima(m, done + [cur + [e]], ends)
  {
    var L, L' := done + [cur], done + [cur + [e]];
    forall k | 0 <= k < |ends| ensures ends[k] == RunMax(m, Flatten(L'[..k + 1])) {
      assert L'[..k + 1] == L[..k + 1];
    }
  }

  /** Closing the last chunk with `lastend` and opening a new one with a
      breaking exon keeps the layout. */
  lemma OpenNext(s: seq<Exon>, L: seq<seq<Exon>>, ends: seq<int>, lastend: int, i: nat)
    requires Layout(s, L, ends, i) && i < |s| && Breaks(s, i) && lastend == RunMax(s[0].end, s[..i])
    ensures Layout(s, L + [[s[i]]], ends + [lastend], i + 1)
  {
    var L' := L + [[s[i]]];
    var ends' := ends + [lastend];
    var n := |L|;
    assert L'[..n] == L;
    SamePrefix(L, L', n);
    FlattenSnoc(L, [s[i]]);
    assert s[..i + 1] == s[..i] + [s[i]];
    forall k | 0 < k < |L'| ensures StartsAt(s, L', k) {
      if k < n {
        assert StartsAt(s, L, k);
      }
    }
    forall k, j | 0 <= k < |L'| && 0 <= j < |L'[k]| && (k == 0 || j > 0) ensures JoinsAt(s, L', k, j) {
      assert k < n;
      assert JoinsAt(s, L, k, j);
    }
    forall k | 0 <= k < |ends'| ensures ends'[k] == RunMax(s[0].end, Flatten(L'[..k + 1])) {
      if k < |ends| {
        assert ends[k] == RunMax(s[0].end, Flatten(L[..k + 1]));
      } else {
        assert L[..k + 1] == L;
      }
    }
  }

  /** One turn of the loop keeps the layout. */
  lemma AdvanceStep(s: seq<Exon>, st: Sweep, i: nat)
    requires SweptTo(s, st, i) && i < |s|
    ensures SweptTo(s, Advance(st, s[i]), i + 1)
  {
    RunMaxSnoc(s[0].end, s[..i], s[i]);
    assert s[..i + 1] == s[..i] + [s[i]];
    if Joins(s[i], st.lastend, st.lastgeneid) {
      ExtendLast(s, st.done, st.current, st.ends, s[i], i);
    } else {
      OpenNext(s, st.done + [st.current], st.ends, st.lastend, i);
    }
  }

  /** The loop over the first `i` exons leaves them laid out in chunks. */
  lemma {:induction false} RunLayout(s: seq<Exon>, i: nat)
    requires 0 < |s| && i <= |s|
    ensures SweptTo(s, Run(Start(s), s[..i]), i)
  {
    if i == 0 {
      assert Flatten([[]]) == Flatten([]) + [];
    } else {
      RunLayout(s, i - 1);
      assert s[..i][..i - 1] == s[..i - 1];
      AdvanceStep(s, Run(Start(s), s[..i - 1]), i - 1);
    }
  }

  /** The chunks, one after the other, are the exon list. */
  lemma ChunksConcat(s: seq<Exon>)
    requires |s| > 0
    ensures Flatten(Chunked(s).0) == s
  {
    RunLayout(s, |s|);
    assert s[..|s|] == s;
  }

  /** Every chunk after the first starts with an exon that starts beyond
      the running maximum of the ends before it and whose gene id differs
      from that of the exon before it. */
  lemma ChunkStarts(s: seq<Exon>, k: nat)
    requires |s| > 0 && 0 < k < |Chunked(s).0|
    ensures var chunks := Chunked(s).0; var p := Offset(chunks, k);
      |chunks[k]| > 0 && p < |s| && chunks[k][0] == s[p]
      && s[p].start > RunMax(s[0].end, s[..p]) && s[p].geneId != PrevGene(s, p)
  {
    RunLayout(s, |s|);
    assert s[..|s|] == s;
    var chunks := Chunked(s).0;
    assert StartsAt(s, chunks, k);
    ChunkAt(chunks, k, 0);
  }

  /** Every other exon joins the chunk it lies in: it starts at or before
      the running maximum of the ends before it, or repeats the gene id of
      the exon before it. */
  lemma ChunkMembers(s: seq<Exon>, k: nat, j: nat)
    requires |s| > 0 && k < |Chunked(s).0| && j < |Chunked(s).0[k]| && (k == 0 || j > 0)
    ensures var chunks := Chunked(s).0; var p := Offset(chunks, k) + j;
      p < |s| && chunks[k][j] == s[p]
      && (s[p].start <= RunMax(s[0].end, s[..p]) || s[p].geneId == PrevGene(s, p))
  {
    RunLayout(s, |s|);
    assert s[..|s|] == s;
    assert JoinsAt(s, Chunked(s).0, k, j);
    ChunkAt(Chunked(s).0, k, j);
  }

  /** Each chunk is processed with the running maximum of the ends of all
      exons up to its last one. */
  lemma ChunkEnds(s: seq<Exon>, k: nat)
    requires |s| > 0 && k < |Chunked(s).1|
    ensures |Chunked(s).0| == |Chunked(s).1|
    ensures Chunked(s).1[k] == RunMax(s[0].end, Flatten(Chunked(s).0[..k + 1]))
  {
    RunLayout(s, |s|);
    assert s[..|s|] == s;
    var st := Run(Start(s), s);
    var L := st.done + [st.current];
    if k == |st.ends| {
      assert L[..k + 1] == L;
    } else {
      assert L[..k + 1] == st.done[..k + 1];
    }
  }

  /** The first chunk is empty exactly when the first exon ends before it
      starts and has a non-empty gene id; all later chunks are non-empty. */
  lemma ChunksNonEmpty(s: seq<Exon>)
    requires |s| > 0
    ensures Chunked(s).0[0] == [] <==> s[0].start > s[0].end && s[0].geneId != ""
    ensures forall k :: 0 < k < |Chunked(s).0| ==> Chunked(s).0[k] != []
  {
    RunLayout(s, |s|);
    assert s[..|s|] == s;
    var chunks := Chunked(s).0;
    assert chunks[..0] == [] && chunks[..1] == [chunks[0]];
    FlattenSnoc([], chunks[0]);
    assert |chunks| == 1 ==> chunks[..1] == chunks;
    if chunks[0] != [] {
      assert JoinsAt(s, chunks, 0, 0);
    } else {
      assert StartsAt(s, chunks, 1);
    }
    forall k | 0 < k < |chunks| ensures chunks[k] != [] {
      assert StartsAt(s, chunks, k);
    }
  }

  /** With the exons the chromosome loader keeps (`end - start > 1`), no
      chunk is empty. */
  lemma FilteredChunksNonEmpty(s: seq<Exon>)
    requires |s| > 0 && forall e :: e in s ==> e.end - e.start > 1
    ensures forall k :: 0 <= k < |Chunked(s).0| ==> Chunked(s).0[k] != []
  {
    ChunksNonEmpty(s);
    assert s[0] in s;
  }

  /** Element `j` of chunk `k` is exon `Offset(k) + j` of the flattened list. */
  lemma {:induction false} ChunkAt(chunks: seq<seq<Exon>>, k: nat, j: nat)
    requires k < |chunks| && j < |chunks[k]|
    ensures Offset(chunks, k) + j < |Flatten(chunks)| && Flatten(chunks)[Offset(chunks, k) + j] == chunks[k][j]
  {
    var n := |chunks| - 1;
    FlattenSnoc(chunks[..n], chunks[n]);
    assert chunks[..n] + [chunks[n]] == chunks;
    if k < n {
      assert chunks[..n][..k] == chunks[..k];
      ChunkAt(chunks[..n], k, j);
      assert chunks[..n][k] == chunks[k];
    } else {
      assert chunks[..k] == chunks[..n];
    }
  }
}
