/** `process_chunk` (draft.py:167-256) put together from its modelled
    blocks: regroup the rows of the chunk, cobble, collapse transcripts,
    build `tp_map` and the matrix, and score the pieces. `sam.fetch` is a
    parameter giving the alignments over a span. */
module Pipeline {
  import opened Common
  import opened Features
  import opened Cobbling
  import opened Collapse
  import opened Matrix
  import opened Counting

  /** What a processed chunk yields: the scored pieces, the remaining
      transcripts and the matrix `Avals`. */
  datatype ChunkResult = ChunkResult(pieces: seq<Exon>, transcripts: seq<string>, matrix: seq<seq<real>>)

  /** Whether every alignment over every span has a usable `NH` tag. */
  ghost predicate AllWeighed(fetch: (int, int) -> seq<Alignment>) {
    forall a, b :: TotalWeight(fetch(a, b)).Some?
  }

  /** Whether the alignments over every piece's span have usable `NH` tags. */
  ghost predicate PiecesWeighed(pieces: seq<Exon>, fetch: (int, int) -> seq<Alignment>) {
    forall k :: 0 <= k < |pieces| ==> TotalWeight(fetch(pieces[k].start, pieces[k].end)).Some?
  }

  /** `b` lies over the same spans as `a`, in the same order. */
  predicate SameSpans(a: seq<Exon>, b: seq<Exon>) {
    |a| == |b| && forall k :: 0 <= k < |a| ==> a[k].start == b[k].start && a[k].end == b[k].end
  }

  /** Whether the reads over the pieces are usable depends on the spans only. */
  lemma WeighedOnSameSpans(a: seq<Exon>, b: seq<Exon>, fetch: (int, int) -> seq<Alignment>)
    requires SameSpans(a, b)
    ensures PiecesWeighed(a, fetch) <==> PiecesWeighed(b, fetch)
  {
    if !PiecesWeighed(a, fetch) {
      var k :| 0 <= k < |a| && TotalWeight(fetch(a[k].start, a[k].end)).None?;
      assert TotalWeight(fetch(b[k].start, b[k].end)).None?;
    }
    if !PiecesWeighed(b, fetch) {
      var k :| 0 <= k < |b| && TotalWeight(fetch(b[k].start, b[k].end)).None?;
      assert TotalWeight(fetch(a[k].start, a[k].end)).None?;
    }
  }

  /** Pieces in increasing, non-overlapping order covering exactly what the
      exons cover. */
  ghost predicate Layout(exons: seq<Exon>, pieces: seq<Exon>) {
    && (forall k, l :: 0 <= k < l < |pieces| ==> pieces[k].end <= pieces[l].start)
    && (forall x :: InPieces(pieces, x) <==> Covered(exons, x))
  }

  /** The transcript bookkeeping after collapsing: no piece names a
      transcript twice, and the chunk's list holds every transcript of a
      piece exactly once. */
  ghost predicate Assigned(pieces: seq<Exon>, transcripts: seq<string>) {
    && NoDup(transcripts)
    && (forall u :: u in transcripts <==> exists k :: 0 <= k < |pieces| && u in pieces[k].transcripts)
    && (forall k :: 0 <= k < |pieces| ==> NoDup(pieces[k].transcripts))
  }

  /** `Avals`: one row per piece, one column per transcript, each column a
      distribution of one read-count unit over the pieces. */
  predicate Distributes(m: seq<seq<real>>, pieces: seq<Exon>, transcripts: seq<string>) {
    && |m| == |pieces|
    && (forall i :: 0 <= i < |m| ==> |m[i]| == |transcripts|)
    && (forall j :: 0 <= j < |transcripts| ==> ColumnSum(m, j) == 1.0)
  }

  /** Every piece has a non-empty span, its length, and the score of the
      alignments `fetch` gives over it. */
  ghost predicate ScoredBy(pieces: seq<Exon>, fetch: (int, int) -> seq<Alignment>) {
    forall k :: 0 <= k < |pieces| ==>
      && pieces[k].start < pieces[k].end
      && pieces[k].length == pieces[k].end - pieces[k].start
      && pieces[k].score == Score(|fetch(pieces[k].start, pieces[k].end)|, pieces[k].length)
  }

  /** The pieces after the collapsing block: each keeps everything but its
      transcripts, which become the set of their replacements, listed in the
      runtime's order. */
  function CollapsedPieces(pieces: seq<Exon>, it: SetIteration): seq<Exon>
    requires it.Valid()
  {
    seq(|pieces|, k requires 0 <= k < |pieces| =>
      pieces[k].(transcripts := it.strings(Filtered(Replacement(pieces, it), pieces[k].transcripts))))
  }

  /** Every piece of a cobbling has a non-empty span. */
  lemma CobblingSpans(exons: seq<Exon>, pieces: seq<Exon>, it: SetIteration)
    requires IsCobbling(exons, pieces, it)
    ensures forall k :: 0 <= k < |pieces| ==> pieces[k].start < pieces[k].end
  {
    forall k | 0 <= k < |pieces| ensures pieces[k].start < pieces[k].end {
      assert IsPiece(exons, pieces[k], it);
    }
  }

  /** Collapsing keeps every piece's span. */
  lemma CollapsedSpans(pieces: seq<Exon>, it: SetIteration)
    requires it.Valid()
    ensures |CollapsedPieces(pieces, it)| == |pieces|
    ensures SameSpans(pieces, CollapsedPieces(pieces, it))
  {
  }

  /** `res` is what `process_chunk` makes of the cobbled pieces `cob`:
      each piece collapsed and then scored by the alignments over its span,
      the union of the collapsed transcripts, and `Avals` over the collapsed
      pieces. */
  ghost predicate Yields(cob: seq<Exon>, it: SetIteration, fetch: (int, int) -> seq<Alignment>, res: ChunkResult)
    requires it.Valid()
  {
    var out := CollapsedPieces(cob, it);
    && |res.pieces| == |cob|
    && res.transcripts == it.strings(RewrittenUnion(Replacement(cob, it), cob))
    && (forall k :: 0 <= k < |cob| ==>
          cob[k].start < cob[k].end && res.pieces[k] == Scored(out[k], |fetch(cob[k].start, cob[k].end)|))
    && Some(res.matrix) == AssignmentMatrix(out, res.transcripts, TpMap(out))
  }

  lemma SameSpansKeepLayout(exons: seq<Exon>, a: seq<Exon>, b: seq<Exon>)
    requires SameSpans(a, b) && Layout(exons, a)
    ensures Layout(exons, b)
  {
    forall x ensures InPieces(b, x) <==> InPieces(a, x) {
      if InPieces(a, x) {
        var k :| 0 <= k < |a| && a[k].start <= x < a[k].end;
        assert b[k].start <= x < b[k].end;
      }
      if InPieces(b, x) {
        var k :| 0 <= k < |b| && b[k].start <= x < b[k].end;
        assert a[k].start <= x < a[k].end;
      }
    }
  }

  /** Collapsing transcripts, then `tp_map` and the matrix: the spans stay,
      transcripts are assigned, and the matrix distributes each of them. */
  method AssignTranscripts(pieces: seq<Exon>, it: SetIteration) returns (out: seq<Exon>, transcripts: seq<string>, m: seq<seq<real>>)
    requires it.Valid()
    ensures SameSpans(pieces, out)
    ensures Assigned(out, transcripts)
    ensures Distributes(m, out, transcripts)
    ensures out == CollapsedPieces(pieces, it)
    ensures transcripts == it.strings(RewrittenUnion(Replacement(pieces, it), pieces))
    ensures Some(m) == AssignmentMatrix(out, transcripts, TpMap(out))
  {
    out, transcripts := CollapseTranscripts(pieces, it);
    ReplacementHasNoChains(pieces, it);
    RewrittenFacts(pieces, Replacement(pieces, it), it, out, transcripts);
    var tp := BuildTpMap(out);
    MatrixDefined(out, transcripts);
    m := AssignmentMatrix(out, transcripts, tp).value;
    forall j | 0 <= j < |transcripts| ensures ColumnSum(m, j) == 1.0 {
      ColumnsSumToOne(out, transcripts, j);
    }
  }

  /** The scoring loop over a chunk's pieces, with `sam.fetch` over each
      piece's span. */
  method ScoreChunk(pieces: seq<Exon>, fetch: (int, int) -> seq<Alignment>) returns (r: Option<seq<Exon>>)
    requires forall k :: 0 <= k < |pieces| ==> pieces[k].start < pieces[k].end
    ensures AllWeighed(fetch) ==> r.Some?
    ensures r.Some? ==> SameSpans(pieces, r.value) && ScoredBy(r.value, fetch)
    ensures r.Some? ==> forall k :: 0 <= k < |pieces| ==> r.value[k].transcripts == pieces[k].transcripts
    ensures r.Some? <==> PiecesWeighed(pieces, fetch)
    ensures r.Some? ==> |r.value| == |pieces|
    ensures r.Some? ==> forall k :: 0 <= k < |pieces| ==> r.value[k] == Scored(pieces[k], |fetch(pieces[k].start, pieces[k].end)|)
  {
    var fetched := seq(|pieces|, k requires 0 <= k < |pieces| => fetch(pieces[k].start, pieces[k].end));
    r := ScorePieces(pieces, fetched);
  }

  /** What the blocks after regrouping make of the exons `exons`: pieces
      laid out over them and scored, transcripts assigned, a matrix
      distributing each transcript, and all of these as `Yields` derives
      them from a cobbling of the exons. */
  ghost predicate Processed(exons: seq<Exon>, it: SetIteration, fetch: (int, int) -> seq<Alignment>, res: ChunkResult)
    requires it.Valid()
  {
    && Layout(exons, res.pieces)
    && Assigned(res.pieces, res.transcripts)
    && Distributes(res.matrix, res.pieces, res.transcripts)
    && ScoredBy(res.pieces, fetch)
    && exists cob :: IsCobbling(exons, cob, it) && Yields(cob, it, fetch, res)
  }

  /** Scoring keeps the spans, the transcripts and the matrix's fit, and
      gives every piece its length and score. */
  lemma ScoringKeeps(out: seq<Exon>, res: seq<Exon>, transcripts: seq<string>, m: seq<seq<real>>, fetch: (int, int) -> seq<Alignment>)
    requires |res| == |out|
    requires forall k :: 0 <= k < |out| ==> out[k].start < out[k].end && res[k] == Scored(out[k], |fetch(out[k].start, out[k].end)|)
    requires Assigned(out, transcripts) && Distributes(m, out, transcripts)
    ensures SameSpans(out, res) && Assigned(res, transcripts) && Distributes(m, res, transcripts) && ScoredBy(res, fetch)
  {
    assert forall k :: 0 <= k < |res| ==> res[k].transcripts == out[k].transcripts;
  }

  /** The results of the three blocks, cobbling `pieces`, collapsing them
      into `out` with `Avals` `m`, and scoring `out` into `res`, together
      make a processed chunk. */
  lemma ProcessedOfBlocks(exons: seq<Exon>, pieces: seq<Exon>, out: seq<Exon>, transcripts: seq<string>, m: seq<seq<real>>,
                          res: seq<Exon>, it: SetIteration, fetch: (int, int) -> seq<Alignment>)
    requires it.Valid() && IsCobbling(exons, pieces, it)
    requires out == CollapsedPieces(pieces, it)
    requires transcripts == it.strings(RewrittenUnion(Replacement(pieces, it), pieces))
    requires Some(m) == AssignmentMatrix(out, transcripts, TpMap(out))
    requires Assigned(out, transcripts) && Distributes(m, out, transcripts)
    requires |res| == |out|
    requires forall k :: 0 <= k < |out| ==> out[k].start < out[k].end && res[k] == Scored(out[k], |fetch(out[k].start, out[k].end)|)
    ensures Processed(exons, it, fetch, ChunkResult(res, transcripts, m))
  {
    CollapsedSpans(pieces, it);
    ScoringKeeps(out, res, transcripts, m, fetch);
    assert SameSpans(pieces, res);
    SameSpansKeepLayout(exons, pieces, res);
    assert Yields(pieces, it, fetch, ChunkResult(res, transcripts, m));
  }

  /** Cobbling, collapsing, `Avals` and scoring (draft.py:196-250) on the
      regrouped exons of a chunk. None where the source raises: exons of
      different chromosomes meeting in a piece, or an `NH` tag of 0 over a
      piece. */
  method ProcessExons(exons: seq<Exon>, it: SetIteration, fetch: (int, int) -> seq<Alignment>) returns (r: Option<ChunkResult>)
    requires it.Valid()
    requires forall j :: 0 <= j < |exons| ==> exons[j].start < exons[j].end
    ensures ChromsAgree(exons) && AllWeighed(fetch) ==> r.Some?
    ensures r.Some? ==> ChromsAgree(exons) && Processed(exons, it, fetch, r.value)
    ensures r.None? && ChromsAgree(exons) ==> exists cob :: IsCobbling(exons, cob, it) && !PiecesWeighed(cob, fetch)
  {
    var cobbled := Cobble(exons, false, it);
    if cobbled.Err? {
      return None;
    }
    var pieces := cobbled.value;
    CobblingSpans(exons, pieces, it);
    var out, transcripts, m := AssignTranscripts(pieces, it);
    CollapsedSpans(pieces, it);
    var scored := ScoreChunk(out, fetch);
    if scored.None? {
      WeighedOnSameSpans(pieces, out, fetch);
      return None;
    }
    var res := scored.value;
    ProcessedOfBlocks(exons, pieces, out, transcripts, m, res, it, fetch);
    r := Some(ChunkResult(res, transcripts, m));
  }

  /** `process_chunk` on a chunk of rows and its `lastend`. None where the
      source raises: an empty chunk (`ckexons[0]`), an `NH` tag of 0 among
      the reads over the whole chunk (`allcounter`), exons of different
      chromosomes meeting in a piece, or an `NH` tag of 0 over a piece. */
  method ProcessChunk(ckexons: seq<Exon>, lastend: int, it: SetIteration, fetch: (int, int) -> seq<Alignment>) returns (r: Option<ChunkResult>)
    requires it.Valid()
    requires MergeableRows(ckexons)
    requires forall j :: 0 <= j < |ckexons| ==> ckexons[j].start < ckexons[j].end
    ensures ckexons == [] ==> r.None?
    ensures var exons := Regrouped(ckexons);
      ckexons != [] && ChromsAgree(exons) && AllWeighed(fetch) ==> r.Some?
    ensures var exons := Regrouped(ckexons);
      r.Some? ==> ChromsAgree(exons)
    ensures r.Some? ==> TotalWeight(fetch(Regrouped(ckexons)[0].start, lastend)).Some?
    ensures r.Some? ==> Processed(Regrouped(ckexons), it, fetch, r.value)
    ensures r.None? && ckexons != [] && ChromsAgree(Regrouped(ckexons)) && TotalWeight(fetch(Regrouped(ckexons)[0].start, lastend)).Some? ==>
      exists cob :: IsCobbling(Regrouped(ckexons), cob, it) && !PiecesWeighed(cob, fetch)
  {
    if ckexons == [] {
      return None;
    }
    var exons := Regroup(ckexons);
    RegroupKeepsRows(ckexons);
    forall j | 0 <= j < |exons| ensures exons[j].start < exons[j].end {
      var i :| 0 <= i < |ckexons| && SameRow(exons[j], ckexons[i]);
    }
    var all := TotalWeight(fetch(exons[0].start, lastend));
    if all.None? {
      return None;
    }
    r := ProcessExons(exons, it, fetch);
  }
}
