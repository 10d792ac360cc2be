/** The transcript-to-pieces map and the structure matrix of
    `process_chunk` (draft.py:221-225, 240): entry `[p][t]` is
    `(t in p.transcripts) / len(tp_map[t])`, in exact arithmetic. */
module Matrix {
  import opened Common
  import opened Features
  import opened Collapse

  /** The names of the pieces listing `t`, in piece order, once per
      listing: the list `tp_map[t]`. */
  function PieceNames(pieces: seq<Exon>, t: string): seq<string> {
    if pieces == [] then []
    else
      var p := pieces[|pieces| - 1];
      PieceNames(pieces[..|pieces| - 1], t) + Repeat(p.name, Count(p.transcripts, t))
  }

  /** The dictionary `tp_map`. */
  function TpMap(pieces: seq<Exon>): map<string, seq<string>> {
    map t | t in PieceTranscripts(pieces) :: PieceNames(pieces, t)
  }

  /** Building `tp_map` with `setdefault(tx, []).append(p.name)`. */
  method BuildTpMap(pieces: seq<Exon>) returns (tp: map<string, seq<string>>)
    ensures tp == TpMap(pieces)
  {
    tp := map[];
    for i := 0 to |pieces|
      invariant forall t :: t in tp <==> t in PieceTranscripts(pieces[..i])
      invariant forall t :: t in tp ==> tp[t] == PieceNames(pieces[..i], t)
    {
      var p := pieces[i];
      assert pieces[..i + 1] == pieces[..i] + [p];
      assert pieces[..i + 1][..i] == pieces[..i];
      PieceTranscriptsSnoc(pieces[..i], p);
      ghost var before := tp;
      tp := AppendToAll(tp, p.name, p.transcripts);
      forall t | t in tp ensures tp[t] == PieceNames(pieces[..i + 1], t) {
        PieceNamesEmpty(pieces[..i], t);
      }
    }
    assert pieces[..|pieces|] == pieces;
  }

  lemma PieceTranscriptsSnoc(pieces: seq<Exon>, p: Exon)
    ensures forall t :: t in PieceTranscripts(pieces + [p]) <==> t in PieceTranscripts(pieces) || t in p.transcripts
  {
    var ps := pieces + [p];
    forall t ensures t in PieceTranscripts(ps) <==> t in PieceTranscripts(pieces) || t in p.transcripts {
      if t in PieceTranscripts(ps) {
        var k :| 0 <= k < |ps| && t in ps[k].transcripts;
        if k < |pieces| {
          assert ps[k] == pieces[k];
        }
      }
      if t in PieceTranscripts(pieces) {
        var k :| 0 <= k < |pieces| && t in pieces[k].transcripts;
        assert ps[k] == pieces[k];
      }
      if t in p.transcripts {
        assert ps[|pieces|] == p;
      }
    }
  }

  /** A transcript has no entry in `tp_map` exactly when no piece lists it. */
  lemma {:induction false} PieceNamesEmpty(pieces: seq<Exon>, t: string)
    ensures PieceNames(pieces, t) == [] <==> t !in PieceTranscripts(pieces)
  {
    if pieces != [] {
      var init, p := pieces[..|pieces| - 1], pieces[|pieces| - 1];
      PieceNamesEmpty(init, t);
      assert init + [p] == pieces;
      PieceTranscriptsSnoc(init, p);
      CountPositive(p.transcripts, t);
    }
  }

  /** One row of the matrix: the share of each transcript given to piece `p`. */
  function Row(p: Exon, transcripts: seq<string>, tp: map<string, seq<string>>): seq<real>
    requires forall j :: 0 <= j < |transcripts| ==> transcripts[j] in tp && |tp[transcripts[j]]| > 0
  {
    seq(|transcripts|, j requires 0 <= j < |transcripts| =>
      (if transcripts[j] in p.transcripts then 1.0 else 0.0) / (|tp[transcripts[j]]| as real))
  }

  /** `Avals`: one row per piece, one column per transcript. Every row
      looks up every transcript, so with at least one piece a transcript
      missing from `tp_map` raises KeyError and an empty list would divide
      by zero; both give None. With no pieces nothing is looked up. */
  function AssignmentMatrix(pieces: seq<Exon>, transcripts: seq<string>, tp: map<string, seq<string>>): (m: Option<seq<seq<real>>>)
    ensures m.Some? <==> |pieces| == 0 || forall j :: 0 <= j < |transcripts| ==> transcripts[j] in tp && |tp[transcripts[j]]| > 0
    ensures m.Some? ==> |m.value| == |pieces| && forall i :: 0 <= i < |pieces| ==> |m.value[i]| == |transcripts|
  {
    if |pieces| == 0 || forall j :: 0 <= j < |transcripts| ==> transcripts[j] in tp && |tp[transcripts[j]]| > 0 then
      Some(seq(|pieces|, i requires 0 <= i < |pieces| => Row(pieces[i], transcripts, tp)))
    else
      None
  }

  /** Sum of column `j` over the rows. */
  function ColumnSum(m: seq<seq<real>>, j: nat): real
    requires forall i :: 0 <= i < |m| ==> j < |m[i]|
  {
    if m == [] then 0.0 else ColumnSum(m[..|m| - 1], j) + m[|m| - 1][j]
  }

  /** Number of pieces listing `t`. */
  function Carriers(pieces: seq<Exon>, t: string): nat {
    if pieces == [] then 0
    else Carriers(pieces[..|pieces| - 1], t) + (if t in pieces[|pieces| - 1].transcripts then 1 else 0)
  }

  /** Once the pieces list each transcript at most once, `tp_map[t]` has one
      name per piece carrying `t`. */
  lemma {:induction false} PieceNamesLength(pieces: seq<Exon>, t: string)
    requires forall k :: 0 <= k < |pieces| ==> NoDup(pieces[k].transcripts)
    ensures |PieceNames(pieces, t)| == Carriers(pieces, t)
  {
    if pieces != [] {
      var p := pieces[|pieces| - 1];
      PieceNamesLength(pieces[..|pieces| - 1], t);
      CountMultiset(p.transcripts, t);
      NoDupCount(p.transcripts, t);
      CountPositive(p.transcripts, t);
    }
  }

  /** A transcript named on some piece has at least one carrier. */
  lemma {:induction false} CarriersPositive(pieces: seq<Exon>, t: string)
    ensures Carriers(pieces, t) > 0 <==> t in PieceTranscripts(pieces)
  {
    if pieces != [] {
      var init, p := pieces[..|pieces| - 1], pieces[|pieces| - 1];
      CarriersPositive(init, t);
      assert init + [p] == pieces;
      PieceTranscriptsSnoc(init, p);
    }
  }

  /** The column of `t` over the first `n` rows holds `1/N` for every one of
      the first `n` pieces carrying `t`, where `N = len(tp_map[t])`. */
  lemma {:induction false} ColumnOfPrefix(pieces: seq<Exon>, transcripts: seq<string>, tp: map<string, seq<string>>, j: nat, n: nat)
    requires forall j :: 0 <= j < |transcripts| ==> transcripts[j] in tp && |tp[transcripts[j]]| > 0
    requires j < |transcripts| && n <= |pieces|
    ensures var m := AssignmentMatrix(pieces, transcripts, tp).value;
      ColumnSum(m[..n], j) == (Carriers(pieces[..n], transcripts[j]) as real) / (|tp[transcripts[j]]| as real)
  {
    var m := AssignmentMatrix(pieces, transcripts, tp).value;
    var t := transcripts[j];
    var d := |tp[t]| as real;
    if n > 0 {
      ColumnOfPrefix(pieces, transcripts, tp, j, n - 1);
      assert m[..n][..n - 1] == m[..n - 1];
      assert pieces[..n][..n - 1] == pieces[..n - 1];
      assert m[n - 1] == Row(pieces[n - 1], transcripts, tp);
      var c := Carriers(pieces[..n - 1], t) as real;
      var x := if t in pieces[n - 1].transcripts then 1.0 else 0.0;
      assert c / d + x / d == (c + x) / d;
    }
  }

  /** Every entry is 0 or `1/len(tp_map[t])`, the latter exactly where the
      piece carries the transcript. */
  lemma MatrixEntries(pieces: seq<Exon>, transcripts: seq<string>, tp: map<string, seq<string>>, i: nat, j: nat)
    requires AssignmentMatrix(pieces, transcripts, tp).Some?
    requires i < |pieces| && j < |transcripts|
    ensures var m := AssignmentMatrix(pieces, transcripts, tp).value;
      m[i][j] == (if transcripts[j] in pieces[i].transcripts then 1.0 / (|tp[transcripts[j]]| as real) else 0.0)
  {
  }

  /** With `tp_map` built from the same pieces, every transcript that lies
      on some piece has a non-empty entry, so the matrix is defined. */
  lemma MatrixDefined(pieces: seq<Exon>, transcripts: seq<string>)
    requires forall u :: u in transcripts ==> u in PieceTranscripts(pieces)
    ensures AssignmentMatrix(pieces, transcripts, TpMap(pieces)).Some?
  {
    var tp := TpMap(pieces);
    forall j | 0 <= j < |transcripts| ensures transcripts[j] in tp && |tp[transcripts[j]]| > 0 {
      PieceNamesEmpty(pieces, transcripts[j]);
    }
  }

  /** A column whose denominator is exactly the number of pieces carrying
      its transcript sums to 1. */
  lemma FullColumn(pieces: seq<Exon>, transcripts: seq<string>, tp: map<string, seq<string>>, j: nat)
    requires forall j :: 0 <= j < |transcripts| ==> transcripts[j] in tp && |tp[transcripts[j]]| > 0
    requires j < |transcripts| && |tp[transcripts[j]]| == Carriers(pieces, transcripts[j])
    ensures ColumnSum(AssignmentMatrix(pieces, transcripts, tp).value, j) == 1.0
  {
    var m := AssignmentMatrix(pieces, transcripts, tp).value;
    ColumnOfPrefix(pieces, transcripts, tp, j, |pieces|);
    assert m[..|pieces|] == m;
    assert pieces[..|pieces|] == pieces;
    var c := Carriers(pieces, transcripts[j]) as real;
    assert c / c == 1.0;
  }

  /** When `tp_map` is built from the same pieces, every listed transcript
      lies on some piece and no piece lists a transcript twice, every column
      of the matrix sums to exactly 1. */
  lemma ColumnsSumToOne(pieces: seq<Exon>, transcripts: seq<string>, j: nat)
    requires forall k :: 0 <= k < |pieces| ==> NoDup(pieces[k].transcripts)
    requires forall u :: u in transcripts ==> u in PieceTranscripts(pieces)
    requires j < |transcripts|
    ensures AssignmentMatrix(pieces, transcripts, TpMap(pieces)).Some?
    ensures ColumnSum(AssignmentMatrix(pieces, transcripts, TpMap(pieces)).value, j) == 1.0
  {
    MatrixDefined(pieces, transcripts);
    var t := transcripts[j];
    PieceNamesLength(pieces, t);
    FullColumn(pieces, transcripts, TpMap(pieces), j);
  }
}
