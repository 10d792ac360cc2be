/** The read counter of draft.py:132-157 and the per-piece scoring of
    `process_chunk` (draft.py:244-250). The alignment file is not read:
    the alignments `sam.fetch` would hand to the callback for a piece are
    a parameter. Weights are exact reals. */
module Counting {
  import opened Common
  import opened Features

  /** An alignment, reduced to what the counter looks at. */
  datatype Alignment = Alignment(isReverse: bool, tags: seq<(string, int)>)

  /** The values of the `NH` tags, in tag order. */
  function NhValues(tags: seq<(string, int)>): seq<int> {
    if tags == [] then []
    else (if tags[0].0 == "NH" then [tags[0].1] else []) + NhValues(tags[1..])
  }

  /** The weight `NH[0]` of one alignment: every `NH` tag is turned into
      `1.0/NH` (a zero raises ZeroDivisionError, here None), and the first
      one is used, or 1 when there is none. */
  function Weight(a: Alignment): Option<real> {
    var nh := NhValues(a.tags);
    if 0 in nh then None
    else if nh == [] then Some(1.0)
    else Some(1.0 / (nh[0] as real))
  }

  /** `NhValues` lists exactly the `NH` tags: empty iff there is none, and
      headed by the first one. */
  lemma {:induction false} NhValuesFacts(tags: seq<(string, int)>)
    ensures NhValues(tags) == [] <==> forall i :: 0 <= i < |tags| ==> tags[i].0 != "NH"
    ensures forall i :: 0 <= i < |tags| && tags[i].0 == "NH" && (forall j :: 0 <= j < i ==> tags[j].0 != "NH")
                        ==> NhValues(tags) != [] && NhValues(tags)[0] == tags[i].1
    ensures 0 in NhValues(tags) <==> exists i :: 0 <= i < |tags| && tags[i] == ("NH", 0)
  {
    if tags != [] {
      NhValuesFacts(tags[1..]);
      forall i | 0 < i < |tags| ensures tags[1..][i - 1] == tags[i] { }
      if 0 in NhValues(tags[1..]) {
        var i :| 0 <= i < |tags[1..]| && tags[1..][i] == ("NH", 0);
        assert tags[i + 1] == ("NH", 0);
      }
      forall i | 0 < i < |tags| && tags[i] == ("NH", 0) ensures 0 in NhValues(tags[1..]) {
        assert tags[1..][i - 1] == ("NH", 0);
      }
    }
  }

  /** What the weight means, stated on the tags: it fails exactly on an
      `NH` tag of 0, is 1 without any `NH` tag, and is otherwise the
      reciprocal of the first `NH` value. */
  lemma WeightOfTags(a: Alignment, i: nat)
    requires i < |a.tags|
    ensures Weight(a).None? <==> exists k :: 0 <= k < |a.tags| && a.tags[k] == ("NH", 0)
    ensures (forall k :: 0 <= k < |a.tags| ==> a.tags[k].0 != "NH") ==> Weight(a) == Some(1.0)
    ensures Weight(a).Some? && a.tags[i].0 == "NH" && (forall k :: 0 <= k < i ==> a.tags[k].0 != "NH")
            ==> Weight(a).value * (a.tags[i].1 as real) == 1.0
  {
    NhValuesFacts(a.tags);
  }

  /** The three tallies of a counter. */
  datatype Counts = Counts(n: real, nRaw: int, nWs: real)

  /** Whether an alignment lies on the counter's strand (`count_stranded`). */
  predicate OnStrand(strand: int, a: Alignment) {
    (strand == 1 && !a.isReverse) || (strand == -1 && a.isReverse)
  }

  /** One call of the counter: `count` adds the weight to `n` and 1 to
      `n_raw`; `count_stranded` adds the weight to `n` or `n_ws` and leaves
      `n_raw` alone. None when the weight raises. */
  function Step(c: Counts, stranded: bool, strand: int, a: Alignment): Option<Counts> {
    match Weight(a)
    case None => None
    case Some(w) =>
      if !stranded then Some(c.(n := c.n + w, nRaw := c.nRaw + 1))
      else if OnStrand(strand, a) then Some(c.(n := c.n + w))
      else Some(c.(nWs := c.nWs + w))
  }

  /** The end of a run of calls: all of them done, or stopped by the first
      alignment whose weight raises, with the tallies reached before it. */
  datatype Outcome = Done(counts: Counts) | Failed(counts: Counts)

  /** The calls over a sequence of alignments, in order. */
  function Tally(c: Counts, stranded: bool, strand: int, alns: seq<Alignment>): Outcome
    decreases |alns|
  {
    if alns == [] then Done(c)
    else
      match Step(c, stranded, strand, alns[0])
      case None => Failed(c)
      case Some(c1) => Tally(c1, stranded, strand, alns[1..])
  }

  /** Sum of the weights, None when one of them raises. */
  function TotalWeight(alns: seq<Alignment>): Option<real> {
    if alns == [] then Some(0.0)
    else
      match (Weight(alns[0]), TotalWeight(alns[1..]))
      case (Some(w), Some(s)) => Some(w + s)
      case _ => None
  }

  /** Sum of the weights of the alignments on the given strand. */
  function StrandWeight(strand: int, alns: seq<Alignment>): real
    requires TotalWeight(alns).Some?
  {
    if alns == [] then 0.0
    else (if OnStrand(strand, alns[0]) then Weight(alns[0]).value else 0.0) + StrandWeight(strand, alns[1..])
  }

  /** A run completes exactly when no alignment raises. */
  lemma {:induction false} TallyDoneIff(c: Counts, stranded: bool, strand: int, alns: seq<Alignment>)
    ensures Tally(c, stranded, strand, alns).Done? <==> TotalWeight(alns).Some?
    decreases |alns|
  {
    if alns != [] && Weight(alns[0]).Some? {
      TallyDoneIff(Step(c, stranded, strand, alns[0]).value, stranded, strand, alns[1..]);
    }
  }

  /** Unstranded counting adds the total weight to `n`, one per alignment
      to `n_raw`, and nothing to `n_ws`. */
  lemma {:induction false} TallyUnstranded(c: Counts, strand: int, alns: seq<Alignment>)
    requires TotalWeight(alns).Some?
    ensures Tally(c, false, strand, alns)
            == Done(Counts(c.n + TotalWeight(alns).value, c.nRaw + |alns|, c.nWs))
    decreases |alns|
  {
    if alns != [] {
      TallyUnstranded(Step(c, false, strand, alns[0]).value, strand, alns[1..]);
    }
  }

  /** Stranded counting splits the total weight between `n` (alignments on
      the counter's strand) and `n_ws` (the others), and never moves
      `n_raw`. */
  lemma {:induction false} TallyStranded(c: Counts, strand: int, alns: seq<Alignment>)
    requires TotalWeight(alns).Some?
    ensures Tally(c, true, strand, alns)
            == Done(Counts(c.n + StrandWeight(strand, alns),
                           c.nRaw,
                           c.nWs + TotalWeight(alns).value - StrandWeight(strand, alns)))
    decreases |alns|
  {
    if alns != [] {
      TallyStranded(Step(c, true, strand, alns[0]).value, strand, alns[1..]);
    }
  }

  /** Nothing in the program sets `strand`, so it stays 0 and no alignment
      is ever on the counter's strand: in stranded mode every weight goes to
      `n_ws`. */
  lemma {:induction false} StrandZeroCountsNothing(alns: seq<Alignment>)
    requires TotalWeight(alns).Some?
    ensures StrandWeight(0, alns) == 0.0
    decreases |alns|
  {
    if alns != [] {
      StrandZeroCountsNothing(alns[1..]);
    }
  }

  /** The `Counter` object. `count_fct` is chosen once from `stranded`;
      `strand` starts at 0 and nothing in the program sets it. */
  class Counter {
    var n: real
    var nRaw: int
    var nWs: real
    var strand: int
    const stranded: bool

    function Tallies(): Counts
      reads this
    {
      Counts(n, nRaw, nWs)
    }

    /** `Counter(stranded)`: all tallies and the strand at zero. */
    constructor (stranded: bool)
      ensures Tallies() == Counts(0.0, 0, 0.0) && strand == 0 && this.stranded == stranded
    {
      n, nRaw, nWs, strand := 0.0, 0, 0.0, 0;
      this.stranded := stranded;
    }

    /** `counter(alignment)`. `ok` is false where the source raises; then
        nothing has been updated. */
    method Call(a: Alignment) returns (ok: bool)
      modifies this
      ensures ok <==> Weight(a).Some?
      ensures ok ==> Tallies() == Step(old(Tallies()), stranded, strand, a).value
      ensures !ok ==> Tallies() == old(Tallies())
      ensures strand == old(strand)
    {
      var nh := NhValues(a.tags);
      if 0 in nh {
        return false;
      }
      var w := if nh == [] then 1.0 else 1.0 / (nh[0] as real);
      if !stranded {
        n := n + w;
        nRaw := nRaw + 1;
      } else if (strand == 1 && !a.isReverse) || (strand == -1 && a.isReverse) {
        n := n + w;
      } else {
        nWs := nWs + w;
      }
      ok := true;
    }

    /** `sam.fetch(..., callback=counter)`: the counter is called on each
        alignment in turn; a call that raises ends the run. */
    method Fetch(alns: seq<Alignment>) returns (ok: bool)
      modifies this
      ensures ok <==> Tally(old(Tallies()), stranded, old(strand), alns).Done?
      ensures Tallies() == Tally(old(Tallies()), stranded, old(strand), alns).counts
      ensures strand == old(strand)
    {
      var i := 0;
      while i < |alns|
        invariant 0 <= i <= |alns| && strand == old(strand)
        invariant Tally(Tallies(), stranded, strand, alns[i..]) == Tally(old(Tallies()), stranded, strand, alns)
      {
        assert alns[i..][1..] == alns[i + 1..];
        ok := Call(alns[i]);
        if !ok {
          return;
        }
        i := i + 1;
      }
      ok := true;
    }
  }

  /** The score of a piece counted with a fresh-reset `n_raw` over `m` reads. */
  function Score(m: nat, length: int): real
    requires length != 0
  {
    1000.0 * (m as real) / (length as real)
  }

  /** A piece after scoring: its length recomputed from the coordinates and
      its score set from its own `m` alignments. */
  function Scored(p: Exon, m: nat): Exon
    requires p.end != p.start
  {
    p.(length := p.end - p.start, score := Score(m, p.end - p.start))
  }

  /** One turn of the scoring loop: recompute the length, fetch, score,
      reset `n_raw`. */
  method ScoreOne(counter: Counter, p: Exon, alns: seq<Alignment>) returns (q: Option<Exon>)
    requires counter.nRaw == 0 && !counter.stranded
    modifies counter
    ensures q.Some? <==> TotalWeight(alns).Some? && p.end != p.start
    ensures q.Some? ==> q.value == Scored(p, |alns|) && counter.nRaw == 0
    ensures q.Some? ==> counter.n == old(counter.n) + TotalWeight(alns).value && counter.nWs == old(counter.nWs)
    ensures q.None? ==> counter.Tallies() == Tally(old(counter.Tallies()), false, old(counter.strand), alns).counts
    ensures counter.strand == old(counter.strand)
  {
    var e := p.(length := p.end - p.start);
    ghost var before := counter.Tallies();
    var ok := counter.Fetch(alns);
    TallyDoneIff(before, false, counter.strand, alns);
    if !ok || e.length == 0 {
      return None;
    }
    TallyUnstranded(before, counter.strand, alns);
    e := e.(score := 1000.0 * (counter.nRaw as real) / (e.length as real));
    counter.nRaw := 0;
    q := Some(e);
  }

  /** The scoring loop of `process_chunk`: one unstranded counter for the
      whole chunk; for each piece, `length` is recomputed from the
      coordinates, its alignments are fetched, the score is set from
      `n_raw` and `n_raw` is reset, so each score counts only the piece's
      own alignments. None where the source raises (an `NH` of 0, or a
      piece of length 0). `fetched[k]` are the alignments fetched for piece
      `k`. */
  method ScorePieces(pieces: seq<Exon>, fetched: seq<seq<Alignment>>) returns (r: Option<seq<Exon>>)
    requires |fetched| == |pieces|
    ensures r.Some? <==> forall k :: 0 <= k < |pieces| ==>
              TotalWeight(fetched[k]).Some? && pieces[k].end != pieces[k].start
    ensures r.Some? ==> |r.value| == |pieces| && forall k :: 0 <= k < |pieces| ==>
              pieces[k].end != pieces[k].start && r.value[k] == Scored(pieces[k], |fetched[k]|)
  {
    var counter := new Counter(false);
    var out: seq<Exon> := [];
    for k := 0 to |pieces|
      invariant counter.nRaw == 0 && !counter.stranded
      invariant |out| == k
      invariant forall j :: 0 <= j < k ==> TotalWeight(fetched[j]).Some? && pieces[j].end != pieces[j].start
      invariant forall j :: 0 <= j < k ==> pieces[j].end != pieces[j].start && out[j] == Scored(pieces[j], |fetched[j]|)
    {
      var q := ScoreOne(counter, pieces[k], fetched[k]);
      if q.None? {
        return None;
      }
      out := out + [q.value];
    }
    r := Some(out);
  }
}
