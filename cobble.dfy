/** The sweep line of `cobble` (draft.py:100-121): split a chunk's exons into
    non-overlapping pieces, one per span between consecutive distinct
    boundaries that some exon covers, each the combination of the exons
    active over it. */
module Cobbling {
  import opened Common
  import opened Sorting
  import opened Features

  /** A boundary `(pos, kind, exon)`: kind 1 opens the exon, kind 0 closes
      it, so closes sort before opens at the same coordinate. The exon object
      is named by its index in the input list. */
  datatype Event = Event(pos: int, kind: int, exon: nat)

  /** Python's order on these tuples; objects compare by identity, which the
      index stands for. */
  predicate EventLe(a: Event, b: Event) {
    a.pos < b.pos || (a.pos == b.pos && (a.kind < b.kind || (a.kind == b.kind && a.exon <= b.exon)))
  }

  lemma EventLeIsTotalPreorder()
    ensures TotalPreorder(EventLe)
  {
  }

  function Open(exons: seq<Exon>, j: nat): Event
    requires j < |exons|
  {
    Event(exons[j].start, 1, j)
  }

  function Close(exons: seq<Exon>, j: nat): Event
    requires j < |exons|
  {
    Event(exons[j].end, 0, j)
  }

  /** `[(e.start,1,e) for e in exons] + [(e.end,0,e) for e in exons]` */
  function Events(exons: seq<Exon>): (evs: seq<Event>)
    ensures |evs| == 2 * |exons|
  {
    seq(|exons|, j requires 0 <= j < |exons| => Open(exons, j)) +
    seq(|exons|, j requires 0 <= j < |exons| => Close(exons, j))
  }

  /** The exons covering position `x`. */
  function Cov(exons: seq<Exon>, x: int): (s: set<nat>)
    ensures forall j :: j in s ==> j < |exons|
  {
    set j: nat | j < |exons| && exons[j].start <= x < exons[j].end
  }

  predicate Covered(exons: seq<Exon>, x: int) {
    exists j :: 0 <= j < |exons| && exons[j].start <= x < exons[j].end
  }

  predicate InPieces(pieces: seq<Exon>, x: int) {
    exists k :: 0 <= k < |pieces| && pieces[k].start <= x < pieces[k].end
  }

  ghost predicate UniformChrom(exons: seq<Exon>, s: set<nat>)
    requires forall j :: j in s ==> j < |exons|
  {
    forall j, k :: j in s && k in s ==> exons[j].chrom == exons[k].chrom
  }

  /** Wherever exons overlap, they lie on one chromosome. */
  ghost predicate ChromsAgree(exons: seq<Exon>) {
    forall x :: UniformChrom(exons, Cov(exons, x))
  }

  /** `p` is the piece for its span: a non-empty span over which the same
      non-empty set of exons is active, carrying their combination clamped to
      the span, and bounded on both sides by a change of that set. */
  ghost predicate IsPiece(exons: seq<Exon>, p: Exon, it: SetIteration) {
    && it.Valid()
    && p.start < p.end
    && Cov(exons, p.start) != {}
    && (forall x :: p.start <= x < p.end ==> Cov(exons, x) == Cov(exons, p.start))
    && Cov(exons, p.start - 1) != Cov(exons, p.start)
    && Cov(exons, p.end) != Cov(exons, p.start)
    && CombineSet(exons, Cov(exons, p.start), it).Ok?
    && p == CombineSet(exons, Cov(exons, p.start), it).value.(start := p.start, end := p.end)
  }

  /** What `cobble` returns: pieces in increasing, non-overlapping order,
      each a piece for its span, covering exactly the positions some input
      exon covers. */
  ghost predicate IsCobbling(exons: seq<Exon>, pieces: seq<Exon>, it: SetIteration) {
    && (forall k :: 0 <= k < |pieces| ==> IsPiece(exons, pieces[k], it))
    && (forall k, l :: 0 <= k < l < |pieces| ==> pieces[k].end <= pieces[l].start)
    && (forall x :: InPieces(pieces, x) <==> Covered(exons, x))
  }

  lemma EventsFacts(exons: seq<Exon>)
    ensures NoDup(Events(exons))
    ensures forall j :: 0 <= j < |exons| ==> Open(exons, j) in Events(exons) && Close(exons, j) in Events(exons)
    ensures forall ev :: ev in Events(exons) ==>
      ev.exon < |exons| && (ev.kind == 1 || ev.kind == 0) &&
      ev == (if ev.kind == 1 then Open(exons, ev.exon) else Close(exons, ev.exon))
  {
    var evs := Events(exons);
    var n := |exons|;
    forall a, b | 0 <= a < b < |evs| ensures evs[a] != evs[b] {
      EventAt(exons, a);
      EventAt(exons, b);
    }
    forall j | 0 <= j < n ensures Open(exons, j) in evs && Close(exons, j) in evs {
      EventAt(exons, j);
      EventAt(exons, n + j);
    }
    forall ev | ev in evs ensures ev.exon < n && (ev.kind == 1 || ev.kind == 0) &&
      ev == (if ev.kind == 1 then Open(exons, ev.exon) else Close(exons, ev.exon))
    {
      var k :| 0 <= k < |evs| && evs[k] == ev;
      EventAt(exons, k);
    }
  }

  /** Position `k` of the events: the opens, then the closes. */
  lemma EventAt(exons: seq<Exon>, k: nat)
    requires k < 2 * |exons|
    ensures k < |exons| ==> Events(exons)[k] == Open(exons, k)
    ensures k >= |exons| ==> Events(exons)[k] == Close(exons, k - |exons|)
  {
  }

  /** The sorted events hold each event of the exons once. */
  lemma SortedEventsFacts(exons: seq<Exon>, ends: seq<Event>)
    requires multiset(ends) == multiset(Events(exons))
    ensures NoDup(ends)
    ensures forall ev :: ev in ends <==> ev in Events(exons)
  {
    EventsFacts(exons);
    NoDupPermutation(Events(exons), ends);
    forall ev ensures ev in ends <==> ev in Events(exons) {
      assert ev in ends <==> ev in multiset(ends);
      assert ev in Events(exons) <==> ev in multiset(Events(exons));
    }
  }

  /** Every event swept so far sorts at or before the current one. */
  lemma PrefixBelow(ends: seq<Event>, i: nat)
    requires SortedBy(ends, EventLe) && i < |ends|
    ensures forall y :: y in ends[..i + 1] ==> EventLe(y, ends[i])
  {
    forall y | y in ends[..i + 1] ensures EventLe(y, ends[i]) {
      var k :| 0 <= k < i + 1 && ends[..i + 1][k] == y;
      assert ends[k] == y;
    }
  }

  /** Every event not yet swept sorts at or after the current one. */
  lemma SuffixAbove(ends: seq<Event>, i: nat)
    requires SortedBy(ends, EventLe) && i < |ends|
    ensures forall y :: y in ends[i..] ==> EventLe(ends[i], y)
  {
    forall y | y in ends[i..] ensures EventLe(ends[i], y) {
      var k :| 0 <= k < |ends| - i && ends[i..][k] == y;
      assert ends[i + k] == y;
    }
  }

  /** The current event has not been swept before. */
  lemma NotSweptYet(ends: seq<Event>, i: nat)
    requires NoDup(ends) && i < |ends|
    ensures ends[i] !in ends[..i]
  {
    forall y | y in ends[..i] ensures y != ends[i] {
      var k :| 0 <= k < i && ends[..i][k] == y;
      assert ends[k] == y;
    }
  }

  /** Between two consecutive sorted events at distinct positions `p < q`,
      an event has been swept exactly when it lies at or before any `x` of
      `[p, q)`. */
  lemma SweptIffBefore(ends: seq<Event>, i: nat, ev: Event, x: int)
    requires SortedBy(ends, EventLe) && i + 1 < |ends| && ends[i].pos <= x < ends[i + 1].pos
    requires ev in ends
    ensures ev in ends[..i + 1] <==> ev.pos <= x
  {
    PrefixBelow(ends, i);
    SuffixAbove(ends, i + 1);
    assert ends == ends[..i + 1] + ends[i + 1..];
  }

  /** The active list after sweeping the first `i` events holds, once each,
      the exons opened and not yet closed. */
  ghost predicate ActiveAfter(exons: seq<Exon>, ends: seq<Event>, i: nat, active: seq<nat>)
    requires i <= |ends|
  {
    && NoDup(active)
    && (forall k :: 0 <= k < |active| ==> active[k] < |exons|)
    && (forall j :: 0 <= j < |exons| ==> (j in active <==> Open(exons, j) in ends[..i] && Close(exons, j) !in ends[..i]))
  }

  ghost predicate Sweepable(exons: seq<Exon>, ends: seq<Event>) {
    && SortedBy(ends, EventLe)
    && multiset(ends) == multiset(Events(exons))
    && forall j :: 0 <= j < |exons| ==> exons[j].start < exons[j].end
  }

  /** Sweeping an open event appends a fresh exon to the active list. */
  lemma StepOpen(exons: seq<Exon>, ends: seq<Event>, i: nat, active: seq<nat>)
    requires Sweepable(exons, ends) && i < |ends| && ends[i].kind == 1
    requires ActiveAfter(exons, ends, i, active)
    ensures ends[i].exon < |exons| && ends[i].exon !in active
    ensures ActiveAfter(exons, ends, i + 1, active + [ends[i].exon])
  {
    OpenFacts(exons, ends, i);
    var j := ends[i].exon;
    var active' := active + [j];
    forall a, b | 0 <= a < b < |active'| ensures active'[a] != active'[b] {
      if b == |active| { assert active'[a] == active[a]; assert active[a] in active; }
    }
    forall j' | 0 <= j' < |exons|
      ensures j' in active' <==> Open(exons, j') in ends[..i + 1] && Close(exons, j') !in ends[..i + 1]
    {
      assert Open(exons, j') in ends[..i + 1] <==> Open(exons, j') in ends[..i] || j' == j;
      assert Close(exons, j') in ends[..i + 1] <==> Close(exons, j') in ends[..i];
    }
  }

  /** An open event opens an exon whose close event comes after it. */
  lemma OpenFacts(exons: seq<Exon>, ends: seq<Event>, i: nat)
    requires Sweepable(exons, ends) && i < |ends| && ends[i].kind == 1
    ensures ends[i].exon < |exons| && ends[i] == Open(exons, ends[i].exon)
    ensures Close(exons, ends[i].exon) !in ends[..i + 1] && ends[i] !in ends[..i]
    ensures ends[..i + 1] == ends[..i] + [ends[i]]
  {
    SortedEventsFacts(exons, ends);
    EventsFacts(exons);
    var j := ends[i].exon;
    assert ends[i] in Events(exons);
    assert ends[i] == Open(exons, j);
    NotSweptYet(ends, i);
    PrefixBelow(ends, i);
    assert Close(exons, j).pos > ends[i].pos;
    assert ends[..i + 1] == ends[..i] + [ends[i]];
  }

  /** The active list after an event: an open event appends its exon, a
      close event removes the first occurrence of its exon. */
  function Sweep(active: seq<nat>, ev: Event): seq<nat>
    requires ev.kind == 1 || ev.exon in active
  {
    if ev.kind == 1 then active + [ev.exon] else RemoveFirst(active, ev.exon)
  }

  /** Sweeping one event keeps the active list the exons opened and not yet
      closed. */
  lemma StepEvent(exons: seq<Exon>, ends: seq<Event>, i: nat, active: seq<nat>)
    requires Sweepable(exons, ends) && i < |ends|
    requires ActiveAfter(exons, ends, i, active)
    ensures ends[i].kind == 1 || ends[i].exon in active
    ensures ActiveAfter(exons, ends, i + 1, Sweep(active, ends[i]))
  {
    if ends[i].kind == 1 {
      StepOpen(exons, ends, i, active);
    } else {
      StepClose(exons, ends, i, active);
    }
  }

  /** A close event closes an exon whose open event was swept before it. */
  lemma CloseFacts(exons: seq<Exon>, ends: seq<Event>, i: nat)
    requires Sweepable(exons, ends) && i < |ends| && ends[i].kind != 1
    ensures ends[i].exon < |exons| && ends[i] == Close(exons, ends[i].exon)
    ensures Open(exons, ends[i].exon) in ends[..i] && ends[i] !in ends[..i]
    ensures ends[..i + 1] == ends[..i] + [ends[i]]
  {
    SortedEventsFacts(exons, ends);
    EventsFacts(exons);
    var j := ends[i].exon;
    assert ends[i] in Events(exons);
    NotSweptYet(ends, i);
    SuffixAbove(ends, i);
    assert ends == ends[..i] + ends[i..];
    assert Open(exons, j) in ends;
    assert !EventLe(ends[i], Open(exons, j));
  }

  /** Sweeping a close event removes its exon, which is active. */
  lemma StepClose(exons: seq<Exon>, ends: seq<Event>, i: nat, active: seq<nat>)
    requires Sweepable(exons, ends) && i < |ends| && ends[i].kind != 1
    requires ActiveAfter(exons, ends, i, active)
    ensures ends[i].exon in active
    ensures ActiveAfter(exons, ends, i + 1, RemoveFirst(active, ends[i].exon))
  {
    CloseFacts(exons, ends, i);
    var j := ends[i].exon;
    assert j in active;
    RemoveFirstNoDup(active, j);
    var active' := RemoveFirst(active, j);
    forall k | 0 <= k < |active'| ensures active'[k] < |exons| {
      assert active'[k] in active;
    }
    forall j' | 0 <= j' < |exons|
      ensures j' in active' <==> Open(exons, j') in ends[..i + 1] && Close(exons, j') !in ends[..i + 1]
    {
      assert Open(exons, j') in ends[..i + 1] <==> Open(exons, j') in ends[..i];
      assert Close(exons, j') in ends[..i + 1] <==> Close(exons, j') in ends[..i] || j' == j;
    }
  }

  /** At a span `[p, q)` between distinct consecutive positions, an exon is
      active exactly when it covers a given position of the span. */
  lemma ActiveCoversOne(exons: seq<Exon>, ends: seq<Event>, i: nat, active: seq<nat>, x: int, j: nat)
    requires Sweepable(exons, ends) && i + 1 < |ends| && ends[i].pos <= x < ends[i + 1].pos
    requires ActiveAfter(exons, ends, i + 1, active)
    requires j < |exons|
    ensures j in active <==> exons[j].start <= x < exons[j].end
  {
    SortedEventsFacts(exons, ends);
    EventsFacts(exons);
    SweptIffBefore(ends, i, Open(exons, j), x);
    SweptIffBefore(ends, i, Close(exons, j), x);
  }

  /** At a span `[p, q)` between distinct consecutive positions, the active
      exons are exactly those covering any position of the span. */
  lemma ActiveIsCover(exons: seq<Exon>, ends: seq<Event>, i: nat, active: seq<nat>, x: int)
    requires Sweepable(exons, ends) && i + 1 < |ends| && ends[i].pos <= x < ends[i + 1].pos
    requires ActiveAfter(exons, ends, i + 1, active)
    ensures Elems(active) == Cov(exons, x)
  {
    forall j | j in active ensures j < |exons| {
      var k :| 0 <= k < |active| && active[k] == j;
    }
    forall j: nat | j < |exons| ensures j in active <==> j in Cov(exons, x) {
      ActiveCoversOne(exons, ends, i, active, x, j);
    }
  }

  /** The set of covering exons changes at every boundary coordinate. */
  lemma CoverChangesAtBoundary(exons: seq<Exon>, ev: Event)
    requires forall j :: 0 <= j < |exons| ==> exons[j].start < exons[j].end
    requires ev in Events(exons)
    ensures Cov(exons, ev.pos - 1) != Cov(exons, ev.pos)
  {
    EventsFacts(exons);
    var j := ev.exon;
    if ev.kind == 1 {
      assert j in Cov(exons, ev.pos) && j !in Cov(exons, ev.pos - 1);
    } else {
      assert j !in Cov(exons, ev.pos) && j in Cov(exons, ev.pos - 1);
    }
  }

  /** No exon covers a position at or after the last boundary. */
  lemma NothingAfterLast(exons: seq<Exon>, ends: seq<Event>, x: int)
    requires Sweepable(exons, ends) && |ends| > 0 && x >= ends[|ends| - 1].pos
    ensures !Covered(exons, x)
  {
    SortedEventsFacts(exons, ends);
    EventsFacts(exons);
    PrefixBelow(ends, |ends| - 1);
    assert ends[..|ends|] == ends;
    forall j | 0 <= j < |exons| ensures exons[j].end <= x {
      assert Close(exons, j) in ends;
    }
  }

  /** No exon covers a position before the first boundary. */
  lemma NothingBeforeFirst(exons: seq<Exon>, ends: seq<Event>, x: int)
    requires Sweepable(exons, ends) && |ends| > 0 && x < ends[0].pos
    ensures !Covered(exons, x)
  {
    SortedEventsFacts(exons, ends);
    EventsFacts(exons);
    SuffixAbove(ends, 0);
    assert ends[0..] == ends;
    forall j | 0 <= j < |exons| ensures exons[j].start > x {
      assert Open(exons, j) in ends;
    }
  }

  /** Every covered position below `y` lies in one of the pieces. */
  ghost predicate CoversBelow(exons: seq<Exon>, pieces: seq<Exon>, y: int) {
    forall x :: Covered(exons, x) && x < y ==> InPieces(pieces, x)
  }

  /** The pieces emitted by the sweep once it has reached position `y`. */
  ghost predicate PiecesBelow(exons: seq<Exon>, pieces: seq<Exon>, it: SetIteration, y: int) {
    && (forall k :: 0 <= k < |pieces| ==> IsPiece(exons, pieces[k], it))
    && (forall k, l :: 0 <= k < l < |pieces| ==> pieces[k].end <= pieces[l].start)
    && (forall k :: 0 <= k < |pieces| ==> pieces[k].end <= y)
    && CoversBelow(exons, pieces, y)
  }

  /** A span with nothing active, or an empty one, adds no covered position. */
  lemma SkipStep(exons: seq<Exon>, ends: seq<Event>, i: nat, active: seq<nat>, pieces: seq<Exon>, it: SetIteration)
    requires Sweepable(exons, ends) && i + 1 < |ends|
    requires ActiveAfter(exons, ends, i + 1, active)
    requires |active| == 0 || ends[i].pos == ends[i + 1].pos
    requires PiecesBelow(exons, pieces, it, ends[i].pos)
    ensures PiecesBelow(exons, pieces, it, ends[i + 1].pos)
  {
    assert EventLe(ends[i], ends[i + 1]);
    forall x | Covered(exons, x) && x < ends[i + 1].pos ensures InPieces(pieces, x) {
      if x >= ends[i].pos {
        var j :| 0 <= j < |exons| && exons[j].start <= x < exons[j].end;
        ActiveCoversOne(exons, ends, i, active, x, j);
      }
    }
  }

  /** The span `[p, q)` with a non-empty active list yields the piece for
      that span, unless the active exons lie on different chromosomes. */
  lemma PieceStep(exons: seq<Exon>, ends: seq<Event>, i: nat, active: seq<nat>, it: SetIteration)
    requires it.Valid() && Sweepable(exons, ends) && i + 1 < |ends|
    requires ActiveAfter(exons, ends, i + 1, active)
    requires |active| > 0 && ends[i].pos < ends[i + 1].pos
    ensures active[0] in Elems(active) && Elems(active) == Cov(exons, ends[i].pos)
    ensures CombineSet(exons, Cov(exons, ends[i].pos), it).Err? ==> !UniformChrom(exons, Cov(exons, ends[i].pos))
    ensures CombineSet(exons, Cov(exons, ends[i].pos), it).Ok? ==>
      IsPiece(exons, CombineSet(exons, Cov(exons, ends[i].pos), it).value.(start := ends[i].pos, end := ends[i + 1].pos), it)
  {
    var p, q := ends[i].pos, ends[i + 1].pos;
    ActiveIsCover(exons, ends, i, active, p);
    var s := Cov(exons, p);
    assert active[0] in Elems(active);
    CombineSetChrom(exons, s, it);
    forall x | p <= x < q ensures Cov(exons, x) == s {
      ActiveIsCover(exons, ends, i, active, x);
    }
    assert Cov(exons, q - 1) == s;
    SortedEventsFacts(exons, ends);
    CoverChangesAtBoundary(exons, ends[i]);
    CoverChangesAtBoundary(exons, ends[i + 1]);
  }

  /** Appending the piece for `[p, q)` extends the emitted pieces to `q`. */
  lemma AppendPiece(exons: seq<Exon>, pieces: seq<Exon>, piece: Exon, it: SetIteration)
    requires PiecesBelow(exons, pieces, it, piece.start)
    requires IsPiece(exons, piece, it)
    ensures PiecesBelow(exons, pieces + [piece], it, piece.end)
  {
    var pieces' := pieces + [piece];
    forall x | Covered(exons, x) && x < piece.end ensures InPieces(pieces', x) {
      if x < piece.start {
        var k :| 0 <= k < |pieces| && pieces[k].start <= x < pieces[k].end;
        assert pieces'[k] == pieces[k];
      } else {
        assert pieces'[|pieces|] == piece;
      }
    }
  }

  /** At a span with exons active, the combination of the active exons
      either fails on exons of different chromosomes, or is the next piece. */
  lemma EmitStep(exons: seq<Exon>, ends: seq<Event>, i: nat, active: seq<nat>, pieces: seq<Exon>, it: SetIteration)
    requires it.Valid() && Sweepable(exons, ends) && i + 1 < |ends|
    requires ActiveAfter(exons, ends, i + 1, active)
    requires |active| > 0 && ends[i].pos != ends[i + 1].pos
    requires PiecesBelow(exons, pieces, it, ends[i].pos)
    ensures active[0] in Elems(active)
    ensures CombineSet(exons, Elems(active), it).Err? ==> !ChromsAgree(exons)
    ensures CombineSet(exons, Elems(active), it).Ok? ==>
      PiecesBelow(exons, pieces + [CombineSet(exons, Elems(active), it).value.(start := ends[i].pos, end := ends[i + 1].pos)], it, ends[i + 1].pos)
  {
    assert EventLe(ends[i], ends[i + 1]);
    PieceStep(exons, ends, i, active, it);
    var c := CombineSet(exons, Elems(active), it);
    if c.Ok? {
      AppendPiece(exons, pieces, c.value.(start := ends[i].pos, end := ends[i + 1].pos), it);
    }
  }

  /** One event of the sweep: update the active list, then emit the piece
      for the span up to the next event, if exons are active over it. */
  method SweepEvent(exons: seq<Exon>, ends: seq<Event>, i: nat, active: seq<nat>, cobbled: seq<Exon>, it: SetIteration)
    returns (active': seq<nat>, r: Result<seq<Exon>>)
    requires it.Valid() && Sweepable(exons, ends) && i + 1 < |ends|
    requires ActiveAfter(exons, ends, i, active) && PiecesBelow(exons, cobbled, it, ends[i].pos)
    ensures ends[i].kind == 1 || ends[i].exon in active
    ensures active' == Sweep(active, ends[i]) && ActiveAfter(exons, ends, i + 1, active')
    ensures r.Err? ==> !ChromsAgree(exons)
    ensures r.Ok? ==> PiecesBelow(exons, r.value, it, ends[i + 1].pos)
    ensures r.Ok? ==> cobbled <= r.value && |r.value| <= |cobbled| + 1
  {
    var a, b := ends[i], ends[i + 1];
    StepEvent(exons, ends, i, active);
    active' := Sweep(active, a);
    if |active'| == 0 || a.pos == b.pos {
      SkipStep(exons, ends, i, active', cobbled, it);
      return active', Ok(cobbled);
    }
    EmitStep(exons, ends, i, active', cobbled, it);
    var e := IntersectExonsList(exons, active', false, it);
    if e.Err? {
      return active', Err(e.error);
    }
    r := Ok(cobbled + [e.value.(start := a.pos, end := b.pos)]);
  }

  /** `cobble(exons, multiple)`. `multiple` is ignored, as in the source:
      the combination always de-duplicates. The result is an error exactly
      when the exons active over some position lie on different chromosomes
      (the assertion in `__and__`). Every exon has positive length, as the
      caller guarantees; for a zero-length exon the source's `remove` would
      raise. */
  method Cobble(exons: seq<Exon>, multiple: bool, it: SetIteration) returns (r: Result<seq<Exon>>)
    requires it.Valid()
    requires forall j :: 0 <= j < |exons| ==> exons[j].start < exons[j].end
    ensures r.Ok? <==> ChromsAgree(exons)
    ensures r.Ok? ==> IsCobbling(exons, r.value, it)
  {
    EventLeIsTotalPreorder();
    var ends := SortBy(Events(exons), EventLe);
    var active: seq<nat> := [];
    var cobbled: seq<Exon> := [];
    var i := 0;
    if |ends| > 0 {
      SweepStart(exons, ends, it);
    }
    while i + 1 < |ends|
      invariant Sweepable(exons, ends)
      invariant i <= |ends| && (|ends| > 0 ==> i < |ends|)
      invariant ActiveAfter(exons, ends, i, active)
      invariant |ends| > 0 ==> PiecesBelow(exons, cobbled, it, ends[i].pos)
      invariant |ends| == 0 ==> cobbled == []
    {
      var step;
      active, step := SweepEvent(exons, ends, i, active, cobbled, it);
      if step.Err? {
        return Err(step.error);
      }
      cobbled := step.value;
      i := i + 1;
    }
    SweepEnd(exons, ends, i, cobbled, it);
    r := Ok(cobbled);
  }

  /** Before the first event nothing is covered, so no piece is missing. */
  lemma SweepStart(exons: seq<Exon>, ends: seq<Event>, it: SetIteration)
    requires Sweepable(exons, ends) && |ends| > 0
    ensures PiecesBelow(exons, [], it, ends[0].pos)
  {
    forall x | x < ends[0].pos ensures !Covered(exons, x) {
      NothingBeforeFirst(exons, ends, x);
    }
  }

  /** After the last event nothing is covered, so the pieces emitted are a
      cobbling, and the exons active together share a chromosome. */
  lemma SweepEnd(exons: seq<Exon>, ends: seq<Event>, i: nat, pieces: seq<Exon>, it: SetIteration)
    requires Sweepable(exons, ends) && i <= |ends| && !(i + 1 < |ends|)
    requires |ends| > 0 ==> i < |ends| && PiecesBelow(exons, pieces, it, ends[i].pos)
    requires |ends| == 0 ==> pieces == []
    ensures IsCobbling(exons, pieces, it)
    ensures ChromsAgree(exons)
  {
    if |ends| > 0 {
      forall x ensures Covered(exons, x) ==> InPieces(pieces, x) {
        if x >= ends[i].pos {
          NothingAfterLast(exons, ends, x);
        }
      }
    } else {
      assert |exons| == 0;
    }
    CobbledAreSound(exons, pieces, it);
    ChromsOfCobbling(exons, pieces, it);
  }

  lemma CobbledAreSound(exons: seq<Exon>, pieces: seq<Exon>, it: SetIteration)
    requires forall k :: 0 <= k < |pieces| ==> IsPiece(exons, pieces[k], it)
    ensures forall x :: InPieces(pieces, x) ==> Covered(exons, x)
  {
    forall x | InPieces(pieces, x) ensures Covered(exons, x) {
      var k :| 0 <= k < |pieces| && pieces[k].start <= x < pieces[k].end;
      var j :| j in Cov(exons, pieces[k].start);
      assert j in Cov(exons, x);
    }
  }

  /** Once every covered position lies in a piece, every set of exons
      active together shares one chromosome. */
  lemma ChromsOfCobbling(exons: seq<Exon>, pieces: seq<Exon>, it: SetIteration)
    requires forall k :: 0 <= k < |pieces| ==> IsPiece(exons, pieces[k], it)
    requires forall x :: Covered(exons, x) ==> InPieces(pieces, x)
    ensures ChromsAgree(exons)
  {
    forall x ensures UniformChrom(exons, Cov(exons, x)) {
      if Covered(exons, x) {
        var k :| 0 <= k < |pieces| && pieces[k].start <= x < pieces[k].end;
        var p := pieces[k];
        CombineSetChrom(exons, Cov(exons, p.start), it);
      } else {
        assert Cov(exons, x) == {};
      }
    }
  }
}

module CobblingFacts {
  import opened Common
  import opened Features
  import opened Cobbling

  /** The first piece starts at a covered position. */
  lemma FirstPieceCovered(exons: seq<Exon>, pieces: seq<Exon>, it: SetIteration)
    requires IsCobbling(exons, pieces, it)
    ensures |pieces| > 0 ==> Covered(exons, pieces[0].start)
  {
    if |pieces| > 0 {
      assert IsPiece(exons, pieces[0], it);
      assert InPieces(pieces, pieces[0].start);
    }
  }

  /** With no exons there is nothing to cover and no piece. */
  lemma CobblingOfNone(pieces: seq<Exon>, it: SetIteration)
    requires IsCobbling([], pieces, it)
    ensures pieces == []
  {
    FirstPieceCovered([], pieces, it);
  }

  /** A single exon is its own one piece. */
  lemma CobblingOfOne(e: Exon, pieces: seq<Exon>, it: SetIteration)
    requires e.start < e.end
    requires IsCobbling([e], pieces, it)
    ensures pieces == [e]
  {
    var exons := [e];
    var two := |pieces| > 1 && pieces[0].end <= pieces[1].start;
    assert |pieces| > 1 ==> two;
    forall x ensures Cov(exons, x) == if e.start <= x < e.end then {0} else {} {
    }
    forall l | 0 <= l < |pieces| ensures pieces[l].start == e.start && pieces[l].end == e.end {
      var q := pieces[l];
      assert IsPiece(exons, q, it);
      assert Cov(exons, q.end - 1) == Cov(exons, q.start);
    }
    assert Covered(exons, e.start);
    assert |pieces| == 1;
    CombineSetSingle(exons, 0, it);
  }

  /** What a piece carries, read at any position `x` of its span: a
      transcript is on it exactly when some exon covering `x` carries it;
      its multiplicity is the sum over the covering exons; it lies on their
      chromosome; a piece of several exons has zero length and score, and
      a piece of one exon is that exon with its coordinates clamped, keeping
      its own length. */
  lemma PieceContents(exons: seq<Exon>, p: Exon, it: SetIteration, x: int)
    requires IsPiece(exons, p, it) && p.start <= x < p.end
    ensures forall t :: t in p.transcripts <==> exists j :: j in Cov(exons, x) && t in exons[j].transcripts
    ensures p.multiplicity == SetMultiplicity(exons, Cov(exons, x))
    ensures forall j :: j in Cov(exons, x) ==> p.chrom == exons[j].chrom
    ensures |Cov(exons, x)| > 1 ==> p.length == 0 && p.score == 0.0 && NoDup(p.transcripts)
    ensures forall j :: Cov(exons, x) == {j} ==> p == exons[j].(start := p.start, end := p.end)
  {
    var s := Cov(exons, x);
    assert s == Cov(exons, p.start);
    CombineSetTranscripts(exons, s, it);
    CombineSetMultiplicity(exons, s, it);
    CombineSetChrom(exons, s, it);
    if |s| > 1 {
      CombineSetFresh(exons, s, it);
    }
    forall j | s == {j} ensures p == exons[j].(start := p.start, end := p.end) {
      CombineSetSingle(exons, j, it);
    }
  }
}
