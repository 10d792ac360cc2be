/** The regrouping and transcript-collapsing blocks of `process_chunk`
    (draft.py:175-181, 200-218): merge consecutive annotation rows of the
    same exon, then replace every transcript by the first transcript, in
    dictionary order, that is built of the same long pieces. */
module Collapse {
  import opened Common
  import opened Sorting
  import opened Features

  /* ----- Regrouping (draft.py:175-181) ----- */

  /** Every row that is merged into an earlier row of the same exon has a
      transcript to hand over (`g.transcripts[0]`). */
  ghost predicate MergeableRows(ck: seq<Exon>) {
    forall k :: 0 < k < |ck| && ck[k].id == ck[k - 1].id ==> |ck[k].transcripts| > 0
  }

  /** `itertools.groupby` on the id: each run of consecutive rows with one id
      becomes its first row, extended with the first transcript of every
      later row of the run. */
  function Regrouped(ck: seq<Exon>): (r: seq<Exon>)
    requires MergeableRows(ck)
    ensures |r| <= |ck|
    ensures ck != [] ==> r != [] && r[|r| - 1].id == ck[|ck| - 1].id
  {
    if ck == [] then []
    else
      var init, x := ck[..|ck| - 1], ck[|ck| - 1];
      assert MergeableRows(init);
      var r := Regrouped(init);
      if r != [] && r[|r| - 1].id == x.id then
        var last := r[|r| - 1];
        r[..|r| - 1] + [last.(transcripts := last.transcripts + [x.transcripts[0]])]
      else
        r + [x]
  }

  method Regroup(ckexons: seq<Exon>) returns (exons: seq<Exon>)
    requires MergeableRows(ckexons)
    ensures exons == Regrouped(ckexons)
  {
    exons := [];
    for i := 0 to |ckexons|
      invariant MergeableRows(ckexons[..i])
      invariant exons == Regrouped(ckexons[..i])
    {
      assert ckexons[..i + 1][..i] == ckexons[..i];
      assert MergeableRows(ckexons[..i + 1]);
      var x := ckexons[i];
      if exons != [] && exons[|exons| - 1].id == x.id {
        var exon0 := exons[|exons| - 1];
        exons := exons[..|exons| - 1] + [exon0.(transcripts := exon0.transcripts + [x.transcripts[0]])];
      } else {
        exons := exons + [x];
      }
    }
    assert ckexons[..|ckexons|] == ckexons;
  }

  /** All transcripts of a list of exons, in order. */
  function AllTranscripts(xs: seq<Exon>): seq<string> {
    if xs == [] then [] else AllTranscripts(xs[..|xs| - 1]) + xs[|xs| - 1].transcripts
  }

  /** The first transcript of every row, in order. */
  function FirstTranscripts(ck: seq<Exon>): seq<string>
    requires forall k :: 0 <= k < |ck| ==> |ck[k].transcripts| > 0
  {
    if ck == [] then [] else FirstTranscripts(ck[..|ck| - 1]) + [ck[|ck| - 1].transcripts[0]]
  }

  /** Regrouping neither loses nor invents a transcript: on rows that each
      name one transcript, as parsed rows do, the regrouped exons carry the
      rows' transcripts in row order. */
  lemma {:induction false} RegroupKeepsTranscripts(ck: seq<Exon>)
    requires forall k :: 0 <= k < |ck| ==> |ck[k].transcripts| == 1
    ensures AllTranscripts(Regrouped(ck)) == FirstTranscripts(ck)
  {
    if ck != [] {
      var init, x := ck[..|ck| - 1], ck[|ck| - 1];
      RegroupKeepsTranscripts(init);
      var r := Regrouped(init);
      assert x.transcripts == [x.transcripts[0]];
      if r != [] && r[|r| - 1].id == x.id {
        var last := r[|r| - 1];
        var r' := r[..|r| - 1] + [last.(transcripts := last.transcripts + [x.transcripts[0]])];
        assert r'[..|r'| - 1] == r[..|r| - 1];
        assert r == r[..|r| - 1] + [last];
      } else {
        assert (r + [x])[..|r|] == r;
      }
    }
  }

  /** `a` is `b` with, at most, another transcript list. */
  predicate SameRow(a: Exon, b: Exon) {
    a == b.(transcripts := a.transcripts)
  }

  /** Regrouping changes nothing but transcript lists: every regrouped exon
      is one of the rows with its transcript list replaced. */
  lemma {:induction false} RegroupKeepsRows(ck: seq<Exon>)
    requires MergeableRows(ck)
    ensures forall i :: 0 <= i < |Regrouped(ck)| ==> exists j :: 0 <= j < |ck| && SameRow(Regrouped(ck)[i], ck[j])
  {
    if ck != [] {
      var init, x := ck[..|ck| - 1], ck[|ck| - 1];
      assert MergeableRows(init);
      RegroupKeepsRows(init);
      var r, r' := Regrouped(init), Regrouped(ck);
      var merged := r != [] && r[|r| - 1].id == x.id;
      assert merged ==> |r'| == |r| && forall i :: 0 <= i < |r| ==> SameRow(r'[i], r[i]);
      assert !merged ==> r' == r + [x];
      forall i | 0 <= i < |r'| ensures exists j :: 0 <= j < |ck| && SameRow(r'[i], ck[j]) {
        if i < |r| {
          var j :| 0 <= j < |init| && SameRow(r[i], init[j]);
          assert ck[j] == init[j];
          assert SameRow(r'[i], r[i]);
          assert SameRow(r'[i], ck[j]);
        } else {
          assert SameRow(r'[i], ck[|ck| - 1]);
        }
      }
      assert forall i :: 0 <= i < |Regrouped(ck)| ==> exists j :: 0 <= j < |ck| && SameRow(Regrouped(ck)[i], ck[j]);
    } else {
      assert Regrouped(ck) == [];
    }
  }

  /** After regrouping, neighbouring exons have different ids. */
  lemma {:induction false} RegroupSeparatesIds(ck: seq<Exon>)
    requires MergeableRows(ck)
    ensures forall k :: 0 < k < |Regrouped(ck)| ==> Regrouped(ck)[k - 1].id != Regrouped(ck)[k].id
  {
    if ck != [] {
      var init, x := ck[..|ck| - 1], ck[|ck| - 1];
      assert MergeableRows(init);
      RegroupSeparatesIds(init);
    }
  }

  function Ids(xs: seq<Exon>): (ids: seq<string>)
    ensures |ids| == |xs| && forall k :: 0 <= k < |xs| ==> ids[k] == xs[k].id
  {
    seq(|xs|, k requires 0 <= k < |xs| => xs[k].id)
  }

  /** The sequence with every element equal to its predecessor dropped. */
  function RunHeads(ids: seq<string>): seq<string> {
    if ids == [] then []
    else
      var init, x := ids[..|ids| - 1], ids[|ids| - 1];
      if init != [] && init[|init| - 1] == x then RunHeads(init) else RunHeads(init) + [x]
  }

  /** Whether the last row of `ck` is merged into the exon before it. */
  predicate MergesLast(ck: seq<Exon>)
    requires ck != [] && MergeableRows(ck)
  {
    assert MergeableRows(ck[..|ck| - 1]);
    var r := Regrouped(ck[..|ck| - 1]);
    r != [] && r[|r| - 1].id == ck[|ck| - 1].id
  }

  lemma RegroupedIdsStep(ck: seq<Exon>)
    requires ck != [] && MergeableRows(ck)
    ensures MergeableRows(ck[..|ck| - 1])
    ensures Ids(Regrouped(ck)) == if MergesLast(ck) then Ids(Regrouped(ck[..|ck| - 1]))
                                  else Ids(Regrouped(ck[..|ck| - 1])) + [ck[|ck| - 1].id]
  {
    var init, x := ck[..|ck| - 1], ck[|ck| - 1];
    assert MergeableRows(init);
    var r := Regrouped(init);
    if MergesLast(ck) {
      var last := r[|r| - 1];
      var e := last.(transcripts := last.transcripts + [x.transcripts[0]]);
      assert Regrouped(ck) == r[..|r| - 1] + [e];
      IdsReplaceLast(r, e);
    } else {
      assert Regrouped(ck) == r + [x];
      IdsSnoc(r, x);
    }
  }

  lemma IdsSnoc(r: seq<Exon>, x: Exon)
    ensures Ids(r + [x]) == Ids(r) + [x.id]
  {
    assert |Ids(r + [x])| == |Ids(r) + [x.id]|;
    forall k | 0 <= k < |r| + 1 ensures Ids(r + [x])[k] == (Ids(r) + [x.id])[k] {
      if k < |r| {
        assert (r + [x])[k] == r[k];
      }
    }
  }

  lemma IdsReplaceLast(r: seq<Exon>, e: Exon)
    requires r != [] && e.id == r[|r| - 1].id
    ensures Ids(r[..|r| - 1] + [e]) == Ids(r)
  {
    var r' := r[..|r| - 1] + [e];
    assert |Ids(r')| == |Ids(r)|;
    forall k | 0 <= k < |r| ensures Ids(r')[k] == Ids(r)[k] {
      if k < |r| - 1 {
        assert r'[k] == r[k];
      }
    }
  }

  lemma RunHeadsStep(ck: seq<Exon>)
    requires ck != [] && MergeableRows(ck)
    ensures MergeableRows(ck[..|ck| - 1])
    ensures RunHeads(Ids(ck)) == if MergesLast(ck) then RunHeads(Ids(ck[..|ck| - 1]))
                                 else RunHeads(Ids(ck[..|ck| - 1])) + [ck[|ck| - 1].id]
  {
    var init := ck[..|ck| - 1];
    assert MergeableRows(init);
    var ids := Ids(ck);
    assert ids[..|ids| - 1] == Ids(init);
  }

  /** Regrouping keeps one exon per run of rows with the same id, in order. */
  lemma {:induction false} RegroupIdsAreRunHeads(ck: seq<Exon>)
    requires MergeableRows(ck)
    ensures Ids(Regrouped(ck)) == RunHeads(Ids(ck))
  {
    if ck != [] {
      RegroupedIdsStep(ck);
      RunHeadsStep(ck);
      RegroupIdsAreRunHeads(ck[..|ck| - 1]);
    }
  }




  /* ----- Transcript structures (draft.py:200-205) ----- */

  /** Pieces shorter than a read are left out of the comparison. */
  const ReadLength := 100

  /** The ids of the long pieces carrying transcript `t`, in piece order, once
      per listing of `t` on the piece: the list `t2e[t]`. */
  function Signature(pieces: seq<Exon>, t: string): seq<string> {
    if pieces == [] then []
    else
      var p := pieces[|pieces| - 1];
      Signature(pieces[..|pieces| - 1], t) + (if p.length < ReadLength then [] else Repeat(p.id, Count(p.transcripts, t)))
  }

  /** Every transcript named on some piece. */
  function PieceTranscripts(pieces: seq<Exon>): set<string> {
    set k, t | 0 <= k < |pieces| && t in pieces[k].transcripts :: t
  }

  /** The dictionary `t2e`: every transcript on a long piece, with its
      signature. */
  function T2E(pieces: seq<Exon>): map<string, seq<string>> {
    map t | t in PieceTranscripts(pieces) && Signature(pieces, t) != [] :: Signature(pieces, t)
  }

  lemma {:induction false} CountPositive<T>(xs: seq<T>, x: T)
    ensures Count(xs, x) > 0 <==> x in xs
  {
    CountMultiset(xs, x);
  }

  /** A transcript has a non-empty signature exactly when it lies on a long
      piece; a piece id occurs in it exactly when that piece is long and
      carries the transcript. */
  lemma {:induction false} SignatureMembers(pieces: seq<Exon>, t: string)
    ensures Signature(pieces, t) != [] <==> exists k :: 0 <= k < |pieces| && pieces[k].length >= ReadLength && t in pieces[k].transcripts
    ensures forall id :: id in Signature(pieces, t) <==>
      exists k :: 0 <= k < |pieces| && pieces[k].length >= ReadLength && t in pieces[k].transcripts && pieces[k].id == id
  {
    if pieces != [] {
      var init, p := pieces[..|pieces| - 1], pieces[|pieces| - 1];
      SignatureMembers(init, t);
      CountPositive(p.transcripts, t);
      var extra := if p.length < ReadLength then [] else Repeat(p.id, Count(p.transcripts, t));
      assert forall id :: id in extra <==> p.length >= ReadLength && t in p.transcripts && p.id == id;
      assert forall k :: 0 <= k < |init| ==> init[k] == pieces[k];
      if p.length >= ReadLength && t in p.transcripts {
        assert extra[0] == p.id;
      }
    }
  }

  lemma CountSnoc<T>(xs: seq<T>, x: T, u: T)
    ensures Count(xs + [x], u) == Count(xs, u) + (if x == u then 1 else 0)
  {
    assert (xs + [x])[..|xs|] == xs;
  }

  /** `t2e` extended by `v` after every listed `t` in `ts`. */
  ghost predicate Appended(t2e: map<string, seq<string>>, old_t2e: map<string, seq<string>>, v: string, ts: seq<string>) {
    && (forall t :: t in t2e <==> t in old_t2e || t in ts)
    && (forall t :: t in t2e ==> t2e[t] == (if t in old_t2e then old_t2e[t] else []) + Repeat(v, Count(ts, t)))
  }

  lemma AppendStep(t2e0: map<string, seq<string>>, prev: map<string, seq<string>>, v: string, ts: seq<string>, j: nat)
    requires j < |ts| && Appended(prev, t2e0, v, ts[..j])
    ensures Appended(prev[ts[j] := (if ts[j] in prev then prev[ts[j]] else []) + [v]], t2e0, v, ts[..j + 1])
  {
    var t := ts[j];
    var t2e := prev[t := (if t in prev then prev[t] else []) + [v]];
    AppendStepKeys(t2e0, prev, v, ts, j);
    forall u | u in t2e ensures t2e[u] == (if u in t2e0 then t2e0[u] else []) + Repeat(v, Count(ts[..j + 1], u)) {
      AppendStepAt(t2e0, prev, v, ts, j, u);
    }
  }

  lemma AppendStepKeys(t2e0: map<string, seq<string>>, prev: map<string, seq<string>>, v: string, ts: seq<string>, j: nat)
    requires j < |ts| && Appended(prev, t2e0, v, ts[..j])
    ensures forall u :: u in prev[ts[j] := (if ts[j] in prev then prev[ts[j]] else []) + [v]] <==> u in t2e0 || u in ts[..j + 1]
  {
    assert ts[..j + 1] == ts[..j] + [ts[j]];
  }

  lemma AppendStepAt(t2e0: map<string, seq<string>>, prev: map<string, seq<string>>, v: string, ts: seq<string>, j: nat, u: string)
    requires j < |ts| && Appended(prev, t2e0, v, ts[..j])
    requires u in prev || u == ts[j]
    ensures prev[ts[j] := (if ts[j] in prev then prev[ts[j]] else []) + [v]][u]
      == (if u in t2e0 then t2e0[u] else []) + Repeat(v, Count(ts[..j + 1], u))
  {
    var t := ts[j];
    assert ts[..j + 1] == ts[..j] + [t];
    CountSnoc(ts[..j], t, u);
    if u == t {
      CountPositive(ts[..j], u);
      var n := Count(ts[..j], t);
      assert Repeat(v, n + 1) == Repeat(v, n) + [v];
    }
  }

  /** The inner loop `for t in p.transcripts: t2e.setdefault(t, []).append(p.id)`. */
  method AppendToAll(t2e0: map<string, seq<string>>, v: string, ts: seq<string>) returns (t2e: map<string, seq<string>>)
    ensures Appended(t2e, t2e0, v, ts)
  {
    t2e := t2e0;
    for j := 0 to |ts|
      invariant Appended(t2e, t2e0, v, ts[..j])
    {
      AppendStep(t2e0, t2e, v, ts, j);
      var t := ts[j];
      t2e := t2e[t := (if t in t2e then t2e[t] else []) + [v]];
    }
    assert ts[..|ts|] == ts;
  }

  /** Building `t2e` (draft.py:201-205). */
  method BuildT2E(pieces: seq<Exon>) returns (t2e: map<string, seq<string>>)
    ensures t2e == T2E(pieces)
  {
    t2e := map[];
    for i := 0 to |pieces|
      invariant forall t :: t in t2e <==> Signature(pieces[..i], t) != []
      invariant forall t :: t in t2e ==> t2e[t] == Signature(pieces[..i], t)
    {
      var p := pieces[i];
      assert pieces[..i + 1][..i] == pieces[..i];
      if p.length < ReadLength {
        continue;
      }
      ghost var before := t2e;
      t2e := AppendToAll(t2e, p.id, p.transcripts);
      forall t ensures Count(p.transcripts, t) > 0 <==> t in p.transcripts {
        CountPositive(p.transcripts, t);
      }
    }
    assert pieces[..|pieces|] == pieces;
    forall t ensures t in t2e <==> t in T2E(pieces) {
      SignatureMembers(pieces, t);
    }
  }

  /* ----- Grouping by structure (draft.py:206-209) ----- */

  /** `tuple(sorted(e))`: the signature in string order, so that two
      transcripts made of the same pieces get the same key. */
  function Key(sig: seq<string>): seq<string> {
    StrLeIsTotalOrder();
    SortBy(sig, StrLe)
  }

  lemma KeyEqualIff(a: seq<string>, b: seq<string>)
    ensures Key(a) == Key(b) <==> multiset(a) == multiset(b)
  {
    StrLeIsTotalOrder();
    SortByEqualIff(a, b, StrLe);
  }

  /** The transcripts of `order` whose signature has key `k`, in order. */
  function Members(t2e: map<string, seq<string>>, order: seq<string>, k: seq<string>): seq<string>
    requires forall t :: t in order ==> t in t2e
  {
    if order == [] then []
    else
      var t := order[|order| - 1];
      Members(t2e, order[..|order| - 1], k) + (if Key(t2e[t]) == k then [t] else [])
  }

  /** `e2t`, filled by iterating `t2e` in `order`. */
  function E2T(t2e: map<string, seq<string>>, order: seq<string>): map<seq<string>, seq<string>>
    requires forall t :: t in order ==> t in t2e
  {
    if order == [] then map[]
    else
      var m := E2T(t2e, order[..|order| - 1]);
      var t := order[|order| - 1];
      var k := Key(t2e[t]);
      m[k := (if k in m then m[k] else []) + [t]]
  }

  method BuildE2T(t2e: map<string, seq<string>>, it: SetIteration) returns (e2t: map<seq<string>, seq<string>>)
    requires it.Valid()
    ensures e2t == E2T(t2e, it.strings(t2e.Keys))
  {
    var order := it.strings(t2e.Keys);
    StringListing(it, t2e.Keys);
    e2t := map[];
    for i := 0 to |order|
      invariant forall t :: t in order[..i] ==> t in t2e
      invariant e2t == E2T(t2e, order[..i])
    {
      E2TSnoc(t2e, order, i);
      var t := order[i];
      var es := Key(t2e[t]);
      e2t := e2t[es := (if es in e2t then e2t[es] else []) + [t]];
    }
    assert order[..|order|] == order;
  }

  lemma E2TSnoc(t2e: map<string, seq<string>>, order: seq<string>, i: nat)
    requires i < |order| && forall t :: t in order ==> t in t2e
    ensures forall t :: t in order[..i + 1] ==> t in t2e
    ensures order[i] in t2e
    ensures var m, k := E2T(t2e, order[..i]), Key(t2e[order[i]]);
      E2T(t2e, order[..i + 1]) == m[k := (if k in m then m[k] else []) + [order[i]]]
  {
    assert order[..i + 1][..i] == order[..i];
  }

  /** A group lists, in iteration order, exactly the transcripts with its key. */
  lemma {:induction false} E2TIsGrouping(t2e: map<string, seq<string>>, order: seq<string>)
    requires forall t :: t in order ==> t in t2e
    ensures forall k :: k in E2T(t2e, order) <==> Members(t2e, order, k) != []
    ensures forall k :: k in E2T(t2e, order) ==> E2T(t2e, order)[k] == Members(t2e, order, k)
  {
    if order != [] {
      E2TIsGrouping(t2e, order[..|order| - 1]);
    }
  }

  lemma {:induction false} MembersFacts(t2e: map<string, seq<string>>, order: seq<string>, k: seq<string>)
    requires forall t :: t in order ==> t in t2e
    requires NoDup(order)
    ensures NoDup(Members(t2e, order, k))
    ensures forall t :: t in Members(t2e, order, k) <==> t in order && Key(t2e[t]) == k
  {
    if order != [] {
      var init, t := order[..|order| - 1], order[|order| - 1];
      assert order == init + [t];
      assert NoDup(init) by {
        assert forall i :: 0 <= i < |init| ==> init[i] == order[i];
      }
      MembersFacts(t2e, init, k);
      assert t !in init by {
        assert forall i :: 0 <= i < |init| ==> order[i] != order[|order| - 1];
      }
      var m := Members(t2e, init, k);
      if Key(t2e[t]) == k {
        NoDupSnoc(m, t);
      } else {
        assert Members(t2e, order, k) == m;
      }
    }
  }

  lemma NoDupSnoc(m: seq<string>, t: string)
    requires NoDup(m) && t !in m
    ensures NoDup(m + [t])
  {
    var r := m + [t];
    forall i, j | 0 <= i < j < |r| ensures r[i] != r[j] {
      if j == |m| {
        assert r[i] == m[i];
      } else {
        assert r[i] == m[i] && r[j] == m[j];
      }
    }
  }

  /** Two positions of the groups hold the same transcript only if they are
      the same position. */
  ghost predicate GroupsDisjoint(e2t: map<seq<string>, seq<string>>) {
    forall k1, k2, i, j :: k1 in e2t && k2 in e2t && 0 <= i < |e2t[k1]| && 0 <= j < |e2t[k2]| && e2t[k1][i] == e2t[k2][j] ==> k1 == k2 && i == j
  }

  /** Later members of a group never reappear elsewhere, so `tx_replace` has
      one value per key. */
  ghost predicate TailsDisjoint(e2t: map<seq<string>, seq<string>>) {
    forall k1, k2, i, j :: k1 in e2t && k2 in e2t && 1 <= i < |e2t[k1]| && 1 <= j < |e2t[k2]| && e2t[k1][i] == e2t[k2][j] ==> k1 == k2 && i == j
  }

  /* ----- Replacement (draft.py:211-218) ----- */

  /** `tx_replace`: every later member of a group maps to the group's first. */
  function TxReplace(e2t: map<seq<string>, seq<string>>): map<string, string>
    requires TailsDisjoint(e2t)
  {
    map k, i | k in e2t && 1 <= i < |e2t[k]| :: e2t[k][i] := e2t[k][0]
  }

  /** `tx_replace` has as keys exactly the later members of the groups... */
  lemma TxReplaceKeys(e2t: map<seq<string>, seq<string>>)
    requires TailsDisjoint(e2t)
    ensures forall u :: u in TxReplace(e2t) <==> exists k, i :: k in e2t && 1 <= i < |e2t[k]| && e2t[k][i] == u
  {
  }

  /** ... and maps each of them to the first member of its group. */
  lemma TxReplaceValue(e2t: map<seq<string>, seq<string>>, k: seq<string>, i: int)
    requires TailsDisjoint(e2t)
    requires k in e2t && 1 <= i < |e2t[k]|
    ensures e2t[k][i] in TxReplace(e2t) && TxReplace(e2t)[e2t[k][i]] == e2t[k][0]
  {
  }

  /** `tx_replace.get(t, t)` */
  function Apply(rep: map<string, string>, t: string): string {
    if t in rep then rep[t] else t
  }

  /** The groups of a chunk's pieces, in the dictionary order `it`. */
  function Groups(pieces: seq<Exon>, it: SetIteration): map<seq<string>, seq<string>>
    requires it.Valid()
  {
    var t2e := T2E(pieces);
    E2T(t2e, it.strings(t2e.Keys))
  }

  lemma GroupsFacts(pieces: seq<Exon>, it: SetIteration)
    requires it.Valid()
    ensures GroupsDisjoint(Groups(pieces, it)) && TailsDisjoint(Groups(pieces, it))
    ensures forall k :: k in Groups(pieces, it) ==> |Groups(pieces, it)[k]| > 0
    ensures forall k, i :: k in Groups(pieces, it) && 0 <= i < |Groups(pieces, it)[k]| ==>
      Groups(pieces, it)[k][i] in T2E(pieces) && Key(T2E(pieces)[Groups(pieces, it)[k][i]]) == k
    ensures forall t :: t in T2E(pieces) ==> Key(T2E(pieces)[t]) in Groups(pieces, it) && t in Groups(pieces, it)[Key(T2E(pieces)[t])]
  {
    var t2e := T2E(pieces);
    var order := it.strings(t2e.Keys);
    var e2t := Groups(pieces, it);
    E2TIsGrouping(t2e, order);
    forall k ensures NoDup(Members(t2e, order, k)) && forall t :: t in Members(t2e, order, k) <==> t in order && Key(t2e[t]) == k {
      MembersFacts(t2e, order, k);
    }
    forall k, i | k in e2t && 0 <= i < |e2t[k]| ensures e2t[k][i] in t2e && Key(t2e[e2t[k][i]]) == k {
      assert e2t[k][i] in Members(t2e, order, k);
    }
    forall t | t in t2e ensures Key(t2e[t]) in e2t && t in e2t[Key(t2e[t])] {
      assert t in Members(t2e, order, Key(t2e[t]));
    }
  }

  /** The replacement of a chunk's transcripts. */
  function Replacement(pieces: seq<Exon>, it: SetIteration): map<string, string>
    requires it.Valid()
  {
    GroupsFacts(pieces, it);
    TxReplace(Groups(pieces, it))
  }

  /** With disjoint groups, `tx_replace.get(t, t)` sends every member of a
      group to the group's first member. */
  lemma HeadOfGroup(e2t: map<seq<string>, seq<string>>, k: seq<string>, i: int)
    requires GroupsDisjoint(e2t) && TailsDisjoint(e2t)
    requires k in e2t && 0 <= i < |e2t[k]|
    ensures Apply(TxReplace(e2t), e2t[k][i]) == e2t[k][0]
  {
    TxReplaceKeys(e2t);
    if i >= 1 {
      TxReplaceValue(e2t, k, i);
    }
  }

  /** Every transcript on a long piece is replaced by the first member of its
      group; every other transcript is left alone. */
  lemma ReplacementIsHead(pieces: seq<Exon>, it: SetIteration, t: string)
    requires it.Valid()
    ensures t in T2E(pieces) ==>
      var k := Key(T2E(pieces)[t]);
      k in Groups(pieces, it) && |Groups(pieces, it)[k]| > 0 && Apply(Replacement(pieces, it), t) == Groups(pieces, it)[k][0]
    ensures t !in T2E(pieces) ==> t !in Replacement(pieces, it)
  {
    GroupsFacts(pieces, it);
    var t2e := T2E(pieces);
    var e2t := Groups(pieces, it);
    if t in t2e {
      var k := Key(t2e[t]);
      var i :| 0 <= i < |e2t[k]| && e2t[k][i] == t;
      HeadOfGroup(e2t, k, i);
    } else {
      TxReplaceKeys(e2t);
      forall k, i | k in e2t && 1 <= i < |e2t[k]| ensures e2t[k][i] != t {
      }
    }
  }

  /** No transcript is both replaced and a replacement: heads are never
      replaced. */
  lemma ReplacementHasNoChains(pieces: seq<Exon>, it: SetIteration)
    requires it.Valid()
    ensures forall t :: t in Replacement(pieces, it) ==> Replacement(pieces, it)[t] !in Replacement(pieces, it)
  {
    GroupsFacts(pieces, it);
  }

  /** So one pass of replacement reaches its fixed point. */
  lemma ReplacementIdempotent(pieces: seq<Exon>, it: SetIteration, t: string)
    requires it.Valid()
    ensures Apply(Replacement(pieces, it), Apply(Replacement(pieces, it), t)) == Apply(Replacement(pieces, it), t)
  {
    ReplacementHasNoChains(pieces, it);
  }

  /** Two transcripts on long pieces end up as the same transcript exactly
      when they are made of the same long pieces, counted with repetition. */
  lemma SameHeadIffSameStructure(pieces: seq<Exon>, it: SetIteration, t1: string, t2: string)
    requires it.Valid()
    requires t1 in T2E(pieces) && t2 in T2E(pieces)
    ensures Apply(Replacement(pieces, it), t1) == Apply(Replacement(pieces, it), t2) <==>
            multiset(Signature(pieces, t1)) == multiset(Signature(pieces, t2))
  {
    GroupsFacts(pieces, it);
    ReplacementIsHead(pieces, it, t1);
    ReplacementIsHead(pieces, it, t2);
    KeyEqualIff(Signature(pieces, t1), Signature(pieces, t2));
  }

  /** The replacement of a transcript is made of the same long pieces. */
  lemma ReplacementKeepsStructure(pieces: seq<Exon>, it: SetIteration, t: string)
    requires it.Valid()
    requires t in T2E(pieces)
    ensures Apply(Replacement(pieces, it), t) in T2E(pieces)
    ensures multiset(Signature(pieces, Apply(Replacement(pieces, it), t))) == multiset(Signature(pieces, t))
  {
    GroupsFacts(pieces, it);
    ReplacementIsHead(pieces, it, t);
    var u := Apply(Replacement(pieces, it), t);
    KeyEqualIff(Signature(pieces, u), Signature(pieces, t));
  }

  /* ----- Rewriting the pieces (draft.py:214-218) ----- */

  /** `set([tx_replace.get(t, t) for t in ts])` */
  function Filtered(rep: map<string, string>, ts: seq<string>): (s: set<string>)
    ensures forall u :: u in s <==> exists t :: t in ts && Apply(rep, t) == u
  {
    set t | t in ts :: Apply(rep, t)
  }

  /** The running union `transcripts |= filtered`. */
  function RewrittenUnion(rep: map<string, string>, pieces: seq<Exon>): set<string> {
    if pieces == [] then {}
    else RewrittenUnion(rep, pieces[..|pieces| - 1]) + Filtered(rep, pieces[|pieces| - 1].transcripts)
  }

  method Rewrite(pieces: seq<Exon>, rep: map<string, string>, it: SetIteration) returns (out: seq<Exon>, transcripts: seq<string>)
    requires it.Valid()
    ensures |out| == |pieces|
    ensures forall k :: 0 <= k < |pieces| ==> out[k] == pieces[k].(transcripts := it.strings(Filtered(rep, pieces[k].transcripts)))
    ensures transcripts == it.strings(RewrittenUnion(rep, pieces))
  {
    var all: set<string> := {};
    out := [];
    for i := 0 to |pieces|
      invariant |out| == i
      invariant forall k :: 0 <= k < i ==> out[k] == pieces[k].(transcripts := it.strings(Filtered(rep, pieces[k].transcripts)))
      invariant all == RewrittenUnion(rep, pieces[..i])
    {
      var p := pieces[i];
      var filtered := Filtered(rep, p.transcripts);
      all := all + filtered;
      out := out + [p.(transcripts := it.strings(filtered))];
      assert pieces[..i + 1][..i] == pieces[..i];
    }
    assert pieces[..|pieces|] == pieces;
    transcripts := it.strings(all);
  }

  lemma {:induction false} RewrittenUnionMembers(rep: map<string, string>, pieces: seq<Exon>)
    ensures forall u :: u in RewrittenUnion(rep, pieces) <==>
      exists k :: 0 <= k < |pieces| && u in Filtered(rep, pieces[k].transcripts)
  {
    if pieces != [] {
      var init := pieces[..|pieces| - 1];
      RewrittenUnionMembers(rep, init);
      assert forall k :: 0 <= k < |init| ==> init[k] == pieces[k];
    }
  }

  /** The collapsing block as a whole: the pieces get their replaced,
      de-duplicated transcripts, and `transcripts` lists their union. */
  method CollapseTranscripts(pieces: seq<Exon>, it: SetIteration) returns (out: seq<Exon>, transcripts: seq<string>)
    requires it.Valid()
    ensures |out| == |pieces|
    ensures forall k :: 0 <= k < |pieces| ==>
      out[k] == pieces[k].(transcripts := it.strings(Filtered(Replacement(pieces, it), pieces[k].transcripts)))
    ensures transcripts == it.strings(RewrittenUnion(Replacement(pieces, it), pieces))
  {
    var t2e := BuildT2E(pieces);
    var e2t := BuildE2T(t2e, it);
    GroupsFacts(pieces, it);
    var txReplace := TxReplace(e2t);
    out, transcripts := Rewrite(pieces, txReplace, it);
  }

  /** After rewriting with a replacement whose values are never keys, no
      piece lists a transcript twice, the chunk's list holds each transcript
      of the pieces once, and none of them is replaced again. */
  lemma RewrittenFacts(pieces: seq<Exon>, rep: map<string, string>, it: SetIteration, out: seq<Exon>, transcripts: seq<string>)
    requires it.Valid()
    requires forall t :: t in rep ==> rep[t] !in rep
    requires |out| == |pieces|
    requires forall k :: 0 <= k < |pieces| ==> out[k] == pieces[k].(transcripts := it.strings(Filtered(rep, pieces[k].transcripts)))
    requires transcripts == it.strings(RewrittenUnion(rep, pieces))
    ensures forall k :: 0 <= k < |out| ==> NoDup(out[k].transcripts)
    ensures NoDup(transcripts)
    ensures forall u :: u in transcripts <==> exists k :: 0 <= k < |out| && u in out[k].transcripts
    ensures forall u :: u in transcripts ==> u !in rep
  {
    RewrittenUnionMembers(rep, pieces);
    StringListing(it, RewrittenUnion(rep, pieces));
    forall k | 0 <= k < |out| ensures NoDup(out[k].transcripts) && forall u :: u in out[k].transcripts <==> u in Filtered(rep, pieces[k].transcripts) {
      StringListing(it, Filtered(rep, pieces[k].transcripts));
    }
  }
}
