/** Genomic features and their combination: the `GenomicObject` and `Exon`
    records, `__and__` and the `reduce` fold of `intersect_exons_list`
    (draft.py:35-97). */
module Features {
  import opened Common

  /** An `Exon` object. `id` is a string (exon ids are `exon_id` attribute
      values or `E<n>`), so combining two exons concatenates the two strings.
      `transcripts` is the list of transcript ids; after `&` it is a set in
      the source, listed here in the runtime's iteration order. */
  datatype Exon = Exon(
    id: string,
    geneId: string,
    geneName: string,
    chrom: string,
    start: int,
    end: int,
    name: string,
    score: real,
    strand: int,
    length: int,
    multiplicity: int,
    transcripts: seq<string>)

  /** `Exon(...)`: the constructor derives `length` from the coordinates. */
  function NewExon(id: string, geneId: string, geneName: string, chrom: string, start: int, end: int,
                   name: string, score: real, strand: int, multiplicity: int, transcripts: seq<string>): (e: Exon)
    ensures e.length == e.end - e.start
    ensures e.start == start && e.end == end && e.transcripts == transcripts
  {
    Exon(id, geneId, geneName, chrom, start, end, name, score, strand, end - start, multiplicity, transcripts)
  }

  /** `'|'.join(set(xs))` */
  function JoinSet(it: SetIteration, s: set<string>): string {
    Join("|", it.strings(s))
  }

  /** `a & b` on two exons: metadata only; start and end keep the
      constructor's default 0, so the length is 0 too. */
  function Combine(a: Exon, b: Exon, it: SetIteration): (r: Result<Exon>)
    requires it.Valid()
    ensures r.Ok? <==> a.chrom == b.chrom
    ensures r.Ok? ==> Merged(r.value, a, b)
  {
    if a.chrom != b.chrom then Err(ChromosomeMismatch)
    else
      var tx := it.strings(Elems(a.transcripts) + Elems(b.transcripts));
      JoinSetPair(it, a.geneId, b.geneId);
      JoinSetPair(it, a.geneName, b.geneName);
      Ok(NewExon(a.id + b.id, JoinSet(it, {a.geneId, b.geneId}), JoinSet(it, {a.geneName, b.geneName}),
                 a.chrom, 0, 0, a.name + "|" + b.name, 0.0, (a.strand + b.strand) / 2,
                 a.multiplicity + b.multiplicity, tx))
  }

  /** What `a & b` promises of its result `e`. */
  ghost predicate Merged(e: Exon, a: Exon, b: Exon) {
    && e.chrom == a.chrom
    && e.id == a.id + b.id
    && e.name == a.name + "|" + b.name
    && JoinedPair(e.geneId, a.geneId, b.geneId)
    && JoinedPair(e.geneName, a.geneName, b.geneName)
    && 2 * e.strand <= a.strand + b.strand < 2 * e.strand + 2
    && e.multiplicity == a.multiplicity + b.multiplicity
    && NoDup(e.transcripts)
    && (forall t :: t in e.transcripts <==> t in a.transcripts || t in b.transcripts)
    && e.start == 0 && e.end == 0 && e.length == 0 && e.score == 0.0
  }

  /** `r` is `'|'.join(set([x, y]))`: `x` when both are equal, otherwise the
      two joined in either order. */
  ghost predicate JoinedPair(r: string, x: string, y: string) {
    if x == y then r == x else r == x + "|" + y || r == y + "|" + x
  }

  lemma JoinSetPair(it: SetIteration, x: string, y: string)
    requires it.Valid()
    ensures JoinedPair(JoinSet(it, {x, y}), x, y)
  {
    var xs := it.strings({x, y});
    assert IsListing(xs, {x, y});
    ListingSize(xs, {x, y});
    forall i | 0 <= i < |xs| ensures xs[i] == x || xs[i] == y {
      assert xs[i] in xs;
    }
    if x == y {
      assert xs == [x];
    } else {
      assert xs[0] != xs[1];
      assert xs == [x, y] || xs == [y, x];
      assert Join("|", xs[1..]) == xs[1];
    }
  }

  /** Sum of the multiplicities of `xs`. */
  function Multiplicity(xs: seq<Exon>): int {
    if xs == [] then 0 else Multiplicity(xs[..|xs| - 1]) + xs[|xs| - 1].multiplicity
  }

  /** The ids of `xs` concatenated front to back. */
  function ConcatIds(xs: seq<Exon>): string {
    if xs == [] then "" else xs[0].id + ConcatIds(xs[1..])
  }

  lemma {:induction false} ConcatIdsSnoc(xs: seq<Exon>, x: Exon)
    ensures ConcatIds(xs + [x]) == ConcatIds(xs) + x.id
  {
    if xs != [] {
      assert (xs + [x])[1..] == xs[1..] + [x];
      ConcatIdsSnoc(xs[1..], x);
    }
  }

  ghost predicate SameChrom(xs: seq<Exon>) {
    forall k :: 0 <= k < |xs| ==> xs[k].chrom == xs[0].chrom
  }

  /** `reduce(lambda x, y: x & y, xs)`: a left fold of `&`. */
  function Fold(xs: seq<Exon>, it: SetIteration): (r: Result<Exon>)
    requires |xs| > 0 && it.Valid()
    ensures r.Ok? <==> SameChrom(xs)
    ensures r.Ok? ==> r.value.chrom == xs[0].chrom
    ensures r.Ok? ==> r.value.id == ConcatIds(xs)
    ensures r.Ok? ==> r.value.multiplicity == Multiplicity(xs)
    ensures r.Ok? ==> forall t :: t in r.value.transcripts <==> exists k :: 0 <= k < |xs| && t in xs[k].transcripts
    ensures r.Ok? && |xs| > 1 ==> r.value.length == 0 && r.value.score == 0.0 && NoDup(r.value.transcripts)
    ensures r.Ok? && (forall k :: 0 <= k < |xs| ==> xs[k].strand == xs[0].strand) ==> r.value.strand == xs[0].strand
    ensures r.Ok? && (forall k :: 0 <= k < |xs| ==> -1 <= xs[k].strand <= 1) ==> -1 <= r.value.strand <= 1
    ensures r.Ok? && (forall k :: 0 <= k < |xs| ==> xs[k].geneId == xs[0].geneId) ==> r.value.geneId == xs[0].geneId
    ensures r.Ok? && (forall k :: 0 <= k < |xs| ==> xs[k].geneName == xs[0].geneName) ==> r.value.geneName == xs[0].geneName
  {
    if |xs| == 1 then
      assert ConcatIds(xs) == xs[0].id + ConcatIds(xs[1..]);
      assert Multiplicity(xs) == Multiplicity(xs[..0]) + xs[0].multiplicity;
      Ok(xs[0])
    else
      var init, last := xs[..|xs| - 1], xs[|xs| - 1];
      assert xs == init + [last];
      ConcatIdsSnoc(init, last);
      match Fold(init, it)
      case Err(e) =>
        assert !SameChrom(init);
        Err(e)
      case Ok(acc) =>
        var r := Combine(acc, last, it);
        if r.Ok? then
          FoldUnion(init, last, acc, r.value);
          r
        else r
  }

  /** One more `&` keeps the transcripts those of some folded exon. */
  lemma FoldUnion(init: seq<Exon>, last: Exon, acc: Exon, e: Exon)
    requires forall t :: t in acc.transcripts <==> exists k :: 0 <= k < |init| && t in init[k].transcripts
    requires forall t :: t in e.transcripts <==> t in acc.transcripts || t in last.transcripts
    ensures forall t :: t in e.transcripts <==> exists k :: 0 <= k < |init + [last]| && t in (init + [last])[k].transcripts
  {
    var xs := init + [last];
    forall t | t in e.transcripts ensures exists k :: 0 <= k < |xs| && t in xs[k].transcripts {
      if t !in last.transcripts {
        var k :| 0 <= k < |init| && t in init[k].transcripts;
        assert xs[k] == init[k];
      } else {
        assert xs[|init|] == last;
      }
    }
    forall t, k | 0 <= k < |xs| && t in xs[k].transcripts ensures t in e.transcripts {
      if k < |init| { assert xs[k] == init[k]; }
    }
  }

  /** The exons `store[fs[0]], store[fs[1]], ...` */
  function Pick(store: seq<Exon>, fs: seq<nat>): (xs: seq<Exon>)
    requires forall i :: 0 <= i < |fs| ==> fs[i] < |store|
    ensures |xs| == |fs| && forall i :: 0 <= i < |fs| ==> xs[i] == store[fs[i]]
  {
    seq(|fs|, i requires 0 <= i < |fs| => store[fs[i]])
  }

  /** Sum of `store[j].multiplicity` over the members `j < n` of `s`. */
  function SumBelow(store: seq<Exon>, s: set<nat>, n: nat): int
    requires n <= |store|
  {
    if n == 0 then 0
    else SumBelow(store, s, n - 1) + (if n - 1 in s then store[n - 1].multiplicity else 0)
  }

  /** Sum of the multiplicities of the exons `s` names. */
  function SetMultiplicity(store: seq<Exon>, s: set<nat>): int {
    SumBelow(store, s, |store|)
  }

  lemma {:induction false} SumBelowRemove(store: seq<Exon>, s: set<nat>, y: nat, n: nat)
    requires n <= |store| && y in s && y < n
    ensures SumBelow(store, s, n) == SumBelow(store, s - {y}, n) + store[y].multiplicity
  {
    if y < n - 1 {
      SumBelowRemove(store, s, y, n - 1);
    } else {
      SumBelowSame(store, s, s - {y}, n - 1);
    }
  }

  lemma {:induction false} SumBelowSame(store: seq<Exon>, s: set<nat>, s': set<nat>, n: nat)
    requires n <= |store| && forall j :: j < n ==> (j in s <==> j in s')
    ensures SumBelow(store, s, n) == SumBelow(store, s', n)
  {
    if n > 0 {
      SumBelowSame(store, s, s', n - 1);
    }
  }

  /** Summing the multiplicities along any duplicate-free listing of `s`
      gives the same total: the fold order does not matter for it. */
  lemma {:induction false} MultiplicityOfListing(store: seq<Exon>, fs: seq<nat>, s: set<nat>)
    requires IsListing(fs, s) && forall j :: j in s ==> j < |store|
    requires forall i :: 0 <= i < |fs| ==> fs[i] < |store|
    ensures Multiplicity(Pick(store, fs)) == SetMultiplicity(store, s)
  {
    if fs == [] {
      SumBelowSame(store, s, {}, |store|);
      ZeroSum(store, |store|);
    } else {
      var init, y := fs[..|fs| - 1], fs[|fs| - 1];
      assert IsListing(init, s - {y}) by {
        forall x ensures x in init <==> x in s - {y} {
          if x in init {
            var i :| 0 <= i < |init| && init[i] == x;
            assert fs[i] == x && i < |fs| - 1;
          }
        }
      }
      MultiplicityOfListing(store, init, s - {y});
      assert Pick(store, fs)[..|fs| - 1] == Pick(store, init);
      SumBelowRemove(store, s, y, |store|);
    }
  }

  lemma {:induction false} ZeroSum(store: seq<Exon>, n: nat)
    requires n <= |store|
    ensures SumBelow(store, {}, n) == 0
  {
    if n > 0 {
      ZeroSum(store, n - 1);
    }
  }

  /** `intersect_exons_list(feats, multiple)`: with `multiple` false the
      objects are first de-duplicated (`list(set(feats))`, in the runtime's
      order); a single feature is copied, several are folded with `&`.
      `reduce` on an empty list raises, so `feats` is never empty. */
  function IntersectExonsList(store: seq<Exon>, feats: seq<nat>, multiple: bool, it: SetIteration): (r: Result<Exon>)
    requires it.Valid() && |feats| > 0 && forall i :: 0 <= i < |feats| ==> feats[i] < |store|
    ensures !multiple ==> feats[0] in Elems(feats) && r == CombineSet(store, Elems(feats), it)
    ensures r.Ok? <==> OneChrom(store, feats)
    ensures r.Ok? ==> r.value.chrom == store[feats[0]].chrom
    ensures r.Ok? ==> forall t :: t in r.value.transcripts <==> exists i :: 0 <= i < |feats| && t in store[feats[i]].transcripts
    ensures r.Ok? && !multiple ==> r.value.multiplicity == SetMultiplicity(store, Elems(feats))
    ensures r.Ok? && multiple ==> r.value.multiplicity == Multiplicity(Pick(store, feats)) && r.value.id == ConcatIds(Pick(store, feats))
    ensures (forall i :: 0 <= i < |feats| ==> feats[i] == feats[0]) && (!multiple || |feats| == 1) ==> r == Ok(store[feats[0]])
  {
    if multiple then
      ListedFacts(store, feats, it);
      if |feats| == 1 then Ok(store[feats[0]]) else Fold(Pick(store, feats), it)
    else
      DistinctFacts(store, feats, it);
      CombineSet(store, Elems(feats), it)
  }

  /** The features `feats` names all lie on one chromosome. */
  ghost predicate OneChrom(store: seq<Exon>, feats: seq<nat>)
    requires forall i :: 0 <= i < |feats| ==> feats[i] < |store|
  {
    forall i, k :: 0 <= i < |feats| && 0 <= k < |feats| ==> store[feats[i]].chrom == store[feats[k]].chrom
  }

  /** With `multiple` true: a single feature is itself, several are folded
      as listed, repeats included. */
  lemma ListedFacts(store: seq<Exon>, feats: seq<nat>, it: SetIteration)
    requires it.Valid() && |feats| > 0 && forall i :: 0 <= i < |feats| ==> feats[i] < |store|
    ensures var xs := Pick(store, feats);
      var r := if |feats| == 1 then Ok(store[feats[0]]) else Fold(xs, it);
      && (r.Ok? <==> OneChrom(store, feats))
      && (r.Ok? ==> r.value.chrom == store[feats[0]].chrom)
      && (r.Ok? ==> forall t :: t in r.value.transcripts <==> exists i :: 0 <= i < |feats| && t in store[feats[i]].transcripts)
      && (r.Ok? ==> r.value.multiplicity == Multiplicity(xs) && r.value.id == ConcatIds(xs))
  {
    var xs := Pick(store, feats);
    if |feats| == 1 {
      assert ConcatIds(xs) == xs[0].id + ConcatIds(xs[1..]);
      assert Multiplicity(xs) == Multiplicity(xs[..0]) + xs[0].multiplicity;
    } else {
      if !OneChrom(store, feats) {
        var i, k :| 0 <= i < |feats| && 0 <= k < |feats| && store[feats[i]].chrom != store[feats[k]].chrom;
        assert xs[i].chrom != xs[0].chrom || xs[k].chrom != xs[0].chrom;
      }
    }
  }

  /** With `multiple` false: the distinct features are combined. */
  lemma DistinctFacts(store: seq<Exon>, feats: seq<nat>, it: SetIteration)
    requires it.Valid() && |feats| > 0 && forall i :: 0 <= i < |feats| ==> feats[i] < |store|
    ensures feats[0] in Elems(feats)
    ensures var r := CombineSet(store, Elems(feats), it);
      && (r.Ok? <==> OneChrom(store, feats))
      && (r.Ok? ==> r.value.chrom == store[feats[0]].chrom)
      && (r.Ok? ==> forall t :: t in r.value.transcripts <==> exists i :: 0 <= i < |feats| && t in store[feats[i]].transcripts)
      && (r.Ok? ==> r.value.multiplicity == SetMultiplicity(store, Elems(feats)))
      && ((forall i :: 0 <= i < |feats| ==> feats[i] == feats[0]) ==> r == Ok(store[feats[0]]))
  {
    var s := Elems(feats);
    assert feats[0] in s;
    CombineSetChrom(store, s, it);
    var r := CombineSet(store, s, it);
    if OneChrom(store, feats) {
      forall j, k | j in s && k in s ensures store[j].chrom == store[k].chrom {
        var a :| 0 <= a < |feats| && feats[a] == j;
        var b :| 0 <= b < |feats| && feats[b] == k;
      }
    } else {
      var i, k :| 0 <= i < |feats| && 0 <= k < |feats| && store[feats[i]].chrom != store[feats[k]].chrom;
      assert feats[i] in s && feats[k] in s;
    }
    if r.Ok? {
      CombineSetTranscripts(store, s, it);
      CombineSetMultiplicity(store, s, it);
      forall t ensures t in r.value.transcripts <==> exists i :: 0 <= i < |feats| && t in store[feats[i]].transcripts {
        if t in r.value.transcripts {
          var j :| j in s && t in store[j].transcripts;
          var a :| 0 <= a < |feats| && feats[a] == j;
        }
      }
    }
    if forall i :: 0 <= i < |feats| ==> feats[i] == feats[0] {
      assert s == {feats[0]};
      CombineSetSingle(store, feats[0], it);
    }
  }

  /** `intersect_exons_list` on the distinct objects `s`. */
  function CombineSet(store: seq<Exon>, s: set<nat>, it: SetIteration): (r: Result<Exon>)
    requires it.Valid() && s != {} && forall j :: j in s ==> j < |store|
  {
    var fs := it.objects(s);
    assert IsListing(fs, s);
    assert forall i :: 0 <= i < |fs| ==> fs[i] in s;
    var x :| x in s;
    assert x in fs;
    if |fs| == 1 then Ok(store[fs[0]]) else Fold(Pick(store, fs), it)
  }

  /** The runtime's listing of the distinct exons `s`. */
  lemma ObjectListing(store: seq<Exon>, s: set<nat>, it: SetIteration)
    requires it.Valid() && forall j :: j in s ==> j < |store|
    ensures IsListing(it.objects(s), s) && |it.objects(s)| == |s|
    ensures forall i :: 0 <= i < |it.objects(s)| ==> it.objects(s)[i] in s && it.objects(s)[i] < |store|
  {
    var fs := it.objects(s);
    assert IsListing(fs, s);
    ListingSize(fs, s);
    forall i | 0 <= i < |fs| ensures fs[i] in s {
      assert fs[i] in fs;
    }
  }

  /** A lone exon is copied unchanged (`copy.deepcopy`). */
  lemma CombineSetSingle(store: seq<Exon>, j: nat, it: SetIteration)
    requires it.Valid() && j < |store|
    ensures CombineSet(store, {j}, it) == Ok(store[j])
  {
    ObjectListing(store, {j}, it);
    assert it.objects({j})[0] in {j};
  }

  /** Several distinct exons are folded in the runtime's order. */
  lemma CombineSetMany(store: seq<Exon>, s: set<nat>, it: SetIteration)
    requires it.Valid() && |s| > 1 && forall j :: j in s ==> j < |store|
    ensures var fs := it.objects(s);
      && IsListing(fs, s) && (forall i :: 0 <= i < |fs| ==> fs[i] < |store|)
      && CombineSet(store, s, it) == Fold(Pick(store, fs), it)
      && |Pick(store, fs)| > 1
      && (forall j :: j in s ==> store[j] in Pick(store, fs))
      && (forall k :: 0 <= k < |fs| ==> fs[k] in s)
  {
    ObjectListing(store, s, it);
    var fs := it.objects(s);
    var xs := Pick(store, fs);
    forall j | j in s ensures store[j] in xs {
      assert j in fs;
      var i :| 0 <= i < |fs| && fs[i] == j;
      assert xs[i] == store[j];
    }
  }

  /** The combined piece exists exactly when all the distinct exons share a
      chromosome, and then it is on that chromosome. */
  lemma CombineSetChrom(store: seq<Exon>, s: set<nat>, it: SetIteration)
    requires it.Valid() && s != {} && forall j :: j in s ==> j < |store|
    ensures CombineSet(store, s, it).Ok? <==> forall j, k :: j in s && k in s ==> store[j].chrom == store[k].chrom
    ensures CombineSet(store, s, it).Ok? ==> forall j :: j in s ==> CombineSet(store, s, it).value.chrom == store[j].chrom
  {
    var j0 :| j0 in s;
    if s == {j0} {
      CombineSetSingle(store, j0, it);
    } else {
      assert |s| > 1 by {
        var j1 :| j1 in s && j1 != j0;
        assert |s - {j0}| >= 1 by { assert j1 in s - {j0}; }
      }
      CombineSetMany(store, s, it);
      var xs := Pick(store, it.objects(s));
      if SameChrom(xs) {
        forall j, k | j in s && k in s ensures store[j].chrom == store[k].chrom {
          assert store[j] in xs && store[k] in xs;
        }
      }
      if !SameChrom(xs) {
        var k :| 0 <= k < |xs| && xs[k].chrom != xs[0].chrom;
        assert it.objects(s)[k] in s && it.objects(s)[0] in s;
      }
    }
  }

  /** The combined piece's transcripts are the union of the exons'. */
  lemma CombineSetTranscripts(store: seq<Exon>, s: set<nat>, it: SetIteration)
    requires it.Valid() && s != {} && forall j :: j in s ==> j < |store|
    requires CombineSet(store, s, it).Ok?
    ensures forall t :: t in CombineSet(store, s, it).value.transcripts <==> exists j :: j in s && t in store[j].transcripts
  {
    var j0 :| j0 in s;
    if s == {j0} {
      CombineSetSingle(store, j0, it);
    } else {
      assert |s| > 1 by {
        var j1 :| j1 in s && j1 != j0;
        assert |s - {j0}| >= 1 by { assert j1 in s - {j0}; }
      }
      CombineSetMany(store, s, it);
      var fs := it.objects(s);
      var xs := Pick(store, fs);
      var e := CombineSet(store, s, it).value;
      forall t ensures t in e.transcripts <==> exists j :: j in s && t in store[j].transcripts {
        if t in e.transcripts {
          var k :| 0 <= k < |xs| && t in xs[k].transcripts;
          assert fs[k] in s;
        }
        if exists j :: j in s && t in store[j].transcripts {
          var j :| j in s && t in store[j].transcripts;
          assert store[j] in xs;
        }
      }
    }
  }

  /** The combined piece's multiplicity is the sum of the exons', whatever
      order they are folded in. */
  lemma CombineSetMultiplicity(store: seq<Exon>, s: set<nat>, it: SetIteration)
    requires it.Valid() && s != {} && forall j :: j in s ==> j < |store|
    requires CombineSet(store, s, it).Ok?
    ensures CombineSet(store, s, it).value.multiplicity == SetMultiplicity(store, s)
  {
    ObjectListing(store, s, it);
    var fs := it.objects(s);
    MultiplicityOfListing(store, fs, s);
    var j0 :| j0 in s;
    if s == {j0} {
      CombineSetSingle(store, j0, it);
      assert fs == [j0];
      assert Multiplicity(Pick(store, fs)) == Multiplicity(Pick(store, fs)[..0]) + store[j0].multiplicity;
    } else {
      assert |s| > 1 by {
        var j1 :| j1 in s && j1 != j0;
        assert |s - {j0}| >= 1 by { assert j1 in s - {j0}; }
      }
      CombineSetMany(store, s, it);
    }
  }

  /** Two or more distinct exons give a fresh feature: length 0 (the
      constructor's default coordinates), score 0 and a duplicate-free
      transcript list; when they all lie on one strand, or share one gene id,
      so does the piece. */
  lemma CombineSetFresh(store: seq<Exon>, s: set<nat>, it: SetIteration)
    requires it.Valid() && |s| > 1 && forall j :: j in s ==> j < |store|
    requires CombineSet(store, s, it).Ok?
    ensures var e := CombineSet(store, s, it).value;
      && e.length == 0 && e.score == 0.0 && NoDup(e.transcripts)
      && ((forall j, k :: j in s && k in s ==> store[j].strand == store[k].strand) ==>
            forall j :: j in s ==> e.strand == store[j].strand)
      && ((forall j, k :: j in s && k in s ==> store[j].geneId == store[k].geneId) ==>
            forall j :: j in s ==> e.geneId == store[j].geneId)
  {
    CombineSetMany(store, s, it);
    var fs := it.objects(s);
    var xs := Pick(store, fs);
    assert fs[0] in s;
  }
}
