/** Shared vocabulary of the model: results with the exceptions the modelled
    code raises, duplicate-free listings, and the iteration order of Python
    sets and dictionaries, which the program leaves to the runtime. */
module Common {

  datatype Option<T> = None | Some(value: T)

  /** The exceptions raised by the modelled code. */
  datatype Error =
    | ChromosomeMismatch          // the assertion in GenomicObject.__and__
    | TooFewFields                // ValueError: fewer than 9 tab-separated fields
    | MalformedAttribute          // IndexError: an attribute segment without key and value
    | MissingAttribute(key: string) // KeyError on gene_id, gene_name or transcript_id
    | BadInteger(text: string)    // ValueError raised by int()
    | BadScore(text: string)      // ValueError raised by float()
    | BadStrand(text: string)     // KeyError in the strand map

  datatype Result<T> = Ok(value: T) | Err(error: Error)

  predicate NoDup<T(==)>(xs: seq<T>) {
    forall i, j :: 0 <= i < j < |xs| ==> xs[i] != xs[j]
  }

  /** `xs` lists every element of `s` exactly once, in some order. */
  ghost predicate IsListing<T(!new)>(xs: seq<T>, s: set<T>) {
    NoDup(xs) && forall x :: x in xs <==> x in s
  }

  function Elems<T(!new)>(xs: seq<T>): (s: set<T>)
    ensures forall x :: x in s <==> x in xs
  {
    set x | x in xs
  }

  /** Number of occurrences of `x` in `xs`. */
  function Count<T(==)>(xs: seq<T>, x: T): nat {
    if xs == [] then 0
    else Count(xs[..|xs| - 1], x) + (if xs[|xs| - 1] == x then 1 else 0)
  }

  function Repeat<T>(x: T, n: nat): (r: seq<T>)
    ensures |r| == n && forall i :: 0 <= i < n ==> r[i] == x
  {
    if n == 0 then [] else Repeat(x, n - 1) + [x]
  }

  /** `sep.join(xs)` */
  function Join(sep: string, xs: seq<string>): string {
    if |xs| == 0 then ""
    else if |xs| == 1 then xs[0]
    else xs[0] + sep + Join(sep, xs[1..])
  }

  /** `list.remove(x)`: drops the first occurrence of `x`. */
  function RemoveFirst<T(==)>(xs: seq<T>, x: T): (r: seq<T>)
    requires x in xs
    ensures |r| == |xs| - 1
    ensures multiset(r) == multiset(xs) - multiset{x}
  {
    assert xs == [xs[0]] + xs[1..];
    if xs[0] == x then xs[1..]
    else [xs[0]] + RemoveFirst(xs[1..], x)
  }

  /** The order in which the Python runtime iterates a set (or the keys of a
      dictionary): of exon objects, identified by their index in the input
      list, and of strings. The program never fixes it; the model takes it as
      a parameter and proves its properties for every valid one. */
  datatype SetIteration = SetIteration(objects: set<nat> -> seq<nat>, strings: set<string> -> seq<string>)
  {
    ghost predicate Valid() {
      && (forall s :: IsListing(objects(s), s))
      && (forall s :: IsListing(strings(s), s))
    }
  }

  lemma StringListing(it: SetIteration, s: set<string>)
    requires it.Valid()
    ensures NoDup(it.strings(s)) && forall x :: x in it.strings(s) <==> x in s
  {
    assert IsListing(it.strings(s), s);
  }

  lemma {:induction false} RemoveFirstNoDup<T>(xs: seq<T>, x: T)
    requires x in xs && NoDup(xs)
    ensures NoDup(RemoveFirst(xs, x))
    ensures forall y :: y in RemoveFirst(xs, x) <==> y in xs && y != x
  {
    var r := RemoveFirst(xs, x);
    forall y ensures y in r <==> y in xs && y != x {
      calc {
        y in r;
        multiset(r)[y] > 0;
        (multiset(xs) - multiset{x})[y] > 0;
      }
      NoDupCount(xs, x);
    }
    forall i, j | 0 <= i < j < |r| ensures r[i] != r[j] {
      if r[i] == r[j] {
        MultisetTwoPositions(r, i, j);
        assert multiset(xs)[r[i]] >= 2;
        NoDupCount(xs, r[i]);
      }
    }
  }

  /** In a duplicate-free sequence every value occurs at most once. */
  lemma {:induction false} NoDupCount<T>(xs: seq<T>, x: T)
    requires NoDup(xs)
    ensures multiset(xs)[x] <= 1
  {
    if xs != [] {
      assert xs == [xs[0]] + xs[1..];
      NoDupCount(xs[1..], x);
      if xs[0] == x {
        assert x !in xs[1..];
      }
    }
  }

  lemma MultisetTwoPositions<T>(xs: seq<T>, i: nat, j: nat)
    requires i < j < |xs| && xs[i] == xs[j]
    ensures multiset(xs)[xs[i]] >= 2
  {
    assert xs == xs[..j] + xs[j..];
    assert xs[i] in xs[..j];
    assert xs[j] in xs[j..];
  }

  /** A permutation of a duplicate-free sequence is duplicate-free. */
  lemma NoDupPermutation<T>(a: seq<T>, b: seq<T>)
    requires NoDup(a) && multiset(a) == multiset(b)
    ensures NoDup(b)
  {
    forall i, j | 0 <= i < j < |b| ensures b[i] != b[j] {
      if b[i] == b[j] {
        MultisetTwoPositions(b, i, j);
        NoDupCount(a, b[i]);
      }
    }
  }

  /** A listing of a set has as many entries as the set has members. */
  lemma {:induction false} ListingSize<T(!new)>(xs: seq<T>, s: set<T>)
    requires IsListing(xs, s)
    ensures |xs| == |s|
  {
    if xs != [] {
      var init, y := xs[..|xs| - 1], xs[|xs| - 1];
      assert IsListing(init, s - {y}) by {
        forall x ensures x in init <==> x in s - {y} {
          if x in init {
            var i :| 0 <= i < |init| && init[i] == x;
            assert xs[i] == x;
          }
        }
      }
      ListingSize(init, s - {y});
    } else {
      assert forall x :: x !in s;
      assert s == {};
    }
  }

  lemma {:induction false} CountMultiset<T>(xs: seq<T>, x: T)
    ensures Count(xs, x) == multiset(xs)[x]
  {
    if xs != [] {
      CountMultiset(xs[..|xs| - 1], x);
      assert xs == xs[..|xs| - 1] + [xs[|xs| - 1]];
    }
  }
}
