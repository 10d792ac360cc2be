/** The Python 2 string operations `parse_gtf` relies on (draft.py:12-32):
    `strip()`, `strip('"')`, `split()` on whitespace, `split(sep)` on one
    character, `int()` on a decimal string, and `'%d'` formatting. */
module Text {
  import opened Common

  /** A character of `string.whitespace`: space, tab, line feed, vertical
      tab, form feed, carriage return. */
  predicate IsSpace(c: char) {
    c == ' ' || ('\t' <= c <= '\r')
  }

  /** Number of leading characters of `s` satisfying `IsSpace`. */
  function LeadingSpaces(s: string): (n: nat)
    ensures n <= |s|
    ensures forall k :: 0 <= k < n ==> IsSpace(s[k])
    ensures n < |s| ==> !IsSpace(s[n])
  {
    if s == [] || !IsSpace(s[0]) then 0 else 1 + LeadingSpaces(s[1..])
  }

  /** Number of trailing characters of `s` satisfying `IsSpace`. */
  function TrailingSpaces(s: string): (n: nat)
    ensures n <= |s|
    ensures forall k :: |s| - n <= k < |s| ==> IsSpace(s[k])
    ensures n < |s| ==> !IsSpace(s[|s| - n - 1])
  {
    if s == [] || !IsSpace(s[|s| - 1]) then 0 else 1 + TrailingSpaces(s[..|s| - 1])
  }

  /** `s.strip()`. */
  function Strip(s: string): string {
    var t := s[LeadingSpaces(s)..];
    t[..|t| - TrailingSpaces(t)]
  }

  /** `strip()` removes whitespace runs at both ends and nothing else: the
      result is a slice of `s` with only whitespace around it, and neither
      starts nor ends with whitespace. */
  lemma StripFacts(s: string)
    ensures Strip(s) == [] || (!IsSpace(Strip(s)[0]) && !IsSpace(Strip(s)[|Strip(s)| - 1]))
    ensures exists i, j :: 0 <= i <= j <= |s| && Strip(s) == s[i..j]
                           && (forall k :: 0 <= k < i ==> IsSpace(s[k]))
                           && (forall k :: j <= k < |s| ==> IsSpace(s[k]))
  {
    var i := LeadingSpaces(s);
    var t := s[i..];
    var j := i + |t| - TrailingSpaces(t);
    assert Strip(s) == s[i..j];
    forall k | j <= k < |s| ensures IsSpace(s[k]) {
      assert s[k] == t[k - i];
    }
    if Strip(s) != [] {
      assert Strip(s)[0] == t[0];
    }
  }

  /** A string without whitespace at either end is its own `strip()`. */
  lemma StripTrimmed(s: string)
    requires s == [] || (!IsSpace(s[0]) && !IsSpace(s[|s| - 1]))
    ensures Strip(s) == s
  {
    assert s[0..] == s;
  }

  /** `s.strip(c)`: every copy of `c` removed from both ends. */
  function StripChar(s: string, c: char): (r: string)
    ensures r == [] || (r[0] != c && r[|r| - 1] != c)
    decreases |s|
  {
    if s == [] then []
    else if s[0] == c then StripChar(s[1..], c)
    else if s[|s| - 1] == c then StripChar(s[..|s| - 1], c)
    else s
  }

  /** Quotes around a value without quotes at its ends are removed. */
  lemma {:induction false} StripQuotes(v: string, c: char)
    requires v == [] || (v[0] != c && v[|v| - 1] != c)
    ensures StripChar([c] + v + [c], c) == v
  {
    var s := [c] + v + [c];
    assert s[1..] == v + [c];
    assert StripChar(s, c) == StripChar(v + [c], c);
    if v == [] {
      assert v + [c] == [c] && [c][1..] == [];
    } else {
      assert (v + [c])[..|v|] == v;
      assert (v + [c])[0] == v[0];
      assert StripChar(v + [c], c) == StripChar(v, c);
    }
  }

  /** Number of leading characters of `s` that are not whitespace. */
  function WordLen(s: string): (n: nat)
    ensures n <= |s|
    ensures forall k :: 0 <= k < n ==> !IsSpace(s[k])
    ensures n < |s| ==> IsSpace(s[n])
  {
    if s == [] || IsSpace(s[0]) then 0 else 1 + WordLen(s[1..])
  }

  /** `s.split()`: the maximal runs of non-whitespace characters. */
  function Words(s: string): seq<string>
    decreases |s|
  {
    if s == [] then []
    else if IsSpace(s[0]) then Words(s[1..])
    else
      var n := WordLen(s);
      [s[..n]] + Words(s[n..])
  }

  /** A word: non-empty and free of whitespace. */
  predicate IsWord(w: string) {
    w != [] && forall k :: 0 <= k < |w| ==> !IsSpace(w[k])
  }

  /** Every piece `split()` returns is a word. */
  lemma {:induction false} WordsAreWords(s: string)
    ensures forall k :: 0 <= k < |Words(s)| ==> IsWord(Words(s)[k])
    decreases |s|
  {
    if s != [] {
      if IsSpace(s[0]) {
        WordsAreWords(s[1..]);
      } else {
        WordsAreWords(s[WordLen(s)..]);
      }
    }
  }

  lemma {:induction false} WordLenOfWord(w: string, rest: string)
    requires IsWord(w) && (rest == [] || IsSpace(rest[0]))
    ensures WordLen(w + rest) == |w|
    decreases |w|
  {
    if |w| > 1 {
      assert (w + rest)[1..] == w[1..] + rest;
      WordLenOfWord(w[1..], rest);
    } else {
      assert (w + rest)[1..] == rest;
    }
  }

  /** `' '.join(ws).split() == ws` for words. */
  lemma {:induction false} WordsOfJoin(ws: seq<string>)
    requires forall k :: 0 <= k < |ws| ==> IsWord(ws[k])
    ensures Words(Join(" ", ws)) == ws
    decreases |ws|
  {
    if |ws| == 1 {
      WordLenOfWord(ws[0], []);
      assert ws[0] + [] == ws[0];
      assert ws[0][|ws[0]|..] == [];
    } else if |ws| > 1 {
      var rest := " " + Join(" ", ws[1..]);
      var s := ws[0] + rest;
      assert Join(" ", ws) == s;
      WordLenOfWord(ws[0], rest);
      assert s[..|ws[0]|] == ws[0] && s[|ws[0]|..] == rest;
      assert rest[1..] == Join(" ", ws[1..]);
      WordsOfJoin(ws[1..]);
      assert ws == [ws[0]] + ws[1..];
    }
  }

  /** `s.split(sep)`, for a one-character separator. */
  function SplitOn(s: string, sep: char): (parts: seq<string>)
    ensures |parts| > 0
    ensures forall k :: 0 <= k < |parts| ==> sep !in parts[k]
  {
    if s == [] then [""]
    else
      var rest := SplitOn(s[1..], sep);
      if s[0] == sep then [""] + rest else [[s[0]] + rest[0]] + rest[1..]
  }

  lemma JoinCons(sep: string, x: string, xs: seq<string>)
    requires xs != []
    ensures Join(sep, [x] + xs) == x + sep + Join(sep, xs)
  {
    assert ([x] + xs)[1..] == xs;
  }

  /** `sep.join(s.split(sep)) == s`. */
  lemma {:induction false} JoinOfSplit(s: string, sep: char)
    ensures Join([sep], SplitOn(s, sep)) == s
  {
    if s != [] {
      var rest := SplitOn(s[1..], sep);
      JoinOfSplit(s[1..], sep);
      if s[0] == sep {
        JoinCons([sep], "", rest);
        assert s == [sep] + s[1..];
      } else if |rest| == 1 {
        assert s == [s[0]] + s[1..];
      } else {
        JoinCons([sep], rest[0], rest[1..]);
        assert rest == [rest[0]] + rest[1..];
        JoinCons([sep], [s[0]] + rest[0], rest[1..]);
        assert s == [s[0]] + s[1..];
      }
    }
  }

  lemma {:induction false} SplitAfterPart(w: string, t: string, sep: char)
    requires sep !in w
    ensures SplitOn(w + t, sep) == [w + SplitOn(t, sep)[0]] + SplitOn(t, sep)[1..]
    decreases |w|
  {
    if w == [] {
      assert w + t == t;
      assert w + SplitOn(t, sep)[0] == SplitOn(t, sep)[0];
      assert SplitOn(t, sep) == [SplitOn(t, sep)[0]] + SplitOn(t, sep)[1..];
    } else {
      assert (w + t)[1..] == w[1..] + t;
      SplitAfterPart(w[1..], t, sep);
      assert [w[0]] + (w[1..] + SplitOn(t, sep)[0]) == w + SplitOn(t, sep)[0];
    }
  }

  /** Splitting `w + sep + t` gives `w`, then the parts of `t`. */
  lemma SplitAtSeparator(w: string, t: string, sep: char)
    requires sep !in w
    ensures SplitOn(w + [sep] + t, sep) == [w] + SplitOn(t, sep)
  {
    var u := [sep] + t;
    assert u[1..] == t;
    assert SplitOn(u, sep) == [""] + SplitOn(t, sep);
    SplitAfterPart(w, u, sep);
    assert w + [sep] + t == w + u;
    assert w + "" == w;
  }

  /** `sep.join(parts).split(sep) == parts` when no part holds `sep`. */
  lemma {:induction false} SplitOfJoin(parts: seq<string>, sep: char)
    requires parts != [] && forall k :: 0 <= k < |parts| ==> sep !in parts[k]
    ensures SplitOn(Join([sep], parts), sep) == parts
    decreases |parts|
  {
    if |parts| == 1 {
      SplitAfterPart(parts[0], [], sep);
      assert parts[0] + [] == parts[0];
    } else {
      JoinCons([sep], parts[0], parts[1..]);
      assert parts == [parts[0]] + parts[1..];
      SplitOfJoin(parts[1..], sep);
      SplitAtSeparator(parts[0], Join([sep], parts[1..]), sep);
    }
  }

  predicate IsDigit(c: char) {
    '0' <= c <= '9'
  }

  predicate AllDigits(d: string) {
    forall k :: 0 <= k < |d| ==> IsDigit(d[k])
  }

  /** The number a string of decimal digits denotes. */
  function DigitsValue(d: string): nat
    requires AllDigits(d)
  {
    if d == [] then 0
    else DigitsValue(d[..|d| - 1]) * 10 + ((d[|d| - 1] as int) - ('0' as int))
  }

  /** `int(text)` in base 10: surrounding whitespace, an optional sign, one
      or more digits. Anything else raises ValueError: None. */
  function ParseInt(text: string): Option<int> {
    var t := Strip(text);
    if |t| > 0 && (t[0] == '-' || t[0] == '+') then
      var d := t[1..];
      if |d| > 0 && AllDigits(d) then
        var v: int := DigitsValue(d);
        Some(if t[0] == '-' then -v else v)
      else None
    else if |t| > 0 && AllDigits(t) then Some(DigitsValue(t))
    else None
  }

  /** `'%d' % n` for a natural number. */
  function FormatNat(n: nat): string {
    var c := (('0' as int) + n % 10) as char;
    if n < 10 then [c] else FormatNat(n / 10) + [c]
  }

  /** `'%d' % i`. */
  function FormatInt(i: int): string {
    if i < 0 then "-" + FormatNat(-i) else FormatNat(i)
  }

  /** `'%d'` writes one or more digits that denote the number. */
  lemma {:induction false} FormatNatValue(n: nat)
    ensures |FormatNat(n)| > 0 && AllDigits(FormatNat(n))
    ensures DigitsValue(FormatNat(n)) == n
  {
    var s := FormatNat(n);
    if n >= 10 {
      FormatNatValue(n / 10);
      assert s[..|s| - 1] == FormatNat(n / 10);
    }
  }

  /** `int('%d' % i) == i`. */
  lemma FormatThenParse(i: int)
    ensures ParseInt(FormatInt(i)) == Some(i)
  {
    var m: nat := if i < 0 then -i else i;
    FormatNatValue(m);
    var s := FormatInt(i);
    StripTrimmed(s);
    if i < 0 {
      assert s[1..] == FormatNat(m);
    }
  }
}
