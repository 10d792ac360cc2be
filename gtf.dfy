/** `parse_gtf` (draft.py:12-32): one GTF line to an `Exon`. The global
    counter `Ecounter` is a parameter (`next`, the value its `next()` call
    returns) and the result carries the counter's following value. The
    conversion `float()` of the score column is a parameter as well. */
module Gtf {
  import opened Common
  import opened Features
  import opened Text

  /** What `parse_gtf` returns: None for an empty line, False for a line
      that is not an exon, or an exon. */
  datatype Parsed = Blank | NotExon | Feature(exon: Exon)

  /** `row.strip().split("\t")`. */
  function Fields(row: string): seq<string> {
    SplitOn(Strip(row), '\t')
  }

  /** One attribute segment as the source reads it: `x.strip().split()`,
      then `(x[0], x[1].strip('"'))`; fewer than two words raise
      IndexError. */
  function PairAsWritten(seg: string): Result<(string, string)> {
    var w := Words(Strip(seg));
    if |w| < 2 then Err(MalformedAttribute) else Ok((w[0], StripChar(w[1], '"')))
  }

  function PairsAsWritten(segs: seq<string>): Result<seq<(string, string)>> {
    if segs == [] then Ok([])
    else
      match (PairAsWritten(segs[0]), PairsAsWritten(segs[1..]))
      case (Ok(p), Ok(ps)) => Ok([p] + ps)
      case _ => Err(MalformedAttribute)
  }

  /** The attribute column as the source parses it: every `;`-separated
      segment must hold a key and a value. */
  function AttributesAsWritten(field: string): Result<seq<(string, string)>> {
    PairsAsWritten(SplitOn(field, ';'))
  }

  /** The pairs of the attribute column with blank segments skipped: the
      segment after a closing `;` is blank. */
  function Pairs(segs: seq<string>): Result<seq<(string, string)>> {
    if segs == [] then Ok([])
    else
      var w := Words(Strip(segs[0]));
      if w == [] then Pairs(segs[1..])
      else if |w| < 2 then Err(MalformedAttribute)
      else
        match Pairs(segs[1..])
        case Ok(ps) => Ok([(w[0], StripChar(w[1], '"'))] + ps)
        case Err(e) => Err(e)
  }

  /** The attribute column, as the rest of the model reads it. */
  function Attributes(field: string): Result<seq<(string, string)>> {
    Pairs(SplitOn(field, ';'))
  }

  /** `dict(pairs)`: a later pair overrides an earlier one with the same key. */
  function AttrMap(pairs: seq<(string, string)>): map<string, string> {
    if pairs == [] then map[]
    else
      var p := pairs[|pairs| - 1];
      AttrMap(pairs[..|pairs| - 1])[p.0 := p.1]
  }

  /** `_score`: `.` is 0, anything else goes through `float()`. */
  function Score(text: string, float: string -> Option<real>): Result<real> {
    if text == "." then Ok(0.0)
    else
      match float(text)
      case Some(x) => Ok(x)
      case None => Err(BadScore(text))
  }

  /** `_strand`: the string keys of the strand map. */
  function Strand(text: string): Result<int> {
    if text == "+" then Ok(1)
    else if text == "-" then Ok(-1)
    else if text == "." then Ok(0)
    else Err(BadStrand(text))
  }

  /** The GTF symbol of a strand. */
  function StrandSymbol(strand: int): string
    requires -1 <= strand <= 1
  {
    if strand == 1 then "+" else if strand == -1 then "-" else "."
  }

  /** `parse_gtf(row)`, with the errors in the order Python meets them:
      field count, attribute segments, then the keyword arguments of
      `Exon(...)` left to right. `attributes` reads the attribute column. */
  function ParseRow(row: string, next: nat, float: string -> Option<real>,
                    attributes: string -> Result<seq<(string, string)>>): Result<(Parsed, nat)> {
    if row == [] then Ok((Blank, next))
    else
      var f := Fields(row);
      if |f| < 9 then Err(TooFewFields)
      else if f[2] != "exon" then Ok((NotExon, next))
      else
        match attributes(f[8])
        case Err(e) => Err(e)
        case Ok(pairs) =>
          match BuildExon(f, AttrMap(pairs), next, float)
          case Err(e) => Err(e)
          case Ok(exon) => Ok((Feature(exon), next + 1))
  }

  /** `parse_gtf` as written: every attribute segment must hold two words. */
  function ParseGtfAsWritten(row: string, next: nat, float: string -> Option<real>): Result<(Parsed, nat)> {
    ParseRow(row, next, float, AttributesAsWritten)
  }

  /** `parse_gtf` with blank attribute segments skipped, as the rest of the
      model reads GTF lines. */
  function ParseGtf(row: string, next: nat, float: string -> Option<real>): Result<(Parsed, nat)> {
    ParseRow(row, next, float, Attributes)
  }

  /** The call `Exon(...)` of an exon line whose attributes are `attrs`.
      The counter has been drawn by then, whether or not the line has an
      `exon_id`. */
  function BuildExon(f: seq<string>, attrs: map<string, string>, next: nat, float: string -> Option<real>): Result<Exon>
    requires |f| >= 9
  {
    var id := if "exon_id" in attrs then attrs["exon_id"] else "E" + FormatNat(next);
    if "gene_id" !in attrs then Err(MissingAttribute("gene_id"))
    else if "gene_name" !in attrs then Err(MissingAttribute("gene_name"))
    else if ParseInt(f[3]).None? then Err(BadInteger(f[3]))
    else if ParseInt(f[4]).None? then Err(BadInteger(f[4]))
    else
      match Score(f[5], float)
      case Err(e) => Err(e)
      case Ok(score) =>
        match Strand(f[6])
        case Err(e) => Err(e)
        case Ok(strand) =>
          if "transcript_id" !in attrs then Err(MissingAttribute("transcript_id"))
          else
            Ok(NewExon(id, attrs["gene_id"], attrs["gene_name"], f[0], ParseInt(f[3]).value - 1, ParseInt(f[4]).value,
                       id, score, strand, 1, [attrs["transcript_id"]]))
  }

  // ---------------------------------------------------------------------
  // Properties of the parts

  /** The strand map and the GTF symbols are inverse to each other. */
  lemma StrandRoundTrip(text: string, strand: int)
    requires -1 <= strand <= 1
    ensures Strand(StrandSymbol(strand)) == Ok(strand)
    ensures Strand(text).Ok? ==> -1 <= Strand(text).value <= 1 && StrandSymbol(Strand(text).value) == text
  {
  }

  /** `dict(pairs)` has exactly the keys of the pairs, and each key maps to
      the value of its last pair. */
  lemma {:induction false} AttrMapFacts(pairs: seq<(string, string)>)
    ensures forall k :: k in AttrMap(pairs) <==> exists i :: 0 <= i < |pairs| && pairs[i].0 == k
    ensures forall i :: 0 <= i < |pairs| && (forall j :: i < j < |pairs| ==> pairs[j].0 != pairs[i].0)
                        ==> AttrMap(pairs)[pairs[i].0] == pairs[i].1
  {
    if pairs != [] {
      var n := |pairs| - 1;
      var init := pairs[..n];
      AttrMapFacts(init);
      forall k ensures k in AttrMap(pairs) <==> exists i :: 0 <= i < |pairs| && pairs[i].0 == k {
        if k in AttrMap(init) {
          var i :| 0 <= i < |init| && init[i].0 == k;
          assert pairs[i].0 == k;
        }
        if exists i :: 0 <= i < |pairs| && pairs[i].0 == k {
          var i :| 0 <= i < |pairs| && pairs[i].0 == k;
          if i < n {
            assert init[i].0 == k;
          }
        }
      }
      forall i | 0 <= i < |pairs| && (forall j :: i < j < |pairs| ==> pairs[j].0 != pairs[i].0)
        ensures AttrMap(pairs)[pairs[i].0] == pairs[i].1
      {
        if i < n {
          assert init[i] == pairs[i];
          forall j | i < j < |init| ensures init[j].0 != init[i].0 {
            assert init[j] == pairs[j];
          }
        }
      }
    }
  }

  /** `split(';')` of a text ending in `;` ends with an empty segment. */
  lemma {:induction false} SplitTrailingSeparator(s: string, sep: char)
    ensures SplitOn(s + [sep], sep) == SplitOn(s, sep) + [""]
  {
    if s == [] {
      assert [sep][1..] == [];
    } else {
      assert (s + [sep])[1..] == s[1..] + [sep];
      SplitTrailingSeparator(s[1..], sep);
    }
  }

  /** A blank segment anywhere makes the source's attribute parse fail. */
  lemma {:induction false} BlankSegmentFails(segs: seq<string>)
    ensures PairsAsWritten(segs + [""]).Err?
  {
    assert Strip("") == [];
    if segs != [] {
      assert (segs + [""])[1..] == segs[1..] + [""];
      BlankSegmentFails(segs[1..]);
    }
  }

  /** The attribute column of a standard GTF line ends with `;`
      (`gene_id "g"; transcript_id "t";`), and the source rejects every
      such column with IndexError. */
  lemma AsWrittenRejectsClosingSemicolon(body: string)
    ensures AttributesAsWritten(body + ";") == Err(MalformedAttribute)
  {
    SplitTrailingSeparator(body, ';');
    BlankSegmentFails(SplitOn(body, ';'));
  }

  // ---------------------------------------------------------------------
  // Round trip of the attribute column

  /** A key or value as a GTF writer emits it: a word without `;` or `"`. */
  predicate Token(w: string) {
    IsWord(w) && ';' !in w && '"' !in w
  }

  /** One attribute as written in a GTF file: ` key "value"`. */
  function Segment(p: (string, string)): string {
    " " + p.0 + " \"" + p.1 + "\""
  }

  /** The attribute column `key "value"; key "value"; ...;`. */
  function Render(pairs: seq<(string, string)>): string {
    if pairs == [] then "" else Segment(pairs[0]) + ";" + Render(pairs[1..])
  }

  lemma StripSegment(p: (string, string))
    requires Token(p.0) && Token(p.1)
    ensures Strip(Segment(p)) == p.0 + " " + "\"" + p.1 + "\""
  {
    var inner := p.0 + " " + "\"" + p.1 + "\"";
    assert Segment(p) == " " + inner;
    assert Segment(p)[1..] == inner;
    assert inner[0] == p.0[0];
    assert LeadingSpaces(Segment(p)) == 1;
    assert inner[|inner| - 1] == '"';
    assert inner[..|inner|] == inner;
  }

  lemma QuotedIsWord(v: string)
    requires Token(v)
    ensures IsWord("\"" + v + "\"")
  {
    var q := "\"" + v + "\"";
    forall k | 0 <= k < |q| ensures !IsSpace(q[k]) {
      if 0 < k < |q| - 1 {
        assert q[k] == v[k - 1];
      }
    }
  }

  lemma SegmentParses(p: (string, string))
    requires Token(p.0) && Token(p.1)
    ensures ';' !in Segment(p)
    ensures Words(Strip(Segment(p))) == [p.0, "\"" + p.1 + "\""]
    ensures StripChar("\"" + p.1 + "\"", '"') == p.1
  {
    var q := "\"" + p.1 + "\"";
    assert Segment(p) == [' '] + p.0 + [' ', '"'] + p.1 + ['"'];
    assert ';' !in [' '] && ';' !in [' ', '"'] && ';' !in ['"'];
    StripSegment(p);
    assert p.0 + " " + "\"" + p.1 + "\"" == p.0 + " " + q;
    assert Join(" ", [p.0, q]) == p.0 + " " + q;
    QuotedIsWord(p.1);
    WordsOfJoin([p.0, q]);
    StripQuotes(p.1, '"');
    assert ['"'] + p.1 + ['"'] == q;
  }

  /** Splitting a rendered column on `;` gives the segments and a blank. */
  lemma {:induction false} SplitRender(pairs: seq<(string, string)>)
    requires forall i :: 0 <= i < |pairs| ==> Token(pairs[i].0) && Token(pairs[i].1)
    ensures SplitOn(Render(pairs), ';') == Segments(pairs) + [""]
  {
    if pairs != [] {
      SegmentParses(pairs[0]);
      SplitRender(pairs[1..]);
      SplitAtSeparator(Segment(pairs[0]), Render(pairs[1..]), ';');
      assert Render(pairs) == Segment(pairs[0]) + [';'] + Render(pairs[1..]);
    }
  }

  function Segments(pairs: seq<(string, string)>): seq<string> {
    if pairs == [] then [] else [Segment(pairs[0])] + Segments(pairs[1..])
  }

  lemma {:induction false} PairsOfSegments(pairs: seq<(string, string)>)
    requires forall i :: 0 <= i < |pairs| ==> Token(pairs[i].0) && Token(pairs[i].1)
    ensures Pairs(Segments(pairs) + [""]) == Ok(pairs)
  {
    assert Strip("") == [];
    if pairs != [] {
      SegmentParses(pairs[0]);
      PairsOfSegments(pairs[1..]);
      assert (Segments(pairs) + [""])[1..] == Segments(pairs[1..]) + [""];
      assert pairs == [pairs[0]] + pairs[1..];
    }
  }

  /** A rendered column ends with `;`. */
  lemma {:induction false} RenderEndsWithSemicolon(pairs: seq<(string, string)>)
    requires pairs != []
    ensures Render(pairs) == Render(pairs)[..|Render(pairs)| - 1] + ";"
  {
    if |pairs| > 1 {
      RenderEndsWithSemicolon(pairs[1..]);
    }
  }

  /** The source rejects every rendered column with at least one
      attribute. */
  lemma AsWrittenRejectsRendered(pairs: seq<(string, string)>)
    requires pairs != []
    ensures AttributesAsWritten(Render(pairs)) == Err(MalformedAttribute)
  {
    RenderEndsWithSemicolon(pairs);
    AsWrittenRejectsClosingSemicolon(Render(pairs)[..|Render(pairs)| - 1]);
  }

  /** Rendering attributes the way GTF files write them, `;` after every
      one, and parsing the column back gives the same pairs. */
  lemma AttributesRoundTrip(pairs: seq<(string, string)>)
    requires forall i :: 0 <= i < |pairs| ==> Token(pairs[i].0) && Token(pairs[i].1)
    ensures Attributes(Render(pairs)) == Ok(pairs)
  {
    SplitRender(pairs);
    PairsOfSegments(pairs);
  }

  // ---------------------------------------------------------------------
  // The whole line

  /** The outcomes that do not depend on the attributes: an empty line, too
      few fields, a feature that is not an exon. */
  lemma ParseGtfShape(row: string, next: nat, float: string -> Option<real>)
    ensures ParseGtf(row, next, float) == Ok((Blank, next)) <==> row == []
    ensures row != [] && |Fields(row)| < 9 ==> ParseGtf(row, next, float) == Err(TooFewFields)
    ensures row != [] && |Fields(row)| >= 9 && Fields(row)[2] != "exon"
            ==> ParseGtf(row, next, float) == Ok((NotExon, next))
  {
  }

  /** An exon line yields an exon with the 0-based start `int(row[3]) - 1`,
      the end `int(row[4])`, `length == end - start`, the chromosome of
      column 1, a strand in {-1, 0, 1} from column 7, the one transcript of
      its `transcript_id`, multiplicity 1, `name == id`, and the counter
      advanced by one. */
  lemma ParseGtfExon(row: string, next: nat, float: string -> Option<real>)
    requires ParseGtf(row, next, float).Ok? && ParseGtf(row, next, float).value.0.Feature?
    ensures var f := Fields(row); var e := ParseGtf(row, next, float).value.0.exon;
      && |f| >= 9 && f[2] == "exon"
      && ParseInt(f[3]).Some? && e.start == ParseInt(f[3]).value - 1
      && ParseInt(f[4]).Some? && e.end == ParseInt(f[4]).value
      && e.length == e.end - e.start
      && e.chrom == f[0]
      && Strand(f[6]) == Ok(e.strand) && StrandSymbol(e.strand) == f[6]
      && Attributes(f[8]).Ok?
      && "transcript_id" in AttrMap(Attributes(f[8]).value)
      && e.transcripts == [AttrMap(Attributes(f[8]).value)["transcript_id"]]
      && e.multiplicity == 1 && e.name == e.id
      && ParseGtf(row, next, float).value.1 == next + 1
  {
    StrandRoundTrip(Fields(row)[6], 0);
  }

  /** Where the as-written attribute parse succeeds, skipping blank
      segments changes nothing. */
  lemma {:induction false} PairsAgreeWhenWrittenSucceeds(segs: seq<string>)
    ensures PairsAsWritten(segs).Ok? ==> Pairs(segs) == PairsAsWritten(segs)
  {
    if segs != [] {
      PairsAgreeWhenWrittenSucceeds(segs[1..]);
    }
  }

  /** The corrected parse only turns errors of the as-written one into
      results: every line the source parses gives the same result. */
  lemma CorrectionOnlyRescues(row: string, next: nat, float: string -> Option<real>)
    ensures ParseGtfAsWritten(row, next, float).Ok? ==> ParseGtf(row, next, float) == ParseGtfAsWritten(row, next, float)
  {
    if row != [] && |Fields(row)| >= 9 {
      PairsAgreeWhenWrittenSucceeds(SplitOn(Fields(row)[8], ';'));
    }
  }

  /** As written, every exon line whose attribute column ends in `;` raises
      IndexError, whatever its other columns hold. */
  lemma AsWrittenRejectsExonLine(row: string, next: nat, float: string -> Option<real>)
    requires row != [] && |Fields(row)| >= 9 && Fields(row)[2] == "exon"
    requires |Fields(row)[8]| > 0 && Fields(row)[8][|Fields(row)[8]| - 1] == ';'
    ensures ParseGtfAsWritten(row, next, float) == Err(MalformedAttribute)
  {
    var a := Fields(row)[8];
    assert a == a[..|a| - 1] + ";";
    AsWrittenRejectsClosingSemicolon(a[..|a| - 1]);
  }

  /** A line written from an exon in the usual GTF form
      (`key "value";` after every attribute) raises IndexError as written,
      and parses back to that exon once blank segments are skipped. */
  lemma AsWrittenRejectsWrittenLine(cols: seq<string>, start: int, end: int, strand: int, pairs: seq<(string, string)>,
                                    next: nat, float: string -> Option<real>)
    requires |cols| == 9 && forall k :: 0 <= k < 9 ==> '\t' !in cols[k]
    requires var row := Join("\t", cols); !IsSpace(row[0]) && !IsSpace(row[|row| - 1])
    requires -1 <= strand <= 1
    requires cols[2] == "exon" && cols[3] == FormatInt(start + 1) && cols[4] == FormatInt(end)
    requires cols[5] == "." && cols[6] == StrandSymbol(strand)
    requires pairs != [] && cols[8] == Render(pairs)
    requires forall i :: 0 <= i < |pairs| ==> Token(pairs[i].0) && Token(pairs[i].1)
    requires var attrs := AttrMap(pairs);
      "gene_id" in attrs && "gene_name" in attrs && "transcript_id" in attrs && "exon_id" !in attrs
    ensures ParseGtfAsWritten(Join("\t", cols), next, float) == Err(MalformedAttribute)
    ensures var attrs := AttrMap(pairs); var id := "E" + FormatNat(next);
      ParseGtf(Join("\t", cols), next, float)
      == Ok((Feature(NewExon(id, attrs["gene_id"], attrs["gene_name"], cols[0], start, end, id, 0.0, strand, 1,
                             [attrs["transcript_id"]])), next + 1))
  {
    var row := Join("\t", cols);
    StripTrimmed(row);
    SplitOfJoin(cols, '\t');
    assert Fields(row) == cols;
    RenderEndsWithSemicolon(pairs);
    AsWrittenRejectsExonLine(row, next, float);
    AttributesRoundTrip(pairs);
    WrittenLineParses(cols, start, end, strand, pairs, next, float);
  }

  /** A line written from its columns, with an exon's 1-based start and
      end, a score of `.`, one of the three strand symbols and attributes
      without `exon_id`, parses to that exon, named `E<next>`. */
  lemma WrittenLineParses(cols: seq<string>, start: int, end: int, strand: int, pairs: seq<(string, string)>,
                          next: nat, float: string -> Option<real>)
    requires |cols| == 9 && forall k :: 0 <= k < 9 ==> '\t' !in cols[k]
    requires var row := Join("\t", cols); !IsSpace(row[0]) && !IsSpace(row[|row| - 1])
    requires -1 <= strand <= 1
    requires cols[2] == "exon" && cols[3] == FormatInt(start + 1) && cols[4] == FormatInt(end)
    requires cols[5] == "." && cols[6] == StrandSymbol(strand)
    requires Attributes(cols[8]) == Ok(pairs)
    requires var attrs := AttrMap(pairs);
      "gene_id" in attrs && "gene_name" in attrs && "transcript_id" in attrs && "exon_id" !in attrs
    ensures var attrs := AttrMap(pairs); var id := "E" + FormatNat(next);
      ParseGtf(Join("\t", cols), next, float)
      == Ok((Feature(NewExon(id, attrs["gene_id"], attrs["gene_name"], cols[0], start, end, id, 0.0, strand, 1,
                             [attrs["transcript_id"]])), next + 1))
  {
    var row := Join("\t", cols);
    StripTrimmed(row);
    SplitOfJoin(cols, '\t');
    assert Fields(row) == cols;
    FormatThenParse(start + 1);
    FormatThenParse(end);
    StrandRoundTrip(".", strand);
  }
}
