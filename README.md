# rnacounter `draft.py` in Dafny

This project models the counting core of the rnacounter prototype `draft.py`.
That core reads exons from a GTF annotation and cuts each chromosome's exons
into chunks. It splits the overlapping exons of a chunk into non-overlapping
pieces ("cobbling"). It collapses transcripts made of the same long pieces
into one. It builds the piece-by-transcript assignment matrix, and it scores
each piece by the reads an alignment counter sees over it.

Modules, leaf first:

- `Common`: `Option`/`Result`, the error kinds, and list helpers. It also holds `SetIteration`, the order in which the Python runtime lists a set or a dict. That order is a parameter wherever the source iterates over one.
- `Sorting`: an insertion sort with uniqueness of the sorted result, and the string order `sorted()` uses.
- `Text`: the string operations `parse_gtf` uses: `strip`, `strip(c)`, `split()`, `split(sep)`, `int()`, `'%d'`.
- `Gtf`: `parse_gtf`.
- `Features`: the `Exon` record, `__and__`, and `intersect_exons_list`.
- `Cobbling` and `CobblingFacts`: the sweep line `cobble`.
- `Collapse`: regrouping rows of one exon, `t2e`, `e2t`, `tx_replace`, and rewriting the pieces.
- `Matrix`: `tp_map` and the matrix `Avals`.
- `Counting`: the `Counter` class and the scoring loop.
- `Chunking`: the chunk loop of `rnacount`.
- `Pipeline`: `process_chunk` assembled from the blocks above.

Exons are values (`datatype Exon`). The in-place updates of `process_chunk`
(`exon0.transcripts.append`, `p.transcripts = ...`, `p.score = ...`) become
methods that return the updated sequence of exons. No two list entries share
an object in the source, so aliasing plays no part. `Counter` is a class whose
methods update its fields.

Where the source raises, the model returns an error value:

- `ValueError` for fewer than 9 fields;
- `IndexError` on an attribute segment of fewer than two words (`Gtf.ParseGtfAsWritten`; the corrected `Gtf.ParseGtf` skips blank segments, see Findings);
- `KeyError` on a missing attribute or an unknown strand;
- the chromosome assertion in `__and__`;
- `ZeroDivisionError` on an `NH` tag of 0, over the whole chunk or over a piece.

The object identity of exons in `cobble` is their index in the input list.

Where the repository's design notes and the code differ, the model follows the code:

- Strand. The notes describe the strand of a piece as the mean over its exons. The code folds the pairwise floor `(a + b) / 2`, so `Features.Combine` states the floor bounds.
- Group head. The notes ask for a deterministic representative of a transcript group. The code takes the first member in dictionary iteration order (`SetIteration`).
- Matrix denominator. The notes count pieces. The code counts `tp_map[t]`, which lists every piece carrying `t`, short pieces included.
- Stranded counting. The notes let matching reads bump the raw count. `count_stranded` never touches `n_raw`, and nothing sets `Counter.strand`, so it stays 0 (`Counting.StrandZeroCountsNothing`).
- Piece length. The notes keep `length == end - start` on every feature. A piece of several exons has length 0, and a piece of one exon keeps that exon's full length, until scoring recomputes it. The `< 100` filter of `t2e` sees these stale lengths.
- Chunk rule. A chunk continues when the gene id equals that of the previous exon, not that of the chunk.

## Model

| member | source | states |
|---|---|---|
| Gtf.ParseGtfShape | draft.py:20-25 | An empty line gives None, fewer than 9 tab fields raise ValueError, and a feature other than `exon` gives False. |
| Gtf.ParseGtfExon | draft.py:26-32 | An exon line yields start `int(row[3]) - 1` and end `int(row[4])`, with `length == end - start`. The chromosome comes from column 1 and the strand from column 7. It has the one `transcript_id`, multiplicity 1 and `name == id`, and the `E<n>` counter is drawn once. |
| Gtf.WrittenLineParses | draft.py:12-32 | With blank attribute segments skipped (the corrected parse), a 9-column line written from an exon (1-based start, end, `.` score, strand symbol, attributes without `exon_id`) parses back to that exon, named `E<next>`. |
| Gtf.AsWrittenRejectsWrittenLine | draft.py:12-32 | The same line in the usual GTF form (`key "value";` after every attribute) raises IndexError as written, and the corrected parse gives back the exon. |
| Gtf.AsWrittenRejectsExonLine | draft.py:20-27 | As written, every exon line whose attribute column ends in `;` raises IndexError. |
| Gtf.CorrectionOnlyRescues | draft.py:12-32 | Every line the source parses gives the same result under the corrected parse: the correction only turns errors into results. |
| Gtf.StrandRoundTrip | draft.py:17-19 | `+`, `-` and `.` map to 1, -1 and 0 and back; every accepted symbol is one of these. |
| Gtf.AttrMapFacts | draft.py:27 | `dict(pairs)` has exactly the keys of the pairs, and each key holds the value of its last pair. |
| Gtf.AsWrittenRejectsClosingSemicolon | draft.py:26-27 | As written, every attribute column ending in `;` fails: the empty segment after it has no `x[0]`. |
| Gtf.AsWrittenRejectsRendered | draft.py:26-27 | As written, every attribute column in the usual GTF form `key "value";` fails. |
| Gtf.AttributesRoundTrip | draft.py:26-27 | With blank segments skipped, parsing a rendered attribute column gives back its key/value pairs. |
| Text.StripFacts | draft.py:21 | `strip()` returns a slice with only whitespace removed around it, and it neither starts nor ends with whitespace. |
| Text.WordsOfJoin | draft.py:26 | `split()` of words joined by spaces gives the words back. |
| Text.SplitOfJoin | draft.py:21 | `split(sep)` inverts `sep.join` when no part holds `sep`. |
| Text.JoinOfSplit | draft.py:21 | `sep.join(s.split(sep)) == s`. |
| Text.StripQuotes | draft.py:27 | `strip('"')` removes the quotes around a value that has none at its ends. |
| Text.FormatThenParse | draft.py:28-30 | `int('%d' % i) == i`. |
| Features.NewExon | draft.py:72-76 | The `Exon` constructor sets `length == end - start`. |
| Features.Combine | draft.py:50-80 | `a & b` succeeds iff the chromosomes agree. The result keeps the chromosome, concatenates the ids, joins the two names with a vertical bar, duplicates kept, and joins the gene id and gene name as a set. Its strand is the floor of the mean, its multiplicity the sum, its transcripts the union without duplicates, and its start, end, length and score are 0. |
| Features.JoinSetPair | draft.py:57-58 | Joining the set of two gene ids (or names) with a vertical bar gives `x` when they are equal, otherwise both in either order. |
| Features.Fold | draft.py:97 | `reduce(&)` succeeds iff all share one chromosome. The ids are concatenated in order, the multiplicities summed and the transcripts united. Several exons give length and score 0. A common strand or gene id is kept. |
| Features.IntersectExonsList | draft.py:88-97 | It succeeds iff all listed exons share a chromosome, and then keeps it. The result's transcripts are exactly the union over the list. Its multiplicity is the sum over the distinct exons with `multiple` false, and over the list as given with `multiple` true, where the ids are concatenated in list order. A list of one exon, repeated or not when `multiple` is false, gives that exon unchanged. |
| Features.MultiplicityOfListing | draft.py:93-97 | The multiplicity sum does not depend on the order the set is listed in. |
| Features.CombineSetChrom | draft.py:88-97 | Combining a set of exons succeeds iff they share a chromosome, and then keeps it. |
| Features.CombineSetTranscripts | draft.py:88-97 | The combined transcripts are exactly the union over the set. |
| Features.CombineSetMultiplicity | draft.py:88-97 | The combined multiplicity is the sum over the set. |
| Features.CombineSetFresh | draft.py:50-80 | Two or more exons give length 0 and score 0 with no duplicate transcripts. A strand or gene id shared by all is kept. |
| Features.CombineSetSingle | draft.py:94-95 | A lone exon is copied unchanged. |
| Cobbling.Cobble | draft.py:100-121 | It succeeds iff every set of exons active together shares a chromosome. Then each piece has `start < end`, and the same non-empty set of exons is active over it, changing at both ends. It carries that set's combination clamped to the span. The pieces are in order and pairwise disjoint, and together they cover exactly the positions some exon covers. |
| Cobbling.SweepEvent | draft.py:108-120 | One event of the sweep keeps the active list exactly the exons opened and not yet closed. It fails only when active exons lie on different chromosomes. Otherwise it appends at most one piece, and every covered position before the next event lies in a piece. |
| Cobbling.StepEvent | draft.py:110-113 | Appending on an open event and removing on a close event keeps the active list duplicate-free and exactly the exons opened and not yet closed. |
| Cobbling.ChromsOfCobbling | draft.py:114-120 | Once all covered positions are in pieces, every active set shares a chromosome. |
| CobblingFacts.CobblingOfNone | draft.py:103-121 | No exons give no pieces. |
| CobblingFacts.CobblingOfOne | draft.py:100-121 | One exon gives exactly one piece: that exon. |
| CobblingFacts.PieceContents | draft.py:114-120 | A piece's transcripts are the union, and its multiplicity the sum, over the exons active at any position of its span, and it lies on their chromosome. Several exons give length and score 0. A single exon is kept with its own length. |
| Collapse.Regroup | draft.py:175-181 | The loop computes `Regrouped`: each run of rows with one id becomes its first row plus the first transcript of every later row. |
| Collapse.RegroupKeepsTranscripts | draft.py:178-180 | On one-transcript rows, the regrouped exons carry all the rows' transcripts in row order. |
| Collapse.RegroupKeepsRows | draft.py:178-181 | Every regrouped exon is an input row with only its transcript list changed. |
| Collapse.RegroupSeparatesIds | draft.py:176 | Neighbouring regrouped exons have different ids. |
| Collapse.RegroupIdsAreRunHeads | draft.py:176-181 | The regrouped ids are the input ids with repeats of the previous id dropped. |
| Collapse.BuildT2E | draft.py:202-206 | The loop builds `t2e`: each transcript on a piece of length at least 100, mapped to the ids of those pieces in order. |
| Collapse.SignatureMembers | draft.py:203-206 | A signature is non-empty iff the transcript is on a long piece. It holds exactly the ids of the long pieces carrying the transcript. |
| Collapse.BuildE2T | draft.py:207-210 | The loop builds `e2t` over `t2e` in dictionary order. |
| Collapse.E2TIsGrouping | draft.py:208-210 | Each key of `e2t` lists, in iteration order, exactly the transcripts whose sorted signature is that key. |
| Collapse.KeyEqualIff | draft.py:209 | Two sorted signatures are equal iff the signatures are permutations of each other. |
| Collapse.GroupsFacts | draft.py:207-210 | The groups are non-empty and disjoint. Every member has the group's key, and every transcript of `t2e` is in the group of its key. |
| Collapse.ReplacementIsHead | draft.py:213-215 | `tx_replace.get(t, t)` sends every transcript on a long piece to the head of its group and leaves the others alone. |
| Collapse.ReplacementHasNoChains | draft.py:213 | No value of `tx_replace` is also a key. |
| Collapse.ReplacementIdempotent | draft.py:213-215 | Replacing twice equals replacing once. |
| Collapse.SameHeadIffSameStructure | draft.py:202-215 | Two transcripts on long pieces get the same replacement iff they are made of the same long pieces, counted with repetition. |
| Collapse.ReplacementKeepsStructure | draft.py:202-215 | A transcript's replacement is made of the same long pieces. |
| Collapse.AppendToAll | draft.py:205-206 | The inner loop appends the piece id to the list of every transcript it names, once per listing, creating missing entries. |
| Collapse.Rewrite | draft.py:214-218 | Each piece gets the set of its replaced transcripts, listed in the runtime's order, and `transcripts` lists the running union. |
| Collapse.RewrittenUnionMembers | draft.py:216 | The running union holds exactly the replaced transcripts of some piece. |
| Collapse.CollapseTranscripts | draft.py:202-218 | Each piece gets `list(set(tx_replace.get(t, t) ...))` in the runtime's order, and `transcripts` lists the union. |
| Collapse.RewrittenFacts | draft.py:214-218 | After rewriting, no piece lists a transcript twice. `transcripts` holds each transcript of a piece exactly once, and none of them is replaced again. |
| Matrix.BuildTpMap | draft.py:222-225 | The loop builds `tp_map`: every transcript on a piece, mapped to the names of the pieces carrying it, in order. |
| Matrix.PieceNamesEmpty | draft.py:222-225 | `tp_map[t]` is empty iff no piece carries `t`. |
| Matrix.AssignmentMatrix | draft.py:240 | With no pieces the matrix is empty. Otherwise it exists iff every transcript has a non-empty `tp_map` entry, and the source raises KeyError or ZeroDivisionError exactly when one has not. It has one row per piece and one column per transcript. |
| Matrix.PieceNamesLength | draft.py:222-225 | With no duplicates per piece, `len(tp_map[t])` is the number of pieces carrying `t`. |
| Matrix.CarriersPositive | draft.py:222-225 | A transcript has a carrier iff some piece lists it. |
| Matrix.MatrixDefined | draft.py:222-240 | For transcripts taken from the pieces, the matrix is defined. |
| Matrix.ColumnsSumToOne | draft.py:214-240 | After collapsing, every column of the matrix sums to exactly 1. |
| Counting.WeightOfTags | draft.py:147-152 | An alignment's weight fails iff some `NH` tag is 0. It is 1 without an `NH` tag, and otherwise the reciprocal of the first `NH` value. |
| Counting.NhValuesFacts | draft.py:147 | The list of `NH` values is empty iff there is no `NH` tag, and it starts with the first one. |
| Counting.TallyDoneIff | draft.py:143-157 | A run of calls completes iff no alignment's weight raises. |
| Counting.TallyUnstranded | draft.py:146-149 | Unstranded counting adds the total weight to `n`, one per alignment to `n_raw`, and nothing to `n_ws`. |
| Counting.TallyStranded | draft.py:151-157 | Stranded counting splits the total weight between `n` (on strand) and `n_ws` (the rest), and leaves `n_raw` unchanged. |
| Counting.StrandZeroCountsNothing | draft.py:137-154 | With strand 0, no alignment is on strand. |
| Counting.Counter.constructor | draft.py:133-141 | A new counter has all tallies and the strand at 0. |
| Counting.Counter.Call | draft.py:143-157 | One call succeeds iff the weight is defined, and then applies one counting step. On failure nothing changes, and the strand never changes. |
| Counting.Counter.Fetch | draft.py:143-157 | Calling on each alignment in turn ends with the tallies of the run, and succeeds iff no weight raises. |
| Counting.ScoreOne | draft.py:247-250 | One turn of scoring succeeds iff the weights are defined and the span is non-empty. The piece then gets `length = end - start` and `score = 1000 * m / length` for its `m` alignments, and `n_raw` is back to 0. `n` grows by the total weight, `n_ws` and the strand stay, and on failure the tallies are those of the run up to the raising alignment. |
| Counting.ScorePieces | draft.py:245-250 | The scoring loop succeeds iff every piece's turn does, and it scores each piece by its own alignments. |
| Chunking.Chunks | draft.py:286-299 | An empty exon list raises. Otherwise the loop yields every chunk handed to `process_chunk` with its `lastend`, as `Chunked` defines them. |
| Chunking.ChunksConcat | draft.py:289-299 | The chunks, one after the other, are the exon list. |
| Chunking.ChunkStarts | draft.py:291-296 | Every chunk after the first starts with an exon that starts beyond the running maximum of the earlier ends and whose gene id differs from the previous exon's. |
| Chunking.ChunkMembers | draft.py:291-292 | Every other exon of a chunk starts at or before that running maximum, or repeats the previous exon's gene id. |
| Chunking.ChunkEnds | draft.py:295-299 | Each chunk is processed with the running maximum of the ends of all exons up to its last one. |
| Chunking.ChunksNonEmpty | draft.py:286-299 | The first chunk is empty iff the first exon ends before it starts and has a non-empty gene id. Every later chunk is non-empty. |
| Chunking.FilteredChunksNonEmpty | draft.py:286-299 | With the exons the loader keeps (`end - start > 1`), no chunk is empty. |
| Pipeline.AssignTranscripts | draft.py:200-240 | The output pieces are the input pieces with their transcripts replaced by the set of their `tx_replace` images, in the runtime's order, and nothing else changed. `transcripts` lists the union of those sets, and the matrix is `Avals` over the output pieces. No piece lists a transcript twice, each transcript is listed once in the union, and every matrix column sums to 1. |
| Pipeline.ScoreChunk | draft.py:243-250 | Scoring succeeds iff the alignments over every piece's own span carry no `NH` tag of 0. Then each piece is the input piece with only `length = end - start` and its score set, from the alignments over its span. |
| Pipeline.ProcessExons | draft.py:196-250 | Cobbling, collapsing, `Avals` and scoring on the regrouped exons of a chunk. If all exons active together share a chromosome and no `NH` tag is 0, it succeeds, and success implies the shared chromosomes. On success there is a cobbling of the exons (as `Cobbling.Cobble` states it) from which the result derives: each piece is that piece collapsed, then scored by the reads over its span; the transcripts are the union of the collapsed sets; the matrix is `Avals` over the collapsed pieces. The pieces lie in order, cover exactly the exons, and carry no transcript twice, and every matrix column sums to 1. With shared chromosomes, failure means that the reads over some piece of a cobbling carry an `NH` tag of 0. |
| Pipeline.ProcessChunk | draft.py:167-250 | An empty chunk raises. If all exons active together share a chromosome and no `NH` tag is 0, it succeeds. Success implies the shared chromosomes, and that the reads over the whole chunk (first exon's start to `lastend`) carry no `NH` tag of 0. On success the result derives from a cobbling of the regrouped rows exactly as for `ProcessExons`. With shared chromosomes and usable reads over the whole chunk, failure means that the reads over some piece of a cobbling carry an `NH` tag of 0. |

## Left out

- File and alignment I/O: `pysam`, the annotation reader, `sam.close`, and the module-level call (draft.py:260-283, 301-309). `sam.fetch` is a parameter (`Counter.Fetch` takes the alignments; `ProcessChunk` takes a function from a span to its alignments).
- The chromosome-loading loop (draft.py:265-283): reading rows, the `end - start > 1` filter, and the sort by `(start, end)`. Only the chunk loop that follows is modelled.
- `print`, `numpy.asarray` and the debugging block (draft.py:193, 233, 256): output only. The matrix is a `seq<seq<real>>`.
- `isnum` and the chromosome renaming (draft.py:124-130, 185-187): they depend on `float()` of arbitrary text.
- The `Gapdh` gene filter (draft.py:171): scaffolding.
- The tallies of `allcounter` (draft.py:190-193): they are only printed. Its fetch is modelled, because an `NH` tag of 0 there raises.
- `te_map` and the second `tp_map` (draft.py:227-231, 244, 251-253): their contents are never used.
- `Transcript` (draft.py:82-85): never used.
- Floating point: weights, scores and matrix entries are exact reals. `float()` of the score column is a parameter of `Gtf.ParseGtf`.
- The tie-break between events with equal position and kind: Python 2 compares the exon objects, and the model compares their indices. Through `set()` it can only change the fold order, which is a parameter (`SetIteration`).
- `Text.ParseInt`: models `int()` on ASCII decimal text with an optional sign and surrounding whitespace. Other forms Python accepts, such as whitespace between the sign and the digits (`int('- 5')`) or non-ASCII digits, are rejected.
- `Gtf.ParseGtf`: skips blank attribute segments where the source raises IndexError (see Findings). `Gtf.ParseGtfAsWritten` keeps the source's behaviour, and `Gtf.CorrectionOnlyRescues` relates the two.
- `Cobbling.Cobble`: requires every exon to have `start < end`. For a zero-length exon the source's `remove` runs before the `append` and raises. The loader's `end - start > 1` filter excludes such exons.
- `Pipeline.ProcessChunk`: requires every row to have `start < end`, and every row merged into an earlier one to have a transcript. Rows from `parse_gtf` and the loader meet both.
- `Pipeline.ProcessChunk`: ties its result to some cobbling of the regrouped exons (`exists cob`) rather than to the one `cobble` computes. That a cobbling of given exons is unique is not proved.
- `Pipeline.ProcessExons`: the same, and its condition for success is stated in both directions only through such a cobbling.
- `Counting.ScoreOne`: covers only the unstranded counter with `n_raw` at 0, which is how `pcounter` is created and reset.

## Findings

| source | as written | input that shows it | evidently intended | confidence | as-written member | corrected member |
|---|---|---|---|---|---|---|
| draft.py:26-27 | The attribute column is split on `;` and every segment must hold two words. The empty segment after the closing `;` of a standard GTF line raises IndexError. | `gene_id "g"; gene_name "n"; transcript_id "t";` | Skip blank segments, so that standard GTF attribute columns parse. | not executed | Gtf.AsWrittenRejectsRendered | Gtf.AttributesRoundTrip |
| draft.py:12-32 | `parse_gtf` reads the attributes as above, so no exon line of a standard GTF file (attribute column ending in `;`) parses. | `chr1\tsrc\texon\t1\t10\t.\t+\t.\tgene_id "g"; gene_name "n"; transcript_id "t";` | Parse the line to its exon. | not executed | Gtf.AsWrittenRejectsWrittenLine | Gtf.WrittenLineParses |
