# Global alignment with affine gaps: a Dafny model

This project models the core of a small Python package for global sequence
alignment with affine gap costs (Gotoh's three-matrix method). The matrix
scores and gap costs come from a BLOSUM file. The model covers three parts.

- **The BLOSUM reader** (`blosum_reader.dfy`, with `tokens.dfy` for
  `int(token)` and the gap-line pattern). It reads a matrix file given as
  its non-empty lines, already split into tokens. The similarity table is
  filled symmetrically from the rows, and the last write wins. The distance
  table is derived from it by the formula `(s(a,a) + s(b,b)) / 2 - s(a,b)`.
  The two gap costs are read after that, and the two lookups are modelled.
  The class `BlosumReader` keeps the source's fields, with the dictionaries
  as maps. The loading steps are methods that update those fields. Each is
  proved against a function over the tables: the row and fill steps
  (`WriteRow`, `ReadSimilarity`, `WriteDistance`). The two lookups are
  functions of the class.
- **The three-matrix procedures** (`gotoh.dfy`). The aligners share them,
  and they work in place on `array2<Cell>`:
  - initialisation of A, I and D;
  - the fill, cell by cell, with the source's strict comparators and tie
    rules;
  - the traceback walk, the final drain and the reversal.

  A cell is `Unset` (Python's `None`) until it is written. This lets the
  proofs show that the fill never reads an unwritten cell. Each walk is
  proved against a ghost function `Trace`. The rows returned are proved to
  be a global alignment of the two inputs.
- **The aligner classes.**
  - `GlobalAlignerBase` (`global_aligner_base.dfy`) has two named
    constructors for the similarity and distance subclasses.
  - The older `GlobalAligner` (`global_aligner.dfy`) chooses the mode per
    call. Its `D[0][0]` is never written, and its traceback has no final
    drain.

The comparator and the score lookup, which the source stores as functions,
are one `Mode` value: `Similarity` (`gt`, the similarity lookup) or
`Distance` (`lt`, the distance lookup). Scores are exact reals.

A tie between two candidates of the recurrence goes to the second argument
of the comparator. This is what the code does, and the model follows it. A
gap cell keeps "open from A" on a tie. An A cell prefers D over I on a tie,
and prefers either gap over the diagonal.

## Model

| member | source | states |
|---|---|---|
| Tokens.ParseInt | blosum_reader.py:99 | `int(token)` succeeds exactly on an optional sign followed by decimal digits; unsigned tokens give non-negative values, `-` tokens non-positive ones |
| Tokens.ParseShow | blosum_reader.py:99 | round trip: parsing the decimal text of any integer gives that integer back |
| Tokens.GapLine | blosum_reader.py:133-136 | a gap line is accepted exactly when it is three tokens `name`, `=`, `-?digits`; the cost is `int` of the third token |
| Tokens.GapLineShow | blosum_reader.py:133-143 | round trip: the line `name = n` is accepted with cost `n`, for every integer `n` |
| Tokens.GapLineRefusesPlus | blosum_reader.py:133-136 | a `+digits` token that `int` accepts is still refused on a gap line |
| Blosum.DistanceSymmetric | blosum_reader.py:118 | on a symmetric table the distance formula is symmetric and zero on the diagonal |
| Blosum.WriteCell | blosum_reader.py:97-102 | after one token is written, both orders of the two labels hold its value; no row is added |
| Blosum.WriteCellFrame | blosum_reader.py:97-102 | writing one token changes no other entry and adds no other entry |
| Blosum.WriteCellSymmetric | blosum_reader.py:97-102 | a mirrored write keeps the table symmetric |
| Blosum.WriteRow | blosum_reader.py:97-102 | a row is written without error exactly when it has no more tokens than headers and every token is an integer; otherwise the first token that cannot be stored decides the error: IndexError (`TooManyScores`) when it is past the last header, else ValueError (`NotAnInteger`, naming its column); the error names the row |
| Blosum.ReadRows | blosum_reader.py:90-106 | reading rows adds no row to the table; an error raised in a row names a row between the current one and the last |
| Blosum.ReadRowsUnfold | blosum_reader.py:93-106 | one pass of the row loop: write the row, then go on with the next line |
| Blosum.EmptyRows | blosum_reader.py:73-77 | initialisation gives exactly one row per header label, each empty |
| Blosum.WriteRowKeepsShape | blosum_reader.py:97-102 | writing a row keeps the table symmetric, with header labels as its only columns |
| Blosum.ReadRowsKeepsShape | blosum_reader.py:90-106 | reading all rows keeps the table symmetric, with header labels as its only columns |
| Blosum.ReadRowsStopsAtError | blosum_reader.py:93-95 | an error raised in row `k` does not depend on any line after row `k`: no further row is read |
| Blosum.ReadSimilarityLastWriteWins | blosum_reader.py:90-106 | for distinct headers and a full square matrix in the file, every pair of labels gets the score of the later of its two rows (the lower triangle); a symmetric matrix is stored exactly |
| Blosum.WriteDistance | blosum_reader.py:119-122 | a distance is stored under both orders, and nothing else changes |
| Blosum.FillStep | blosum_reader.py:115-122 | one pass of the inner fill loop sets the distance of one more pair of header positions, under both orders |
| Blosum.FillDone | blosum_reader.py:115-116 | once every pair `i <= j` of header positions is done, every pair of header labels has its distance |
| Blosum.FilledTablesLoaded | blosum_reader.py:110-122 | after a successful fill, both tables are square over the header labels, the similarity table is symmetric and every distance follows the formula |
| Blosum.BlosumReader.constructor | blosum_reader.py:21-29 | a new reader has an empty name, no headers, empty tables and zero gap costs |
| Blosum.BlosumReader.InitMatrices | blosum_reader.py:69-77 | both tables become one empty row per header, and no other row |
| Blosum.BlosumReader.ReadRowScores | blosum_reader.py:97-102 | the row loop's writes give the table `WriteRow` describes, or the error it names |
| Blosum.BlosumReader.ReadSimilarityMatrix | blosum_reader.py:80-108 | the method gives the same table and error as the row-reading function; on success exactly one line per header is read, and the returned tokens are the line after the last row |
| Blosum.BlosumReader.FillDistanceMatrix | blosum_reader.py:110-122 | it succeeds exactly when every pair of header labels has a similarity score (else KeyError); on success every pair has its distance by the formula, and no row is added |
| Blosum.BlosumReader.ReadGaps | blosum_reader.py:125-143 | a bad first gap line raises and changes nothing; otherwise the initiation cost is stored before the extension line is checked; both costs are stored exactly when both lines match |
| Blosum.BlosumReader.ReadTables | blosum_reader.py:53-56 | headers, initialisation, rows and distances succeed exactly when the rows read and every pair of labels is scored; then the tables are the loaded tables of the read matrix |
| Blosum.BlosumReader.ReadFile | blosum_reader.py:45-57 | a file is accepted exactly when it has a title, headers, one row per header, every pair scored and the two gap lines; on success the reader holds the name, the headers, the read tables and both gap costs |
| Blosum.BlosumReader.GetSimilarityScore | blosum_reader.py:146-153 | the lookup is defined exactly where the table has the pair (else KeyError) and returns the stored score |
| Blosum.BlosumReader.GetDistanceScore | blosum_reader.py:156-163 | the lookup is defined exactly where the table has the pair (else KeyError) and returns the stored distance |
| Blosum.LoadedLookups | blosum_reader.py:146-163 | after loading, both lookups are defined exactly on pairs of header labels and are symmetric; the distance follows the formula from the similarity lookups; a label's distance to itself is 0 |
| Gotoh.BetterStrictOrder | global_similarity_aligner.py:26 | the comparator `gt` (and `lt`, global_distance_aligner.py:26) is a strict total order on scores: irreflexive, asymmetric, transitive, and one way or the other on distinct scores |
| Gotoh.MatchScoreLookups | global_aligner_base.py:145 | the score of a letter pair is the reader's similarity lookup (blosum_reader.py:146-153) taken as a real in similarity mode, and the distance lookup (blosum_reader.py:156-163) in distance mode; undefined exactly where the lookup raises KeyError |
| Gotoh.PickGap | global_aligner_base.py:135-142 | a D or I cell extends the gap (tag `None`) exactly when that is strictly better than opening one; a tie opens (tag "A"); the score is the chosen candidate and nothing is better |
| Gotoh.PickAlign | global_aligner_base.py:150-153 | an A cell takes the diagonal exactly when it is strictly better than both gaps, else I exactly when I is strictly better than D, else D; never tag "A"; the score is optimal |
| Gotoh.NewAlignmentMatrix | global_aligner_base.py:85-98 | A is fresh; `A[0][0] = 0`; the first row and column are `gi + k * ge`, tag `None`; every inner cell is unset |
| Gotoh.NewInsertionMatrix | global_aligner_base.py:101-110 | I is fresh; `I[i][0] = A[i][0] + gi`, tag `None`, for every row; every other cell is unset |
| Gotoh.NewDeletionMatrix | global_aligner_base.py:113-122 | D is fresh; `D[0][j] = A[0][j] + gi`, tag `None`, from column `first` on; every other cell is unset |
| Gotoh.NewMatrices | global_aligner_base.py:73-82 | three fresh, distinct matrices of the given size, with the boundaries written and every other cell unset |
| Gotoh.InitialisedBoundaryScored | global_aligner_base.py:131-148 | on initialised matrices, every boundary cell the fill reads is written (including with `D[0][0]` unset) |
| Gotoh.NeighboursScored | global_aligner_base.py:135-148 | when the cells before `(i, j)` are filled, every cell the recurrence at `(i, j)` reads is written |
| Gotoh.FillCell | global_aligner_base.py:133-153 | only cell `(i, j)` changes; D and then I follow the recurrence whatever the lookup gives; the lookup result is returned; when it succeeds A follows the recurrence, and when it fails A is left as it was |
| Gotoh.FillRow | global_aligner_base.py:132-153 | row `i` is filled left to right; when a pair has no score it stops and returns that pair, which is the first unscored pair of row `i` (every pair before it in fill order is scored); otherwise every cell up to the end of row `i` follows the recurrence; the boundary is unchanged |
| Gotoh.Fill | global_aligner_base.py:125-153 | the fill succeeds exactly when every letter pair is scored; otherwise it reports the first unscored pair in row-major order (KeyError); on success every inner cell follows the recurrence; the boundary is unchanged |
| Gotoh.FilledUpToScored | global_aligner_base.py:132-145 | once the cells up to `(i, j)` are filled, every letter pair before `(i - 1, j - 1)` in fill order has been scored |
| Gotoh.FilledScoresAllPairs | global_aligner_base.py:145 | a completed fill has looked up every pair of letters |
| Gotoh.FilledTraceable | global_aligner_base.py:150-153 | after the fill, every inner cell is written and no A cell has tag "A" |
| Gotoh.Trace | global_aligner_base.py:171-210 | the walk of the main loop ends with a coordinate at 0 and emits two rows of equal length |
| Gotoh.TraceStrips | global_aligner_base.py:171-210 | from any cell and matrix, the walk's rows strip to exactly the letters it passes over; gap-free inputs give no gap-over-gap column |
| Gotoh.StripsAlignment | global_aligner_base.py:187-196 | the same, from a cell of A |
| Gotoh.StripsInsertion | global_aligner_base.py:198-203 | the same, from a cell of I |
| Gotoh.StripsDeletion | global_aligner_base.py:205-210 | the same, from a cell of D |
| Gotoh.TraceWhole | global_aligner_base.py:171-210 | from the bottom-right cell of A, the reversed rows strip to the suffixes after where the walk stopped |
| Gotoh.TraceStep | global_aligner_base.py:185-210 | one pass of the main loop continues the walk and lowers its rank, so the loop ends |
| Gotoh.TraceCells | global_aligner_base.py:162-210 | the main loop returns exactly the walk from the bottom-right cell of A: its rows and the cursor where it stopped |
| Gotoh.DrainRows | global_aligner_base.py:213-216 | the first drain loop appends a gap over each of the `i` remaining vertical letters, last letter first |
| Gotoh.DrainColumns | global_aligner_base.py:217-220 | the second drain loop appends each of the `j` remaining horizontal letters over a gap, last letter first |
| Gotoh.DrainPrefix | global_aligner_base.py:212-220 | after both drain loops, the reversed rows strip to the whole sequences |
| Gotoh.Traceback | global_aligner_base.py:155-223 | the rows are the walk plus the drain, reversed; together they are a global alignment of the inputs (equal length; each strips to its input; gap-free inputs come back exactly with no gap-over-gap column) |
| AlignerBase.GlobalAlignerBase.SimilarityAligner | global_similarity_aligner.py:23-29 | the similarity aligner uses `gt` and the similarity lookup, and takes the reader's gap costs as they are |
| AlignerBase.GlobalAlignerBase.DistanceAligner | global_distance_aligner.py:23-29 | the distance aligner uses `lt` and the distance lookup, and negates the reader's gap costs |
| AlignerBase.GlobalAlignerBase.InitMatrices | global_aligner_base.py:73-82 | dimensions `|seqY| + 1` by `|seqX| + 1`; three fresh matrices, initialised with `D[0][0]` written |
| AlignerBase.GlobalAlignerBase.ComputeMatrices | global_aligner_base.py:125-153 | succeeds exactly when every letter pair is scored, else KeyError on the first unscored pair in fill order; on success the boundary is kept, every inner cell follows the recurrence, and the matrices are ready for the traceback |
| AlignerBase.GlobalAlignerBase.TracebackMatrices | global_aligner_base.py:155-226 | the rows are the walk plus the drain, reversed, and form a global alignment of the inputs; the score is the bottom-right cell of A |
| AlignerBase.GlobalAlignerBase.Align | global_aligner_base.py:49-70 | an empty input returns both inputs and changes nothing; otherwise the outcome is the first unscored pair in fill order (KeyError), or the rows of the traceback (the walk from the bottom-right cell of A plus the drain, reversed), a global alignment of the inputs scored by `A[n][m]`, with the matrices filled by the recurrence; the comparator and gap costs are unchanged |
| Aligner.GlobalAligner.constructor | global_aligner.py:28-45 | a new aligner has an empty reader, no mode and zero gap costs |
| Aligner.GlobalAligner.SetBlosum | global_aligner.py:48-55 | loading succeeds exactly on an accepted file; then the reader is loaded with the file's matrix name, headers, similarity table (the rows read) and both gap costs (the two gap lines); a file with fewer than two lines is refused at the end of the file |
| Aligner.GlobalAligner.DistanceAlignment | global_aligner.py:58-72 | sets `lt`, the distance lookup and negated gap costs, then aligns: the first unscored pair (KeyError), or the reversed rows of the walk from the bottom-right cell of A, with no drain, scored by `A[n][m]` |
| Aligner.GlobalAligner.SimilarityAlignment | global_aligner.py:74-88 | sets `gt`, the similarity lookup and the gap costs as read, then aligns: the first unscored pair (KeyError), or the reversed rows of the walk from the bottom-right cell of A, with no drain, scored by `A[n][m]` |
| Aligner.GlobalAligner.InitMatrices | global_aligner.py:114-163 | as in the base class, except that D's first row is written from column 1, so `D[0][0]` stays unset |
| Aligner.GlobalAligner.ComputeMatrices | global_aligner.py:166-195 | as in the base class (including the first unscored pair in fill order on KeyError), on the boundary with `D[0][0]` unset (a cell the fill never reads) |
| Aligner.GlobalAligner.TracebackMatrices | global_aligner.py:197-252 | the rows are the walk alone, reversed: equal length, and they strip only to suffixes of the inputs from a row or column where a coordinate is 0; the score is `A[n][m]` |
| Aligner.GlobalAligner.Align | global_aligner.py:90-111 | an empty input returns both inputs and changes nothing; with no mode set, TypeError; otherwise the first unscored pair in fill order (KeyError), or the reversed rows of the walk from the bottom-right cell of A (no drain): equal length, stripping to suffixes of the inputs, scored by `A[n][m]` |
| Aligner.DrainlessTraceDropsLetter | global_aligner.py:212-252 | on "BA" against "A" (similarity, gaps -11/-1, a 4/0 match table) the walk stops with `j = 1`, so the older traceback returns ("A", "A") and loses the `B` |

## Left out

- File reading (`open`, `readline`, and the blank-line skipping of `_next_line`) is not modelled. The reader takes the file's non-empty lines, already split into tokens.
- At the end of the file, `_next_line` loops forever, because `readline` keeps returning `''`. The model reports `NoMoreLines` instead.
- The state a reader or aligner is left in after an exception is not modelled. Only the outcome is stated.
- Blosum.BlosumReader.ReadFile: the kind of error is stated only for a file with fewer than two lines. For longer files the contract says only that the file is refused exactly when it is not accepted.
- Blosum.BlosumReader.ReadTables: as for ReadFile, the contract does not say which error a refused file gets.
- Blosum.BlosumReader.FillDistanceMatrix: it requires a symmetric similarity table, which the reader always leaves (ReadRowsKeepsShape). The fill on a non-symmetric table is not described.
- Gotoh.Fill: the cells written before a missing pair stops the fill are not described. Only the boundary is stated to be kept. The same holds for FillRow and for both ComputeMatrices methods.
- Python's `int` also accepts underscores between digits, non-ASCII digits and surrounding whitespace, and `\d` also matches non-ASCII digits. Tokens here are ASCII only, with no whitespace.
- The regular-expression engine is not modelled. The gap-line check is the equivalent test on the whitespace-free tokens.
- Scores are exact reals, not floating-point numbers. The division by 2 in the distance formula is exact.
- The comparator and score function are stored as functions in the source. Here they are the `Mode` value. An aligner with no comparator set (the older class before a mode method) gives `ModeNotSet`, which stands for the TypeError.
- The base class constructor reads its BLOSUM file itself. The two named constructors here take an already loaded reader instead.
- The traceback's `prevMatrix` cache of the current matrix is not modelled. Each case reads its own matrix, which gives the same cell.
- `is` comparisons of origin tags are treated as equality.
- `sequence_reader.py` (reading the two sequences from a file) and `main.py` (the script that runs an alignment and prints it) are not part of this model.
- `blosum.py` (an older BLOSUM loader, the class `Blosum`) and `global_alignment.py` (an unfinished alignment class, `GlobalAlignment`) are not part of this model. The reader and aligner classes modelled here replace them.

## Findings

| source | as written | input that shows it | evidently intended | confidence | as-written member | corrected member |
|---|---|---|---|---|---|---|
| global_aligner.py:212-252 | the traceback of `GlobalAligner` stops when `i` or `j` reaches 0 and returns only the columns of the walk, with no final drain | similarity mode, a match table scoring A/A 4 and A/B 0, gap costs -11/-1, `seqX = "BA"`, `seqY = "A"`: the walk matches the two `A`s and stops at `j = 1`, returning ("A", "A", -8) (an `int` in similarity mode) | the drain of the base class (global_aligner_base.py:212-220), giving ("BA", "-A", -8), a global alignment of both inputs | not executed | Aligner.DrainlessTraceDropsLetter | AlignerBase.GlobalAlignerBase.TracebackMatrices |
