/**
 * The in-memory part of the BLOSUM reader: the similarity table filled
 * symmetrically from tokenised rows (last write wins), the distance table
 * derived from it, the two gap-cost lines, and the two score lookups.
 *
 * The file is given as its non-empty lines, each already split on
 * whitespace; reading the file and skipping blank lines are not modelled.
 */
module Blosum {
  import opened Wrappers
  import opened Tokens

  /** One non-empty line of the matrix file, split on whitespace. */
  type TokenLine = s: seq<string> | |s| > 0 witness ["?"]

  /** A two-level dictionary `{ label: { label: score } }`. */
  type Table<V> = map<string, map<string, V>>

  /** The exceptions the reader raises. */
  datatype LoadError =
    | NoMoreLines                  // the file ends before a line the reader needs
    | RowLabelMismatch(row: nat)   // a row label differs from the header at its position
    | TooManyScores(row: nat)      // a row holds more scores than there are headers (IndexError)
    | NotAnInteger(row: nat, col: nat)  // `int(token)` fails (ValueError)
    | MissingScore                 // a score needed for a distance is absent (KeyError)
    | BadGapInitiation
    | BadGapExtension

  /** The matrix row an error was raised in, if it was raised in one. */
  function ErrorRow(e: LoadError): Option<nat> {
    match e
    case RowLabelMismatch(r) => Some(r)
    case TooManyScores(r) => Some(r)
    case NotAnInteger(r, _) => Some(r)
    case _ => None
  }

  function HeaderSet(headers: seq<string>): set<string> {
    set h | h in headers
  }

  predicate Has<V>(t: Table<V>, a: string, b: string) {
    a in t && b in t[a]
  }

  /** Every score is stored under both orders of its two labels. */
  ghost predicate Symmetric<V>(t: Table<V>) {
    forall a, b :: a in t && b in t[a] ==> b in t && a in t[b] && t[b][a] == t[a][b]
  }

  /** Every column label of the table is a header label. */
  ghost predicate ColumnsAreHeaders<V>(t: Table<V>, headers: seq<string>) {
    forall a :: a in t ==> t[a].Keys <= HeaderSet(headers)
  }

  /** The distance derived from similarity scores: `(s(a,a) + s(b,b)) / 2 - s(a,b)`. */
  function Distance(sim: Table<int>, a: string, b: string): real
    requires Has(sim, a, a) && Has(sim, b, b) && Has(sim, a, b)
  {
    (sim[a][a] + sim[b][b]) as real / 2.0 - sim[a][b] as real
  }

  lemma DistanceSymmetric(sim: Table<int>, a: string, b: string)
    requires Symmetric(sim)
    requires Has(sim, a, a) && Has(sim, b, b) && Has(sim, a, b)
    ensures Has(sim, b, a) && Distance(sim, b, a) == Distance(sim, a, b)
    ensures Distance(sim, a, a) == 0.0
  {
  }

  /**
   * One token written into the similarity table: `sim[row][col] = v` and,
   * when the labels differ, the mirrored `sim[col][row] = v`.
   */
  function WriteCell(sim: Table<int>, row: string, col: string, v: int): (r: Table<int>)
    requires row in sim && col in sim
    ensures r.Keys == sim.Keys
    ensures Has(r, row, col) && r[row][col] == v && Has(r, col, row) && r[col][row] == v
  {
    var s1 := sim[row := sim[row][col := v]];
    if row != col then s1[col := s1[col][row := v]] else s1
  }

  /** Every other entry is left as it was, and no other entry appears. */
  lemma WriteCellFrame(sim: Table<int>, row: string, col: string, v: int)
    requires row in sim && col in sim
    ensures var r := WriteCell(sim, row, col, v);
      (forall a, b :: Has(sim, a, b) && !(a == row && b == col) && !(a == col && b == row) ==>
         Has(r, a, b) && r[a][b] == sim[a][b]) &&
      (forall a, b :: Has(r, a, b) ==> Has(sim, a, b) || (a == row && b == col) || (a == col && b == row))
  {
  }

  lemma WriteCellSymmetric(sim: Table<int>, row: string, col: string, v: int)
    requires row in sim && col in sim && Symmetric(sim)
    ensures Symmetric(WriteCell(sim, row, col, v))
  {
    var r := WriteCell(sim, row, col, v);
    WriteCellFrame(sim, row, col, v);
    forall a, b | a in r && b in r[a]
      ensures b in r && a in r[b] && r[b][a] == r[a][b]
    {
      if (a == row && b == col) || (a == col && b == row) {
      } else {
        assert Has(sim, a, b);
        assert Has(sim, b, a);
      }
    }
  }

  /** Tokens `i..` of a row each have a column (there are no more tokens than columns) and are integers. */
  predicate ScoresFrom(tokens: seq<string>, columns: nat, i: nat) {
    (i >= |tokens| || |tokens| <= columns) && forall c :: i <= c < |tokens| ==> ParseInt(tokens[c]).Some?
  }

  lemma ScoresFromStep(tokens: seq<string>, columns: nat, i: nat)
    requires i < |tokens| && i < columns && ParseInt(tokens[i]).Some?
    ensures ScoresFrom(tokens, columns, i) <==> ScoresFrom(tokens, columns, i + 1)
  {
  }

  /** Token `c` of a row can be stored: it has a column and is an integer. */
  predicate Readable(tokens: seq<string>, columns: nat, c: nat) {
    c < |tokens| && c < columns && ParseInt(tokens[c]).Some?
  }

  /** Token `c` is the first of the tokens `i..` that cannot be stored. */
  predicate FirstUnreadable(tokens: seq<string>, columns: nat, i: nat, c: nat) {
    i <= c < |tokens| && !Readable(tokens, columns, c) && forall d :: i <= d < c ==> Readable(tokens, columns, d)
  }

  /**
   * The exception an unstorable token `c` of row `rowNum` raises: the
   * column lookup comes first, so IndexError past the last column, and
   * ValueError from `int` otherwise.
   */
  function TokenError(columns: nat, rowNum: nat, c: nat): LoadError {
    if c >= columns then TooManyScores(rowNum) else NotAnInteger(rowNum, c)
  }

  /**
   * The inner `for` loop of `_read_similarity_matrix` from token `i` on:
   * token `i` is written under column `headers[i]`.
   */
  function WriteRow(sim: Table<int>, headers: seq<string>, row: string, tokens: seq<string>, rowNum: nat, i: nat)
    : (r: Result<Table<int>, LoadError>)
    requires i <= |tokens| && row in sim && HeaderSet(headers) <= sim.Keys
    ensures r.Ok? <==> ScoresFrom(tokens, |headers|, i)
    ensures r.Ok? ==> r.value.Keys == sim.Keys
    ensures r.Err? ==> ErrorRow(r.error) == Some(rowNum)
    ensures r.Err? ==> exists c :: FirstUnreadable(tokens, |headers|, i, c) && r.error == TokenError(|headers|, rowNum, c)
    decreases |tokens| - i
  {
    if i == |tokens| then Ok(sim)
    else if i >= |headers| then
      assert !ScoresFrom(tokens, |headers|, i) by { assert tokens[i] == tokens[i]; }
      assert FirstUnreadable(tokens, |headers|, i, i);
      Err(TooManyScores(rowNum))
    else match ParseInt(tokens[i])
      case None =>
        assert !ScoresFrom(tokens, |headers|, i) by { assert tokens[i] == tokens[i]; }
        assert FirstUnreadable(tokens, |headers|, i, i);
        Err(NotAnInteger(rowNum, i))
      case Some(v) =>
        assert headers[i] in HeaderSet(headers);
        ScoresFromStep(tokens, |headers|, i);
        var w := WriteRow(WriteCell(sim, row, headers[i], v), headers, row, tokens, rowNum, i + 1);
        assert w.Err? ==> exists c :: FirstUnreadable(tokens, |headers|, i, c) && w.error == TokenError(|headers|, rowNum, c) by {
          if w.Err? {
            var c :| FirstUnreadable(tokens, |headers|, i + 1, c) && w.error == TokenError(|headers|, rowNum, c);
            assert Readable(tokens, |headers|, i);
            assert FirstUnreadable(tokens, |headers|, i, c);
          }
        }
        w
  }

  /** What the matrix rows leave behind: the table, the line after them and where reading goes on. */
  datatype RowsRead = RowsRead(sim: Table<int>, next: TokenLine, pos: nat)

  /**
   * The `while rowNum < rowCount` loop of `_read_similarity_matrix`, from
   * row `rowNum` on: `tokens` is the line of that row and `pos` the index of
   * the line after it.
   */
  function ReadRows(sim: Table<int>, headers: seq<string>, lines: seq<TokenLine>, tokens: TokenLine, pos: nat, rowNum: nat)
    : (r: Result<RowsRead, LoadError>)
    requires rowNum <= |headers| && HeaderSet(headers) <= sim.Keys
    ensures r.Ok? ==> r.value.sim.Keys == sim.Keys
    ensures r.Err? && ErrorRow(r.error).Some? ==> rowNum <= ErrorRow(r.error).value < |headers|
    decreases |headers| - rowNum
  {
    if rowNum == |headers| then Ok(RowsRead(sim, tokens, pos))
    else if tokens[0] != headers[rowNum] then Err(RowLabelMismatch(rowNum))
    else
      assert tokens[0] in HeaderSet(headers);
      match WriteRow(sim, headers, tokens[0], tokens[1..], rowNum, 0)
      case Err(e) => Err(e)
      case Ok(s) =>
        if pos < |lines| then ReadRows(s, headers, lines, lines[pos], pos + 1, rowNum + 1)
        else Err(NoMoreLines)
  }

  /** One row of `ReadRows`, unfolded: write the row, then go on with the next line. */
  lemma ReadRowsUnfold(sim: Table<int>, headers: seq<string>, lines: seq<TokenLine>, tokens: TokenLine, pos: nat, rowNum: nat)
    requires rowNum < |headers| && HeaderSet(headers) <= sim.Keys
    requires tokens[0] == headers[rowNum] && tokens[0] in HeaderSet(headers)
    ensures var w := WriteRow(sim, headers, tokens[0], tokens[1..], rowNum, 0);
      ReadRows(sim, headers, lines, tokens, pos, rowNum) ==
        if w.Err? then Err(w.error)
        else if pos < |lines| then ReadRows(w.value, headers, lines, lines[pos], pos + 1, rowNum + 1)
        else Err(NoMoreLines)
  { }

  /** `_init_matrices`: an empty row for every header label, and no other row. */
  function EmptyRows<V>(headers: seq<string>): (t: Table<V>)
    ensures t.Keys == HeaderSet(headers)
    ensures forall h :: h in t ==> t[h] == map[]
  {
    map h | h in headers :: map[]
  }

  /** `_read_similarity_matrix` started at line `pos`. */
  function ReadSimilarity(sim: Table<int>, headers: seq<string>, lines: seq<TokenLine>, pos: nat)
    : Result<RowsRead, LoadError>
    requires HeaderSet(headers) <= sim.Keys
  {
    if pos < |lines| then ReadRows(sim, headers, lines, lines[pos], pos + 1, 0) else Err(NoMoreLines)
  }

  /** Writing a row keeps the table symmetric and every column a header. */
  lemma {:induction false} WriteRowKeepsShape(sim: Table<int>, headers: seq<string>, row: string, tokens: seq<string>, rowNum: nat, i: nat)
    requires i <= |tokens| && row in sim && HeaderSet(headers) <= sim.Keys
    requires Symmetric(sim) && ColumnsAreHeaders(sim, headers) && row in HeaderSet(headers)
    ensures var r := WriteRow(sim, headers, row, tokens, rowNum, i);
      r.Ok? ==> Symmetric(r.value) && ColumnsAreHeaders(r.value, headers)
    decreases |tokens| - i
  {
    if i < |tokens| && i < |headers| && ParseInt(tokens[i]).Some? {
      var col := headers[i];
      assert col in HeaderSet(headers);
      var s := WriteCell(sim, row, col, ParseInt(tokens[i]).value);
      WriteCellSymmetric(sim, row, col, ParseInt(tokens[i]).value);
      WriteCellFrame(sim, row, col, ParseInt(tokens[i]).value);
      assert ColumnsAreHeaders(s, headers) by {
        forall a | a in s ensures s[a].Keys <= HeaderSet(headers) {
          forall b | b in s[a] ensures b in HeaderSet(headers) {
            if !Has(sim, a, b) {
              assert b == col || b == row;
            }
          }
        }
      }
      WriteRowKeepsShape(s, headers, row, tokens, rowNum, i + 1);
    }
  }

  /**
   * Reading the rows keeps the similarity table symmetric, with header
   * labels as its only columns: each token is written under both orders.
   */
  lemma {:induction false} ReadRowsKeepsShape(sim: Table<int>, headers: seq<string>, lines: seq<TokenLine>, tokens: TokenLine, pos: nat, rowNum: nat)
    requires rowNum <= |headers| && HeaderSet(headers) <= sim.Keys
    requires Symmetric(sim) && ColumnsAreHeaders(sim, headers)
    ensures var r := ReadRows(sim, headers, lines, tokens, pos, rowNum);
      r.Ok? ==> Symmetric(r.value.sim) && ColumnsAreHeaders(r.value.sim, headers)
    decreases |headers| - rowNum
  {
    if rowNum < |headers| && tokens[0] == headers[rowNum] {
      assert tokens[0] in HeaderSet(headers);
      WriteRowKeepsShape(sim, headers, tokens[0], tokens[1..], rowNum, 0);
      var w := WriteRow(sim, headers, tokens[0], tokens[1..], rowNum, 0);
      if w.Ok? && pos < |lines| {
        ReadRowsKeepsShape(w.value, headers, lines, lines[pos], pos + 1, rowNum + 1);
      }
    }
  }

  /**
   * An error raised in matrix row `k` does not depend on any line after
   * that row: no further row is read.
   */
  lemma {:induction false} ReadRowsStopsAtError(sim: Table<int>, headers: seq<string>, lines: seq<TokenLine>, other: seq<TokenLine>,
                                                tokens: TokenLine, pos: nat, rowNum: nat, k: nat)
    requires rowNum <= |headers| && HeaderSet(headers) <= sim.Keys
    requires ReadRows(sim, headers, lines, tokens, pos, rowNum).Err?
    requires ErrorRow(ReadRows(sim, headers, lines, tokens, pos, rowNum).error) == Some(k)
    requires rowNum <= k && pos + (k - rowNum) <= |lines| && pos + (k - rowNum) <= |other|
    requires lines[..pos + (k - rowNum)] == other[..pos + (k - rowNum)]
    ensures ReadRows(sim, headers, other, tokens, pos, rowNum) == ReadRows(sim, headers, lines, tokens, pos, rowNum)
    decreases |headers| - rowNum
  {
    if rowNum < |headers| && tokens[0] == headers[rowNum] {
      assert tokens[0] in HeaderSet(headers);
      var w := WriteRow(sim, headers, tokens[0], tokens[1..], rowNum, 0);
      if w.Ok? {
        if pos < |lines| {
          var e := ReadRows(w.value, headers, lines, lines[pos], pos + 1, rowNum + 1).error;
          assert k >= rowNum + 1;
          assert lines[pos] == lines[..pos + (k - rowNum)][pos] == other[pos];
          assert lines[..(pos + 1) + (k - (rowNum + 1))] == other[..(pos + 1) + (k - (rowNum + 1))];
          ReadRowsStopsAtError(w.value, headers, lines, other, lines[pos], pos + 1, rowNum + 1, k);
        }
      }
    }
  }

  // ----- Last write wins: what a full square matrix leaves in the table -----

  predicate Distinct(headers: seq<string>) {
    forall i, j :: 0 <= i < j < |headers| ==> headers[i] != headers[j]
  }

  /** An `n` by `n` matrix of integers. */
  ghost predicate Square(m: seq<seq<int>>, n: nat) {
    |m| == n && forall r :: 0 <= r < n ==> |m[r]| == n
  }

  /** A row line spells out `scores`: its label, then one integer token per score. */
  predicate RowSpells(line: TokenLine, rowLabel: string, scores: seq<int>) {
    |line| == |scores| + 1 && line[0] == rowLabel &&
    forall c :: 0 <= c < |scores| ==> ParseInt(line[1..][c]) == Some(scores[c])
  }

  /** Lines `p0 ..` spell out the square matrix `m`, one row per header, in header order. */
  ghost predicate FileSpells(headers: seq<string>, lines: seq<TokenLine>, p0: nat, m: seq<seq<int>>) {
    Square(m, |headers|) && p0 + |headers| <= |lines| &&
    forall r :: 0 <= r < |headers| ==> RowSpells(lines[p0 + r], headers[r], m[r])
  }

  /** Token `q` of row `p` has been written once rows `0 .. k-1` and tokens `0 .. j-1` of row `k` have. */
  predicate Done(p: nat, q: nat, k: nat, j: nat) {
    p < k || (p == k && q < j)
  }

  /**
   * The entry for rows/columns `r` and `c` after rows `0 .. k-1` and tokens
   * `0 .. j-1` of row `k`: it exists once either order has been written, and
   * then holds the later of the two writes, the one from the later row.
   */
  ghost predicate EntryAt(sim: Table<int>, headers: seq<string>, m: seq<seq<int>>, k: nat, j: nat, r: nat, c: nat)
    requires Square(m, |headers|) && r < |headers| && c < |headers|
    requires HeaderSet(headers) <= sim.Keys
  {
    assert headers[r] in HeaderSet(headers);
    var lo, hi := if r <= c then r else c, if r <= c then c else r;
    (headers[c] in sim[headers[r]] <==> Done(lo, hi, k, j)) &&
    (headers[c] in sim[headers[r]] ==>
       sim[headers[r]][headers[c]] == if Done(hi, lo, k, j) then m[hi][lo] else m[lo][hi])
  }

  ghost predicate TableAt(sim: Table<int>, headers: seq<string>, m: seq<seq<int>>, k: nat, j: nat)
    requires Square(m, |headers|)
  {
    sim.Keys == HeaderSet(headers) && ColumnsAreHeaders(sim, headers) &&
    forall r, c :: 0 <= r < |headers| && 0 <= c < |headers| ==> EntryAt(sim, headers, m, k, j, r, c)
  }

  lemma WriteCellAt(sim: Table<int>, headers: seq<string>, m: seq<seq<int>>, k: nat, j: nat)
    requires Distinct(headers) && Square(m, |headers|) && k < |headers| && j < |headers|
    requires TableAt(sim, headers, m, k, j)
    ensures headers[k] in sim && headers[j] in sim
    ensures TableAt(WriteCell(sim, headers[k], headers[j], m[k][j]), headers, m, k, j + 1)
  {
    assert headers[k] in HeaderSet(headers) && headers[j] in HeaderSet(headers);
    var t := WriteCell(sim, headers[k], headers[j], m[k][j]);
    WriteCellFrame(sim, headers[k], headers[j], m[k][j]);
    var j1 := j + 1;
    forall r: nat, c: nat | r < |headers| && c < |headers|
      ensures EntryAt(t, headers, m, k, j1, r, c)
    {
      assert EntryAt(sim, headers, m, k, j, r, c);
      assert headers[r] in HeaderSet(headers) && headers[c] in HeaderSet(headers);
      if (r == k && c == j) || (r == j && c == k) {
      } else {
        assert headers[r] != headers[k] || headers[c] != headers[j];
        assert headers[r] != headers[j] || headers[c] != headers[k];
      }
    }
    assert ColumnsAreHeaders(t, headers) by {
      forall a | a in t ensures t[a].Keys <= HeaderSet(headers) {
        forall b | b in t[a] ensures b in HeaderSet(headers) {
          if !Has(sim, a, b) { assert b == headers[j] || b == headers[k]; }
        }
      }
    }
  }

  /** A row written in full is the same state as the next row not yet started. */
  lemma NextRowAt(sim: Table<int>, headers: seq<string>, m: seq<seq<int>>, k: nat)
    requires Square(m, |headers|) && k < |headers|
    requires TableAt(sim, headers, m, k, |headers|)
    ensures TableAt(sim, headers, m, k + 1, 0)
  {
    var k1 := k + 1;
    forall r: nat, c: nat | r < |headers| && c < |headers|
      ensures EntryAt(sim, headers, m, k1, 0, r, c)
    {
      assert EntryAt(sim, headers, m, k, |headers|, r, c);
    }
  }

  /** Writing token `j` of row `k` is one step from state `(k, j)` to state `(k, j + 1)`. */
  lemma WriteRowStep(sim: Table<int>, headers: seq<string>, tokens: seq<string>, m: seq<seq<int>>, k: nat, j: nat)
    requires Distinct(headers) && Square(m, |headers|) && k < |headers| && j < |headers|
    requires |tokens| == |headers| && ParseInt(tokens[j]) == Some(m[k][j])
    requires TableAt(sim, headers, m, k, j)
    ensures headers[k] in sim && headers[j] in sim
    ensures var t := WriteCell(sim, headers[k], headers[j], m[k][j]);
      headers[k] in t && HeaderSet(headers) <= t.Keys &&
      WriteRow(sim, headers, headers[k], tokens, k, j) == WriteRow(t, headers, headers[k], tokens, k, j + 1) &&
      TableAt(t, headers, m, k, j + 1)
  {
    assert headers[k] in HeaderSet(headers);
    WriteCellAt(sim, headers, m, k, j);
  }

  lemma {:induction false} WriteRowAt(sim: Table<int>, headers: seq<string>, tokens: seq<string>, m: seq<seq<int>>, k: nat, j: nat)
    requires Distinct(headers) && Square(m, |headers|) && k < |headers| && j <= |headers|
    requires |tokens| == |headers| && forall c :: 0 <= c < |headers| ==> ParseInt(tokens[c]) == Some(m[k][c])
    requires TableAt(sim, headers, m, k, j)
    ensures headers[k] in sim
    ensures var w := WriteRow(sim, headers, headers[k], tokens, k, j);
      w.Ok? && TableAt(w.value, headers, m, k + 1, 0)
    decreases |headers| - j
  {
    assert headers[k] in HeaderSet(headers);
    if j == |headers| {
      NextRowAt(sim, headers, m, k);
    } else {
      WriteRowStep(sim, headers, tokens, m, k, j);
      WriteRowAt(WriteCell(sim, headers[k], headers[j], m[k][j]), headers, tokens, m, k, j + 1);
    }
  }

  /** Row `k` of the file is read without error and reading goes on with row `k + 1`. */
  lemma ReadRowsStep(sim: Table<int>, headers: seq<string>, lines: seq<TokenLine>, p0: nat, m: seq<seq<int>>, k: nat)
    requires FileSpells(headers, lines, p0, m) && p0 + |headers| < |lines| && k < |headers|
    requires Distinct(headers) && TableAt(sim, headers, m, k, 0)
    ensures HeaderSet(headers) <= sim.Keys
    ensures var w := WriteRow(sim, headers, headers[k], lines[p0 + k][1..], k, 0);
      w.Ok? && TableAt(w.value, headers, m, k + 1, 0) &&
      ReadRows(sim, headers, lines, lines[p0 + k], p0 + k + 1, k) == ReadRows(w.value, headers, lines, lines[p0 + k + 1], p0 + k + 2, k + 1)
  {
    assert RowSpells(lines[p0 + k], headers[k], m[k]);
    WriteRowAt(sim, headers, lines[p0 + k][1..], m, k, 0);
  }

  lemma ReadRowsEnd(sim: Table<int>, headers: seq<string>, lines: seq<TokenLine>, p0: nat, m: seq<seq<int>>)
    requires Square(m, |headers|) && p0 + |headers| < |lines|
    requires TableAt(sim, headers, m, |headers|, 0)
    ensures HeaderSet(headers) <= sim.Keys
    ensures ReadRows(sim, headers, lines, lines[p0 + |headers|], p0 + |headers| + 1, |headers|) == Ok(RowsRead(sim, lines[p0 + |headers|], p0 + |headers| + 1))
  {
  }

  lemma {:induction false} ReadRowsAt(sim: Table<int>, headers: seq<string>, lines: seq<TokenLine>, p0: nat, m: seq<seq<int>>, k: nat)
    requires FileSpells(headers, lines, p0, m) && p0 + |headers| < |lines| && k <= |headers|
    requires Distinct(headers) && TableAt(sim, headers, m, k, 0)
    ensures HeaderSet(headers) <= sim.Keys
    ensures var r := ReadRows(sim, headers, lines, lines[p0 + k], p0 + k + 1, k);
      r.Ok? && TableAt(r.value.sim, headers, m, |headers|, 0)
    decreases |headers| - k
  {
    if k < |headers| {
      ReadRowsStep(sim, headers, lines, p0, m, k);
      var w := WriteRow(sim, headers, headers[k], lines[p0 + k][1..], k, 0);
      ReadRowsAt(w.value, headers, lines, p0, m, k + 1);
    } else {
      ReadRowsEnd(sim, headers, lines, p0, m);
    }
  }

  /**
   * Last write wins, exactly: when the headers are distinct and lines `p0 ..`
   * spell out a full square matrix `m`, the table holds for labels `i` and
   * `j` the score that the LATER of rows `i` and `j` gives: the lower
   * triangle of the file (`row >= column`). When `m` is symmetric, that is
   * `m` itself.
   */
  lemma ReadSimilarityLastWriteWins(headers: seq<string>, lines: seq<TokenLine>, p0: nat, m: seq<seq<int>>)
    requires Distinct(headers) && FileSpells(headers, lines, p0, m) && p0 + |headers| < |lines|
    ensures var r := ReadSimilarity(EmptyRows(headers), headers, lines, p0);
      r.Ok? &&
      (forall i, j :: 0 <= i < |headers| && 0 <= j < |headers| ==>
         Has(r.value.sim, headers[i], headers[j]) &&
         r.value.sim[headers[i]][headers[j]] == if i >= j then m[i][j] else m[j][i]) &&
      ((forall i, j :: 0 <= i < |headers| && 0 <= j < |headers| ==> m[i][j] == m[j][i]) ==>
         forall i, j :: 0 <= i < |headers| && 0 <= j < |headers| ==> r.value.sim[headers[i]][headers[j]] == m[i][j])
  {
    var empty: Table<int> := EmptyRows(headers);
    forall r: nat, c: nat | r < |headers| && c < |headers|
      ensures EntryAt(empty, headers, m, 0, 0, r, c)
    {
      assert headers[r] in HeaderSet(headers);
    }
    ReadRowsAt(empty, headers, lines, p0, m, 0);
    var res := ReadRows(empty, headers, lines, lines[p0], p0 + 1, 0);
    forall i, j | 0 <= i < |headers| && 0 <= j < |headers|
      ensures Has(res.value.sim, headers[i], headers[j])
      ensures res.value.sim[headers[i]][headers[j]] == if i >= j then m[i][j] else m[j][i]
    {
      assert EntryAt(res.value.sim, headers, m, |headers|, 0, i, j);
    }
  }

  // ----- The distance table -----

  /** Every pair of header labels has a similarity score. */
  ghost predicate AllScored(sim: Table<int>, headers: seq<string>) {
    forall a, b :: a in HeaderSet(headers) && b in HeaderSet(headers) ==> Has(sim, a, b)
  }

  /** The distance entry for `x` and `y` is present and follows the formula. */
  predicate DistanceSet(sim: Table<int>, dist: Table<real>, x: string, y: string) {
    Has(sim, x, x) && Has(sim, y, y) && Has(sim, x, y) && Has(dist, x, y) && dist[x][y] == Distance(sim, x, y)
  }

  /** One step of `_fill_distance_matrix`: `dist[a][b] = d` and, when the labels differ, `dist[b][a] = d`. */
  function WriteDistance(dist: Table<real>, a: string, b: string, d: real): (r: Table<real>)
    requires a in dist && b in dist
    ensures r.Keys == dist.Keys
    ensures Has(r, a, b) && r[a][b] == d && Has(r, b, a) && r[b][a] == d
    ensures forall x, y :: Has(dist, x, y) && !(x == a && y == b) && !(x == b && y == a) ==>
              Has(r, x, y) && r[x][y] == dist[x][y]
    ensures forall x, y :: Has(r, x, y) ==> Has(dist, x, y) || (x == a && y == b) || (x == b && y == a)
  {
    var d1 := dist[a := dist[a][b := d]];
    if a != b then d1[b := d1[b][a := d]] else d1
  }

  lemma WriteDistanceKeeps(sim: Table<int>, dist: Table<real>, a: string, b: string, x: string, y: string)
    requires Symmetric(sim) && a in dist && b in dist
    requires Has(sim, a, a) && Has(sim, b, b) && Has(sim, a, b)
    requires DistanceSet(sim, dist, x, y)
    ensures DistanceSet(sim, WriteDistance(dist, a, b, Distance(sim, a, b)), x, y)
  {
    DistanceSymmetric(sim, a, b);
  }

  /** Rows `0..i-1` and row `i` up to column `j` of the fill are written (pairs `p <= q` of header positions). */
  ghost predicate PairsDone(sim: Table<int>, dist: Table<real>, headers: seq<string>, i: nat, j: nat) {
    forall p, q :: 0 <= p <= q < |headers| && (p < i || (p == i && q < j)) ==>
      DistanceSet(sim, dist, headers[p], headers[q]) && DistanceSet(sim, dist, headers[q], headers[p])
  }

  lemma WriteDistanceColumns(dist: Table<real>, headers: seq<string>, a: string, b: string, d: real)
    requires a in dist && b in dist && a in HeaderSet(headers) && b in HeaderSet(headers)
    requires ColumnsAreHeaders(dist, headers)
    ensures ColumnsAreHeaders(WriteDistance(dist, a, b, d), headers)
  {
    var r := WriteDistance(dist, a, b, d);
    forall x | x in r ensures r[x].Keys <= HeaderSet(headers) {
      forall y | y in r[x] ensures y in HeaderSet(headers) {
        assert Has(r, x, y);
      }
    }
  }

  /** One pass of the inner loop of the fill extends `PairsDone` by one column. */
  lemma FillStep(sim: Table<int>, dist: Table<real>, headers: seq<string>, i: nat, j: nat)
    requires i <= j < |headers| && Symmetric(sim)
    requires headers[i] in dist && headers[j] in dist
    requires Has(sim, headers[i], headers[i]) && Has(sim, headers[j], headers[j]) && Has(sim, headers[i], headers[j])
    requires PairsDone(sim, dist, headers, i, j)
    ensures PairsDone(sim, WriteDistance(dist, headers[i], headers[j], Distance(sim, headers[i], headers[j])), headers, i, j + 1)
  {
    var a, b := headers[i], headers[j];
    var d := Distance(sim, a, b);
    var r := WriteDistance(dist, a, b, d);
    DistanceSymmetric(sim, a, b);
    forall p, q | 0 <= p <= q < |headers| && (p < i || (p == i && q < j + 1))
      ensures DistanceSet(sim, r, headers[p], headers[q]) && DistanceSet(sim, r, headers[q], headers[p])
    {
      if p == i && q == j {
        assert DistanceSet(sim, r, a, b) && DistanceSet(sim, r, b, a);
      } else {
        WriteDistanceKeeps(sim, dist, a, b, headers[p], headers[q]);
        WriteDistanceKeeps(sim, dist, a, b, headers[q], headers[p]);
      }
    }
  }

  /** A finished row of the fill is the start of the next one. */
  lemma FillRowDone(sim: Table<int>, dist: Table<real>, headers: seq<string>, i: nat)
    requires i < |headers| && PairsDone(sim, dist, headers, i, |headers|)
    ensures PairsDone(sim, dist, headers, i + 1, i + 1)
  {
  }

  /** When every row is done, every pair of header labels has its distance. */
  lemma FillDone(sim: Table<int>, dist: Table<real>, headers: seq<string>)
    requires PairsDone(sim, dist, headers, |headers|, |headers|)
    ensures forall a, b :: a in HeaderSet(headers) && b in HeaderSet(headers) ==> DistanceSet(sim, dist, a, b)
  {
    forall a, b | a in HeaderSet(headers) && b in HeaderSet(headers)
      ensures DistanceSet(sim, dist, a, b)
    {
      var p :| 0 <= p < |headers| && headers[p] == a;
      var q :| 0 <= q < |headers| && headers[q] == b;
      if p <= q {
        assert DistanceSet(sim, dist, headers[p], headers[q]);
      } else {
        assert DistanceSet(sim, dist, headers[q], headers[p]);
      }
    }
  }

  /** Square tables over the header labels, the similarity symmetric and the distance derived from it. */
  ghost predicate LoadedTables(headers: seq<string>, sim: Table<int>, dist: Table<real>) {
    Symmetric(sim) && sim.Keys == HeaderSet(headers) && dist.Keys == HeaderSet(headers) &&
    (forall a :: a in sim ==> sim[a].Keys == HeaderSet(headers)) &&
    (forall a :: a in dist ==> dist[a].Keys == HeaderSet(headers)) &&
    (forall a, b :: a in HeaderSet(headers) && b in HeaderSet(headers) ==> DistanceSet(sim, dist, a, b))
  }

  /** The tables after a successful fill are the loaded tables. */
  lemma FilledTablesLoaded(headers: seq<string>, sim: Table<int>, dist: Table<real>)
    requires Symmetric(sim) && sim.Keys == HeaderSet(headers) && ColumnsAreHeaders(sim, headers)
    requires dist.Keys == HeaderSet(headers) && ColumnsAreHeaders(dist, headers)
    requires forall a, b :: a in HeaderSet(headers) && b in HeaderSet(headers) ==> DistanceSet(sim, dist, a, b)
    ensures LoadedTables(headers, sim, dist)
  {
    forall a, b | a in HeaderSet(headers) && b in HeaderSet(headers)
      ensures Has(sim, a, b) && Has(dist, a, b)
    {
      assert DistanceSet(sim, dist, a, b);
    }
    FullRows(sim, headers);
    FullRows(dist, headers);
  }

  /** A table with a row per header and a score for every pair of headers has exactly the headers as columns. */
  lemma FullRows<V>(t: Table<V>, headers: seq<string>)
    requires t.Keys == HeaderSet(headers) && ColumnsAreHeaders(t, headers)
    requires forall a, b :: a in HeaderSet(headers) && b in HeaderSet(headers) ==> Has(t, a, b)
    ensures forall a :: a in t ==> t[a].Keys == HeaderSet(headers)
  {
    forall a | a in t ensures t[a].Keys == HeaderSet(headers) {
      assert t[a].Keys <= HeaderSet(headers);
      forall b | b in HeaderSet(headers) ensures b in t[a] {
        assert Has(t, a, b);
      }
    }
  }

  /**
   * The files `read_file` accepts: a title line, a header line, one row per
   * header, every pair of header labels scored, then the two gap lines.
   */
  ghost predicate FileAccepted(lines: seq<TokenLine>) {
    |lines| >= 2 &&
    var h := lines[1];
    var rs := ReadSimilarity(EmptyRows(h), h, lines, 2);
    rs.Ok? &&
    AllScored(rs.value.sim, h) &&
    GapLine("Gap_initiation", rs.value.next).Some? &&
    rs.value.pos < |lines| && GapLine("Gap_extension", lines[rs.value.pos]).Some?
  }

  /**
   * The reader, with the fields the Python class assigns. The similarity
   * and distance tables are dictionaries of dictionaries, here maps.
   */
  class BlosumReader {
    var kind: string              // the matrix name, e.g. "BLOSUM62" (`type` in the source)
    var headers: seq<string>
    var sim: Table<int>
    var dist: Table<real>
    var gapInitCost: int
    var gapExtendCost: int

    /** The state `read_file` leaves behind on success. */
    ghost predicate Loaded()
      reads this
    {
      LoadedTables(headers, sim, dist)
    }

    constructor ()
      ensures kind == "" && headers == [] && sim == map[] && dist == map[]
      ensures gapInitCost == 0 && gapExtendCost == 0
    {
      kind := "";
      headers := [];
      sim := map[];
      dist := map[];
      gapInitCost := 0;
      gapExtendCost := 0;
    }

    /** `_init_matrices`: both tables get an empty row for each header, and no other row. */
    method InitMatrices()
      modifies this`sim, this`dist
      ensures sim == EmptyRows(headers) && dist == EmptyRows(headers)
    {
      sim := map[];
      dist := map[];
      for k := 0 to |headers|
        invariant sim.Keys == HeaderSet(headers[..k]) && dist.Keys == HeaderSet(headers[..k])
        invariant forall h :: h in sim ==> sim[h] == map[]
        invariant forall h :: h in dist ==> dist[h] == map[]
      {
        sim := sim[headers[k] := map[]];
        dist := dist[headers[k] := map[]];
        assert headers[..k + 1] == headers[..k] + [headers[k]];
      }
      assert headers[..|headers|] == headers;
      assert sim == EmptyRows(headers);
      assert dist == EmptyRows(headers);
    }

    /**
     * `_read_similarity_matrix` from line `pos`: returns the line after the
     * last row and the index of the line after that. Exactly one line per
     * header is read as a matrix row: lines `pos .. pos + |headers| - 1`.
     */
    method ReadSimilarityMatrix(lines: seq<TokenLine>, pos: nat) returns (r: Result<(TokenLine, nat), LoadError>)
      requires HeaderSet(headers) <= sim.Keys
      modifies this`sim
      ensures var spec := ReadSimilarity(old(sim), headers, lines, pos);
        (spec.Ok? ==> r == Ok((spec.value.next, spec.value.pos)) && sim == spec.value.sim) &&
        (spec.Err? ==> r == Err(spec.error))
      ensures r.Ok? ==> r.value.1 == pos + |headers| + 1 && r.value.1 <= |lines| && r.value.0 == lines[pos + |headers|]
    {
      if pos >= |lines| {
        return Err(NoMoreLines);
      }
      ghost var spec := ReadSimilarity(sim, headers, lines, pos);
      var tokens := lines[pos];
      var next := pos + 1;
      var rowCount := |headers|;
      var rowNum := 0;
      while rowNum < rowCount
        invariant rowNum <= rowCount && HeaderSet(headers) <= sim.Keys
        invariant ReadRows(sim, headers, lines, tokens, next, rowNum) == spec
        invariant next == pos + rowNum + 1 && next <= |lines| && tokens == lines[next - 1]
        decreases rowCount - rowNum
      {
        var rowLabel := tokens[0];
        var scores := tokens[1..];
        if rowLabel != headers[rowNum] {
          return Err(RowLabelMismatch(rowNum));
        }
        assert rowLabel in HeaderSet(headers);
        ReadRowsUnfold(sim, headers, lines, tokens, next, rowNum);
        var failed := ReadRowScores(rowLabel, scores, rowNum);
        if failed.Some? {
          return Err(failed.value);
        }
        if next >= |lines| {
          return Err(NoMoreLines);
        }
        tokens := lines[next];
        next := next + 1;
        rowNum := rowNum + 1;
      }
      return Ok((tokens, next));
    }

    /**
     * The inner `for i` loop of `_read_similarity_matrix`: the scores of
     * the row labelled `rowLabel`, written cell by cell. Returns the error
     * that stopped it, if any.
     */
    method ReadRowScores(rowLabel: string, scores: seq<string>, rowNum: nat) returns (failed: Option<LoadError>)
      requires rowLabel in sim && HeaderSet(headers) <= sim.Keys
      modifies this`sim
      ensures var spec := WriteRow(old(sim), headers, rowLabel, scores, rowNum, 0);
        (spec.Ok? ==> failed == None && sim == spec.value) && (spec.Err? ==> failed == Some(spec.error))
    {
      for i := 0 to |scores|
        invariant sim.Keys == old(sim).Keys
        invariant WriteRow(sim, headers, rowLabel, scores, rowNum, i) == WriteRow(old(sim), headers, rowLabel, scores, rowNum, 0)
      {
        if i >= |headers| {
          return Some(TooManyScores(rowNum));
        }
        var colLabel := headers[i];
        var v := ParseInt(scores[i]);
        if v.None? {
          return Some(NotAnInteger(rowNum, i));
        }
        assert colLabel in HeaderSet(headers);
        sim := WriteCell(sim, rowLabel, colLabel, v.value);
      }
      return None;
    }

    /**
     * `_fill_distance_matrix`: for every pair of header positions `i <= j`
     * the formula is stored under both orders. It fails (KeyError) exactly
     * when some pair of header labels has no similarity score.
     */
    method FillDistanceMatrix() returns (ok: bool)
      requires Symmetric(sim) && HeaderSet(headers) <= dist.Keys && ColumnsAreHeaders(dist, headers)
      modifies this`dist
      ensures ok <==> AllScored(sim, headers)
      ensures dist.Keys == old(dist).Keys && ColumnsAreHeaders(dist, headers)
      ensures ok ==> forall a, b :: a in HeaderSet(headers) && b in HeaderSet(headers) ==> DistanceSet(sim, dist, a, b)
    {
      var n := |headers|;
      for i := 0 to n
        invariant dist.Keys == old(dist).Keys && ColumnsAreHeaders(dist, headers)
        invariant PairsDone(sim, dist, headers, i, i)
      {
        for j := i to n
          invariant dist.Keys == old(dist).Keys && ColumnsAreHeaders(dist, headers)
          invariant PairsDone(sim, dist, headers, i, j)
        {
          var a, b := headers[i], headers[j];
          assert a in HeaderSet(headers) && b in HeaderSet(headers);
          if !(Has(sim, a, a) && Has(sim, b, b) && Has(sim, a, b)) {
            return false;
          }
          var d := Distance(sim, a, b);
          FillStep(sim, dist, headers, i, j);
          WriteDistanceColumns(dist, headers, a, b, d);
          dist := WriteDistance(dist, a, b, d);
        }
        FillRowDone(sim, dist, headers, i);
      }
      FillDone(sim, dist, headers);
      return true;
    }

    /**
     * `_read_gaps`: `firstLine` must be `Gap_initiation = <n>` and the next
     * line `Gap_extension = <n>`. The initiation cost is stored before the
     * extension line is looked at.
     */
    method ReadGaps(lines: seq<TokenLine>, pos: nat, firstLine: TokenLine) returns (r: Result<nat, LoadError>)
      modifies this`gapInitCost, this`gapExtendCost
      ensures match GapLine("Gap_initiation", firstLine)
        case None =>
          r == Err(BadGapInitiation) && gapInitCost == old(gapInitCost) && gapExtendCost == old(gapExtendCost)
        case Some(gi) =>
          gapInitCost == gi &&
          if pos >= |lines| then r == Err(NoMoreLines) && gapExtendCost == old(gapExtendCost)
          else match GapLine("Gap_extension", lines[pos])
            case None => r == Err(BadGapExtension) && gapExtendCost == old(gapExtendCost)
            case Some(ge) => r == Ok(pos + 1) && gapExtendCost == ge
    {
      var gi := GapLine("Gap_initiation", firstLine);
      if gi.None? {
        return Err(BadGapInitiation);
      }
      gapInitCost := gi.value;
      if pos >= |lines| {
        return Err(NoMoreLines);
      }
      var tokens := lines[pos];
      var ge := GapLine("Gap_extension", tokens);
      if ge.None? {
        return Err(BadGapExtension);
      }
      gapExtendCost := ge.value;
      return Ok(pos + 1);
    }

    /**
     * `read_file` (with `_read_headers`) over the non-empty lines of the
     * file, already split into tokens: the title, the headers, the matrix,
     * the distances and the gap costs, in that order.
     */
    method ReadFile(lines: seq<TokenLine>) returns (r: Result<(), LoadError>)
      modifies this
      ensures r.Ok? <==> FileAccepted(lines)
      ensures r.Ok? ==> Loaded() && kind == lines[0][0] && headers == lines[1]
      ensures r.Ok? ==>
        var rs := ReadSimilarity(EmptyRows(lines[1]), lines[1], lines, 2).value;
        sim == rs.sim &&
        GapLine("Gap_initiation", rs.next) == Some(gapInitCost) &&
        GapLine("Gap_extension", lines[rs.pos]) == Some(gapExtendCost)
      ensures |lines| < 2 ==> r == Err(NoMoreLines)
    {
      if |lines| < 1 {
        return Err(NoMoreLines);
      }
      kind := lines[0][0];
      if |lines| < 2 {
        return Err(NoMoreLines);
      }
      var tables := ReadTables(lines);
      if tables.Err? {
        return Err(tables.error);
      }
      var (nextLine, pos) := tables.value;
      var gaps := ReadGaps(lines, pos, nextLine);
      if gaps.Err? {
        return Err(gaps.error);
      }
      return Ok(());
    }

    /**
     * The part of `read_file` between the title and the gap lines:
     * `_read_headers`, `_init_matrices`, `_read_similarity_matrix` from the
     * third line and `_fill_distance_matrix`. Returns the line after the
     * last row and the index of the line after that.
     */
    method ReadTables(lines: seq<TokenLine>) returns (r: Result<(TokenLine, nat), LoadError>)
      requires |lines| >= 2
      modifies this`headers, this`sim, this`dist
      ensures headers == lines[1]
      ensures var rs := ReadSimilarity(EmptyRows(lines[1]), lines[1], lines, 2);
        (r.Ok? <==> rs.Ok? && AllScored(rs.value.sim, lines[1])) &&
        (r.Ok? ==> r.value == (rs.value.next, rs.value.pos) && sim == rs.value.sim && LoadedTables(headers, sim, dist))
    {
      headers := lines[1];
      InitMatrices();
      ghost var empty := EmptyRows(lines[1]);
      ghost var spec := ReadSimilarity(empty, lines[1], lines, 2);
      var read := ReadSimilarityMatrix(lines, 2);
      if read.Err? {
        return Err(read.error);
      }
      assert spec.Ok? && sim == spec.value.sim && read.value == (spec.value.next, spec.value.pos);
      if 2 < |lines| {
        ReadRowsKeepsShape(empty, headers, lines, lines[2], 3, 0);
      }
      var ok := FillDistanceMatrix();
      if !ok {
        return Err(MissingScore);
      }
      FilledTablesLoaded(headers, sim, dist);
      return Ok(read.value);
    }

    /** `get_similarity_score`: a lookup that fails (KeyError) for a missing label. */
    function GetSimilarityScore(a: string, b: string): (r: Option<int>)
      reads this
      ensures r.Some? <==> Has(sim, a, b)
      ensures r.Some? ==> r.value == sim[a][b]
    {
      if Has(sim, a, b) then Some(sim[a][b]) else None
    }

    /** `get_distance_score`: a lookup that fails (KeyError) for a missing label. */
    function GetDistanceScore(a: string, b: string): (r: Option<real>)
      reads this
      ensures r.Some? <==> Has(dist, a, b)
      ensures r.Some? ==> r.value == dist[a][b]
    {
      if Has(dist, a, b) then Some(dist[a][b]) else None
    }
  }

  /**
   * The getters of a loaded reader: defined exactly on pairs of header
   * labels, symmetric, and the distance follows from the similarity scores
   * with a zero diagonal.
   */
  lemma LoadedLookups(reader: BlosumReader, a: string, b: string)
    requires reader.Loaded()
    ensures reader.GetSimilarityScore(a, b).Some? <==> a in reader.headers && b in reader.headers
    ensures reader.GetDistanceScore(a, b).Some? <==> a in reader.headers && b in reader.headers
    ensures reader.GetSimilarityScore(a, b) == reader.GetSimilarityScore(b, a)
    ensures reader.GetDistanceScore(a, b) == reader.GetDistanceScore(b, a)
    ensures a in reader.headers && b in reader.headers ==>
      reader.GetDistanceScore(a, b).value ==
        (reader.GetSimilarityScore(a, a).value + reader.GetSimilarityScore(b, b).value) as real / 2.0
        - reader.GetSimilarityScore(a, b).value as real
    ensures a in reader.headers ==> reader.GetDistanceScore(a, a) == Some(0.0)
  {
    if a in reader.headers && b in reader.headers {
      assert a in HeaderSet(reader.headers) && b in HeaderSet(reader.headers);
      assert DistanceSet(reader.sim, reader.dist, a, b) && DistanceSet(reader.sim, reader.dist, b, a);
      DistanceSymmetric(reader.sim, a, b);
    }
    if a in reader.headers {
      assert a in HeaderSet(reader.headers);
      assert DistanceSet(reader.sim, reader.dist, a, a);
      DistanceSymmetric(reader.sim, a, a);
    }
  }
}
