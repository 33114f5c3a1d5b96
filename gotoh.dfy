/**
 * Gotoh's three-matrix global alignment with affine gap costs, as the
 * aligner classes run it: A holds the best alignment of the two prefixes,
 * I the best one ending in an insertion (a gap in the vertical sequence),
 * D the best one ending in a deletion (a gap in the horizontal sequence).
 * Each cell holds a score and the matrix it was reached from.
 */
module Gotoh {
  import opened Wrappers
  import opened Blosum

  /** The comparator: `gt` when maximising similarity, `lt` when minimising distance. */
  datatype Mode = Similarity | Distance

  /** The strict comparator `compare_function(x, y)`. */
  predicate Better(mode: Mode, x: real, y: real) {
    if mode == Similarity then x > y else x < y
  }

  /**
   * `gt` and `lt` are strict total orders: never true of equal scores, never
   * true both ways, transitive, and one way or the other on distinct scores.
   */
  lemma BetterStrictOrder(mode: Mode, x: real, y: real, z: real)
    ensures !Better(mode, x, x)
    ensures Better(mode, x, y) ==> !Better(mode, y, x)
    ensures Better(mode, x, y) && Better(mode, y, z) ==> Better(mode, x, z)
    ensures x != y ==> Better(mode, x, y) || Better(mode, y, x)
  { }

  /** The three matrices, named by the symbols "A", "I" and "D". */
  datatype Layer = AlignLayer | InsertLayer | DeleteLayer

  /** The origin tag of a cell: `None` (the same matrix) or a matrix symbol. */
  datatype Origin = Same | From(layer: Layer)

  /** A matrix cell: `None` before it is written, then `(score, origin)`. */
  datatype Cell = Unset | Scored(score: real, origin: Origin)

  const GapSymbol: char := '-'

  /**
   * What `align` gives back: the inputs untouched (the 2-tuple for an empty
   * input), the two aligned rows and the score, or the exception it raises:
   * KeyError on a letter pair the matrix does not score, TypeError when no
   * comparator has been set.
   */
  datatype Outcome =
    | Unchanged(seqA: string, seqB: string)
    | Aligned(alignX: string, alignY: string, score: real)
    | UnknownPair(x: char, y: char)
    | ModeNotSet

  /**
   * A D or I cell: extending the gap (`extend`) is kept, tagged `None`,
   * only when it is strictly better than opening one from A (`open`);
   * a tie goes to `open`, tagged "A".
   */
  function PickGap(mode: Mode, extend: real, open: real): (c: Cell)
    ensures c.Scored? && (c.origin == Same || c.origin == From(AlignLayer))
    ensures c.origin == Same <==> Better(mode, extend, open)
    ensures c.score == (if c.origin == Same then extend else open)
    ensures !Better(mode, extend, c.score) && !Better(mode, open, c.score)
  {
    if Better(mode, extend, open) then Scored(extend, Same) else Scored(open, From(AlignLayer))
  }

  /**
   * An A cell: the diagonal candidate wins, tagged `None`, only when it is
   * strictly better than both gap candidates; otherwise I wins when it is
   * strictly better than D, and D wins every remaining tie.
   */
  function PickAlign(mode: Mode, diag: real, ins: real, del: real): (c: Cell)
    ensures c.Scored? && c.origin != From(AlignLayer)
    ensures c.origin == Same <==> Better(mode, diag, ins) && Better(mode, diag, del)
    ensures c.origin == From(InsertLayer) <==> !(Better(mode, diag, ins) && Better(mode, diag, del)) && Better(mode, ins, del)
    ensures c.score == match c.origin
      case Same => diag
      case From(l) => if l == InsertLayer then ins else del
    ensures !Better(mode, diag, c.score) && !Better(mode, ins, c.score) && !Better(mode, del, c.score)
  {
    if Better(mode, diag, ins) then
      if Better(mode, diag, del) then Scored(diag, Same) else Scored(del, From(DeleteLayer))
    else
      if Better(mode, ins, del) then Scored(ins, From(InsertLayer)) else Scored(del, From(DeleteLayer))
  }

  /**
   * `score_function(x, y)`: the similarity or the distance lookup of the
   * two one-letter labels; `None` where the lookup raises KeyError.
   */
  function MatchScore(mode: Mode, sim: Table<int>, dist: Table<real>, x: char, y: char): Option<real> {
    if mode == Similarity then
      if Has(sim, [x], [y]) then Some(sim[[x]][[y]] as real) else None
    else
      if Has(dist, [x], [y]) then Some(dist[[x]][[y]]) else None
  }

  /**
   * Every pair of letters the fill looks up before the pair of row `p`
   * (letter `seqY[p]`) and column `q` (letter `seqX[q]`) has a score; the
   * fill goes row by row, each row left to right.
   */
  predicate ScoredBefore(mode: Mode, sim: Table<int>, dist: Table<real>, seqX: string, seqY: string, p: nat, q: nat) {
    forall p', q' :: 0 <= p' < |seqY| && 0 <= q' < |seqX| && (p' < p || (p' == p && q' < q)) ==>
      MatchScore(mode, sim, dist, seqX[q'], seqY[p']).Some?
  }

  /** The pair of row `p` and column `q` is the first pair, in fill order, the table cannot score. */
  predicate FirstUnscored(mode: Mode, sim: Table<int>, dist: Table<real>, seqX: string, seqY: string, p: nat, q: nat) {
    p < |seqY| && q < |seqX| && MatchScore(mode, sim, dist, seqX[q], seqY[p]).None? &&
    ScoredBefore(mode, sim, dist, seqX, seqY, p, q)
  }

  /** Every pair of a letter of `seqX` with a letter of `seqY` has a score. */
  predicate AllPairsScored(mode: Mode, sim: Table<int>, dist: Table<real>, seqX: string, seqY: string) {
    forall p, q :: 0 <= p < |seqY| && 0 <= q < |seqX| ==> MatchScore(mode, sim, dist, seqX[q], seqY[p]).Some?
  }

  /**
   * `score_function` is the reader's lookup for the mode, applied to the two
   * one-letter labels: `get_similarity_score` for similarity, its integer
   * taken as a real, and `get_distance_score` for distance.
   */
  lemma MatchScoreLookups(reader: BlosumReader, mode: Mode, x: char, y: char)
    ensures var s := MatchScore(mode, reader.sim, reader.dist, x, y);
      if mode == Similarity then
        (s.Some? <==> reader.GetSimilarityScore([x], [y]).Some?) &&
        (s.Some? ==> s.value == reader.GetSimilarityScore([x], [y]).value as real)
      else s == reader.GetDistanceScore([x], [y])
  {
  }

  /** Three distinct matrices of `h` rows (for `seqY`) and `w` columns (for `seqX`). */
  predicate Shape(A: array2<Cell>, I: array2<Cell>, D: array2<Cell>, h: nat, w: nat) {
    A.Length0 == h && A.Length1 == w && I.Length0 == h && I.Length1 == w &&
    D.Length0 == h && D.Length1 == w && A != I && A != D && I != D
  }

  /** The first row and column cells the fill reads are written. */
  ghost predicate BoundaryScored(A: array2<Cell>, I: array2<Cell>, D: array2<Cell>)
    requires Shape(A, I, D, A.Length0, A.Length1)
    reads A, I, D
  {
    A.Length0 >= 1 && A.Length1 >= 1 &&
    (forall i :: 0 <= i < A.Length0 ==> A[i, 0].Scored? && (i >= 1 ==> I[i, 0].Scored?)) &&
    (forall j :: 0 <= j < A.Length1 ==> A[0, j].Scored? && (j >= 1 ==> D[0, j].Scored?))
  }

  /**
   * The recurrence on cell values: `del`, `ins` and `align` are D, I and A
   * of a cell whose upper, left and upper-left neighbours are given, and
   * `s` is the score of its pair of letters.
   */
  predicate Recurrence(mode: Mode, s: Option<real>, gi: int, ge: int,
                       aDiag: Cell, aUp: Cell, aLeft: Cell, dUp: Cell, iLeft: Cell, align: Cell, ins: Cell, del: Cell)
  {
    aDiag.Scored? && aUp.Scored? && aLeft.Scored? && dUp.Scored? && iLeft.Scored? && s.Some? &&
    del == PickGap(mode, dUp.score + ge as real, aUp.score + gi as real + ge as real) &&
    ins == PickGap(mode, iLeft.score + ge as real, aLeft.score + gi as real + ge as real) &&
    align == PickAlign(mode, aDiag.score + s.value, ins.score, del.score)
  }

  /** Cell `(i, j)`, `i, j >= 1`, of the three matrices follows the recurrence. */
  ghost predicate CellFilled(A: array2<Cell>, I: array2<Cell>, D: array2<Cell>, mode: Mode, sim: Table<int>, dist: Table<real>,
                             seqX: string, seqY: string, gi: int, ge: int, i: nat, j: nat)
    requires Shape(A, I, D, |seqY| + 1, |seqX| + 1) && 1 <= i <= |seqY| && 1 <= j <= |seqX|
    reads A, I, D
  {
    Recurrence(mode, MatchScore(mode, sim, dist, seqX[j - 1], seqY[i - 1]), gi, ge,
               A[i - 1, j - 1], A[i - 1, j], A[i, j - 1], D[i - 1, j], I[i, j - 1], A[i, j], I[i, j], D[i, j])
  }

  /** Every inner cell follows the recurrence. */
  ghost predicate Filled(A: array2<Cell>, I: array2<Cell>, D: array2<Cell>, mode: Mode, sim: Table<int>, dist: Table<real>,
                         seqX: string, seqY: string, gi: int, ge: int)
    requires Shape(A, I, D, |seqY| + 1, |seqX| + 1)
    reads A, I, D
  {
    forall i, j :: 1 <= i <= |seqY| && 1 <= j <= |seqX| ==> CellFilled(A, I, D, mode, sim, dist, seqX, seqY, gi, ge, i, j)
  }

  /** What the traceback reads: every inner cell written, and no A cell tagged "A". */
  ghost predicate Traceable(A: array2<Cell>, I: array2<Cell>, D: array2<Cell>)
    requires Shape(A, I, D, A.Length0, A.Length1)
    reads A, I, D
  {
    forall i, j :: 1 <= i < A.Length0 && 1 <= j < A.Length1 ==>
      A[i, j].Scored? && A[i, j].origin != From(AlignLayer) && I[i, j].Scored? && D[i, j].Scored?
  }

  // ----- Initialisation -----

  /**
   * `init_alignment_matrix`: `A[0][0] = 0` and the first column and row
   * cost one gap each, `gi + k * ge`, all tagged `None`; the rest unset.
   */
  method NewAlignmentMatrix(h: nat, w: nat, gi: int, ge: int) returns (A: array2<Cell>)
    requires h >= 1 && w >= 1
    ensures fresh(A) && A.Length0 == h && A.Length1 == w
    ensures A[0, 0] == Scored(0.0, Same)
    ensures forall i :: 1 <= i < h ==> A[i, 0] == Scored((gi + i * ge) as real, Same)
    ensures forall j :: 1 <= j < w ==> A[0, j] == Scored((gi + j * ge) as real, Same)
    ensures forall i, j :: 1 <= i < h && 1 <= j < w ==> A[i, j] == Unset
  {
    A := new Cell[h, w]((i, j) => Unset);
    A[0, 0] := Scored(0.0, Same);
    for i := 1 to h
      invariant A[0, 0] == Scored(0.0, Same)
      invariant forall p :: 1 <= p < i ==> A[p, 0] == Scored((gi + p * ge) as real, Same)
      invariant forall p, q :: 0 <= p < h && 1 <= q < w ==> A[p, q] == Unset
    {
      A[i, 0] := Scored((gi + i * ge) as real, Same);
    }
    for j := 1 to w
      invariant A[0, 0] == Scored(0.0, Same)
      invariant forall p :: 1 <= p < h ==> A[p, 0] == Scored((gi + p * ge) as real, Same)
      invariant forall q :: 1 <= q < j ==> A[0, q] == Scored((gi + q * ge) as real, Same)
      invariant forall p, q :: 1 <= p < h && 1 <= q < w ==> A[p, q] == Unset
    {
      A[0, j] := Scored((gi + j * ge) as real, Same);
    }
  }

  /** `init_insertion_matrix`: `I[i][0] = A[i][0] + gi` for every row, tagged `None`; the rest unset. */
  method NewInsertionMatrix(A: array2<Cell>, gi: int) returns (I: array2<Cell>)
    requires A.Length1 >= 1 && forall i :: 0 <= i < A.Length0 ==> A[i, 0].Scored?
    ensures fresh(I) && I.Length0 == A.Length0 && I.Length1 == A.Length1
    ensures forall i :: 0 <= i < A.Length0 ==> I[i, 0] == Scored(A[i, 0].score + gi as real, Same)
    ensures forall i, j :: 0 <= i < A.Length0 && 1 <= j < A.Length1 ==> I[i, j] == Unset
  {
    I := new Cell[A.Length0, A.Length1]((i, j) => Unset);
    for i := 0 to A.Length0
      invariant forall p :: 0 <= p < i ==> I[p, 0] == Scored(A[p, 0].score + gi as real, Same)
      invariant forall p, q :: 0 <= p < A.Length0 && 1 <= q < A.Length1 ==> I[p, q] == Unset
    {
      I[i, 0] := Scored(A[i, 0].score + gi as real, Same);
    }
  }

  /**
   * `init_deletion_matrix`: `D[0][j] = A[0][j] + gi`, tagged `None`, for
   * `first <= j`; every other cell unset. The aligner base class starts at
   * column 0, the older aligner at column 1 and so leaves `D[0][0]` unset.
   */
  method NewDeletionMatrix(A: array2<Cell>, gi: int, first: nat) returns (D: array2<Cell>)
    requires A.Length0 >= 1 && forall j :: first <= j < A.Length1 ==> A[0, j].Scored?
    ensures fresh(D) && D.Length0 == A.Length0 && D.Length1 == A.Length1
    ensures forall j :: first <= j < A.Length1 ==> D[0, j] == Scored(A[0, j].score + gi as real, Same)
    ensures forall j :: 0 <= j < first && j < A.Length1 ==> D[0, j] == Unset
    ensures forall i, j :: 1 <= i < A.Length0 && 0 <= j < A.Length1 ==> D[i, j] == Unset
  {
    D := new Cell[A.Length0, A.Length1]((i, j) => Unset);
    var j := first;
    while j < A.Length1
      invariant forall q :: first <= q < j && q < A.Length1 ==> D[0, q] == Scored(A[0, q].score + gi as real, Same)
      invariant forall q :: 0 <= q < first && q < A.Length1 ==> D[0, q] == Unset
      invariant forall p, q :: 1 <= p < A.Length0 && 0 <= q < A.Length1 ==> D[p, q] == Unset
    {
      D[0, j] := Scored(A[0, j].score + gi as real, Same);
      j := j + 1;
    }
  }

  // ----- The fill -----

  /** The inner cells before `(i, j)` in row-major order follow the recurrence. */
  ghost predicate FilledUpTo(A: array2<Cell>, I: array2<Cell>, D: array2<Cell>, mode: Mode, sim: Table<int>, dist: Table<real>,
                             seqX: string, seqY: string, gi: int, ge: int, i: nat, j: nat)
    requires Shape(A, I, D, |seqY| + 1, |seqX| + 1)
    reads A, I, D
  {
    forall p, q :: 1 <= p <= |seqY| && 1 <= q <= |seqX| && (p < i || (p == i && q < j)) ==>
      CellFilled(A, I, D, mode, sim, dist, seqX, seqY, gi, ge, p, q)
  }

  /** The cells the recurrence at `(i, j)` reads are written. */
  lemma NeighboursScored(A: array2<Cell>, I: array2<Cell>, D: array2<Cell>, mode: Mode, sim: Table<int>, dist: Table<real>,
                         seqX: string, seqY: string, gi: int, ge: int, i: nat, j: nat)
    requires Shape(A, I, D, |seqY| + 1, |seqX| + 1) && BoundaryScored(A, I, D)
    requires 1 <= i <= |seqY| && 1 <= j <= |seqX| && FilledUpTo(A, I, D, mode, sim, dist, seqX, seqY, gi, ge, i, j)
    ensures A[i - 1, j - 1].Scored? && A[i - 1, j].Scored? && A[i, j - 1].Scored? && D[i - 1, j].Scored? && I[i, j - 1].Scored?
  {
    if i > 1 {
      assert CellFilled(A, I, D, mode, sim, dist, seqX, seqY, gi, ge, i - 1, j);
    }
    if j > 1 {
      assert CellFilled(A, I, D, mode, sim, dist, seqX, seqY, gi, ge, i, j - 1);
    }
    if i > 1 && j > 1 {
      assert CellFilled(A, I, D, mode, sim, dist, seqX, seqY, gi, ge, i - 1, j - 1);
    }
  }

  /** One pass of the inner loop of `compute_matrices`: D, I, then the lookup, then A at `(i, j)`. */
  method FillCell(A: array2<Cell>, I: array2<Cell>, D: array2<Cell>, mode: Mode, sim: Table<int>, dist: Table<real>,
                  seqX: string, seqY: string, gi: int, ge: int, i: nat, j: nat) returns (s: Option<real>)
    requires Shape(A, I, D, |seqY| + 1, |seqX| + 1) && 1 <= i <= |seqY| && 1 <= j <= |seqX|
    requires A[i - 1, j - 1].Scored? && A[i - 1, j].Scored? && A[i, j - 1].Scored? && D[i - 1, j].Scored? && I[i, j - 1].Scored?
    modifies A, I, D
    ensures forall p, q :: 0 <= p <= |seqY| && 0 <= q <= |seqX| && (p != i || q != j) ==>
              A[p, q] == old(A[p, q]) && I[p, q] == old(I[p, q]) && D[p, q] == old(D[p, q])
    ensures D[i, j] == PickGap(mode, D[i - 1, j].score + ge as real, A[i - 1, j].score + gi as real + ge as real)
    ensures I[i, j] == PickGap(mode, I[i, j - 1].score + ge as real, A[i, j - 1].score + gi as real + ge as real)
    ensures s == MatchScore(mode, sim, dist, seqX[j - 1], seqY[i - 1])
    ensures s.Some? ==> CellFilled(A, I, D, mode, sim, dist, seqX, seqY, gi, ge, i, j)
    ensures s.None? ==> A[i, j] == old(A[i, j])
    ensures old(FilledUpTo(A, I, D, mode, sim, dist, seqX, seqY, gi, ge, i, j)) ==>
              FilledUpTo(A, I, D, mode, sim, dist, seqX, seqY, gi, ge, i, j)
  {
    ghost var before := old(FilledUpTo(A, I, D, mode, sim, dist, seqX, seqY, gi, ge, i, j));
    D[i, j] := PickGap(mode, D[i - 1, j].score + ge as real, A[i - 1, j].score + gi as real + ge as real);
    I[i, j] := PickGap(mode, I[i, j - 1].score + ge as real, A[i, j - 1].score + gi as real + ge as real);
    s := MatchScore(mode, sim, dist, seqX[j - 1], seqY[i - 1]);
    if s.Some? {
      A[i, j] := PickAlign(mode, A[i - 1, j - 1].score + s.value, I[i, j].score, D[i, j].score);
    }
    if before {
      forall p, q | 1 <= p <= |seqY| && 1 <= q <= |seqX| && (p < i || (p == i && q < j))
        ensures CellFilled(A, I, D, mode, sim, dist, seqX, seqY, gi, ge, p, q)
      {
        assert old(CellFilled(A, I, D, mode, sim, dist, seqX, seqY, gi, ge, p, q));
        assert A[p - 1, q - 1] == old(A[p - 1, q - 1]) && A[p - 1, q] == old(A[p - 1, q]) && A[p, q - 1] == old(A[p, q - 1]);
        assert D[p - 1, q] == old(D[p - 1, q]) && I[p, q - 1] == old(I[p, q - 1]);
        assert A[p, q] == old(A[p, q]) && I[p, q] == old(I[p, q]) && D[p, q] == old(D[p, q]);
      }
    }
  }

  /**
   * One row of `compute_matrices`: the cells `(i, 1) .. (i, |seqX|)` in
   * order, stopping at the first pair of letters the table cannot score.
   */
  method FillRow(A: array2<Cell>, I: array2<Cell>, D: array2<Cell>, mode: Mode, sim: Table<int>, dist: Table<real>,
                 seqX: string, seqY: string, gi: int, ge: int, i: nat) returns (missing: Option<(char, char)>)
    requires Shape(A, I, D, |seqY| + 1, |seqX| + 1) && BoundaryScored(A, I, D) && 1 <= i <= |seqY|
    requires FilledUpTo(A, I, D, mode, sim, dist, seqX, seqY, gi, ge, i, 1)
    modifies A, I, D
    ensures forall p, q :: 0 <= p <= |seqY| && 0 <= q <= |seqX| && (p == 0 || q == 0) ==>
              A[p, q] == old(A[p, q]) && I[p, q] == old(I[p, q]) && D[p, q] == old(D[p, q])
    ensures BoundaryScored(A, I, D)
    ensures missing.Some? ==> missing.value.0 in seqX && missing.value.1 in seqY &&
                              MatchScore(mode, sim, dist, missing.value.0, missing.value.1).None?
    ensures missing.Some? ==> exists q: nat :: FirstUnscored(mode, sim, dist, seqX, seqY, i - 1, q) && missing.value == (seqX[q], seqY[i - 1])
    ensures missing.None? ==> FilledUpTo(A, I, D, mode, sim, dist, seqX, seqY, gi, ge, i + 1, 1)
  {
    for j := 1 to |seqX| + 1
      invariant forall p, q :: 0 <= p <= |seqY| && 0 <= q <= |seqX| && (p == 0 || q == 0) ==>
                  A[p, q] == old(A[p, q]) && I[p, q] == old(I[p, q]) && D[p, q] == old(D[p, q])
      invariant BoundaryScored(A, I, D)
      invariant FilledUpTo(A, I, D, mode, sim, dist, seqX, seqY, gi, ge, i, j)
    {
      NeighboursScored(A, I, D, mode, sim, dist, seqX, seqY, gi, ge, i, j);
      var s := FillCell(A, I, D, mode, sim, dist, seqX, seqY, gi, ge, i, j);
      if s.None? {
        FilledUpToScored(A, I, D, mode, sim, dist, seqX, seqY, gi, ge, i, j);
        assert FirstUnscored(mode, sim, dist, seqX, seqY, i - 1, j - 1);
        missing := Some((seqX[j - 1], seqY[i - 1]));
        return;
      }
      assert FilledUpTo(A, I, D, mode, sim, dist, seqX, seqY, gi, ge, i, j + 1);
    }
    assert FilledUpTo(A, I, D, mode, sim, dist, seqX, seqY, gi, ge, i + 1, 1);
    missing := None;
  }

  /**
   * `compute_matrices`: row by row, then column by column, D, I and A of
   * each inner cell from its already written neighbours. The score lookup
   * comes after D and I are written; when it fails the fill stops there
   * and reports the pair of letters.
   */
  method Fill(A: array2<Cell>, I: array2<Cell>, D: array2<Cell>, mode: Mode, sim: Table<int>, dist: Table<real>,
              seqX: string, seqY: string, gi: int, ge: int) returns (missing: Option<(char, char)>)
    requires Shape(A, I, D, |seqY| + 1, |seqX| + 1) && BoundaryScored(A, I, D)
    modifies A, I, D
    ensures forall p, q :: 0 <= p <= |seqY| && 0 <= q <= |seqX| && (p == 0 || q == 0) ==>
              A[p, q] == old(A[p, q]) && I[p, q] == old(I[p, q]) && D[p, q] == old(D[p, q])
    ensures missing.None? <==> AllPairsScored(mode, sim, dist, seqX, seqY)
    ensures missing.Some? ==> missing.value.0 in seqX && missing.value.1 in seqY &&
                              MatchScore(mode, sim, dist, missing.value.0, missing.value.1).None?
    ensures missing.Some? ==> exists p: nat, q: nat :: FirstUnscored(mode, sim, dist, seqX, seqY, p, q) && missing.value == (seqX[q], seqY[p])
    ensures missing.None? ==> Filled(A, I, D, mode, sim, dist, seqX, seqY, gi, ge)
    ensures old(Boundary(A, I, D, gi, ge, 0)) ==> Boundary(A, I, D, gi, ge, 0)
    ensures old(Boundary(A, I, D, gi, ge, 1)) ==> Boundary(A, I, D, gi, ge, 1)
  {
    for i := 1 to |seqY| + 1
      invariant forall p, q :: 0 <= p <= |seqY| && 0 <= q <= |seqX| && (p == 0 || q == 0) ==>
                  A[p, q] == old(A[p, q]) && I[p, q] == old(I[p, q]) && D[p, q] == old(D[p, q])
      invariant BoundaryScored(A, I, D)
      invariant FilledUpTo(A, I, D, mode, sim, dist, seqX, seqY, gi, ge, i, 1)
    {
      missing := FillRow(A, I, D, mode, sim, dist, seqX, seqY, gi, ge, i);
      if missing.Some? {
        ghost var q: nat :| FirstUnscored(mode, sim, dist, seqX, seqY, i - 1, q) && missing.value == (seqX[q], seqY[i - 1]);
        return;
      }
    }
    assert Filled(A, I, D, mode, sim, dist, seqX, seqY, gi, ge);
    FilledScoresAllPairs(A, I, D, mode, sim, dist, seqX, seqY, gi, ge);
    return None;
  }

  /** The cells filled before `(i, j)` have looked up every pair of letters before theirs. */
  lemma FilledUpToScored(A: array2<Cell>, I: array2<Cell>, D: array2<Cell>, mode: Mode, sim: Table<int>, dist: Table<real>,
                         seqX: string, seqY: string, gi: int, ge: int, i: nat, j: nat)
    requires Shape(A, I, D, |seqY| + 1, |seqX| + 1) && 1 <= i && 1 <= j
    requires FilledUpTo(A, I, D, mode, sim, dist, seqX, seqY, gi, ge, i, j)
    ensures ScoredBefore(mode, sim, dist, seqX, seqY, i - 1, j - 1)
  {
    forall p, q | 0 <= p < |seqY| && 0 <= q < |seqX| && (p < i - 1 || (p == i - 1 && q < j - 1))
      ensures MatchScore(mode, sim, dist, seqX[q], seqY[p]).Some?
    {
      assert CellFilled(A, I, D, mode, sim, dist, seqX, seqY, gi, ge, p + 1, q + 1);
    }
  }

  /** A filled table has looked up every pair of letters. */
  lemma FilledScoresAllPairs(A: array2<Cell>, I: array2<Cell>, D: array2<Cell>, mode: Mode, sim: Table<int>, dist: Table<real>,
                             seqX: string, seqY: string, gi: int, ge: int)
    requires Shape(A, I, D, |seqY| + 1, |seqX| + 1) && Filled(A, I, D, mode, sim, dist, seqX, seqY, gi, ge)
    ensures AllPairsScored(mode, sim, dist, seqX, seqY)
  {
    forall p, q | 0 <= p < |seqY| && 0 <= q < |seqX|
      ensures MatchScore(mode, sim, dist, seqX[q], seqY[p]).Some?
    {
      assert CellFilled(A, I, D, mode, sim, dist, seqX, seqY, gi, ge, p + 1, q + 1);
    }
  }

  // ----- Strings of the alignment -----

  /** The letters of `s` without the gap symbol. */
  function Strip(s: string): (r: string)
    ensures |r| <= |s|
  {
    if |s| == 0 then [] else (if s[0] == GapSymbol then [] else [s[0]]) + Strip(s[1..])
  }

  /** `s` reversed (`s[::-1]`). */
  function Reverse(s: string): (r: string)
    ensures |r| == |s|
  {
    if |s| == 0 then [] else [s[|s| - 1]] + Reverse(s[..|s| - 1])
  }

  /** `n` gap symbols. */
  function Gaps(n: nat): (r: string)
    ensures |r| == n && forall k :: 0 <= k < n ==> r[k] == GapSymbol
  {
    if n == 0 then [] else Gaps(n - 1) + [GapSymbol]
  }

  predicate GapFree(s: string) {
    forall k :: 0 <= k < |s| ==> s[k] != GapSymbol
  }

  /** No column of the two rows is a gap over a gap. */
  predicate NoEmptyColumn(x: string, y: string)
    requires |x| == |y|
  {
    forall k :: 0 <= k < |x| ==> x[k] != GapSymbol || y[k] != GapSymbol
  }

  /** Reversal mirrors the indices. */
  lemma {:induction false} ReverseIndex(s: string, k: nat)
    requires k < |s|
    ensures Reverse(s)[k] == s[|s| - 1 - k]
    decreases |s|
  {
    if k > 0 {
      ReverseIndex(s[..|s| - 1], k - 1);
    }
  }

  /** Stripping the gaps from a gap-free string gives it back. */
  lemma {:induction false} StripGapFree(s: string)
    requires GapFree(s)
    ensures Strip(s) == s
    decreases |s|
  {
    if |s| > 0 {
      assert GapFree(s[1..]) by {
        forall k | 0 <= k < |s[1..]| ensures s[1..][k] != GapSymbol {
          assert s[1..][k] == s[k + 1];
        }
      }
      StripGapFree(s[1..]);
    }
  }

  /**
   * Appending `c` to the collected row and moving the cursor back over it:
   * the reversed row still strips to the unconsumed suffix.
   */
  lemma EmitLetter(collected: string, s: string, j: nat)
    requires 1 <= j <= |s| && Strip(Reverse(collected)) == Strip(s[j..])
    ensures Strip(Reverse(collected + [s[j - 1]])) == Strip(s[j - 1..])
  {
    var c := collected + [s[j - 1]];
    assert c[..|c| - 1] == collected;
    assert Reverse(c) == [s[j - 1]] + Reverse(collected);
    assert ([s[j - 1]] + Reverse(collected))[1..] == Reverse(collected);
    assert s[j - 1..][1..] == s[j..];
  }

  /** Appending a gap changes nothing once gaps are stripped. */
  lemma EmitGap(collected: string)
    ensures Strip(Reverse(collected + [GapSymbol])) == Strip(Reverse(collected))
  {
    var c := collected + [GapSymbol];
    assert c[..|c| - 1] == collected;
    assert ([GapSymbol] + Reverse(collected))[1..] == Reverse(collected);
  }

  /** A column that is not a gap over a gap keeps the property, and the rows keep their prefixes. */
  lemma AppendColumn(x: string, y: string, a: char, b: char, n: nat)
    requires |x| == |y| && n <= |x|
    ensures (x + [a])[..n] == x[..n] && (y + [b])[..n] == y[..n]
    ensures NoEmptyColumn(x, y) && (a != GapSymbol || b != GapSymbol) ==> NoEmptyColumn(x + [a], y + [b])
  {
  }

  /** Stripping distributes over concatenation. */
  lemma {:induction false} StripAppend(a: string, b: string)
    ensures Strip(a + b) == Strip(a) + Strip(b)
    decreases |a|
  {
    if |a| > 0 {
      assert (a + b)[1..] == a[1..] + b;
      StripAppend(a[1..], b);
    } else {
      assert a + b == b;
    }
  }

  /** Reversing a row that starts with `c` puts `c` last. */
  lemma {:induction false} ReverseCons(c: char, s: string)
    ensures Reverse([c] + s) == Reverse(s) + [c]
    decreases |s|
  {
    if |s| > 0 {
      assert ([c] + s)[..|s|] == [c] + s[..|s| - 1];
      ReverseCons(c, s[..|s| - 1]);
    } else {
      assert [c] + s == [c];
    }
  }

  /** Moving a drain cursor back over `s[k - 1]` appends that letter to the reversed stretch. */
  lemma ReverseStep(s: string, k: nat, e: nat)
    requires 1 <= k <= e <= |s|
    ensures Reverse(s[k - 1..e]) == Reverse(s[k..e]) + [s[k - 1]]
  {
    assert s[k - 1..e] == [s[k - 1]] + s[k..e];
    ReverseCons(s[k - 1], s[k..e]);
  }

  /** A reversed pair of rows keeps the no-empty-column property. */
  lemma ReverseNoEmptyColumn(x: string, y: string)
    requires |x| == |y| && NoEmptyColumn(x, y)
    ensures NoEmptyColumn(Reverse(x), Reverse(y))
  {
    forall k | 0 <= k < |x| ensures Reverse(x)[k] != GapSymbol || Reverse(y)[k] != GapSymbol {
      ReverseIndex(x, k);
      ReverseIndex(y, k);
    }
  }

  // ----- The traceback -----

  /**
   * The walk of the traceback's main loop from cursor `(i, j)` in matrix
   * `layer`: the columns it emits, in emission order (last column first),
   * and the cursor where it stops. In A a `None` tag emits both letters
   * and moves diagonally, an "I" or "D" tag switches matrix without
   * moving; in I (D) a letter of the horizontal (vertical) sequence is
   * emitted over a gap and the cursor moves left (up), back to A on an "A"
   * tag. The walk stops when a cursor coordinate reaches 0.
   */
  ghost function Trace(A: array2<Cell>, I: array2<Cell>, D: array2<Cell>, seqX: string, seqY: string,
                       i: nat, j: nat, layer: Layer): (r: (string, string, nat, nat))
    requires Shape(A, I, D, |seqY| + 1, |seqX| + 1) && Traceable(A, I, D) && i <= |seqY| && j <= |seqX|
    reads A, I, D
    ensures |r.0| == |r.1| && r.2 <= i && r.3 <= j && (r.2 == 0 || r.3 == 0)
    decreases 2 * (i + j) + (if layer == AlignLayer then 1 else 0)
  {
    if i == 0 || j == 0 then ([], [], i, j)
    else match layer
      case AlignLayer =>
        if A[i, j].origin == Same then
          var t := Trace(A, I, D, seqX, seqY, i - 1, j - 1, AlignLayer);
          ([seqX[j - 1]] + t.0, [seqY[i - 1]] + t.1, t.2, t.3)
        else if A[i, j].origin == From(InsertLayer) then Trace(A, I, D, seqX, seqY, i, j, InsertLayer)
        else Trace(A, I, D, seqX, seqY, i, j, DeleteLayer)
      case InsertLayer =>
        var t := Trace(A, I, D, seqX, seqY, i, j - 1, if I[i, j].origin == From(AlignLayer) then AlignLayer else InsertLayer);
        ([seqX[j - 1]] + t.0, [GapSymbol] + t.1, t.2, t.3)
      case DeleteLayer =>
        var t := Trace(A, I, D, seqX, seqY, i - 1, j, if D[i, j].origin == From(AlignLayer) then AlignLayer else DeleteLayer);
        ([GapSymbol] + t.0, [seqY[i - 1]] + t.1, t.2, t.3)
  }

  /**
   * The rows `tx`, `ty` (in emission order) of a walk from `(i, j)` that
   * stopped at `(si, sj)`: equally long, stripping to the stretches of the
   * sequences the walk passed over, and without an empty column when the
   * sequences hold no gap symbol.
   */
  predicate Covers(tx: string, ty: string, seqX: string, seqY: string, si: nat, sj: nat, i: nat, j: nat) {
    si <= i <= |seqY| && sj <= j <= |seqX| && |tx| == |ty| &&
    Strip(Reverse(tx)) == Strip(seqX[sj..j]) && Strip(Reverse(ty)) == Strip(seqY[si..i]) &&
    (GapFree(seqX) && GapFree(seqY) ==> NoEmptyColumn(tx, ty))
  }

  /** Putting letter `s[j - 1]` in front of a walk that covers `s[k..j - 1]`. */
  lemma StripLetter(rest: string, s: string, k: nat, j: nat)
    requires 1 <= j <= |s| && k <= j - 1 && Strip(Reverse(rest)) == Strip(s[k..j - 1])
    ensures Strip(Reverse([s[j - 1]] + rest)) == Strip(s[k..j])
  {
    ReverseCons(s[j - 1], rest);
    StripAppend(Reverse(rest), [s[j - 1]]);
    assert s[k..j] == s[k..j - 1] + [s[j - 1]];
    StripAppend(s[k..j - 1], [s[j - 1]]);
  }

  /** Putting a gap in front of a walk strips to the same letters. */
  lemma StripGap(rest: string)
    ensures Strip(Reverse([GapSymbol] + rest)) == Strip(Reverse(rest))
  {
    ReverseCons(GapSymbol, rest);
    StripAppend(Reverse(rest), [GapSymbol]);
    assert Strip([GapSymbol]) == [];
  }

  /** A column that is not a gap over a gap, put in front of rows without one. */
  lemma ConsColumn(a: char, b: char, tx: string, ty: string)
    requires |tx| == |ty| && NoEmptyColumn(tx, ty) && (a != GapSymbol || b != GapSymbol)
    ensures NoEmptyColumn([a] + tx, [b] + ty)
  {
    forall k | 1 <= k < |tx| + 1 ensures ([a] + tx)[k] != GapSymbol || ([b] + ty)[k] != GapSymbol {
      assert ([a] + tx)[k] == tx[k - 1] && ([b] + ty)[k] == ty[k - 1];
    }
  }

  lemma CoversDiagonal(tx: string, ty: string, seqX: string, seqY: string, si: nat, sj: nat, i: nat, j: nat)
    requires 1 <= i <= |seqY| && 1 <= j <= |seqX| && Covers(tx, ty, seqX, seqY, si, sj, i - 1, j - 1)
    ensures Covers([seqX[j - 1]] + tx, [seqY[i - 1]] + ty, seqX, seqY, si, sj, i, j)
  {
    StripLetter(tx, seqX, sj, j);
    StripLetter(ty, seqY, si, i);
    if GapFree(seqX) && GapFree(seqY) {
      ConsColumn(seqX[j - 1], seqY[i - 1], tx, ty);
    }
  }

  lemma CoversInsertion(tx: string, ty: string, seqX: string, seqY: string, si: nat, sj: nat, i: nat, j: nat)
    requires 1 <= j <= |seqX| && Covers(tx, ty, seqX, seqY, si, sj, i, j - 1)
    ensures Covers([seqX[j - 1]] + tx, [GapSymbol] + ty, seqX, seqY, si, sj, i, j)
  {
    StripLetter(tx, seqX, sj, j);
    StripGap(ty);
    if GapFree(seqX) && GapFree(seqY) {
      ConsColumn(seqX[j - 1], GapSymbol, tx, ty);
    }
  }

  lemma CoversDeletion(tx: string, ty: string, seqX: string, seqY: string, si: nat, sj: nat, i: nat, j: nat)
    requires 1 <= i <= |seqY| && Covers(tx, ty, seqX, seqY, si, sj, i - 1, j)
    ensures Covers([GapSymbol] + tx, [seqY[i - 1]] + ty, seqX, seqY, si, sj, i, j)
  {
    StripGap(tx);
    StripLetter(ty, seqY, si, i);
    if GapFree(seqX) && GapFree(seqY) {
      ConsColumn(GapSymbol, seqY[i - 1], tx, ty);
    }
  }

  /** The walk emits exactly the letters it passes over (see `Covers`). */
  lemma {:induction false} TraceStrips(A: array2<Cell>, I: array2<Cell>, D: array2<Cell>, seqX: string, seqY: string,
                                       i: nat, j: nat, layer: Layer)
    requires Shape(A, I, D, |seqY| + 1, |seqX| + 1) && Traceable(A, I, D) && i <= |seqY| && j <= |seqX|
    ensures var t := Trace(A, I, D, seqX, seqY, i, j, layer);
      Covers(t.0, t.1, seqX, seqY, t.2, t.3, i, j)
    decreases WalkRank(i, j, layer), 1
  {
    if i == 0 || j == 0 {
      assert seqX[j..j] == [] && seqY[i..i] == [];
    } else {
      match layer
      case AlignLayer => StripsAlignment(A, I, D, seqX, seqY, i, j);
      case InsertLayer => StripsInsertion(A, I, D, seqX, seqY, i, j);
      case DeleteLayer => StripsDeletion(A, I, D, seqX, seqY, i, j);
    }
  }

  /** `TraceStrips` from a cell of A. */
  lemma {:induction false} StripsAlignment(A: array2<Cell>, I: array2<Cell>, D: array2<Cell>, seqX: string, seqY: string,
                                           i: nat, j: nat)
    requires Shape(A, I, D, |seqY| + 1, |seqX| + 1) && Traceable(A, I, D) && 1 <= i <= |seqY| && 1 <= j <= |seqX|
    ensures var t := Trace(A, I, D, seqX, seqY, i, j, AlignLayer);
      Covers(t.0, t.1, seqX, seqY, t.2, t.3, i, j)
    decreases WalkRank(i, j, AlignLayer), 0
  {
    if A[i, j].origin == Same {
      TraceStrips(A, I, D, seqX, seqY, i - 1, j - 1, AlignLayer);
      var t := Trace(A, I, D, seqX, seqY, i - 1, j - 1, AlignLayer);
      CoversDiagonal(t.0, t.1, seqX, seqY, t.2, t.3, i, j);
    } else if A[i, j].origin == From(InsertLayer) {
      TraceStrips(A, I, D, seqX, seqY, i, j, InsertLayer);
    } else {
      TraceStrips(A, I, D, seqX, seqY, i, j, DeleteLayer);
    }
  }

  /** `TraceStrips` from a cell of I. */
  lemma {:induction false} StripsInsertion(A: array2<Cell>, I: array2<Cell>, D: array2<Cell>, seqX: string, seqY: string,
                                           i: nat, j: nat)
    requires Shape(A, I, D, |seqY| + 1, |seqX| + 1) && Traceable(A, I, D) && 1 <= i <= |seqY| && 1 <= j <= |seqX|
    ensures var t := Trace(A, I, D, seqX, seqY, i, j, InsertLayer);
      Covers(t.0, t.1, seqX, seqY, t.2, t.3, i, j)
    decreases WalkRank(i, j, InsertLayer), 0
  {
    var next := if I[i, j].origin == From(AlignLayer) then AlignLayer else InsertLayer;
    TraceStrips(A, I, D, seqX, seqY, i, j - 1, next);
    var t := Trace(A, I, D, seqX, seqY, i, j - 1, next);
    CoversInsertion(t.0, t.1, seqX, seqY, t.2, t.3, i, j);
  }

  /** `TraceStrips` from a cell of D. */
  lemma {:induction false} StripsDeletion(A: array2<Cell>, I: array2<Cell>, D: array2<Cell>, seqX: string, seqY: string,
                                          i: nat, j: nat)
    requires Shape(A, I, D, |seqY| + 1, |seqX| + 1) && Traceable(A, I, D) && 1 <= i <= |seqY| && 1 <= j <= |seqX|
    ensures var t := Trace(A, I, D, seqX, seqY, i, j, DeleteLayer);
      Covers(t.0, t.1, seqX, seqY, t.2, t.3, i, j)
    decreases WalkRank(i, j, DeleteLayer), 0
  {
    var next := if D[i, j].origin == From(AlignLayer) then AlignLayer else DeleteLayer;
    TraceStrips(A, I, D, seqX, seqY, i - 1, j, next);
    var t := Trace(A, I, D, seqX, seqY, i - 1, j, next);
    CoversDeletion(t.0, t.1, seqX, seqY, t.2, t.3, i, j);
  }

  /** Appending a column, then the rest of the walk, is appending the walk from one step back. */
  lemma AppendCons(s: string, c: char, t: string)
    ensures s + ([c] + t) == (s + [c]) + t
  {
  }

  /** `TraceStrips` for the walk from the bottom-right corner. */
  lemma TraceWhole(A: array2<Cell>, I: array2<Cell>, D: array2<Cell>, seqX: string, seqY: string)
    requires Shape(A, I, D, |seqY| + 1, |seqX| + 1) && Traceable(A, I, D)
    ensures var t := Trace(A, I, D, seqX, seqY, |seqY|, |seqX|, AlignLayer);
      Strip(Reverse(t.0)) == Strip(seqX[t.3..]) && Strip(Reverse(t.1)) == Strip(seqY[t.2..]) &&
      (GapFree(seqX) && GapFree(seqY) ==> NoEmptyColumn(t.0, t.1))
  {
    TraceStrips(A, I, D, seqX, seqY, |seqY|, |seqX|, AlignLayer);
    var t := Trace(A, I, D, seqX, seqY, |seqY|, |seqX|, AlignLayer);
    assert seqX[t.3..|seqX|] == seqX[t.3..] && seqY[t.2..|seqY|] == seqY[t.2..];
  }

  /**
   * The state of the traceback's main loop: the columns emitted so far,
   * followed by the rest of the walk from cursor `(i, j)` in `layer`, are
   * the whole walk `full`, which stops where it does.
   */
  ghost predicate Walked(A: array2<Cell>, I: array2<Cell>, D: array2<Cell>, seqX: string, seqY: string,
                         alignX: string, alignY: string, i: nat, j: nat, layer: Layer, full: (string, string, nat, nat))
    requires Shape(A, I, D, |seqY| + 1, |seqX| + 1) && Traceable(A, I, D)
    reads A, I, D
  {
    i <= |seqY| && j <= |seqX| &&
    var t := Trace(A, I, D, seqX, seqY, i, j, layer);
    alignX + t.0 == full.0 && alignY + t.1 == full.1 && t.2 == full.2 && t.3 == full.3
  }

  /** In A, a `None` tag: both letters are emitted and the cursor moves diagonally. */
  lemma WalkDiagonal(A: array2<Cell>, I: array2<Cell>, D: array2<Cell>, seqX: string, seqY: string,
                     alignX: string, alignY: string, i: nat, j: nat, full: (string, string, nat, nat))
    requires Shape(A, I, D, |seqY| + 1, |seqX| + 1) && Traceable(A, I, D)
    requires Walked(A, I, D, seqX, seqY, alignX, alignY, i, j, AlignLayer, full)
    requires i >= 1 && j >= 1 && A[i, j].origin == Same
    ensures Walked(A, I, D, seqX, seqY, alignX + [seqX[j - 1]], alignY + [seqY[i - 1]], i - 1, j - 1, AlignLayer, full)
  {
    var t := Trace(A, I, D, seqX, seqY, i - 1, j - 1, AlignLayer);
    AppendCons(alignX, seqX[j - 1], t.0);
    AppendCons(alignY, seqY[i - 1], t.1);
  }

  /** In A, an "I" or "D" tag: the walk goes on in that matrix from the same cell. */
  lemma WalkSwitch(A: array2<Cell>, I: array2<Cell>, D: array2<Cell>, seqX: string, seqY: string,
                   alignX: string, alignY: string, i: nat, j: nat, full: (string, string, nat, nat))
    requires Shape(A, I, D, |seqY| + 1, |seqX| + 1) && Traceable(A, I, D)
    requires Walked(A, I, D, seqX, seqY, alignX, alignY, i, j, AlignLayer, full)
    requires i >= 1 && j >= 1 && A[i, j].origin != Same
    ensures Walked(A, I, D, seqX, seqY, alignX, alignY, i, j, A[i, j].origin.layer, full)
  {
  }

  /** In I: the horizontal letter over a gap, the cursor moves left, back to A on an "A" tag. */
  lemma WalkInsertion(A: array2<Cell>, I: array2<Cell>, D: array2<Cell>, seqX: string, seqY: string,
                      alignX: string, alignY: string, i: nat, j: nat, full: (string, string, nat, nat))
    requires Shape(A, I, D, |seqY| + 1, |seqX| + 1) && Traceable(A, I, D)
    requires Walked(A, I, D, seqX, seqY, alignX, alignY, i, j, InsertLayer, full)
    requires i >= 1 && j >= 1
    ensures Walked(A, I, D, seqX, seqY, alignX + [seqX[j - 1]], alignY + [GapSymbol], i, j - 1,
                   if I[i, j].origin == From(AlignLayer) then AlignLayer else InsertLayer, full)
  {
    var t := Trace(A, I, D, seqX, seqY, i, j - 1, if I[i, j].origin == From(AlignLayer) then AlignLayer else InsertLayer);
    AppendCons(alignX, seqX[j - 1], t.0);
    AppendCons(alignY, GapSymbol, t.1);
  }

  /** In D: a gap over the vertical letter, the cursor moves up, back to A on an "A" tag. */
  lemma WalkDeletion(A: array2<Cell>, I: array2<Cell>, D: array2<Cell>, seqX: string, seqY: string,
                     alignX: string, alignY: string, i: nat, j: nat, full: (string, string, nat, nat))
    requires Shape(A, I, D, |seqY| + 1, |seqX| + 1) && Traceable(A, I, D)
    requires Walked(A, I, D, seqX, seqY, alignX, alignY, i, j, DeleteLayer, full)
    requires i >= 1 && j >= 1
    ensures Walked(A, I, D, seqX, seqY, alignX + [GapSymbol], alignY + [seqY[i - 1]], i - 1, j,
                   if D[i, j].origin == From(AlignLayer) then AlignLayer else DeleteLayer, full)
  {
    var t := Trace(A, I, D, seqX, seqY, i - 1, j, if D[i, j].origin == From(AlignLayer) then AlignLayer else DeleteLayer);
    AppendCons(alignX, GapSymbol, t.0);
    AppendCons(alignY, seqY[i - 1], t.1);
  }

  /** Once the cursor reaches the first row or column, the emitted columns are the whole walk. */
  lemma WalkEnd(A: array2<Cell>, I: array2<Cell>, D: array2<Cell>, seqX: string, seqY: string,
                alignX: string, alignY: string, i: nat, j: nat, layer: Layer, full: (string, string, nat, nat))
    requires Shape(A, I, D, |seqY| + 1, |seqX| + 1) && Traceable(A, I, D)
    requires Walked(A, I, D, seqX, seqY, alignX, alignY, i, j, layer, full) && (i == 0 || j == 0)
    ensures (alignX, alignY, i, j) == full
  {
    assert alignX + [] == alignX && alignY + [] == alignY;
  }

  /**
   * The main loop of `traceback_matrices`, from the bottom-right cell in
   * A: in A a `None` tag emits both letters and moves diagonally, an "I"
   * or "D" tag switches matrix without moving; in I (D) a letter of the
   * horizontal (vertical) sequence is emitted over a gap and the cursor
   * moves left (up), switching back to A on an "A" tag. It stops when a
   * cursor coordinate reaches 0. The rows come back in emission order
   * (last column first), with the cursor where the loop stopped.
   */
  method TraceCells(A: array2<Cell>, I: array2<Cell>, D: array2<Cell>, seqX: string, seqY: string)
    returns (alignX: string, alignY: string, i: nat, j: nat)
    requires Shape(A, I, D, |seqY| + 1, |seqX| + 1) && Traceable(A, I, D)
    ensures (alignX, alignY, i, j) == Trace(A, I, D, seqX, seqY, |seqY|, |seqX|, AlignLayer)
  {
    i, j := |seqY|, |seqX|;
    var current := AlignLayer;
    alignX, alignY := [], [];
    ghost var full := Trace(A, I, D, seqX, seqY, i, j, current);
    while i > 0 && j > 0
      invariant Walked(A, I, D, seqX, seqY, alignX, alignY, i, j, current, full)
      decreases WalkRank(i, j, current)
    {
      alignX, alignY, i, j, current := TraceStep(A, I, D, seqX, seqY, alignX, alignY, i, j, current, full);
    }
    WalkEnd(A, I, D, seqX, seqY, alignX, alignY, i, j, current, full);
  }

  /** What the walk has left to do: each step lowers it. */
  function WalkRank(i: nat, j: nat, layer: Layer): nat {
    2 * (i + j) + (if layer == AlignLayer then 1 else 0)
  }

  /**
   * One pass of the main loop of `traceback_matrices` at cell `(i, j)` of
   * matrix `current`: the columns it emits and where the cursor goes next.
   */
  method TraceStep(A: array2<Cell>, I: array2<Cell>, D: array2<Cell>, seqX: string, seqY: string,
                   alignX: string, alignY: string, i: nat, j: nat, current: Layer, ghost full: (string, string, nat, nat))
    returns (alignX': string, alignY': string, i': nat, j': nat, current': Layer)
    requires Shape(A, I, D, |seqY| + 1, |seqX| + 1) && Traceable(A, I, D) && i >= 1 && j >= 1
    requires Walked(A, I, D, seqX, seqY, alignX, alignY, i, j, current, full)
    ensures Walked(A, I, D, seqX, seqY, alignX', alignY', i', j', current', full)
    ensures WalkRank(i', j', current') < WalkRank(i, j, current)
  {
    // the source keeps a reference to the current matrix; here each case reads its own
    match current
    case AlignLayer =>
      var origin := A[i, j].origin;
      if origin == Same {
        WalkDiagonal(A, I, D, seqX, seqY, alignX, alignY, i, j, full);
        return alignX + [seqX[j - 1]], alignY + [seqY[i - 1]], i - 1, j - 1, AlignLayer;
      } else {
        WalkSwitch(A, I, D, seqX, seqY, alignX, alignY, i, j, full);
        return alignX, alignY, i, j, origin.layer;
      }
    case InsertLayer =>
      var origin := I[i, j].origin;
      WalkInsertion(A, I, D, seqX, seqY, alignX, alignY, i, j, full);
      var next := if origin == From(AlignLayer) then AlignLayer else InsertLayer;
      return alignX + [seqX[j - 1]], alignY + [GapSymbol], i, j - 1, next;
    case DeleteLayer =>
      var origin := D[i, j].origin;
      WalkDeletion(A, I, D, seqX, seqY, alignX, alignY, i, j, full);
      var next := if origin == From(AlignLayer) then AlignLayer else DeleteLayer;
      return alignX + [GapSymbol], alignY + [seqY[i - 1]], i - 1, j, next;
  }

  /** One more letter, last first: the row is still the start followed by a reversed slice. */
  lemma PushReversed(start: string, row: string, s: string, k: nat, e: nat)
    requires 1 <= k <= e <= |s| && row == start + Reverse(s[k..e])
    ensures row + [s[k - 1]] == start + Reverse(s[k - 1..e])
  {
    ReverseStep(s, k, e);
  }

  /** One more gap: the row is still the start followed by gaps. */
  lemma PushGap(start: string, row: string, n: nat)
    requires row == start + Gaps(n)
    ensures row + [GapSymbol] == start + Gaps(n + 1)
  {
  }

  /** Rows collected last column first strip, once reversed, to the letters of `s`. */
  predicate StripsTo(rows: string, s: string) {
    Strip(Reverse(rows)) == Strip(s)
  }

  /**
   * The state of the first drain loop with `i` letters of the vertical
   * sequence left: `i0 - i` columns emitted, each a gap over the letter.
   */
  predicate RowsDrained(alignX0: string, alignY0: string, i0: nat, j: nat, seqX: string, seqY: string,
                        alignX: string, alignY: string, i: nat)
  {
    i <= i0 <= |seqY| && j <= |seqX| && |alignX0| == |alignY0| &&
    alignX == alignX0 + Gaps(i0 - i) && alignY == alignY0 + Reverse(seqY[i..i0]) &&
    StripsTo(alignX, seqX[j..]) && StripsTo(alignY, seqY[i..]) &&
    (GapFree(seqX) && GapFree(seqY) && NoEmptyColumn(alignX0, alignY0) ==> NoEmptyColumn(alignX, alignY))
  }

  /** One pass of the first drain loop. */
  lemma DrainRowStep(alignX0: string, alignY0: string, i0: nat, j: nat, seqX: string, seqY: string,
                     alignX: string, alignY: string, i: nat)
    requires i >= 1 && RowsDrained(alignX0, alignY0, i0, j, seqX, seqY, alignX, alignY, i)
    ensures RowsDrained(alignX0, alignY0, i0, j, seqX, seqY, alignX + [GapSymbol], alignY + [seqY[i - 1]], i - 1)
  {
    EmitGap(alignX);
    EmitLetter(alignY, seqY, i);
    AppendColumn(alignX, alignY, GapSymbol, seqY[i - 1], |alignX0|);
    PushGap(alignX0, alignX, i0 - i);
    PushReversed(alignY0, alignY, seqY, i, i0);
  }

  /**
   * The first loop of the final drain of `traceback_matrices`: the `i0`
   * letters of the vertical sequence the main loop did not reach, each
   * emitted against a gap, last letter first.
   */
  method DrainRows(alignX0: string, alignY0: string, i0: nat, j: nat, seqX: string, seqY: string)
    returns (alignX: string, alignY: string)
    requires i0 <= |seqY| && j <= |seqX| && |alignX0| == |alignY0|
    requires StripsTo(alignX0, seqX[j..]) && StripsTo(alignY0, seqY[i0..])
    ensures alignX == alignX0 + Gaps(i0) && alignY == alignY0 + Reverse(seqY[..i0])
    ensures StripsTo(alignX, seqX[j..]) && StripsTo(alignY, seqY)
    ensures GapFree(seqX) && GapFree(seqY) && NoEmptyColumn(alignX0, alignY0) ==> NoEmptyColumn(alignX, alignY)
  {
    alignX, alignY := alignX0, alignY0;
    var i: nat := i0;
    assert seqY[i0..i0] == [];
    while i > 0
      invariant RowsDrained(alignX0, alignY0, i0, j, seqX, seqY, alignX, alignY, i)
    {
      DrainRowStep(alignX0, alignY0, i0, j, seqX, seqY, alignX, alignY, i);
      alignX, alignY := alignX + [GapSymbol], alignY + [seqY[i - 1]];
      i := i - 1;
    }
    assert seqY[0..] == seqY && seqY[0..i0] == seqY[..i0];
  }

  /**
   * The state of the second drain loop with `j` letters of the horizontal
   * sequence left: `j0 - j` columns emitted, each the letter over a gap.
   */
  predicate ColumnsDrained(alignX0: string, alignY0: string, j0: nat, seqX: string, seqY: string,
                           alignX: string, alignY: string, j: nat)
  {
    j <= j0 <= |seqX| && |alignX0| == |alignY0| &&
    alignX == alignX0 + Reverse(seqX[j..j0]) && alignY == alignY0 + Gaps(j0 - j) &&
    StripsTo(alignX, seqX[j..]) && StripsTo(alignY, seqY) &&
    (GapFree(seqX) && GapFree(seqY) && NoEmptyColumn(alignX0, alignY0) ==> NoEmptyColumn(alignX, alignY))
  }

  /** One pass of the second drain loop. */
  lemma DrainColumnStep(alignX0: string, alignY0: string, j0: nat, seqX: string, seqY: string,
                        alignX: string, alignY: string, j: nat)
    requires j >= 1 && ColumnsDrained(alignX0, alignY0, j0, seqX, seqY, alignX, alignY, j)
    ensures ColumnsDrained(alignX0, alignY0, j0, seqX, seqY, alignX + [seqX[j - 1]], alignY + [GapSymbol], j - 1)
  {
    EmitLetter(alignX, seqX, j);
    EmitGap(alignY);
    AppendColumn(alignX, alignY, seqX[j - 1], GapSymbol, |alignX0|);
    PushReversed(alignX0, alignX, seqX, j, j0);
    PushGap(alignY0, alignY, j0 - j);
  }

  /**
   * The second loop of the final drain: the `j0` letters of the horizontal
   * sequence the main loop did not reach, each emitted against a gap, last
   * letter first.
   */
  method DrainColumns(alignX0: string, alignY0: string, j0: nat, seqX: string, seqY: string)
    returns (alignX: string, alignY: string)
    requires j0 <= |seqX| && |alignX0| == |alignY0|
    requires StripsTo(alignX0, seqX[j0..]) && StripsTo(alignY0, seqY)
    ensures alignX == alignX0 + Reverse(seqX[..j0]) && alignY == alignY0 + Gaps(j0)
    ensures StripsTo(alignX, seqX) && StripsTo(alignY, seqY)
    ensures GapFree(seqX) && GapFree(seqY) && NoEmptyColumn(alignX0, alignY0) ==> NoEmptyColumn(alignX, alignY)
  {
    alignX, alignY := alignX0, alignY0;
    var j: nat := j0;
    assert seqX[j0..j0] == [];
    while j > 0
      invariant ColumnsDrained(alignX0, alignY0, j0, seqX, seqY, alignX, alignY, j)
    {
      DrainColumnStep(alignX0, alignY0, j0, seqX, seqY, alignX, alignY, j);
      alignX, alignY := alignX + [seqX[j - 1]], alignY + [GapSymbol];
      j := j - 1;
    }
    assert seqX[0..] == seqX && seqX[0..j0] == seqX[..j0];
  }

  /**
   * The final drain of `traceback_matrices`: the letters the main loop did
   * not reach are emitted against gaps, first the vertical ones, then the
   * horizontal ones.
   */
  method DrainPrefix(alignX0: string, alignY0: string, i0: nat, j0: nat, seqX: string, seqY: string)
    returns (alignX: string, alignY: string)
    requires i0 <= |seqY| && j0 <= |seqX| && |alignX0| == |alignY0|
    requires StripsTo(alignX0, seqX[j0..]) && StripsTo(alignY0, seqY[i0..])
    ensures |alignX| == |alignY| == |alignX0| + i0 + j0
    ensures alignX == alignX0 + Gaps(i0) + Reverse(seqX[..j0]) && alignY == alignY0 + Reverse(seqY[..i0]) + Gaps(j0)
    ensures StripsTo(alignX, seqX) && StripsTo(alignY, seqY)
    ensures GapFree(seqX) && GapFree(seqY) && NoEmptyColumn(alignX0, alignY0) ==> NoEmptyColumn(alignX, alignY)
  {
    var x, y := DrainRows(alignX0, alignY0, i0, j0, seqX, seqY);
    alignX, alignY := DrainColumns(x, y, j0, seqX, seqY);
  }

  /**
   * The rows `traceback_matrices` returns: the columns of the walk from the
   * bottom-right corner, then those of the drain, all reversed.
   */
  ghost predicate DrainedTrace(A: array2<Cell>, I: array2<Cell>, D: array2<Cell>, seqX: string, seqY: string,
                               alignX: string, alignY: string)
    requires Shape(A, I, D, |seqY| + 1, |seqX| + 1) && Traceable(A, I, D)
    reads A, I, D
  {
    var t := Trace(A, I, D, seqX, seqY, |seqY|, |seqX|, AlignLayer);
    alignX == Reverse(t.0 + Gaps(t.2) + Reverse(seqX[..t.3])) &&
    alignY == Reverse(t.1 + Reverse(seqY[..t.2]) + Gaps(t.3))
  }

  /**
   * A global alignment of `seqX` and `seqY`: two rows of equal length that
   * strip back to the two sequences and, when the sequences hold no gap
   * symbol, give them back exactly, with no column a gap over a gap.
   */
  predicate AlignmentOf(alignX: string, alignY: string, seqX: string, seqY: string) {
    |alignX| == |alignY| &&
    Strip(alignX) == Strip(seqX) && Strip(alignY) == Strip(seqY) &&
    (GapFree(seqX) && GapFree(seqY) ==> Strip(alignX) == seqX && Strip(alignY) == seqY && NoEmptyColumn(alignX, alignY))
  }

  /**
   * The rows of `traceback_matrices` (its main loop, final drain and
   * reversal): the walk from the bottom-right corner, then the drain, all
   * reversed, and together an alignment of the two sequences.
   */
  method Traceback(A: array2<Cell>, I: array2<Cell>, D: array2<Cell>, seqX: string, seqY: string)
    returns (alignX: string, alignY: string)
    requires Shape(A, I, D, |seqY| + 1, |seqX| + 1) && Traceable(A, I, D)
    ensures DrainedTrace(A, I, D, seqX, seqY, alignX, alignY)
    ensures AlignmentOf(alignX, alignY, seqX, seqY)
  {
    var ax, ay, i, j := TraceCells(A, I, D, seqX, seqY);
    TraceWhole(A, I, D, seqX, seqY);
    ax, ay := DrainPrefix(ax, ay, i, j, seqX, seqY);
    alignX := Reverse(ax);
    alignY := Reverse(ay);
    if GapFree(seqX) && GapFree(seqY) {
      StripGapFree(seqX);
      StripGapFree(seqY);
      ReverseNoEmptyColumn(ax, ay);
    }
  }

  // ----- The three matrices as the aligners leave them -----

  /**
   * The boundaries the init methods write: the first row and column of A
   * cost one gap each, `I[i][0] = A[i][0] + gi`, and `D[0][j] = A[0][j] + gi`
   * from column `first` on, all tagged `None`.
   */
  ghost predicate Boundary(A: array2<Cell>, I: array2<Cell>, D: array2<Cell>, gi: int, ge: int, first: nat)
    requires Shape(A, I, D, A.Length0, A.Length1)
    reads A, I, D
  {
    A.Length0 >= 1 && A.Length1 >= 1 &&
    A[0, 0] == Scored(0.0, Same) &&
    (forall i :: 1 <= i < A.Length0 ==> A[i, 0] == Scored((gi + i * ge) as real, Same)) &&
    (forall j :: 1 <= j < A.Length1 ==> A[0, j] == Scored((gi + j * ge) as real, Same)) &&
    (forall i :: 0 <= i < A.Length0 ==> I[i, 0] == Scored(A[i, 0].score + gi as real, Same)) &&
    (forall j :: first <= j < A.Length1 ==> D[0, j] == Scored(A[0, j].score + gi as real, Same)) &&
    (forall j :: 0 <= j < first && j < A.Length1 ==> D[0, j] == Unset)
  }

  /** The matrices right after `init_matrices`: the boundaries written, every other cell unset. */
  ghost predicate Initialised(A: array2<Cell>, I: array2<Cell>, D: array2<Cell>, gi: int, ge: int, first: nat)
    requires Shape(A, I, D, A.Length0, A.Length1)
    reads A, I, D
  {
    Boundary(A, I, D, gi, ge, first) &&
    (forall i, j :: 1 <= i < A.Length0 && 1 <= j < A.Length1 ==> A[i, j] == Unset && I[i, j] == Unset) &&
    (forall i, j :: 1 <= i < A.Length0 && 0 <= j < A.Length1 ==> D[i, j] == Unset) &&
    (forall j :: 1 <= j < A.Length1 ==> I[0, j] == Unset)
  }

  /** `init_matrices`: three fresh matrices with their boundaries written. */
  method NewMatrices(h: nat, w: nat, gi: int, ge: int, first: nat) returns (A: array2<Cell>, I: array2<Cell>, D: array2<Cell>)
    requires h >= 1 && w >= 1 && first <= 1
    ensures fresh(A) && fresh(I) && fresh(D) && Shape(A, I, D, h, w)
    ensures Initialised(A, I, D, gi, ge, first)
  {
    A := NewAlignmentMatrix(h, w, gi, ge);
    I := NewInsertionMatrix(A, gi);
    D := NewDeletionMatrix(A, gi, first);
  }

  /** The fill may start on initialised matrices: every cell it reads first is written. */
  lemma InitialisedBoundaryScored(A: array2<Cell>, I: array2<Cell>, D: array2<Cell>, gi: int, ge: int, first: nat)
    requires Shape(A, I, D, A.Length0, A.Length1) && first <= 1 && Initialised(A, I, D, gi, ge, first)
    ensures BoundaryScored(A, I, D)
  {
    forall i | 0 <= i < A.Length0 ensures A[i, 0].Scored? {
      if i > 0 {
        assert A[i, 0] == Scored((gi + i * ge) as real, Same);
      }
    }
    forall j | 1 <= j < A.Length1 ensures A[0, j].Scored? && D[0, j].Scored? {
      assert A[0, j] == Scored((gi + j * ge) as real, Same);
    }
  }

  /** The traceback may run on filled matrices: every inner cell is written and no A cell points to A. */
  lemma FilledTraceable(A: array2<Cell>, I: array2<Cell>, D: array2<Cell>, mode: Mode, sim: Table<int>, dist: Table<real>,
                        seqX: string, seqY: string, gi: int, ge: int)
    requires Shape(A, I, D, |seqY| + 1, |seqX| + 1) && Filled(A, I, D, mode, sim, dist, seqX, seqY, gi, ge)
    ensures Traceable(A, I, D)
  {
    forall i, j | 1 <= i < A.Length0 && 1 <= j < A.Length1
      ensures A[i, j].Scored? && A[i, j].origin != From(AlignLayer) && I[i, j].Scored? && D[i, j].Scored?
    {
      assert CellFilled(A, I, D, mode, sim, dist, seqX, seqY, gi, ge, i, j);
    }
  }
}
