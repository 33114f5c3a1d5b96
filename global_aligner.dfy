/**
 * The older aligner class: one object for both modes, chosen per call by
 * `distance_alignment` or `similarity_alignment`. Its fill is the base
 * class's, but `D[0][0]` is never written and the traceback stops at the
 * first row or column without draining the rest.
 */
module Aligner {
  import opened Wrappers
  import opened Tokens
  import opened Blosum
  import opened Gotoh

  class GlobalAligner {
    var seqX: string                  // horizontal sequence
    var seqY: string                  // vertical sequence
    var blosum: BlosumReader
    var gapInitCost: int
    var gapExtendCost: int
    var alignmentMatrix: array2<Cell>   // A
    var insertionMatrix: array2<Cell>   // I
    var deletionMatrix: array2<Cell>    // D
    var matrixHeight: nat
    var matrixWidth: nat
    var mode: Option<Mode>            // `None` until a mode method has run

    constructor ()
      ensures fresh(blosum) && blosum.headers == [] && blosum.sim == map[] && blosum.dist == map[]
      ensures mode == None && gapInitCost == 0 && gapExtendCost == 0
      ensures seqX == "" && seqY == "" && matrixHeight == 0 && matrixWidth == 0
    {
      seqX, seqY := "", "";
      blosum := new BlosumReader();
      gapInitCost, gapExtendCost := 0, 0;
      alignmentMatrix := new Cell[0, 0];
      insertionMatrix := new Cell[0, 0];
      deletionMatrix := new Cell[0, 0];
      matrixHeight, matrixWidth := 0, 0;
      mode := None;
    }

    /**
     * `set_blosum`: reads the matrix file (its token lines) into the reader,
     * which then holds the file's headers, similarity table and gap costs.
     */
    method SetBlosum(lines: seq<TokenLine>) returns (r: Result<(), LoadError>)
      modifies blosum
      ensures r.Ok? <==> FileAccepted(lines)
      ensures r.Ok? ==> blosum.Loaded() && blosum.kind == lines[0][0] && blosum.headers == lines[1]
      ensures r.Ok? ==>
        var rs := ReadSimilarity(EmptyRows(lines[1]), lines[1], lines, 2).value;
        blosum.sim == rs.sim &&
        GapLine("Gap_initiation", rs.next) == Some(blosum.gapInitCost) &&
        GapLine("Gap_extension", lines[rs.pos]) == Some(blosum.gapExtendCost)
      ensures |lines| < 2 ==> r == Err(NoMoreLines)
    {
      r := blosum.ReadFile(lines);
    }

    /**
     * What `align` leaves behind for non-empty inputs: the sequences and
     * matrices set up, and then the outcome: TypeError without a mode,
     * KeyError on the first unscored pair in fill order, otherwise the
     * filled matrices and the reversed rows of their walk, which strip to
     * suffixes of the inputs (the traceback stops at the first row or column).
     */
    ghost predicate AlignedState(r: Outcome, seqA: string, seqB: string)
      requires seqA != [] && seqB != []
      reads this, alignmentMatrix, insertionMatrix, deletionMatrix, blosum
    {
      seqX == seqA && seqY == seqB && matrixHeight == |seqB| + 1 && matrixWidth == |seqA| + 1 &&
      Shape(alignmentMatrix, insertionMatrix, deletionMatrix, |seqB| + 1, |seqA| + 1) &&
      (mode.None? ==> r == ModeNotSet) &&
      (mode.Some? ==>
        (r.Aligned? || r.UnknownPair?) &&
        (r.Aligned? <==> AllPairsScored(mode.value, blosum.sim, blosum.dist, seqA, seqB)) &&
        (r.UnknownPair? ==> r.x in seqA && r.y in seqB && MatchScore(mode.value, blosum.sim, blosum.dist, r.x, r.y).None?) &&
        (r.UnknownPair? ==> exists p: nat, q: nat ::
          FirstUnscored(mode.value, blosum.sim, blosum.dist, seqA, seqB, p, q) && (r.x, r.y) == (seqA[q], seqB[p]))) &&
      (r.Aligned? ==>
        mode.Some? &&
        Boundary(alignmentMatrix, insertionMatrix, deletionMatrix, gapInitCost, gapExtendCost, 1) &&
        Filled(alignmentMatrix, insertionMatrix, deletionMatrix, mode.value, blosum.sim, blosum.dist, seqA, seqB, gapInitCost, gapExtendCost) &&
        Traceable(alignmentMatrix, insertionMatrix, deletionMatrix) &&
        (var t := Trace(alignmentMatrix, insertionMatrix, deletionMatrix, seqA, seqB, |seqB|, |seqA|, AlignLayer);
         r.alignX == Reverse(t.0) && r.alignY == Reverse(t.1)) &&
        |r.alignX| == |r.alignY| &&
        (exists i, j :: 0 <= i <= |seqB| && 0 <= j <= |seqA| && (i == 0 || j == 0) &&
           Strip(r.alignX) == Strip(seqA[j..]) && Strip(r.alignY) == Strip(seqB[i..])) &&
        (GapFree(seqA) && GapFree(seqB) ==> NoEmptyColumn(r.alignX, r.alignY)) &&
        alignmentMatrix[|seqB|, |seqA|].Scored? && r.score == alignmentMatrix[|seqB|, |seqA|].score)
    }

    /** `distance_alignment`: `lt`, the distance lookup and negated gap costs, then `align`. */
    method DistanceAlignment(seqA: string, seqB: string) returns (r: Outcome)
      modifies this
      ensures mode == Some(Distance) && blosum == old(blosum)
      ensures gapInitCost == -blosum.gapInitCost && gapExtendCost == -blosum.gapExtendCost
      ensures seqA == [] || seqB == [] ==> r == Unchanged(seqA, seqB)
      ensures seqA != [] && seqB != [] ==> AlignedState(r, seqA, seqB)
    {
      mode := Some(Distance);
      gapInitCost := -blosum.gapInitCost;
      gapExtendCost := -blosum.gapExtendCost;
      r := Align(seqA, seqB);
    }

    /** `similarity_alignment`: `gt`, the similarity lookup and the gap costs as read, then `align`. */
    method SimilarityAlignment(seqA: string, seqB: string) returns (r: Outcome)
      modifies this
      ensures mode == Some(Similarity) && blosum == old(blosum)
      ensures gapInitCost == blosum.gapInitCost && gapExtendCost == blosum.gapExtendCost
      ensures seqA == [] || seqB == [] ==> r == Unchanged(seqA, seqB)
      ensures seqA != [] && seqB != [] ==> AlignedState(r, seqA, seqB)
    {
      mode := Some(Similarity);
      gapInitCost := blosum.gapInitCost;
      gapExtendCost := blosum.gapExtendCost;
      r := Align(seqA, seqB);
    }

    /** `init_matrices`: as in the base class, except that `D` is written from column 1 on. */
    method InitMatrices()
      modifies this`matrixHeight, this`matrixWidth, this`alignmentMatrix, this`insertionMatrix, this`deletionMatrix
      ensures matrixHeight == |seqY| + 1 && matrixWidth == |seqX| + 1
      ensures fresh(alignmentMatrix) && fresh(insertionMatrix) && fresh(deletionMatrix)
      ensures Shape(alignmentMatrix, insertionMatrix, deletionMatrix, matrixHeight, matrixWidth)
      ensures Initialised(alignmentMatrix, insertionMatrix, deletionMatrix, gapInitCost, gapExtendCost, 1)
    {
      matrixWidth := |seqX| + 1;
      matrixHeight := |seqY| + 1;
      alignmentMatrix, insertionMatrix, deletionMatrix := NewMatrices(matrixHeight, matrixWidth, gapInitCost, gapExtendCost, 1);
    }

    /**
     * `compute_matrices`: as in the base class; the boundary it keeps is
     * the one with `D[0][0]` unset, a cell the fill never reads.
     */
    method ComputeMatrices() returns (missing: Option<(char, char)>)
      requires mode.Some?
      requires Shape(alignmentMatrix, insertionMatrix, deletionMatrix, |seqY| + 1, |seqX| + 1)
      requires Initialised(alignmentMatrix, insertionMatrix, deletionMatrix, gapInitCost, gapExtendCost, 1)
      modifies alignmentMatrix, insertionMatrix, deletionMatrix
      ensures missing.None? <==> AllPairsScored(mode.value, blosum.sim, blosum.dist, seqX, seqY)
      ensures missing.Some? ==> missing.value.0 in seqX && missing.value.1 in seqY &&
                                MatchScore(mode.value, blosum.sim, blosum.dist, missing.value.0, missing.value.1).None?
      ensures missing.Some? ==> exists p: nat, q: nat ::
                FirstUnscored(mode.value, blosum.sim, blosum.dist, seqX, seqY, p, q) && missing.value == (seqX[q], seqY[p])
      ensures missing.None? ==>
        Boundary(alignmentMatrix, insertionMatrix, deletionMatrix, gapInitCost, gapExtendCost, 1) &&
        Filled(alignmentMatrix, insertionMatrix, deletionMatrix, mode.value, blosum.sim, blosum.dist, seqX, seqY, gapInitCost, gapExtendCost) &&
        Traceable(alignmentMatrix, insertionMatrix, deletionMatrix) && alignmentMatrix[|seqY|, |seqX|].Scored?
    {
      InitialisedBoundaryScored(alignmentMatrix, insertionMatrix, deletionMatrix, gapInitCost, gapExtendCost, 1);
      missing := Fill(alignmentMatrix, insertionMatrix, deletionMatrix, mode.value, blosum.sim, blosum.dist,
                      seqX, seqY, gapInitCost, gapExtendCost);
      if missing.None? {
        FilledTraceable(alignmentMatrix, insertionMatrix, deletionMatrix, mode.value, blosum.sim, blosum.dist, seqX, seqY, gapInitCost, gapExtendCost);
        if |seqY| >= 1 && |seqX| >= 1 {
          assert CellFilled(alignmentMatrix, insertionMatrix, deletionMatrix, mode.value, blosum.sim, blosum.dist,
                            seqX, seqY, gapInitCost, gapExtendCost, |seqY|, |seqX|);
        }
      }
    }

    /**
     * `traceback_matrices` without the final drain: the rows reversed
     * cover only the suffixes of the sequences after the row and column
     * where the main loop stopped.
     */
    method TracebackMatrices() returns (alignX: string, alignY: string, score: real)
      requires Shape(alignmentMatrix, insertionMatrix, deletionMatrix, |seqY| + 1, |seqX| + 1)
      requires matrixHeight == |seqY| + 1 && matrixWidth == |seqX| + 1
      requires Traceable(alignmentMatrix, insertionMatrix, deletionMatrix) && alignmentMatrix[|seqY|, |seqX|].Scored?
      ensures var t := Trace(alignmentMatrix, insertionMatrix, deletionMatrix, seqX, seqY, |seqY|, |seqX|, AlignLayer);
        alignX == Reverse(t.0) && alignY == Reverse(t.1)
      ensures |alignX| == |alignY|
      ensures exists i, j :: 0 <= i <= |seqY| && 0 <= j <= |seqX| && (i == 0 || j == 0) &&
                Strip(alignX) == Strip(seqX[j..]) && Strip(alignY) == Strip(seqY[i..])
      ensures GapFree(seqX) && GapFree(seqY) ==> NoEmptyColumn(alignX, alignY)
      ensures alignmentMatrix[|seqY|, |seqX|].Scored? && score == alignmentMatrix[|seqY|, |seqX|].score
    {
      var ax, ay, i, j := TraceCells(alignmentMatrix, insertionMatrix, deletionMatrix, seqX, seqY);
      TraceWhole(alignmentMatrix, insertionMatrix, deletionMatrix, seqX, seqY);
      alignX := Reverse(ax);
      alignY := Reverse(ay);
      score := alignmentMatrix[matrixHeight - 1, matrixWidth - 1].score;
      if GapFree(seqX) && GapFree(seqY) {
        ReverseNoEmptyColumn(ax, ay);
      }
    }

    /**
     * `align`: an empty sequence on either side returns both inputs and
     * touches nothing; otherwise the matrices are set up, filled with the
     * current mode and traced back.
     */
    method Align(seqA: string, seqB: string) returns (r: Outcome)
      modifies this
      ensures blosum == old(blosum) && mode == old(mode)
      ensures gapInitCost == old(gapInitCost) && gapExtendCost == old(gapExtendCost)
      ensures seqA == [] || seqB == [] ==> r == Unchanged(seqA, seqB) && unchanged(this)
      ensures seqA != [] && seqB != [] ==>
        fresh(alignmentMatrix) && fresh(insertionMatrix) && fresh(deletionMatrix) && AlignedState(r, seqA, seqB)
    {
      if seqA == [] || seqB == [] {
        return Unchanged(seqA, seqB);
      }
      seqX := seqA;
      seqY := seqB;
      InitMatrices();
      if mode.None? {
        return ModeNotSet;
      }
      var missing := ComputeMatrices();
      if missing.Some? {
        return UnknownPair(missing.value.0, missing.value.1);
      }
      var alignX, alignY, score := TracebackMatrices();
      return Aligned(alignX, alignY, score);
    }
  }

  /** A similarity table over the letters `A` and `B`: 4 for a match, 0 for a mismatch. */
  const ExampleSim: Table<int> := map["A" := map["A" := 4, "B" := 0], "B" := map["A" := 0, "B" := 4]]

  /**
   * Aligning "BA" (horizontal) with "A" (vertical) by similarity, with
   * gap costs -11 and -1: the walk from the corner matches the two `A`s
   * and stops on the first row with the `B` of "BA" still unemitted, so
   * the traceback of `GlobalAligner` returns ("A", "A") and loses a letter.
   */
  lemma DrainlessTraceDropsLetter(A: array2<Cell>, I: array2<Cell>, D: array2<Cell>)
    requires Shape(A, I, D, 2, 3) && Boundary(A, I, D, -11, -1, 1)
    requires Filled(A, I, D, Similarity, ExampleSim, map[], "BA", "A", -11, -1)
    ensures Traceable(A, I, D)
    ensures Trace(A, I, D, "BA", "A", 1, 2, AlignLayer) == ("A", "A", 0, 1)
    ensures Reverse("A") == "A" && Strip("A") != Strip("BA")
  {
    FilledTraceable(A, I, D, Similarity, ExampleSim, map[], "BA", "A", -11, -1);
    assert CellFilled(A, I, D, Similarity, ExampleSim, map[], "BA", "A", -11, -1, 1, 1);
    assert CellFilled(A, I, D, Similarity, ExampleSim, map[], "BA", "A", -11, -1, 1, 2);
    assert A[0, 1] == Scored(-12.0, Same) && A[0, 2] == Scored(-13.0, Same) && A[1, 0] == Scored(-12.0, Same);
    assert MatchScore(Similarity, ExampleSim, map[], 'B', 'A') == Some(0.0);
    assert MatchScore(Similarity, ExampleSim, map[], 'A', 'A') == Some(4.0);
    assert I[1, 1] == Scored(-24.0, From(AlignLayer));
    assert A[1, 1] == Scored(0.0, Same);
    assert I[1, 2] == Scored(-12.0, From(AlignLayer));
    assert A[1, 2] == Scored(-8.0, Same);
    assert Strip("BA") == "BA";
  }
}
