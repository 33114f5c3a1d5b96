/**
 * The aligner base class and its two configurations: the similarity
 * aligner (comparator `gt`, the similarity lookup, the gap costs as read)
 * and the distance aligner (comparator `lt`, the distance lookup, the gap
 * costs negated).
 */
module AlignerBase {
  import opened Wrappers
  import opened Blosum
  import opened Gotoh

  class GlobalAlignerBase {
    var seqX: string                  // horizontal sequence
    var seqY: string                  // vertical sequence
    var blosum: BlosumReader
    var gapInitCost: int
    var gapExtendCost: int
    var alignmentMatrix: array2<Cell>   // A
    var insertionMatrix: array2<Cell>   // I
    var deletionMatrix: array2<Cell>    // D
    var matrixHeight: nat
    var matrixWidth: nat
    var mode: Mode                    // the comparator and the score lookup

    /** `GlobalSimilarityAligner(...)`: `gt`, the similarity lookup and the gap costs with their sign. */
    constructor SimilarityAligner(reader: BlosumReader)
      ensures blosum == reader && mode == Similarity
      ensures gapInitCost == reader.gapInitCost && gapExtendCost == reader.gapExtendCost
      ensures seqX == "" && seqY == "" && matrixHeight == 0 && matrixWidth == 0
    {
      seqX, seqY := "", "";
      blosum := reader;
      alignmentMatrix := new Cell[0, 0];
      insertionMatrix := new Cell[0, 0];
      deletionMatrix := new Cell[0, 0];
      matrixHeight, matrixWidth := 0, 0;
      mode := Similarity;
      gapInitCost := reader.gapInitCost;
      gapExtendCost := reader.gapExtendCost;
    }

    /** `GlobalDistanceAligner(...)`: `lt`, the distance lookup and the gap costs negated. */
    constructor DistanceAligner(reader: BlosumReader)
      ensures blosum == reader && mode == Distance
      ensures gapInitCost == -reader.gapInitCost && gapExtendCost == -reader.gapExtendCost
      ensures seqX == "" && seqY == "" && matrixHeight == 0 && matrixWidth == 0
    {
      seqX, seqY := "", "";
      blosum := reader;
      alignmentMatrix := new Cell[0, 0];
      insertionMatrix := new Cell[0, 0];
      deletionMatrix := new Cell[0, 0];
      matrixHeight, matrixWidth := 0, 0;
      mode := Distance;
      gapInitCost := -reader.gapInitCost;
      gapExtendCost := -reader.gapExtendCost;
    }

    /** `init_matrices`: the dimensions from the sequences, then A, I and D with their boundaries. */
    method InitMatrices()
      modifies this`matrixHeight, this`matrixWidth, this`alignmentMatrix, this`insertionMatrix, this`deletionMatrix
      ensures matrixHeight == |seqY| + 1 && matrixWidth == |seqX| + 1
      ensures fresh(alignmentMatrix) && fresh(insertionMatrix) && fresh(deletionMatrix)
      ensures Shape(alignmentMatrix, insertionMatrix, deletionMatrix, matrixHeight, matrixWidth)
      ensures Initialised(alignmentMatrix, insertionMatrix, deletionMatrix, gapInitCost, gapExtendCost, 0)
    {
      matrixWidth := |seqX| + 1;
      matrixHeight := |seqY| + 1;
      alignmentMatrix, insertionMatrix, deletionMatrix := NewMatrices(matrixHeight, matrixWidth, gapInitCost, gapExtendCost, 0);
    }

    /**
     * `compute_matrices`: fills D, I and A cell by cell from the
     * initialised boundaries, looking letter pairs up in the table of the
     * mode. Returns the first pair the table does not score, if any.
     */
    method ComputeMatrices() returns (missing: Option<(char, char)>)
      requires Shape(alignmentMatrix, insertionMatrix, deletionMatrix, |seqY| + 1, |seqX| + 1)
      requires Initialised(alignmentMatrix, insertionMatrix, deletionMatrix, gapInitCost, gapExtendCost, 0)
      modifies alignmentMatrix, insertionMatrix, deletionMatrix
      ensures missing.None? <==> AllPairsScored(mode, blosum.sim, blosum.dist, seqX, seqY)
      ensures missing.Some? ==> missing.value.0 in seqX && missing.value.1 in seqY &&
                                MatchScore(mode, blosum.sim, blosum.dist, missing.value.0, missing.value.1).None?
      ensures missing.Some? ==> exists p: nat, q: nat ::
                FirstUnscored(mode, blosum.sim, blosum.dist, seqX, seqY, p, q) && missing.value == (seqX[q], seqY[p])
      ensures missing.None? ==>
        Boundary(alignmentMatrix, insertionMatrix, deletionMatrix, gapInitCost, gapExtendCost, 0) &&
        Filled(alignmentMatrix, insertionMatrix, deletionMatrix, mode, blosum.sim, blosum.dist, seqX, seqY, gapInitCost, gapExtendCost) &&
        Traceable(alignmentMatrix, insertionMatrix, deletionMatrix) && alignmentMatrix[|seqY|, |seqX|].Scored?
    {
      InitialisedBoundaryScored(alignmentMatrix, insertionMatrix, deletionMatrix, gapInitCost, gapExtendCost, 0);
      missing := Fill(alignmentMatrix, insertionMatrix, deletionMatrix, mode, blosum.sim, blosum.dist,
                      seqX, seqY, gapInitCost, gapExtendCost);
      if missing.None? {
        FilledTraceable(alignmentMatrix, insertionMatrix, deletionMatrix, mode, blosum.sim, blosum.dist, seqX, seqY, gapInitCost, gapExtendCost);
        if |seqY| >= 1 && |seqX| >= 1 {
          assert CellFilled(alignmentMatrix, insertionMatrix, deletionMatrix, mode, blosum.sim, blosum.dist,
                            seqX, seqY, gapInitCost, gapExtendCost, |seqY|, |seqX|);
        }
      }
    }

    /**
     * `traceback_matrices`: the main loop, the final drain, the rows
     * reversed, and the score of the bottom-right cell of A.
     */
    method TracebackMatrices() returns (alignX: string, alignY: string, score: real)
      requires Shape(alignmentMatrix, insertionMatrix, deletionMatrix, |seqY| + 1, |seqX| + 1)
      requires matrixHeight == |seqY| + 1 && matrixWidth == |seqX| + 1
      requires Traceable(alignmentMatrix, insertionMatrix, deletionMatrix) && alignmentMatrix[|seqY|, |seqX|].Scored?
      ensures DrainedTrace(alignmentMatrix, insertionMatrix, deletionMatrix, seqX, seqY, alignX, alignY)
      ensures AlignmentOf(alignX, alignY, seqX, seqY)
      ensures score == alignmentMatrix[|seqY|, |seqX|].score
    {
      alignX, alignY := Traceback(alignmentMatrix, insertionMatrix, deletionMatrix, seqX, seqY);
      score := alignmentMatrix[matrixHeight - 1, matrixWidth - 1].score;
    }

    /**
     * What `align` leaves behind for non-empty inputs: the sequences and
     * matrices set up, then either the first letter pair, in fill order,
     * the matrix does not score (KeyError), or the filled matrices and the
     * rows their traceback emits, an alignment of the two inputs, scored by
     * the bottom-right cell of A.
     */
    ghost predicate AlignedState(r: Outcome, seqA: string, seqB: string)
      reads this, alignmentMatrix, insertionMatrix, deletionMatrix, blosum
    {
      seqX == seqA && seqY == seqB && matrixHeight == |seqB| + 1 && matrixWidth == |seqA| + 1 &&
      Shape(alignmentMatrix, insertionMatrix, deletionMatrix, |seqB| + 1, |seqA| + 1) &&
      (r.Aligned? || r.UnknownPair?) &&
      (r.Aligned? <==> AllPairsScored(mode, blosum.sim, blosum.dist, seqA, seqB)) &&
      (r.UnknownPair? ==> r.x in seqA && r.y in seqB && MatchScore(mode, blosum.sim, blosum.dist, r.x, r.y).None?) &&
      (r.UnknownPair? ==> exists p: nat, q: nat ::
        FirstUnscored(mode, blosum.sim, blosum.dist, seqA, seqB, p, q) && (r.x, r.y) == (seqA[q], seqB[p])) &&
      (r.Aligned? ==>
        Boundary(alignmentMatrix, insertionMatrix, deletionMatrix, gapInitCost, gapExtendCost, 0) &&
        Filled(alignmentMatrix, insertionMatrix, deletionMatrix, mode, blosum.sim, blosum.dist, seqA, seqB, gapInitCost, gapExtendCost) &&
        Traceable(alignmentMatrix, insertionMatrix, deletionMatrix) &&
        DrainedTrace(alignmentMatrix, insertionMatrix, deletionMatrix, seqA, seqB, r.alignX, r.alignY) &&
        AlignmentOf(r.alignX, r.alignY, seqA, seqB) &&
        alignmentMatrix[|seqB|, |seqA|].Scored? && r.score == alignmentMatrix[|seqB|, |seqA|].score)
    }

    /**
     * `align`: an empty sequence on either side returns both inputs and
     * touches nothing; otherwise the matrices are set up, filled and traced
     * back. A letter pair the matrix does not score stops the fill.
     */
    method Align(seqA: string, seqB: string) returns (r: Outcome)
      modifies this
      ensures blosum == old(blosum) && mode == old(mode)
      ensures gapInitCost == old(gapInitCost) && gapExtendCost == old(gapExtendCost)
      ensures seqA == [] || seqB == [] ==> r == Unchanged(seqA, seqB) && unchanged(this)
      ensures seqA != [] && seqB != [] ==>
        fresh(alignmentMatrix) && fresh(insertionMatrix) && fresh(deletionMatrix) && AlignedState(r, seqA, seqB)
    {
      if seqA == [] || seqB == [] {
        return Unchanged(seqA, seqB);
      }
      seqX := seqA;
      seqY := seqB;
      InitMatrices();
      var missing := ComputeMatrices();
      if missing.Some? {
        return UnknownPair(missing.value.0, missing.value.1);
      }
      var alignX, alignY, score := TracebackMatrices();
      return Aligned(alignX, alignY, score);
    }
  }
}
