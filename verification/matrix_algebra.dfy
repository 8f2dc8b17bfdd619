/** Square integer matrices as values, and the algebra behind
    strassen/strassen.go: entrywise sum and difference, quadrants, zero
    padding, the textbook product, and Strassen's seven-product identity. */
module MatrixAlgebra {

  /** A matrix as its rows; `Matrix` ([][]int) in the source. */
  type Mat = seq<seq<int>>

  /** Every row of A is as long as A has rows. */
  predicate Square(A: Mat) {
    forall i :: 0 <= i < |A| ==> |A[i]| == |A|
  }

  /** The size-by-size zero matrix. */
  function Zero(size: nat): (Z: Mat)
    ensures Square(Z) && |Z| == size
  {
    seq(size, i => seq(size, j => 0))
  }

  function Plus(A: Mat, B: Mat): (C: Mat)
    requires Square(A) && Square(B) && |A| == |B|
    ensures Square(C) && |C| == |A|
  {
    seq(|A|, i requires 0 <= i < |A| => seq(|A|, j requires 0 <= j < |A| => A[i][j] + B[i][j]))
  }

  function Minus(A: Mat, B: Mat): (C: Mat)
    requires Square(A) && Square(B) && |A| == |B|
    ensures Square(C) && |C| == |A|
  {
    seq(|A|, i requires 0 <= i < |A| => seq(|A|, j requires 0 <= j < |A| => A[i][j] - B[i][j]))
  }

  /** Subtraction undoes addition. */
  lemma MinusUndoesPlus(A: Mat, B: Mat)
    requires Square(A) && Square(B) && |A| == |B|
    ensures Minus(Plus(A, B), B) == A
  {
    var C := Minus(Plus(A, B), B);
    forall i | 0 <= i < |A| ensures C[i] == A[i] {
      assert |C[i]| == |A[i]|;
    }
  }

  /** The size-by-size block of M whose top-left entry is M[row][col]. */
  function Quad(M: Mat, row: nat, col: nat, size: nat): (Q: Mat)
    requires Square(M) && row + size <= |M| && col + size <= |M|
    ensures Square(Q) && |Q| == size
  {
    seq(size, i requires 0 <= i < size => seq(size, j requires 0 <= j < size => M[row + i][col + j]))
  }

  /** The 2h-by-2h matrix made of four h-by-h blocks. */
  function Combine(C11: Mat, C12: Mat, C21: Mat, C22: Mat): (C: Mat)
    requires Square(C11) && Square(C12) && Square(C21) && Square(C22)
    requires |C12| == |C11| && |C21| == |C11| && |C22| == |C11|
    ensures Square(C) && |C| == 2 * |C11|
  {
    var h := |C11|;
    seq(2 * h, i requires 0 <= i < 2 * h => seq(2 * h, j requires 0 <= j < 2 * h =>
      if i < h then (if j < h then C11[i][j] else C12[i][j - h])
      else (if j < h then C21[i - h][j] else C22[i - h][j - h])))
  }

  /** Each quadrant of a combined matrix is the block it was made from. */
  lemma QuadOfCombine(C11: Mat, C12: Mat, C21: Mat, C22: Mat)
    requires Square(C11) && Square(C12) && Square(C21) && Square(C22)
    requires |C12| == |C11| && |C21| == |C11| && |C22| == |C11|
    ensures var h := |C11|; var C := Combine(C11, C12, C21, C22);
      && Quad(C, 0, 0, h) == C11 && Quad(C, 0, h, h) == C12
      && Quad(C, h, 0, h) == C21 && Quad(C, h, h, h) == C22
  {
    var h := |C11|;
    var C := Combine(C11, C12, C21, C22);
    forall i | 0 <= i < h
      ensures Quad(C, 0, 0, h)[i] == C11[i] && Quad(C, 0, h, h)[i] == C12[i]
      ensures Quad(C, h, 0, h)[i] == C21[i] && Quad(C, h, h, h)[i] == C22[i]
    {
    }
  }

  /** Combining the four quadrants of an even-sized matrix gives it back. */
  lemma CombineOfQuads(M: Mat, h: nat)
    requires Square(M) && |M| == 2 * h
    ensures Combine(Quad(M, 0, 0, h), Quad(M, 0, h, h), Quad(M, h, 0, h), Quad(M, h, h, h)) == M
  {
    var C := Combine(Quad(M, 0, 0, h), Quad(M, 0, h, h), Quad(M, h, 0, h), Quad(M, h, h, h));
    forall i | 0 <= i < 2 * h ensures C[i] == M[i] {
    }
  }

  /** M enlarged to newSize by zero rows and columns (or cut down to it). */
  function Pad(M: Mat, newSize: nat): (P: Mat)
    requires Square(M)
    ensures Square(P) && |P| == newSize
  {
    seq(newSize, i requires 0 <= i < newSize => seq(newSize, j requires 0 <= j < newSize =>
      if i < |M| && j < |M| then M[i][j] else 0))
  }

  /** Padding to the same size changes nothing. */
  lemma PadSame(M: Mat)
    requires Square(M)
    ensures Pad(M, |M|) == M
  {
    forall i | 0 <= i < |M| ensures Pad(M, |M|)[i] == M[i] {
    }
  }

  /** The top-left block of a padded matrix is the matrix itself. */
  lemma CropPad(M: Mat, newSize: nat)
    requires Square(M) && |M| <= newSize
    ensures Quad(Pad(M, newSize), 0, 0, |M|) == M
  {
    forall i | 0 <= i < |M| ensures Quad(Pad(M, newSize), 0, 0, |M|)[i] == M[i] {
    }
  }

  /** Row i of A times column j of B, over the first k terms, summed in the
      order of the innermost loop of `standardMultiply`. */
  function Dot(A: Mat, B: Mat, i: nat, j: nat, k: nat): int
    requires Square(A) && Square(B) && |A| == |B|
    requires i < |A| && j < |A| && k <= |A|
  {
    if k == 0 then 0 else Dot(A, B, i, j, k - 1) + A[i][k - 1] * B[k - 1][j]
  }

  /** The textbook product. */
  function Mul(A: Mat, B: Mat): (C: Mat)
    requires Square(A) && Square(B) && |A| == |B|
    ensures Square(C) && |C| == |A|
  {
    seq(|A|, i requires 0 <= i < |A| => seq(|A|, j requires 0 <= j < |A| => Dot(A, B, i, j, |A|)))
  }

  // ---------------------------------------------------------------------
  // The product is bilinear
  // ---------------------------------------------------------------------

  lemma {:induction false} DotPlusLeft(A: Mat, B: Mat, C: Mat, i: nat, j: nat, k: nat)
    requires Square(A) && Square(B) && Square(C) && |A| == |B| == |C|
    requires i < |A| && j < |A| && k <= |A|
    ensures Dot(Plus(A, B), C, i, j, k) == Dot(A, C, i, j, k) + Dot(B, C, i, j, k)
  {
    if k > 0 {
      DotPlusLeft(A, B, C, i, j, k - 1);
    }
  }

  lemma {:induction false} DotMinusLeft(A: Mat, B: Mat, C: Mat, i: nat, j: nat, k: nat)
    requires Square(A) && Square(B) && Square(C) && |A| == |B| == |C|
    requires i < |A| && j < |A| && k <= |A|
    ensures Dot(Minus(A, B), C, i, j, k) == Dot(A, C, i, j, k) - Dot(B, C, i, j, k)
  {
    if k > 0 {
      DotMinusLeft(A, B, C, i, j, k - 1);
    }
  }

  lemma {:induction false} DotPlusRight(A: Mat, B: Mat, C: Mat, i: nat, j: nat, k: nat)
    requires Square(A) && Square(B) && Square(C) && |A| == |B| == |C|
    requires i < |A| && j < |A| && k <= |A|
    ensures Dot(A, Plus(B, C), i, j, k) == Dot(A, B, i, j, k) + Dot(A, C, i, j, k)
  {
    if k > 0 {
      DotPlusRight(A, B, C, i, j, k - 1);
    }
  }

  lemma {:induction false} DotMinusRight(A: Mat, B: Mat, C: Mat, i: nat, j: nat, k: nat)
    requires Square(A) && Square(B) && Square(C) && |A| == |B| == |C|
    requires i < |A| && j < |A| && k <= |A|
    ensures Dot(A, Minus(B, C), i, j, k) == Dot(A, B, i, j, k) - Dot(A, C, i, j, k)
  {
    if k > 0 {
      DotMinusRight(A, B, C, i, j, k - 1);
    }
  }

  // ---------------------------------------------------------------------
  // The product by blocks
  // ---------------------------------------------------------------------

  /** The first h terms of an entry of the product, read off two quadrants. */
  lemma {:induction false} DotLow(A: Mat, B: Mat, h: nat, r: nat, c: nat, i: nat, j: nat, k: nat)
    requires Square(A) && Square(B) && |A| == |B| == 2 * h
    requires r + h <= 2 * h && c + h <= 2 * h && i < h && j < h && k <= h
    ensures Dot(Quad(A, r, 0, h), Quad(B, 0, c, h), i, j, k) == Dot(A, B, r + i, c + j, k)
  {
    if k > 0 {
      DotLow(A, B, h, r, c, i, j, k - 1);
      assert Quad(A, r, 0, h)[i][k - 1] == A[r + i][k - 1];
      assert Quad(B, 0, c, h)[k - 1][j] == B[k - 1][c + j];
    }
  }

  /** The last h terms of an entry of the product, read off two quadrants. */
  lemma {:induction false} DotHigh(A: Mat, B: Mat, h: nat, r: nat, c: nat, i: nat, j: nat, k: nat)
    requires Square(A) && Square(B) && |A| == |B| == 2 * h
    requires r + h <= 2 * h && c + h <= 2 * h && i < h && j < h && k <= h
    ensures Dot(Quad(A, r, h, h), Quad(B, h, c, h), i, j, k) == Dot(A, B, r + i, c + j, h + k) - Dot(A, B, r + i, c + j, h)
  {
    if k > 0 {
      DotHigh(A, B, h, r, c, i, j, k - 1);
    }
  }

  /** Each quadrant of a product is the sum of two products of quadrants:
      (AB)rc = Ar1 B1c + Ar2 B2c. */
  lemma BlockEntry(A: Mat, B: Mat, h: nat, r: nat, c: nat, i: nat, j: nat)
    requires Square(A) && Square(B) && |A| == |B| == 2 * h
    requires r + h <= 2 * h && c + h <= 2 * h && i < h && j < h
    ensures Mul(A, B)[r + i][c + j] ==
      Dot(Quad(A, r, 0, h), Quad(B, 0, c, h), i, j, h) + Dot(Quad(A, r, h, h), Quad(B, h, c, h), i, j, h)
  {
    DotLow(A, B, h, r, c, i, j, h);
    DotHigh(A, B, h, r, c, i, j, h);
  }

  // ---------------------------------------------------------------------
  // One level of Strassen's scheme
  // ---------------------------------------------------------------------

  /** What one level of `Strassen` (strassen/strassen.go:61-90) computes from
      two 2h-by-2h operands, with each of the seven products taken exactly. */
  function StrassenStep(A: Mat, B: Mat, h: nat): (C: Mat)
    requires Square(A) && Square(B) && |A| == |B| == 2 * h
    ensures Square(C) && |C| == 2 * h
  {
    Recombined(
      Mul(Plus(Quad(A, 0, 0, h), Quad(A, h, h, h)), Plus(Quad(B, 0, 0, h), Quad(B, h, h, h))),
      Mul(Plus(Quad(A, h, 0, h), Quad(A, h, h, h)), Quad(B, 0, 0, h)),
      Mul(Quad(A, 0, 0, h), Minus(Quad(B, 0, h, h), Quad(B, h, h, h))),
      Mul(Quad(A, h, h, h), Minus(Quad(B, h, 0, h), Quad(B, 0, 0, h))),
      Mul(Plus(Quad(A, 0, 0, h), Quad(A, 0, h, h)), Quad(B, h, h, h)),
      Mul(Minus(Quad(A, h, 0, h), Quad(A, 0, 0, h)), Plus(Quad(B, 0, 0, h), Quad(B, 0, h, h))),
      Mul(Minus(Quad(A, 0, h, h), Quad(A, h, h, h)), Plus(Quad(B, h, 0, h), Quad(B, h, h, h))))
  }

  /** The result's quadrants from the seven products (strassen/strassen.go:84-90). */
  function Recombined(M1: Mat, M2: Mat, M3: Mat, M4: Mat, M5: Mat, M6: Mat, M7: Mat): (C: Mat)
    requires Square(M1) && Square(M2) && Square(M3) && Square(M4) && Square(M5) && Square(M6) && Square(M7)
    requires |M2| == |M1| && |M3| == |M1| && |M4| == |M1| && |M5| == |M1| && |M6| == |M1| && |M7| == |M1|
    ensures Square(C) && |C| == 2 * |M1|
  {
    Combine(Plus(Minus(Plus(M1, M4), M5), M7), Plus(M3, M5), Plus(M2, M4), Plus(Minus(Plus(M1, M3), M2), M6))
  }

  /** An entry of the recombined matrix, quadrant by quadrant. */
  lemma RecombinedAt(M1: Mat, M2: Mat, M3: Mat, M4: Mat, M5: Mat, M6: Mat, M7: Mat, x: nat, y: nat)
    requires Square(M1) && Square(M2) && Square(M3) && Square(M4) && Square(M5) && Square(M6) && Square(M7)
    requires |M2| == |M1| && |M3| == |M1| && |M4| == |M1| && |M5| == |M1| && |M6| == |M1| && |M7| == |M1|
    requires x < 2 * |M1| && y < 2 * |M1|
    ensures var h, C := |M1|, Recombined(M1, M2, M3, M4, M5, M6, M7);
      && (x < h && y < h ==> C[x][y] == M1[x][y] + M4[x][y] - M5[x][y] + M7[x][y])
      && (x < h <= y ==> C[x][y] == M3[x][y - h] + M5[x][y - h])
      && (y < h <= x ==> C[x][y] == M2[x - h][y] + M4[x - h][y])
      && (h <= x && h <= y ==> C[x][y] == M1[x - h][y - h] + M3[x - h][y - h] - M2[x - h][y - h] + M6[x - h][y - h])
  {
  }

  /** An entry of the product. */
  lemma MulAt(A: Mat, B: Mat, i: nat, j: nat)
    requires Square(A) && Square(B) && |A| == |B| && i < |A| && j < |A|
    ensures Mul(A, B)[i][j] == Dot(A, B, i, j, |A|)
  {
  }

  /** (X1 + X2)(Y1 + Y2), entry by entry. */
  lemma MulPlusPlus(X1: Mat, X2: Mat, Y1: Mat, Y2: Mat, i: nat, j: nat)
    requires Square(X1) && Square(X2) && Square(Y1) && Square(Y2)
    requires |X2| == |X1| && |Y1| == |X1| && |Y2| == |X1| && i < |X1| && j < |X1|
    ensures var h := |X1|; (Mul(Plus(X1, X2), Plus(Y1, Y2))[i][j] ==
      Dot(X1, Y1, i, j, h) + Dot(X1, Y2, i, j, h) + Dot(X2, Y1, i, j, h) + Dot(X2, Y2, i, j, h))
  {
    var h := |X1|;
    MulAt(Plus(X1, X2), Plus(Y1, Y2), i, j);
    DotPlusLeft(X1, X2, Plus(Y1, Y2), i, j, h);
    DotPlusRight(X1, Y1, Y2, i, j, h);
    DotPlusRight(X2, Y1, Y2, i, j, h);
  }

  /** (X1 - X2)(Y1 + Y2), entry by entry. */
  lemma MulMinusPlus(X1: Mat, X2: Mat, Y1: Mat, Y2: Mat, i: nat, j: nat)
    requires Square(X1) && Square(X2) && Square(Y1) && Square(Y2)
    requires |X2| == |X1| && |Y1| == |X1| && |Y2| == |X1| && i < |X1| && j < |X1|
    ensures var h := |X1|; (Mul(Minus(X1, X2), Plus(Y1, Y2))[i][j] ==
      Dot(X1, Y1, i, j, h) + Dot(X1, Y2, i, j, h) - Dot(X2, Y1, i, j, h) - Dot(X2, Y2, i, j, h))
  {
    var h := |X1|;
    MulAt(Minus(X1, X2), Plus(Y1, Y2), i, j);
    DotMinusLeft(X1, X2, Plus(Y1, Y2), i, j, h);
    DotPlusRight(X1, Y1, Y2, i, j, h);
    DotPlusRight(X2, Y1, Y2, i, j, h);
  }

  /** (X1 + X2)Y, entry by entry. */
  lemma MulPlusLeft(X1: Mat, X2: Mat, Y: Mat, i: nat, j: nat)
    requires Square(X1) && Square(X2) && Square(Y)
    requires |X2| == |X1| && |Y| == |X1| && i < |X1| && j < |X1|
    ensures var h := |X1|; Mul(Plus(X1, X2), Y)[i][j] == Dot(X1, Y, i, j, h) + Dot(X2, Y, i, j, h)
  {
    MulAt(Plus(X1, X2), Y, i, j);
    DotPlusLeft(X1, X2, Y, i, j, |X1|);
  }

  /** X(Y1 - Y2), entry by entry. */
  lemma MulMinusRight(X: Mat, Y1: Mat, Y2: Mat, i: nat, j: nat)
    requires Square(X) && Square(Y1) && Square(Y2)
    requires |Y1| == |X| && |Y2| == |X| && i < |X| && j < |X|
    ensures var h := |X|; Mul(X, Minus(Y1, Y2))[i][j] == Dot(X, Y1, i, j, h) - Dot(X, Y2, i, j, h)
  {
    MulAt(X, Minus(Y1, Y2), i, j);
    DotMinusRight(X, Y1, Y2, i, j, |X|);
  }

  /** The top-left quadrant: M1 + M4 - M5 + M7 = A11 B11 + A12 B21. */
  lemma CornerTopLeft(A: Mat, B: Mat, h: nat, i: nat, j: nat)
    requires Square(A) && Square(B) && |A| == |B| == 2 * h && i < h && j < h
    ensures var A11, A12, A22 := Quad(A, 0, 0, h), Quad(A, 0, h, h), Quad(A, h, h, h);
      var B11, B21, B22 := Quad(B, 0, 0, h), Quad(B, h, 0, h), Quad(B, h, h, h);
      Mul(Plus(A11, A22), Plus(B11, B22))[i][j] + Mul(A22, Minus(B21, B11))[i][j]
        - Mul(Plus(A11, A12), B22)[i][j] + Mul(Minus(A12, A22), Plus(B21, B22))[i][j] == Mul(A, B)[i][j]
  {
    var A11, A12, A22 := Quad(A, 0, 0, h), Quad(A, 0, h, h), Quad(A, h, h, h);
    var B11, B21, B22 := Quad(B, 0, 0, h), Quad(B, h, 0, h), Quad(B, h, h, h);
    BlockEntry(A, B, h, 0, 0, i, j);
    MulPlusPlus(A11, A22, B11, B22, i, j);
    MulMinusRight(A22, B21, B11, i, j);
    MulPlusLeft(A11, A12, B22, i, j);
    MulMinusPlus(A12, A22, B21, B22, i, j);
  }

  /** The top-right quadrant: M3 + M5 = A11 B12 + A12 B22. */
  lemma CornerTopRight(A: Mat, B: Mat, h: nat, x: nat, y: nat)
    requires Square(A) && Square(B) && |A| == |B| == 2 * h && x < h <= y < 2 * h
    ensures var A11, A12 := Quad(A, 0, 0, h), Quad(A, 0, h, h);
      var B12, B22 := Quad(B, 0, h, h), Quad(B, h, h, h);
      Mul(A11, Minus(B12, B22))[x][y - h] + Mul(Plus(A11, A12), B22)[x][y - h] == Mul(A, B)[x][y]
  {
    var A11, A12 := Quad(A, 0, 0, h), Quad(A, 0, h, h);
    var B12, B22 := Quad(B, 0, h, h), Quad(B, h, h, h);
    var j := y - h;
    BlockEntry(A, B, h, 0, h, x, j);
    MulMinusRight(A11, B12, B22, x, j);
    MulPlusLeft(A11, A12, B22, x, j);
  }

  /** The bottom-left quadrant: M2 + M4 = A21 B11 + A22 B21. */
  lemma CornerBottomLeft(A: Mat, B: Mat, h: nat, x: nat, y: nat)
    requires Square(A) && Square(B) && |A| == |B| == 2 * h && y < h <= x < 2 * h
    ensures var A21, A22 := Quad(A, h, 0, h), Quad(A, h, h, h);
      var B11, B21 := Quad(B, 0, 0, h), Quad(B, h, 0, h);
      Mul(Plus(A21, A22), B11)[x - h][y] + Mul(A22, Minus(B21, B11))[x - h][y] == Mul(A, B)[x][y]
  {
    var A21, A22 := Quad(A, h, 0, h), Quad(A, h, h, h);
    var B11, B21 := Quad(B, 0, 0, h), Quad(B, h, 0, h);
    var i := x - h;
    BlockEntry(A, B, h, h, 0, i, y);
    MulPlusLeft(A21, A22, B11, i, y);
    MulMinusRight(A22, B21, B11, i, y);
  }

  /** The bottom-right quadrant: M1 + M3 - M2 + M6 = A21 B12 + A22 B22. */
  lemma CornerBottomRight(A: Mat, B: Mat, h: nat, x: nat, y: nat)
    requires Square(A) && Square(B) && |A| == |B| == 2 * h && h <= x < 2 * h && h <= y < 2 * h
    ensures var A11, A21, A22 := Quad(A, 0, 0, h), Quad(A, h, 0, h), Quad(A, h, h, h);
      var B11, B12, B22 := Quad(B, 0, 0, h), Quad(B, 0, h, h), Quad(B, h, h, h);
      Mul(Plus(A11, A22), Plus(B11, B22))[x - h][y - h] + Mul(A11, Minus(B12, B22))[x - h][y - h]
        - Mul(Plus(A21, A22), B11)[x - h][y - h] + Mul(Minus(A21, A11), Plus(B11, B12))[x - h][y - h] == Mul(A, B)[x][y]
  {
    var A11, A21, A22 := Quad(A, 0, 0, h), Quad(A, h, 0, h), Quad(A, h, h, h);
    var B11, B12, B22 := Quad(B, 0, 0, h), Quad(B, 0, h, h), Quad(B, h, h, h);
    var i, j := x - h, y - h;
    BlockEntry(A, B, h, h, h, i, j);
    MulPlusPlus(A11, A22, B11, B22, i, j);
    MulMinusRight(A11, B12, B22, i, j);
    MulPlusLeft(A21, A22, B11, i, j);
    MulMinusPlus(A21, A11, B11, B12, i, j);
  }

  /** Strassen's identity on the top-left quadrant. */
  lemma EntryTopLeft(A: Mat, B: Mat, h: nat, x: nat, y: nat)
    requires Square(A) && Square(B) && |A| == |B| == 2 * h && x < h && y < h
    ensures StrassenStep(A, B, h)[x][y] == Mul(A, B)[x][y]
  {
    var A11, A12, A21, A22 := Quad(A, 0, 0, h), Quad(A, 0, h, h), Quad(A, h, 0, h), Quad(A, h, h, h);
    var B11, B12, B21, B22 := Quad(B, 0, 0, h), Quad(B, 0, h, h), Quad(B, h, 0, h), Quad(B, h, h, h);
    var M1 := Mul(Plus(A11, A22), Plus(B11, B22));
    var M2 := Mul(Plus(A21, A22), B11);
    var M3 := Mul(A11, Minus(B12, B22));
    var M4 := Mul(A22, Minus(B21, B11));
    var M5 := Mul(Plus(A11, A12), B22);
    var M6 := Mul(Minus(A21, A11), Plus(B11, B12));
    var M7 := Mul(Minus(A12, A22), Plus(B21, B22));
    RecombinedAt(M1, M2, M3, M4, M5, M6, M7, x, y);
    CornerTopLeft(A, B, h, x, y);
  }

  /** Strassen's identity on the top-right quadrant. */
  lemma EntryTopRight(A: Mat, B: Mat, h: nat, x: nat, y: nat)
    requires Square(A) && Square(B) && |A| == |B| == 2 * h && x < h <= y < 2 * h
    ensures StrassenStep(A, B, h)[x][y] == Mul(A, B)[x][y]
  {
    var A11, A12, A21, A22 := Quad(A, 0, 0, h), Quad(A, 0, h, h), Quad(A, h, 0, h), Quad(A, h, h, h);
    var B11, B12, B21, B22 := Quad(B, 0, 0, h), Quad(B, 0, h, h), Quad(B, h, 0, h), Quad(B, h, h, h);
    var M1 := Mul(Plus(A11, A22), Plus(B11, B22));
    var M2 := Mul(Plus(A21, A22), B11);
    var M3 := Mul(A11, Minus(B12, B22));
    var M4 := Mul(A22, Minus(B21, B11));
    var M5 := Mul(Plus(A11, A12), B22);
    var M6 := Mul(Minus(A21, A11), Plus(B11, B12));
    var M7 := Mul(Minus(A12, A22), Plus(B21, B22));
    RecombinedAt(M1, M2, M3, M4, M5, M6, M7, x, y);
    CornerTopRight(A, B, h, x, y);
  }

  /** Strassen's identity on the bottom-left quadrant. */
  lemma EntryBottomLeft(A: Mat, B: Mat, h: nat, x: nat, y: nat)
    requires Square(A) && Square(B) && |A| == |B| == 2 * h && y < h <= x < 2 * h
    ensures StrassenStep(A, B, h)[x][y] == Mul(A, B)[x][y]
  {
    var A11, A12, A21, A22 := Quad(A, 0, 0, h), Quad(A, 0, h, h), Quad(A, h, 0, h), Quad(A, h, h, h);
    var B11, B12, B21, B22 := Quad(B, 0, 0, h), Quad(B, 0, h, h), Quad(B, h, 0, h), Quad(B, h, h, h);
    var M1 := Mul(Plus(A11, A22), Plus(B11, B22));
    var M2 := Mul(Plus(A21, A22), B11);
    var M3 := Mul(A11, Minus(B12, B22));
    var M4 := Mul(A22, Minus(B21, B11));
    var M5 := Mul(Plus(A11, A12), B22);
    var M6 := Mul(Minus(A21, A11), Plus(B11, B12));
    var M7 := Mul(Minus(A12, A22), Plus(B21, B22));
    RecombinedAt(M1, M2, M3, M4, M5, M6, M7, x, y);
    CornerBottomLeft(A, B, h, x, y);
  }

  /** Strassen's identity on the bottom-right quadrant. */
  lemma EntryBottomRight(A: Mat, B: Mat, h: nat, x: nat, y: nat)
    requires Square(A) && Square(B) && |A| == |B| == 2 * h && h <= x < 2 * h && h <= y < 2 * h
    ensures StrassenStep(A, B, h)[x][y] == Mul(A, B)[x][y]
  {
    var A11, A12, A21, A22 := Quad(A, 0, 0, h), Quad(A, 0, h, h), Quad(A, h, 0, h), Quad(A, h, h, h);
    var B11, B12, B21, B22 := Quad(B, 0, 0, h), Quad(B, 0, h, h), Quad(B, h, 0, h), Quad(B, h, h, h);
    var M1 := Mul(Plus(A11, A22), Plus(B11, B22));
    var M2 := Mul(Plus(A21, A22), B11);
    var M3 := Mul(A11, Minus(B12, B22));
    var M4 := Mul(A22, Minus(B21, B11));
    var M5 := Mul(Plus(A11, A12), B22);
    var M6 := Mul(Minus(A21, A11), Plus(B11, B12));
    var M7 := Mul(Minus(A12, A22), Plus(B21, B22));
    RecombinedAt(M1, M2, M3, M4, M5, M6, M7, x, y);
    CornerBottomRight(A, B, h, x, y);
  }

  /** Strassen's identity, entry by entry. */
  lemma StrassenEntry(A: Mat, B: Mat, h: nat, x: nat, y: nat)
    requires Square(A) && Square(B) && |A| == |B| == 2 * h && x < 2 * h && y < 2 * h
    ensures StrassenStep(A, B, h)[x][y] == Mul(A, B)[x][y]
  {
    if x < h && y < h {
      EntryTopLeft(A, B, h, x, y);
    } else if x < h {
      EntryTopRight(A, B, h, x, y);
    } else if y < h {
      EntryBottomLeft(A, B, h, x, y);
    } else {
      EntryBottomRight(A, B, h, x, y);
    }
  }

  /** Strassen's identity: one level of the scheme computes the product. */
  lemma StrassenStepIsProduct(A: Mat, B: Mat, h: nat)
    requires Square(A) && Square(B) && |A| == |B| == 2 * h
    ensures StrassenStep(A, B, h) == Mul(A, B)
  {
    var C, P := StrassenStep(A, B, h), Mul(A, B);
    forall x | 0 <= x < 2 * h ensures C[x] == P[x] {
      forall y | 0 <= y < 2 * h ensures C[x][y] == P[x][y] {
        StrassenEntry(A, B, h, x, y);
      }
    }
  }

  /** Padding both operands with zeros pads their product with zeros. */
  lemma MulPad(A: Mat, B: Mat, N: nat)
    requires Square(A) && Square(B) && |A| == |B| <= N
    ensures Mul(Pad(A, N), Pad(B, N)) == Pad(Mul(A, B), N)
  {
    var L, R := Mul(Pad(A, N), Pad(B, N)), Pad(Mul(A, B), N);
    forall i, j | 0 <= i < N && 0 <= j < N ensures L[i][j] == R[i][j] {
      DotPadded(A, B, N, i, j, N);
    }
    forall i | 0 <= i < N ensures L[i] == R[i] {
    }
  }

  /** An entry of the padded product: the terms beyond the original size
      vanish, and so do the entries outside the original block. */
  lemma {:induction false} DotPadded(A: Mat, B: Mat, N: nat, i: nat, j: nat, k: nat)
    requires Square(A) && Square(B) && |A| == |B| <= N
    requires i < N && j < N && k <= N
    ensures Dot(Pad(A, N), Pad(B, N), i, j, k) ==
      if i < |A| && j < |A| then Dot(A, B, i, j, if k <= |A| then k else |A|) else 0
  {
    if k > 0 {
      DotPadded(A, B, N, i, j, k - 1);
    }
  }

  // ---------------------------------------------------------------------
  // nextPowerOfTwo
  // ---------------------------------------------------------------------

  /** p is a power of two: 1, 2, 4, ... */
  predicate IsPow2(p: nat) {
    if p <= 1 then p == 1 else p % 2 == 0 && IsPow2(p / 2)
  }

  /** Doubling from a power of two p until reaching n. */
  function Climb(p: nat, n: nat): (q: nat)
    requires IsPow2(p) && p < 2 * n
    ensures IsPow2(q) && n <= q < 2 * n && p <= q
    decreases n - p
  {
    if p >= n then p else Climb(2 * p, n)
  }

  /** `nextPowerOfTwo` (strassen/strassen.go:150-152), computed exactly: the
      least power of two no smaller than n, and 0 for n = 0 (where the source
      evaluates 2 to the power of ceil(log2 0) = -Inf). */
  function NextPowerOfTwo(n: nat): (p: nat)
    ensures n == 0 ==> p == 0
    ensures n >= 1 ==> IsPow2(p) && n <= p < 2 * n
  {
    if n == 0 then 0 else Climb(1, n)
  }

  /** Of two powers of two, the smaller divides the larger. */
  lemma {:induction false} Pow2Order(p: nat, q: nat)
    requires IsPow2(p) && IsPow2(q) && q < p
    ensures 2 * q <= p
    decreases p
  {
    if q > 1 {
      Pow2Order(p / 2, q / 2);
    }
  }

  /** nextPowerOfTwo(n) is the least power of two no smaller than n; on a
      power of two it is the identity. */
  lemma NextPowerOfTwoLeast(n: nat, q: nat)
    requires IsPow2(q) && n <= q
    ensures NextPowerOfTwo(n) <= q
    ensures IsPow2(n) ==> NextPowerOfTwo(n) == n
  {
    var p := NextPowerOfTwo(n);
    if n >= 1 && q < p {
      Pow2Order(p, q);
    }
    if IsPow2(n) && n < p {
      Pow2Order(p, n);
    }
  }

  /** A power of two above 2 is even and its half is a power of two above 1. */
  lemma HalfPow2(p: nat)
    requires IsPow2(p) && p > 2
    ensures p % 2 == 0 && IsPow2(p / 2) && p / 2 >= 2
  {
  }
}
