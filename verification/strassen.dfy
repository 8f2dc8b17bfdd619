/** strassen/strassen.go over two-dimensional arrays: each operation allocates
    a fresh matrix and fills it in nested loops, as the source does, and is
    proved to produce the value its MatrixAlgebra counterpart describes. */
module Strassen {
  import opened MatrixAlgebra

  /** The entries of m, row by row. */
  ghost function Elems(m: array2<int>): (M: Mat)
    reads m
    ensures |M| == m.Length0
    ensures m.Length0 == m.Length1 ==> Square(M)
  {
    seq(m.Length0, i requires 0 <= i < m.Length0 reads m =>
      seq(m.Length1, j requires 0 <= j < m.Length1 reads m => m[i, j]))
  }

  /** m is n-by-n. */
  predicate Sized(m: array2<int>, n: nat) {
    m.Length0 == n && m.Length1 == n
  }

  /** Two arrays with the same entries, entry by entry, have the same Elems. */
  lemma ElemsEqual(m: array2<int>, M: Mat)
    requires Square(M) && Sized(m, |M|)
    requires forall i, j :: 0 <= i < |M| && 0 <= j < |M| ==> m[i, j] == M[i][j]
    ensures Elems(m) == M
  {
    forall i | 0 <= i < |M| ensures Elems(m)[i] == M[i] {
    }
  }

  /** The block of m at (row, col) holding q's entries is q. */
  lemma QuadElems(m: array2<int>, row: nat, col: nat, size: nat, q: array2<int>)
    requires Sized(m, m.Length0) && row + size <= m.Length0 && col + size <= m.Length0 && Sized(q, size)
    requires forall i, j :: 0 <= i < size && 0 <= j < size ==> m[row + i, col + j] == q[i, j]
    ensures Quad(Elems(m), row, col, size) == Elems(q)
  {
    ElemsEqual(q, Quad(Elems(m), row, col, size));
  }

  /** `NewMatrix` (strassen/strassen.go:12-18): a fresh size-by-size matrix of
      zeros. */
  method NewMatrix(size: nat) returns (M: array2<int>)
    ensures fresh(M) && Sized(M, size)
    ensures Elems(M) == Zero(size)
    ensures forall i, j :: 0 <= i < size && 0 <= j < size ==> M[i, j] == 0
  {
    M := new int[size, size]((i, j) => 0);
    ElemsEqual(M, Zero(size));
  }

  /** `Add` (strassen/strassen.go:21-30): the entrywise sum, in a fresh matrix. */
  method Add(A: array2<int>, B: array2<int>) returns (C: array2<int>)
    requires Sized(A, A.Length0) && Sized(B, A.Length0)
    ensures fresh(C) && Sized(C, A.Length0)
    ensures Elems(C) == Plus(Elems(A), Elems(B))
  {
    var n := A.Length0;
    C := NewMatrix(n);
    for i := 0 to n
      invariant forall r, c :: 0 <= r < i && 0 <= c < n ==> C[r, c] == A[r, c] + B[r, c]
    {
      for j := 0 to n
        invariant forall r, c :: 0 <= r < i && 0 <= c < n ==> C[r, c] == A[r, c] + B[r, c]
        invariant forall c :: 0 <= c < j ==> C[i, c] == A[i, c] + B[i, c]
      {
        C[i, j] := A[i, j] + B[i, j];
      }
    }
    ElemsEqual(C, Plus(Elems(A), Elems(B)));
  }

  /** `Subtract` (strassen/strassen.go:33-42): the entrywise difference, in a
      fresh matrix. */
  method Subtract(A: array2<int>, B: array2<int>) returns (C: array2<int>)
    requires Sized(A, A.Length0) && Sized(B, A.Length0)
    ensures fresh(C) && Sized(C, A.Length0)
    ensures Elems(C) == Minus(Elems(A), Elems(B))
  {
    var n := A.Length0;
    C := NewMatrix(n);
    for i := 0 to n
      invariant forall r, c :: 0 <= r < i && 0 <= c < n ==> C[r, c] == A[r, c] - B[r, c]
    {
      for j := 0 to n
        invariant forall r, c :: 0 <= r < i && 0 <= c < n ==> C[r, c] == A[r, c] - B[r, c]
        invariant forall c :: 0 <= c < j ==> C[i, c] == A[i, c] - B[i, c]
      {
        C[i, j] := A[i, j] - B[i, j];
      }
    }
    ElemsEqual(C, Minus(Elems(A), Elems(B)));
  }

  /** `standardMultiply` (strassen/strassen.go:96-107): the textbook product,
      each entry accumulated over k in a fresh zero matrix. */
  method StandardMultiply(A: array2<int>, B: array2<int>) returns (C: array2<int>)
    requires Sized(A, A.Length0) && Sized(B, A.Length0)
    ensures fresh(C) && Sized(C, A.Length0)
    ensures Elems(C) == Mul(Elems(A), Elems(B))
  {
    var n := A.Length0;
    ghost var a, b := Elems(A), Elems(B);
    C := NewMatrix(n);
    for i := 0 to n
      invariant forall r, c :: 0 <= r < i && 0 <= c < n ==> C[r, c] == Dot(a, b, r, c, n)
      invariant forall r, c :: i <= r < n && 0 <= c < n ==> C[r, c] == 0
    {
      for j := 0 to n
        invariant forall r, c :: 0 <= r < i && 0 <= c < n ==> C[r, c] == Dot(a, b, r, c, n)
        invariant forall c :: 0 <= c < j ==> C[i, c] == Dot(a, b, i, c, n)
        invariant forall r, c :: i <= r < n && 0 <= c < n && (r > i || c >= j) ==> C[r, c] == 0
      {
        label Entry:
        for k := 0 to n
          invariant forall r, c :: 0 <= r < n && 0 <= c < n && (r != i || c != j) ==> C[r, c] == old@Entry(C[r, c])
          invariant C[i, j] == Dot(a, b, i, j, k)
        {
          C[i, j] := C[i, j] + A[i, k] * B[k, j];
        }
      }
    }
    ElemsEqual(C, Mul(a, b));
  }

  /** `getQuadrant` (strassen/strassen.go:110-118): the size-by-size block of
      M at (row, col), copied into a fresh matrix. */
  method GetQuadrant(M: array2<int>, row: nat, col: nat, size: nat) returns (Q: array2<int>)
    requires Sized(M, M.Length0) && row + size <= M.Length0 && col + size <= M.Length0
    ensures fresh(Q) && Sized(Q, size)
    ensures Elems(Q) == Quad(Elems(M), row, col, size)
  {
    Q := NewMatrix(size);
    for i := 0 to size
      invariant forall r, c :: 0 <= r < i && 0 <= c < size ==> Q[r, c] == M[row + r, col + c]
    {
      for j := 0 to size
        invariant forall r, c :: 0 <= r < i && 0 <= c < size ==> Q[r, c] == M[row + r, col + c]
        invariant forall c :: 0 <= c < j ==> Q[i, c] == M[row + i, col + c]
      {
        Q[i, j] := M[row + i, col + j];
      }
    }
    ElemsEqual(Q, Quad(Elems(M), row, col, size));
  }

  /** The body of the loops of `combineQuadrants`: entry (i, j) of each block
      copied to its place in C, and nothing else of C changed. */
  method PlaceEntry(C: array2<int>, C11: array2<int>, C12: array2<int>, C21: array2<int>, C22: array2<int>, i: nat, j: nat)
    requires Sized(C11, C11.Length0) && Sized(C12, C11.Length0)
    requires Sized(C21, C11.Length0) && Sized(C22, C11.Length0)
    requires Sized(C, 2 * C11.Length0) && i < C11.Length0 && j < C11.Length0
    requires C != C11 && C != C12 && C != C21 && C != C22
    modifies C
    ensures var half := C11.Length0;
      && C[i, j] == C11[i, j] && C[i, j + half] == C12[i, j]
      && C[i + half, j] == C21[i, j] && C[i + half, j + half] == C22[i, j]
    ensures var half := C11.Length0; forall r, c :: 0 <= r < 2 * half && 0 <= c < 2 * half ==>
      (r != i && r != i + half) || (c != j && c != j + half) ==> C[r, c] == old(C[r, c])
  {
    var half := C11.Length0;
    C[i, j] := C11[i, j];
    C[i, j + half] := C12[i, j];
    C[i + half, j] := C21[i, j];
    C[i + half, j + half] := C22[i, j];
  }

  /** `combineQuadrants` (strassen/strassen.go:121-135): the four blocks laid
      out in a fresh matrix of twice their size. */
  method CombineQuadrants(C11: array2<int>, C12: array2<int>, C21: array2<int>, C22: array2<int>)
    returns (C: array2<int>)
    requires Sized(C11, C11.Length0) && Sized(C12, C11.Length0)
    requires Sized(C21, C11.Length0) && Sized(C22, C11.Length0)
    ensures fresh(C) && Sized(C, 2 * C11.Length0)
    ensures Elems(C) == Combine(Elems(C11), Elems(C12), Elems(C21), Elems(C22))
  {
    var half := C11.Length0;
    var n := half * 2;
    C := NewMatrix(n);
    for i := 0 to half
      invariant forall r, c :: 0 <= r < i && 0 <= c < half ==>
        && C[r, c] == C11[r, c] && C[r, c + half] == C12[r, c]
        && C[r + half, c] == C21[r, c] && C[r + half, c + half] == C22[r, c]
    {
      for j := 0 to half
        invariant forall r, c :: 0 <= r < half && 0 <= c < half && (r < i || (r == i && c < j)) ==>
          && C[r, c] == C11[r, c] && C[r, c + half] == C12[r, c]
          && C[r + half, c] == C21[r, c] && C[r + half, c + half] == C22[r, c]
      {
        PlaceEntry(C, C11, C12, C21, C22, i, j);
      }
    }
    QuadElems(C, 0, 0, half, C11);
    QuadElems(C, 0, half, half, C12);
    QuadElems(C, half, 0, half, C21);
    QuadElems(C, half, half, half, C22);
    CombineOfQuads(Elems(C), half);
  }

  /** `padMatrix` (strassen/strassen.go:138-147): M in the top-left corner of a
      fresh newSize-by-newSize zero matrix. The source indexes out of range
      when newSize is smaller than M. */
  method PadMatrix(M: array2<int>, newSize: nat) returns (P: array2<int>)
    requires Sized(M, M.Length0) && M.Length0 <= newSize
    ensures fresh(P) && Sized(P, newSize)
    ensures Elems(P) == Pad(Elems(M), newSize)
  {
    var oldSize := M.Length0;
    P := NewMatrix(newSize);
    for i := 0 to oldSize
      invariant forall r, c :: 0 <= r < newSize && 0 <= c < newSize ==>
        P[r, c] == if r < i && c < oldSize then M[r, c] else 0
    {
      for j := 0 to oldSize
        invariant forall r, c :: 0 <= r < newSize && 0 <= c < newSize ==>
          P[r, c] == if (r < i && c < oldSize) || (r == i && c < j) then M[r, c] else 0
      {
        P[i, j] := M[i, j];
      }
    }
    ElemsEqual(P, Pad(Elems(M), newSize));
  }

  /** The seven products of one level, taken exactly, recombined as in
      strassen/strassen.go:84-90, give the product. */
  lemma Recombine(a: Mat, b: Mat, h: nat, m1: Mat, m2: Mat, m3: Mat, m4: Mat, m5: Mat, m6: Mat, m7: Mat)
    requires Square(a) && Square(b) && |a| == |b| == 2 * h
    requires var A11, A12, A21, A22 := Quad(a, 0, 0, h), Quad(a, 0, h, h), Quad(a, h, 0, h), Quad(a, h, h, h);
      var B11, B12, B21, B22 := Quad(b, 0, 0, h), Quad(b, 0, h, h), Quad(b, h, 0, h), Quad(b, h, h, h);
      && m1 == Mul(Plus(A11, A22), Plus(B11, B22))
      && m2 == Mul(Plus(A21, A22), B11)
      && m3 == Mul(A11, Minus(B12, B22))
      && m4 == Mul(A22, Minus(B21, B11))
      && m5 == Mul(Plus(A11, A12), B22)
      && m6 == Mul(Minus(A21, A11), Plus(B11, B12))
      && m7 == Mul(Minus(A12, A22), Plus(B21, B22))
    ensures Combine(Plus(Minus(Plus(m1, m4), m5), m7), Plus(m3, m5), Plus(m2, m4), Plus(Minus(Plus(m1, m3), m2), m6))
      == Mul(a, b)
  {
    StrassenStepIsProduct(a, b, h);
  }

  /** The seven recursive products of strassen/strassen.go:75-81, on h-by-h
      quadrants with h a power of two, so that no padding happens below. */
  method SevenProducts(A11: array2<int>, A12: array2<int>, A21: array2<int>, A22: array2<int>,
                       B11: array2<int>, B12: array2<int>, B21: array2<int>, B22: array2<int>)
    returns (M1: array2<int>, M2: array2<int>, M3: array2<int>, M4: array2<int>,
             M5: array2<int>, M6: array2<int>, M7: array2<int>)
    requires IsPow2(A11.Length0)
    requires Sized(A11, A11.Length0) && Sized(A12, A11.Length0) && Sized(A21, A11.Length0) && Sized(A22, A11.Length0)
    requires Sized(B11, A11.Length0) && Sized(B12, A11.Length0) && Sized(B21, A11.Length0) && Sized(B22, A11.Length0)
    ensures var h := A11.Length0; Sized(M1, h) && Sized(M2, h) && Sized(M3, h) && Sized(M4, h) && Sized(M5, h) && Sized(M6, h) && Sized(M7, h)
    ensures Elems(M1) == Mul(Plus(Elems(A11), Elems(A22)), Plus(Elems(B11), Elems(B22)))
    ensures Elems(M2) == Mul(Plus(Elems(A21), Elems(A22)), Elems(B11))
    ensures Elems(M3) == Mul(Elems(A11), Minus(Elems(B12), Elems(B22)))
    ensures Elems(M4) == Mul(Elems(A22), Minus(Elems(B21), Elems(B11)))
    ensures Elems(M5) == Mul(Plus(Elems(A11), Elems(A12)), Elems(B22))
    ensures Elems(M6) == Mul(Minus(Elems(A21), Elems(A11)), Plus(Elems(B11), Elems(B12)))
    ensures Elems(M7) == Mul(Minus(Elems(A12), Elems(A22)), Plus(Elems(B21), Elems(B22)))
    decreases A11.Length0, 1
  {
    var h := A11.Length0;
    ghost var a11, a12, a21, a22 := Elems(A11), Elems(A12), Elems(A21), Elems(A22);
    ghost var b11, b12, b21, b22 := Elems(B11), Elems(B12), Elems(B21), Elems(B22);
    var S1 := Add(A11, A22);
    var T1 := Add(B11, B22);
    M1 := Strassen(S1, T1);
    assert Elems(M1) == Mul(Plus(a11, a22), Plus(b11, b22));

    var S2 := Add(A21, A22);
    M2 := Strassen(S2, B11);
    assert Elems(M2) == Mul(Plus(a21, a22), b11);

    var T3 := Subtract(B12, B22);
    M3 := Strassen(A11, T3);
    assert Elems(M3) == Mul(a11, Minus(b12, b22));

    var T4 := Subtract(B21, B11);
    M4 := Strassen(A22, T4);
    assert Elems(M4) == Mul(a22, Minus(b21, b11));

    var S5 := Add(A11, A12);
    M5 := Strassen(S5, B22);
    assert Elems(M5) == Mul(Plus(a11, a12), b22);

    var S6 := Subtract(A21, A11);
    var T6 := Add(B11, B12);
    M6 := Strassen(S6, T6);
    assert Elems(M6) == Mul(Minus(a21, a11), Plus(b11, b12));

    var S7 := Subtract(A12, A22);
    var T7 := Add(B21, B22);
    M7 := Strassen(S7, T7);
    assert Elems(M7) == Mul(Minus(a12, a22), Plus(b21, b22));
  }

  /** strassen/strassen.go:84-90: the quadrants of the result from the seven
      products, laid out in one matrix. */
  method CombineProducts(M1: array2<int>, M2: array2<int>, M3: array2<int>, M4: array2<int>,
                         M5: array2<int>, M6: array2<int>, M7: array2<int>)
    returns (C: array2<int>)
    requires Sized(M1, M1.Length0) && Sized(M2, M1.Length0) && Sized(M3, M1.Length0) && Sized(M4, M1.Length0)
    requires Sized(M5, M1.Length0) && Sized(M6, M1.Length0) && Sized(M7, M1.Length0)
    ensures fresh(C) && Sized(C, 2 * M1.Length0)
    ensures var m1, m2, m3, m4, m5, m6, m7 := Elems(M1), Elems(M2), Elems(M3), Elems(M4), Elems(M5), Elems(M6), Elems(M7);
      Elems(C) == Combine(Plus(Minus(Plus(m1, m4), m5), m7), Plus(m3, m5), Plus(m2, m4), Plus(Minus(Plus(m1, m3), m2), m6))
  {
    ghost var m1, m2, m3, m4, m5, m6, m7 := Elems(M1), Elems(M2), Elems(M3), Elems(M4), Elems(M5), Elems(M6), Elems(M7);
    var P14 := Add(M1, M4);
    var D145 := Subtract(P14, M5);
    var C11 := Add(D145, M7);
    ghost var c11 := Elems(C11);
    assert c11 == Plus(Minus(Plus(m1, m4), m5), m7);
    var C12 := Add(M3, M5);
    ghost var c12 := Elems(C12);
    assert c12 == Plus(m3, m5);
    var C21 := Add(M2, M4);
    ghost var c21 := Elems(C21);
    assert c21 == Plus(m2, m4);
    var P13 := Add(M1, M3);
    var D132 := Subtract(P13, M2);
    var C22 := Add(D132, M6);
    assert Elems(C22) == Plus(Minus(Plus(m1, m3), m2), m6);
    C := CombineQuadrants(C11, C12, C21, C22);
  }

  /** `Strassen` (strassen/strassen.go:45-93) with its base case restored:
      operands of size at most 2 are multiplied by `standardMultiply`; larger
      ones are padded to the next power of two N, split into quadrants, and
      multiplied with seven recursive products. The result is N-by-N: the
      product in its top-left corner, zeros elsewhere. */
  method Strassen(A: array2<int>, B: array2<int>) returns (C: array2<int>)
    requires Sized(A, A.Length0) && Sized(B, A.Length0)
    ensures fresh(C) && Sized(C, NextPowerOfTwo(A.Length0))
    ensures Elems(C) == Pad(Mul(Elems(A), Elems(B)), NextPowerOfTwo(A.Length0))
    ensures IsPow2(A.Length0) ==> Elems(C) == Mul(Elems(A), Elems(B))
    decreases A.Length0, 0
  {
    var n := A.Length0;
    ghost var a0, b0 := Elems(A), Elems(B);
    if IsPow2(n) {
      NextPowerOfTwoLeast(n, n);
      PadSame(Mul(a0, b0));
    }
    if n <= 2 {
      C := StandardMultiply(A, B);
      assert IsPow2(n) || n == 0;
      NextPowerOfTwoLeast(n, 2);
      PadSame(Mul(a0, b0));
      return;
    }

    var newSize := NextPowerOfTwo(n);
    var A', B' := A, B;
    if newSize != n {
      A' := PadMatrix(A, newSize);
      B' := PadMatrix(B, newSize);
    } else {
      PadSame(a0);
      PadSame(b0);
    }
    ghost var a, b := Elems(A'), Elems(B');
    assert a == Pad(a0, newSize) && b == Pad(b0, newSize);

    HalfPow2(newSize);
    var half := newSize / 2;

    var A11 := GetQuadrant(A', 0, 0, half);
    assert Elems(A11) == Quad(a, 0, 0, half);
    var A12 := GetQuadrant(A', 0, half, half);
    assert Elems(A12) == Quad(a, 0, half, half);
    var A21 := GetQuadrant(A', half, 0, half);
    assert Elems(A21) == Quad(a, half, 0, half);
    var A22 := GetQuadrant(A', half, half, half);
    assert Elems(A22) == Quad(a, half, half, half);

    var B11 := GetQuadrant(B', 0, 0, half);
    assert Elems(B11) == Quad(b, 0, 0, half);
    var B12 := GetQuadrant(B', 0, half, half);
    assert Elems(B12) == Quad(b, 0, half, half);
    var B21 := GetQuadrant(B', half, 0, half);
    assert Elems(B21) == Quad(b, half, 0, half);
    var B22 := GetQuadrant(B', half, half, half);
    assert Elems(B22) == Quad(b, half, half, half);

    var M1, M2, M3, M4, M5, M6, M7 := SevenProducts(A11, A12, A21, A22, B11, B12, B21, B22);
    C := CombineProducts(M1, M2, M3, M4, M5, M6, M7);

    Recombine(a, b, half, Elems(M1), Elems(M2), Elems(M3), Elems(M4), Elems(M5), Elems(M6), Elems(M7));
    MulPad(a0, b0, newSize);
  }

  /** Strassen's product cut back to the operands' size: the top-left n-by-n
      block of the padded result is the product itself. */
  method Multiply(A: array2<int>, B: array2<int>) returns (C: array2<int>)
    requires Sized(A, A.Length0) && Sized(B, A.Length0)
    ensures fresh(C) && Sized(C, A.Length0)
    ensures Elems(C) == Mul(Elems(A), Elems(B))
  {
    var n := A.Length0;
    var P := Strassen(A, B);
    C := GetQuadrant(P, 0, 0, n);
    CropPad(Mul(Elems(A), Elems(B)), NextPowerOfTwo(n));
  }

  // ---------------------------------------------------------------------
  // Strassen as written, without a base case
  // ---------------------------------------------------------------------

  /** The size of the operands of the seven recursive calls that `Strassen`
      as written (strassen/strassen.go:46-81, the base case commented out)
      makes on n-by-n operands: half the next power of two. */
  function AsWrittenOperandSize(n: nat): (m: nat)
    ensures n >= 1 ==> m < n
    ensures n == 0 ==> m == 0
  {
    NextPowerOfTwo(n) / 2
  }

  /** The operand size k calls deep. */
  function Descend(n: nat, k: nat): nat {
    if k == 0 then n else Descend(AsWrittenOperandSize(n), k - 1)
  }

  /** Within n nested calls the operands are 0-by-0. */
  lemma {:induction false} AsWrittenReachesEmpty(n: nat, k: nat)
    requires n <= k
    ensures Descend(n, k) == 0
  {
    if k > 0 {
      AsWrittenReachesEmpty(AsWrittenOperandSize(n), k - 1);
    }
  }

  /** As written, every call recurses: on any operands the sizes reach 0
      within n levels, and a call on 0-by-0 operands calls itself on 0-by-0
      operands again, at every depth. The recursion never ends. */
  lemma AsWrittenNeverBottomsOut(n: nat)
    ensures Descend(n, n) == 0
    ensures forall k :: Descend(0, k) == 0
  {
    AsWrittenReachesEmpty(n, n);
    forall k ensures Descend(0, k) == 0 {
      AsWrittenReachesEmpty(0, k);
    }
  }

  /** For an operand size that is not a power of two, `Strassen`'s result is
      larger than the operands: the padding of strassen/strassen.go:54-59 is never cut away. */
  lemma PaddedResultIsLarger(n: nat)
    requires n >= 1 && !IsPow2(n)
    ensures NextPowerOfTwo(n) > n
  {
  }

  /** The smallest case: 3-by-3 operands give a 4-by-4 result. */
  lemma PaddedThreeByThree()
    ensures !IsPow2(3) && NextPowerOfTwo(3) == 4
  {
  }
}
