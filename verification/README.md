# Closest pair (Shamos) and Strassen multiplication, verified in Dafny

This project models two divide-and-conquer programs written in Go.

**Closest pair (`shamos_algorithm.go`).** This is the planar closest-pair algorithm of Shamos and Hoey.
- `forceBrute` and its twin `pairePlusProcheNaive` compare every pair.
- `diviser` cuts Px (the points sorted by x) at its middle index. It cuts Py (the same points sorted by y) with the test `p.X <= median.X`.
- `combiner` keeps the band of Py points near the median line and compares each band point with the seven that follow it.
- `pairePlusProcheRec` recurses on the two halves and keeps the better result. `PairePlusProche` copies and sorts the input, then calls it.

**Strassen (`strassen/strassen.go`).** Square integer matrices are padded to a power of two. Each is cut into quadrants and multiplied with seven recursive products. `Add`, `Subtract`, `getQuadrant`, `combineQuadrants`, `padMatrix` and `standardMultiply` each allocate a fresh matrix and fill it in loops.

Modules:

- `Points`: points with exact real coordinates, and squared distances. Since `sqrt` is monotone, every distance comparison of the source is a comparison of squared distances here. `Dist` is `Inf` (for `math.Inf(1)`) or `Fin(sq)`. The module also defines `PairOf` (two distinct entries of a sequence) and `IsClosest` (a pair no other pair beats).
- `PairScan`: the nested scan shared by `forceBrute` and `combiner`. It is a fold over a window of following points: the whole sequence for `forceBrute`, seven points for `combiner`. It comes with its loop invariant and outcome, the `ForceBrute` and `PairePlusProcheNaive` methods, and their proofs against `Brute`.
- `Partition`: the order-preserving filters that `diviser` and `combiner` build with `append`. It also holds `diviser` as written (`Split`, `Diviser`), the median mismatch, and a corrected partition (`SplitConsistent`, `DiviserConsistent`).
- `Packing` and `Strip`: `combiner` (`Merge`, `Combiner`) and why seven following points suffice. Points pairwise closer than sqrt(d) on each axis, yet at least sqrt(d) apart, number at most four on each side of the line.
- `Sorting`: an in-place sort by x or by y, standing for `sort.Slice`.
- `Shamos`:
  - the recursion as written (`ShamosAsWritten`), proved sound;
  - the recursion over the corrected partition (`Shamos`), proved to return a closest pair;
  - the `PairePlusProcheRec` and `PairePlusProche` methods.
- `MatrixAlgebra`: matrices as values (`seq<seq<int>>`): sum, difference, quadrants, padding, the textbook product `Mul`, and Strassen's seven-product identity.
- `Strassen`: every function of strassen/strassen.go over `array2<int>`, each proved to compute its `MatrixAlgebra` value. `Strassen` keeps the source's shape, but two of its blocks are separate methods:
  - the seven recursive products are in `SevenProducts`;
  - the recombination of the quadrants is in `CombineProducts`.

  This keeps each proof small.

## Model

| member | source | states |
|---|---|---|
| PairScan.ScanSpec | shamos_algorithm.go:55-68 | The pair scan returns its initial pair when no compared pair is strictly closer. Otherwise it returns the compared pair of least distance that the loop order meets first. |
| PairScan.ScanNeverWorse | shamos_algorithm.go:113-125 | The scan never reports a larger distance than the one it starts from. |
| PairScan.BruteIsFirstClosest | shamos_algorithm.go:50-68 | Below two points `forceBrute` returns the sentinel. Otherwise it returns the pair at positions i < j of least distance, the first one met, since ties keep the earlier pair. For two points it returns exactly those two. |
| PairScan.BruteIsClosest | shamos_algorithm.go:55-68 | From two points on, the brute-force result is two distinct entries of the input with their true distance, and no pair is closer. |
| PairScan.ForceBrute | shamos_algorithm.go:49-69 | The nested loops with their `minDist`/`p1`/`p2` accumulators compute the brute-force result. |
| PairScan.PairePlusProcheNaive | shamos_algorithm.go:24-44 | Returns the sentinel below two points. Otherwise it returns a closest pair of the input. |
| Partition.FilterMultiset | shamos_algorithm.go:84-93 | An `append` filter keeps copies only of the input's points. A point is in it exactly when it is in the input and passes the test. |
| Partition.FilterSorted | shamos_algorithm.go:87-93 | A filter of a Y-sorted sequence is Y-sorted. |
| Partition.SplitFiltersPartition | shamos_algorithm.go:87-93 | The two branches of the test split Py without loss or duplication. |
| Partition.SplitPx | shamos_algorithm.go:73-81 | PxGauche + PxDroite == Px and PxGauche has n/2 points. The median opens PxDroite. On X-sorted Px the left points are at or left of the median and the right points at or right of it. |
| Partition.SplitPy | shamos_algorithm.go:84-93 | PyGauche and PyDroite together are a permutation of Py. Each holds exactly the Py points on its side of the test and keeps Py's Y-order. |
| Partition.SplitMedianSides | shamos_algorithm.go:77-89 | The median is in PxDroite, but in PyGauche (and not in PyDroite) whenever it is in Py. |
| Partition.SplitMedianMismatch | shamos_algorithm.go:77-93 | For Py a permutation of Px with strictly increasing x: PyGauche is PxGauche plus the median, PyDroite is PxDroite minus it, and the two left halves differ. |
| Partition.SplitMedianMismatchExample | shamos_algorithm.go:77-93 | On four points of the x axis, PxGauche has two points and PyGauche three. |
| Partition.Diviser | shamos_algorithm.go:72-96 | The slicing and the `append` loop compute `Split`. |
| Partition.SplitConsistentSpec | shamos_algorithm.go:72-96 | Corrected partition: the Px halves are cut as in `diviser`, and each Py half is a permutation of the Px half of its side, sorted by Y when Py is. |
| Partition.DiviserConsistent | shamos_algorithm.go:72-96 | The corrected loop, which sends a point left while PxGauche has an unmatched copy of it, computes `SplitConsistent`. |
| Packing.AtMostFour | shamos_algorithm.go:112-118 | Points that are pairwise closer than sqrt(d) on each axis, yet at least sqrt(d) apart, number at most four. |
| Strip.MergeOutcome | shamos_algorithm.go:99-128 | `combiner` returns the incoming best unless a compared band pair is strictly closer. It is unchanged exactly when no compared pair is. Otherwise it returns the first compared band pair of least distance, a genuine pair of Py. It is never worse than the incoming best. |
| Strip.MergeBelowWindow | shamos_algorithm.go:116-125 | No band pair within seven places is strictly closer than what `combiner` returns. |
| Strip.Combiner | shamos_algorithm.go:99-128 | The band loop and the windowed nested loop (`j < i+8`) compute `Merge`. |
| Strip.WindowBound | shamos_algorithm.go:116-118 | In a Y-sorted band whose points come from two halves that each have no pair closer than sqrt(d), two band points closer than sqrt(d) are at most seven places apart. |
| Sorting.SortBy | shamos_algorithm.go:175-181 | After the sort the array is sorted by the chosen coordinate and is a permutation of what it held. |
| Shamos.PickBest | shamos_algorithm.go:147-156 | The kept result is one of the two, no worse than either, and on equal distances the right-hand one. |
| Shamos.ShamosAsWrittenSound | shamos_algorithm.go:131-160 | The recursion as written returns the sentinel below two points. Otherwise it returns a genuine pair of Px or of Py. |
| Shamos.ShamosAsWrittenNeverBelow | shamos_algorithm.go:131-160 | On a permutation Py of Px with at least two points, the result as written is a pair of Px, and its distance is never below the brute-force minimum. |
| Shamos.MergeFindsClosest | shamos_algorithm.go:147-159 | From closest pairs of the two X-halves, the merge of the better one is a closest pair of Px. |
| Shamos.ShamosCorrect | shamos_algorithm.go:131-160 | With the corrected partition, on X-sorted Px and Y-sorted Py holding the same points, the recursion returns the sentinel below two points and a closest pair of Px otherwise. |
| Shamos.PairePlusProcheRec | shamos_algorithm.go:131-160 | The recursive method (base case, partition, two recursive calls, tie rule, `combiner`) computes `Shamos`. |
| Shamos.PairePlusProche | shamos_algorithm.go:164-184 | Below two points the result is the sentinel. Otherwise it is a closest pair of the input, whose distance equals the brute-force distance. |
| MatrixAlgebra.MinusUndoesPlus | strassen/strassen.go:21-42 | Subtracting B from A + B gives back A. |
| MatrixAlgebra.QuadOfCombine | strassen/strassen.go:110-135 | Each quadrant of a combined matrix is the block it was made from. |
| MatrixAlgebra.CombineOfQuads | strassen/strassen.go:110-135 | Combining the four quadrants of an even-sized matrix gives it back. |
| MatrixAlgebra.PadSame | strassen/strassen.go:138-147 | Padding a matrix to its own size changes nothing. |
| MatrixAlgebra.CropPad | strassen/strassen.go:138-147 | The top-left block of a padded matrix, of the original size, is the original matrix. |
| MatrixAlgebra.DotPlusLeft | strassen/strassen.go:96-107 | A partial row-by-column sum is additive in its left operand. |
| MatrixAlgebra.DotMinusLeft | strassen/strassen.go:96-107 | A partial row-by-column sum is subtractive in its left operand. |
| MatrixAlgebra.DotPlusRight | strassen/strassen.go:96-107 | A partial row-by-column sum is additive in its right operand. |
| MatrixAlgebra.DotMinusRight | strassen/strassen.go:96-107 | A partial row-by-column sum is subtractive in its right operand. |
| MatrixAlgebra.BlockEntry | strassen/strassen.go:61-72 | An entry of the product in a quadrant is the sum of the two quadrant products that make it up. |
| MatrixAlgebra.StrassenStepIsProduct | strassen/strassen.go:61-90 | One level of Strassen's scheme gives the textbook product: the seven exact products recombined as in the source. |
| MatrixAlgebra.MulPad | strassen/strassen.go:54-59 | The product of the zero-padded operands is the zero-padded product. |
| MatrixAlgebra.NextPowerOfTwo | strassen/strassen.go:150-152 | For n >= 1 the result is a power of two with n <= p < 2n. For n = 0 it is 0. |
| MatrixAlgebra.NextPowerOfTwoLeast | strassen/strassen.go:150-152 | The result is no larger than any power of two that is at least n, and equals n when n is a power of two. |
| MatrixAlgebra.HalfPow2 | strassen/strassen.go:62 | A power of two above 2 has an even half that is a power of two of at least 2. |
| Strassen.NewMatrix | strassen/strassen.go:12-18 | A fresh size-by-size matrix of zeros. |
| Strassen.Add | strassen/strassen.go:21-30 | A fresh matrix of the same size holding the entrywise sum. |
| Strassen.Subtract | strassen/strassen.go:33-42 | A fresh matrix of the same size holding the entrywise difference. |
| Strassen.StandardMultiply | strassen/strassen.go:96-107 | The triple loop accumulating `C[i][j] += A[i][k]*B[k][j]` computes the textbook product. |
| Strassen.GetQuadrant | strassen/strassen.go:110-118 | A fresh size-by-size matrix holding `M[row+i][col+j]`. It requires the block to fit in M. |
| Strassen.PlaceEntry | strassen/strassen.go:128-131 | Entry (i, j) of each block is copied to its place in C, and no other entry of C changes. |
| Strassen.CombineQuadrants | strassen/strassen.go:121-135 | A fresh 2h-by-2h matrix made of the four h-by-h blocks. |
| Strassen.PadMatrix | strassen/strassen.go:138-147 | A fresh newSize-by-newSize matrix with M in its top-left corner and zeros elsewhere. |
| Strassen.SevenProducts | strassen/strassen.go:75-81 | The seven recursive calls on power-of-two quadrants return the exact products M1..M7. |
| Strassen.CombineProducts | strassen/strassen.go:84-90 | The quadrants C11..C22 are built from M1..M7 by the source's sums and differences, and laid out in one matrix. |
| Strassen.Strassen | strassen/strassen.go:45-93 | With the base case restored, the result is NextPowerOfTwo(n)-by-NextPowerOfTwo(n), holding the product in its top-left corner and zeros elsewhere. For n a power of two it is the product. |
| Strassen.Multiply | strassen/strassen.go:54-92 | Strassen's result cut back to n-by-n is the textbook product. |
| Strassen.AsWrittenOperandSize | strassen/strassen.go:46-81 | Without the base case, the recursive calls on n-by-n operands receive operands of size NextPowerOfTwo(n)/2. That is smaller than n for n >= 1, and 0 again for n = 0. |
| Strassen.AsWrittenReachesEmpty | strassen/strassen.go:46-81 | Without the base case, the operands are 0-by-0 after at most n nested calls. |
| Strassen.AsWrittenNeverBottomsOut | strassen/strassen.go:46-81 | Without the base case, every call recurses: the sizes reach 0, and calls on 0-by-0 operands recurse on 0-by-0 operands at every depth. |
| Strassen.PaddedResultIsLarger | strassen/strassen.go:54-59 | For n >= 1 that is not a power of two, the result has size NextPowerOfTwo(n) > n. |
| Strassen.PaddedThreeByThree | strassen/strassen.go:54-59 | 3-by-3 operands give a 4-by-4 result. |

## Left out

- Floating point: coordinates are exact reals and distances are exact squared distances. The rounding of `math.Sqrt`/`math.Pow` in `distance`, and of `math.Log2`/`math.Pow` in `nextPowerOfTwo`, is not modelled. `NextPowerOfTwo` is the exact least power of two, and 0 for 0.
- Go `int` overflow in the matrix entries: entries are unbounded integers.
- `main` (both programs), `afficherResultat`, `PrintMatrix` and `genererPointsAleatoires`: console output, timing and random input only. The 0.0001 tolerance comparison in `main` of the two distances is stated instead as exact equality with the brute-force distance (`Shamos.PairePlusProche`).
- `sort.Slice`: its algorithm (an unstable pattern-defeating quicksort) is not modelled. `Sorting.SortBy` is a selection sort with the same sorted-permutation outcome. Which of several equal-key points comes first is therefore not the source's.
- Shamos.ShamosAsWrittenNeverBelow: for the recursion over the partition as written, only soundness is proved (a genuine pair, never below the true minimum). Equality with the brute-force minimum is proved for the corrected partition (`Shamos.ShamosCorrect`), which the driver uses.
- The O(n log n) and Strassen running-time claims: performance, not behaviour.
- Go slices share their backing arrays: `PxGauche`/`PxDroite` are slices of Px and rows of a `Matrix` could be shared. Here they are sequence values and fresh `array2` matrices; the source never writes through a shared slice, so no behaviour is lost.
- Strassen.Strassen: the seven recursive products and the recombination are in the separate methods `SevenProducts` and `CombineProducts`, with the same calls in the same order.

## Findings

| source | as written | input that shows it | evidently intended | confidence | as-written member | corrected member |
|---|---|---|---|---|---|---|
| shamos_algorithm.go:77-93 | The median `Px[n/2]` goes to PxDroite by index, but to PyGauche by the test `p.X <= median.X`. Each recursive call then gets a Py that is not a permutation of its Px. | Px = Py = (0,0),(1,0),(2,0),(3,0): PxGauche has 2 points, PyGauche 3 | Each Py half holds exactly the points of the Px half of its side | high (not executed) | Partition.SplitMedianMismatch | Partition.SplitConsistentSpec |
| strassen/strassen.go:49-51 | The base case is commented out, so `Strassen` always recurses. With n = 1, `half` is 0 and the call recurses on 0-by-0 matrices forever. | any A, B, e.g. 1-by-1 | Operands of size at most 2 go to `standardMultiply` | high (not executed) | Strassen.AsWrittenNeverBottomsOut | Strassen.Strassen |
| strassen/strassen.go:54-92 | The operands are padded to the next power of two and the result is never cut back, so it is larger than the operands. | 3-by-3 A and B give a 4-by-4 result | An n-by-n product | medium (not executed) | Strassen.PaddedResultIsLarger | Strassen.Multiply |
