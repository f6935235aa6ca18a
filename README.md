# Parallel-computing labs: verified model of the sequential core

The repository is a set of standalone benchmark drivers from a parallel-computing
course. Each driver times one computation under several loop orders, data layouts
or thread splits:
- prime collection;
- min/max and sum reductions;
- sortedness checks;
- dense matrix addition;
- dense matrix multiplication;
- a sparse (CSR) matrix product with five thread schedulers.

This project models that core in Dafny and proves what the drivers only print or
check at run time. Those promises are:
- every thread split covers its index space exactly once;
- every loop order computes the same result;
- the CSR form expands back to the dense input;
- the combined per-thread results equal the sequential result.

Conventions of the model:
- Matrix elements are mathematical integers. The C `double` arithmetic becomes exact, so "matches the reference" becomes an equality.
- Threads are run one after the other. Every worker in the source writes a disjoint part of the output, so this ordering does not change the result.
- A locked claim on a shared counter is one atomic method of a class. An arbitrary order of claims therefore keeps the class invariant.

Modules, one per source file or shared concept:
- **Arith**: division and modulo facts (the C truncating `/` as `CDiv`).
- **Dense**: row-major offsets `i*n+j` and the dot product. `IsProduct` is the specification every matrix-multiply kernel is proved against.
- **Split**: the thread splits the drivers use:
  - the block split `chunk = n/t`, where the last thread ends at `n`;
  - the proportional split `tid*n/t`;
  - `Iota`, the sequence of row numbers handed out by the dynamic schedulers.
- **Reduce**: sum, min and max over a range, and how per-chunk results combine.
- **Primes**: `Lab1/prog.c`.
- **MinMax**: `Lab2/prog1.c` and `Lab2/prog2.c`.
- **PtrVsIdx**: `Lab3/ptr_vs_idx.c`.
- **SparseCsr**, **SparseRows**, **SparseSchedules**: `Lab4/prog.c`.
- **OmpReduction**: `Lab5/prog1.c`.
- **SortedCheck**: `Lab5/prog2.cpp`.
- **MatrixAdd**: `Assignment1/A/code.c`.
- **Morton** and **PthreadAdd**: `Assignment1/B/code.c`.
- **Matrices** and **SinglePatterns**: `Assignment1/C/matrix_mult_single.cpp`.
- **MatmulBuffers** and **MatmulKernels**: `Assignment1/D/matmul.cpp`.

## Model

| member | source | states |
|---|---|---|
| Arith.DivByLarger | Lab4/prog.c:199-201 | Dividing by a larger positive divisor gives a smaller or equal quotient. This bounds the guided chunk by half the remaining rows. |
| Arith.MulDivCancel | Assignment1/D/matmul.cpp:72-73 | `t*n/t == n`, so the last proportional range ends at n. |
| Arith.CDiv | Lab5/prog2.cpp:102 | C's truncating division: it agrees with `/` on non-negative dividends and rounds toward zero on negative ones, as in `(n-1)/num_threads` for n = 0. |
| Arith.Abs | Assignment1/D/matmul.cpp:52 | `fabs`: the result is x or -x and is never negative. |
| Arith.DivModUnique | Lab4/prog.c:66 | A quotient/remainder pair with the remainder below the divisor is the pair of `/` and `%`, so offset `i*cols+j` has row i and column j. |
| Arith.ModAddModulus | Lab4/prog.c:176 | Adding the thread count to a row keeps its residue: the cyclic worker's `i += num_threads` stays in its class. |
| Arith.ModGap | Lab4/prog.c:176 | Among y, y+1, …, y+T-1 only y has y's residue mod T, so the cyclic worker's step `i += num_threads` skips no row of its class. |
| Dense.IdxInjective | Assignment1/A/code.c:11 | The offset `i*n+j` of distinct cells differs, so the row-major kernels never write one offset twice. |
| Dense.IdxOnto | Assignment1/A/code.c:28-33 | Every flat offset below n*n is `i*n+j` of the cell `(p/n, p%n)`. The flat loop and the 2-D loops therefore touch the same elements. |
| Dense.IdxLess | Assignment1/A/code.c:9-10 | Offsets of earlier rows are smaller, which is the order the row-major loop visits them. |
| Dense.RowColIdx | Lab4/prog.c:113 | The row and column recovered from `r*N + col_b` are r and col_b. |
| Dense.CellsCover | Assignment1/A/code.c:8-33 | Two buffers that agree on every cell are equal, whichever loop order filled them. |
| Dense.ProductUnique | Assignment1/C/matrix_mult_single.cpp:414 | Two buffers that both hold A·B are equal. This is why every pattern's result equals the reference. |
| Dense.ProductFromOffsets | Assignment1/D/matmul.cpp:198 | A buffer holding, at every flat offset, the dot product of that offset's row and column is the product A·B. |
| Split.Owner | Lab4/prog.c:121-123 | Within non-decreasing cut points, the segment holding i exists and is unique. |
| Split.BlockCutsShape | Lab3/ptr_vs_idx.c:74-78 | The cut points of the `chunk = n/t` split start at 0, end at n and never decrease. Thread tid's range lies between cuts tid and tid+1. |
| Split.BlockRangeExactlyOnce | Assignment1/B/code.c:51-55 | Every index below n lies in exactly one thread's block range, also when t > n. |
| Split.BlockRangesAbut | Lab4/prog.c:121-123 | The first block range starts at 0 and the last ends at n. Consecutive ranges abut, and every range lies in [0, n]. |
| Split.BlockRangeFollows | Lab4/prog.c:121-123 | Each block range starts where the previous one ended; the last thread ends at n. |
| Split.BlockRange | Lab4/prog.c:121-123 | The `chunk = n/t` range of thread tid, the last thread ending at n, lies within [0, n]. |
| Split.ProportionalRange | Assignment1/D/matmul.cpp:72-73 | The range `[tid*n/t, (tid+1)*n/t)` lies within [0, n]. |
| Split.ProportionalEnds | Assignment1/D/matmul.cpp:72-73 | Thread 0 starts at 0, thread t-1 ends at n, and consecutive ranges abut. |
| Split.ProportionalExactlyOnce | Assignment1/D/matmul.cpp:72-73 | Every row below n belongs to exactly one thread's range. |
| Split.IotaCount | Lab4/prog.c:141 | The sequence lo, lo+1, …, hi-1 holds each value in [lo, hi) once and nothing else. |
| Split.IotaAppend | Lab4/prog.c:159-163 | Handing out [lo, mid) and then [mid, hi) hands out [lo, hi) in order. |
| Split.IotaExactlyOnce | Lab4/prog.c:136-142 | 0, 1, …, n-1 hands out every row below n exactly once. |
| Reduce.MinMaxOfBounds | Lab2/prog2.c:17-23 | The min and max of an int32 range are int32 values that bound every element. On a non-empty range both are attained. |
| Reduce.SumSplitAt | Lab3/ptr_vs_idx.c:82-86 | The sum over [lo, hi) is the sum over [lo, mid) plus the sum over [mid, hi). |
| Reduce.SplitAt | Lab2/prog2.c:57-62 | The min (max) over [lo, hi) is the smaller (larger) of the min (max) of the two parts. |
| Reduce.SeedsAreIdentities | Lab5/prog1.c:34-36 | Combining with an empty chunk leaves the result unchanged: 0, INT_MAX and INT_MIN are the identities of sum, min and max. |
| Reduce.CombineWholeSum | Lab5/prog1.c:40-46 | Adding the per-chunk sums of any chunking gives the sum of the whole prefix. |
| Reduce.CombineWhole | Lab5/prog1.c:40-46 | Folding per-chunk minima (maxima) of any chunking gives the minimum (maximum) of the whole prefix. |
| Reduce.BlockChunkCuts | Lab2/prog2.c:47-53 | The `chunk = N/T` split is a chunking of [0, N) that ends at N. |
| Reduce.BlockRangeIsChunk | Lab2/prog2.c:52-53 | Thread t's `[t*chunk, end)` is the t-th chunk of that chunking and lies in [0, N]. |
| Primes.Cofactor | Lab1/prog.c:7-8 | A divisor d of num with 2 ≤ d < num has a cofactor e ≥ 2 with d·e = num that also divides num. |
| Primes.NoSmallDivisorPrime | Lab1/prog.c:7-10 | If no d in [2, i) divides num and i·i > num, then num is prime. This is why trial division may stop at i·i > num. |
| Primes.IsPrime | Lab1/prog.c:5-11 | `isPrime(num)` is true exactly when num is prime: false for num ≤ 1, and trial division up to i·i ≤ num decides the rest. |
| Primes.PrimesBelowSpec | Lab1/prog.c:31-32 | The reference list of primes below m is strictly increasing and holds exactly the primes below m. |
| Primes.CollectPrimes | Lab1/prog.c:30-34 | `arr` has 1000 slots and `0 ≤ ptr ≤ 1000`. `arr[..ptr]` is the list of all primes below some m ≤ 100000, so it is increasing and skips no prime. If the scan stopped before 100000, the 1000 slots are full. |
| MinMax.FindMinMax | Lab2/prog2.c:15-25 | `local_min` and `local_max` are the min and max of `arr[start..end)`. They bound every element and are attained. An empty range gives INT_MAX and INT_MIN. `find_min_max_thread` of Lab2/prog1.c:16-28 is the same loop. |
| MinMax.SplitMinMax | Lab2/prog2.c:47-62 | For every T ≥ 1, the global min and max combined from the `chunk = N/T` workers are the min and max of the whole array. |
| MinMax.CombineLocal | Lab2/prog2.c:57-62 | The join loop, seeded with INT_MAX and INT_MIN, yields the fold of the per-chunk results over all chunks. |
| MinMax.RunComparison | Lab2/prog1.c:36-75 | The sequential min and max are attained bounds of the array. The 8-thread min and max equal them. |
| MinMax.RunBulkExperiment | Lab2/prog2.c:40-62 | For any thread count, the global min and max are attained bounds of the array. An empty array gives INT_MAX and INT_MIN. |
| MinMax.ThreadCountSweep | Lab2/prog2.c:91 | The sweep visits 1, 5, 10, …, 100 threads, in that order. |
| PtrVsIdx.SumUsingPointer | Lab3/ptr_vs_idx.c:26-38 | Stores in `sum` the sum of the array over [start, end); start and end are unchanged. |
| PtrVsIdx.SumUsingIndex | Lab3/ptr_vs_idx.c:42-52 | Stores the same sum as the pointer version over the same range. |
| PtrVsIdx.SplitTotal | Lab3/ptr_vs_idx.c:74-86 | With either worker, the total of the per-thread sums over the `chunk = SIZE/THREADS` split is the sum of the whole array. |
| PtrVsIdx.JoinTotal | Lab3/ptr_vs_idx.c:82-86 | Adding the per-thread sums, each taken over its block range, gives the sum of the whole array. |
| PtrVsIdx.GaussSum | Lab3/ptr_vs_idx.c:61-62 | With `array[i] = i`, the sum of the first n elements is n(n-1)/2. |
| PtrVsIdx.PrintedExpectedIsForTenthOfSize | Lab3/ptr_vs_idx.c:64 | The printed expected sum 1249975000 is n(n-1)/2 for n = 50000, not for SIZE = 500000, whose sum is 124999750000. |
| PtrVsIdx.RunApproaches | Lab3/ptr_vs_idx.c:69-120 | Both approaches total 124999750000, the true sum of 0..SIZE-1, and not the printed constant. |
| OmpReduction.SerialPass | Lab5/prog1.c:18-29 | The serial loop yields the sum, min and max of the array. Min and max bound every element and are attained. |
| OmpReduction.ReductionPass | Lab5/prog1.c:34-46 | The reduction seeded with 0, INT_MAX and INT_MIN, over any chunking of the indices, yields the sum, min and max of the array. |
| OmpReduction.CompareSerialParallel | Lab5/prog1.c:59-62 | The serial and parallel sums, minima and maxima that are printed side by side are equal. Min ≤ max on a non-empty array. |
| OmpReduction.SumBounds | Lab5/prog1.c:24-26 | The sum of k int32 values lies between k·INT_MIN and k·INT_MAX. |
| OmpReduction.SizeSumFitsLongLong | Lab5/prog1.c:18 | The sum of 500000000 int32 values fits a `long long`, so `serial_sum` cannot overflow. |
| SortedCheck.ViolationsZero | Lab5/prog2.cpp:72-80 | The violation count over a range is 0 exactly when no adjacent pair there descends. |
| SortedCheck.SortedOrdered | Lab5/prog2.cpp:76 | Without an adjacent descent, `s[i] ≤ s[j]` for all i ≤ j, so checking neighbours decides sortedness. |
| SortedCheck.GenerateList | Lab5/prog2.cpp:50-54 | The first `size` elements become `arr[i] = i`; the rest are unchanged. |
| SortedCheck.OmpCheckEarlyExit | Lab5/prog2.cpp:56-68 | Returns true exactly when the array is sorted. The flag only moves from true to false. |
| SortedCheck.OmpCheckReduction | Lab5/prog2.cpp:70-81 | Returns true exactly when the array is sorted, i.e. when the violation count is 0. |
| SortedCheck.ThreadWorker | Lab5/prog2.cpp:84-92 | Reports 0 exactly when some i in [start, end) has `arr[i] > arr[i+1]`. The scan stops at the first such i; otherwise it reports 1 after the whole range. |
| SortedCheck.PairRangeShape | Lab5/prog2.cpp:102-106 | For n ≥ 1, the `(n-1)/T` split of the pair indices is the block split of [0, n-1). For n = 0 every range is empty. |
| SortedCheck.PairRange | Lab5/prog2.cpp:102-106 | A pair range starts at or above 0, and a non-empty one ends at or below n-1, so `a[k+1]` stays inside the array. |
| SortedCheck.ManualThreadCheck | Lab5/prog2.cpp:94-117 | For every thread count ≥ 1, the combined answer is true exactly when the array is sorted. |
| SortedCheck.Join | Lab5/prog2.cpp:111-116 | Folding the per-thread flags gives true exactly when no thread found a descent, i.e. when the array is sorted. |
| SortedCheck.RunSize | Lab5/prog2.cpp:133-166 | On `generate_list`'s output, all three checks return true. |
| MatrixAdd.AllSums | Assignment1/A/code.c:11-12 | If every cell `(i, j)` holds `a + b`, the whole buffer c is the element-wise sum of a and b. |
| MatrixAdd.StoreSum | Assignment1/A/code.c:12 | One store puts `a[idx] + b[idx]` in `c[idx]`, and no other cell of c changes. |
| MatrixAdd.AddRowMajor | Assignment1/A/code.c:8-15 | c becomes the element-wise sum of a and b. |
| MatrixAdd.AddColMajor | Assignment1/A/code.c:18-25 | c becomes the same element-wise sum, visited column by column. |
| MatrixAdd.Add1dFlat | Assignment1/A/code.c:28-33 | c becomes the same element-wise sum over the flat offsets. |
| MatrixAdd.AddPointer | Assignment1/A/code.c:36-42 | c becomes the same element-wise sum through three advancing pointers. |
| MatrixAdd.AddRowSpan | Assignment1/A/code.c:50-53 | The j loop of a tile stores the sums of columns [lo, min(hi, n)) of row i. No cell outside that row span changes. |
| MatrixAdd.AddTile | Assignment1/A/code.c:49-54 | One tile stores the sums of its cells, clipped to the matrix by the `< n` guards. No cell outside the tile changes. |
| MatrixAdd.AddBlocked | Assignment1/A/code.c:45-57 | c becomes the same element-wise sum, tile by tile. |
| MatrixAdd.RunSize | Assignment1/A/code.c:89-108 | With a = 1 and b = 2 everywhere, every element of c is 3 after the five variants. |
| Morton.EncodeLow16 | Assignment1/B/code.c:16-17 | The code depends only on the low 16 bits of x and y. |
| Morton.EncodeBits | Assignment1/B/code.c:18-26 | For k < 16, bit 2k of the code is bit k of x and bit 2k+1 is bit k of y. |
| Morton.SpreadEven | Assignment1/B/code.c:18-21 | The spread coordinate has no odd bits, so `x \| (y << 1)` does not mix the two coordinates. |
| Morton.CompactSpread | Assignment1/B/code.c:18-21 | Gathering the even bits undoes the spreading of a 16-bit value. |
| Morton.Encode | Assignment1/B/code.c:15-27 | Decoding the code returns the low 16 bits of both coordinates. |
| Morton.EncodeDecode | Assignment1/B/code.c:15-27 | Every 32-bit value is the code of its decoded coordinates, so the encoding is onto. |
| Morton.EncodeInjective | Assignment1/B/code.c:15-27 | Equal codes come from coordinates with equal low 16 bits, so distinct 16-bit pairs have distinct codes. |
| Morton.EncodeZero | Assignment1/B/code.c:15-27 | `morton_encode(0, 0) == 0`. |
| Morton.EncodeBelow | Assignment1/B/code.c:15-27 | Coordinates below 2^k (k ≤ 15) have codes below 4^k. |
| Morton.DecodeBelow | Assignment1/B/code.c:15-27 | Every value below 4^k is the code of coordinates below 2^k. |
| PthreadAdd.WorkerRowMajor | Assignment1/B/code.c:37-46 | Every cell of rows [start, end) holds `A + B`. No cell outside those rows changes. |
| PthreadAdd.AddColumn | Assignment1/B/code.c:66-69 | Every cell of column j holds its sum. No cell outside that column changes. |
| PthreadAdd.WorkerColMajor | Assignment1/B/code.c:63-72 | Every cell of columns [start, end) holds its sum. No cell outside those columns changes. |
| PthreadAdd.StoreOffset | Assignment1/B/code.c:94 | One store puts `A[idx] + B[idx]` in `C[idx]`, and no other element of C changes. |
| PthreadAdd.Strided | Assignment1/B/code.c:93 | With `s_row = N` and `s_col = 1`, the strided offset of a cell of the N×N matrix is its row-major offset `i*N+j`. |
| PthreadAdd.StridedOffsetsSplitRows | Assignment1/B/code.c:91-92 | The offsets written for a block of rows are those of its upper part plus those of its lower part. |
| PthreadAdd.StridedOffsetsNextCol | Assignment1/B/code.c:92-94 | The offsets written for columns [lo, j+1) of a row are those for [lo, j) plus the offset of (i, j). |
| PthreadAdd.WorkerNumpy | Assignment1/B/code.c:89-98 | Every strided offset of rows [start, end) holds its sum. No element outside those offsets changes. |
| PthreadAdd.MortonIndex | Assignment1/B/code.c:120 | The offset is a 32-bit value, and decoding it gives back the low 16 bits of i and j. |
| PthreadAdd.MortonCodesSplitRows | Assignment1/B/code.c:118-119 | The codes written for a block of rows are those of its upper part plus those of its lower part. |
| PthreadAdd.MortonCodesSplitCols | Assignment1/B/code.c:119-120 | The codes written for a block of columns are those of its left part plus those of its right part. |
| PthreadAdd.MortonCodesHold | Assignment1/B/code.c:120-121 | Every cell whose code is below N*N contributes that code. |
| PthreadAdd.MortonCodesOneCell | Assignment1/B/code.c:120-123 | A single cell contributes its code exactly when the code is below N*N. |
| PthreadAdd.MortonCell | Assignment1/B/code.c:120-123 | The guarded store writes `C[code]` only when the code is below N*N, so writes stay inside the buffer. No other element changes. |
| PthreadAdd.MortonRow | Assignment1/B/code.c:119-124 | For row i, every code below N*N holds its sum. No element outside those codes changes. |
| PthreadAdd.WorkerMorton | Assignment1/B/code.c:116-127 | For rows [start, end), every code below N*N holds its sum. No element outside those codes changes. |
| PthreadAdd.MortonMissesForThree | Assignment1/B/code.c:120-121 | For N = 3, no cell has code 5 or 7, so those elements of C are never written. |
| PthreadAdd.TiledStop | Assignment1/B/code.c:146 | The bands from start reach past end by less than one tile, and an empty range reaches nothing. |
| PthreadAdd.TiledStopAligned | Assignment1/B/code.c:146 | Bands over whole 64-row blocks stop exactly at the range's end. |
| PthreadAdd.WorkerTiled | Assignment1/B/code.c:144-157 | Every row from start up to where the bands stop, clipped to N, holds its sums. No row outside that range changes. |
| PthreadAdd.BlockData | Assignment1/B/code.c:51-55 | The ThreadData of thread t holds the block range `t*chunk`, last thread ending at N, and the strides it was given. |
| PthreadAdd.AddRowMajorPthread | Assignment1/B/code.c:48-61 | For any thread count ≥ 1, C becomes A + B. |
| PthreadAdd.AddColMajorPthread | Assignment1/B/code.c:74-87 | For any thread count ≥ 1, C becomes A + B. |
| PthreadAdd.AddNumpyPthread | Assignment1/B/code.c:100-114 | Every strided offset of the N×N cells holds its sum. With `s_row = N` and `s_col = 1`, C becomes A + B. |
| PthreadAdd.AddMortonPthread | Assignment1/B/code.c:129-142 | Every code below N*N of a cell holds its sum. No other element of C changes. |
| PthreadAdd.NumBlocks | Assignment1/B/code.c:163 | num_blocks is the fewest 64-row blocks that cover N rows. |
| PthreadAdd.BlocksPerThread | Assignment1/B/code.c:164-165 | blocks_per_thread is at least 1. The threads' shares fit in num_blocks unless there are more threads than blocks. |
| PthreadAdd.TiledData | Assignment1/B/code.c:168-175 | A thread's range starts at or above 0 and ends at or below N. |
| PthreadAdd.TiledCutsShape | Assignment1/B/code.c:167-185 | The tiled cut points start at 0, end at N and never decrease. A thread owns row i exactly when i lies between its two cuts. |
| PthreadAdd.TiledCutsAt | Assignment1/B/code.c:167-185 | A started thread's cuts are its start and end. Both cuts of a thread that is not started are N. |
| PthreadAdd.TiledRangesAbut | Assignment1/B/code.c:167-185 | Thread 0 starts at 0, each range ends where the next starts (cut at N), and a started last thread ends at N. |
| PthreadAdd.TiledExactlyOnce | Assignment1/B/code.c:163-186 | Every row below N lies in the range of exactly one started thread, for any thread count. |
| PthreadAdd.TiledWorkerRows | Assignment1/B/code.c:173-175 | A started thread's range is not empty, and its bands, cut at N, reach exactly its end. |
| PthreadAdd.TiledThread | Assignment1/B/code.c:168-185 | The pass fills in the tiled ThreadData of thread t and starts the worker exactly when `start < N`. Rows below cut t+1 then hold their sums, and only rows between cuts t and t+1 change. |
| PthreadAdd.AddTiledPthread | Assignment1/B/code.c:159-191 | Each thread gets the tiled ThreadData and is started exactly when `start < N`. C becomes A + B. |
| PthreadAdd.RunSize | Assignment1/B/code.c:212-241 | With A = 1 and B = 2, every element of C is 3 after the five variants. |
| Matrices.Matrix.constructor | Assignment1/C/matrix_mult_single.cpp:23-31 | A new n×n matrix in fresh storage, every element 0. |
| Matrices.Matrix.Copy | Assignment1/C/matrix_mult_single.cpp:44-52 | The copy has the same size and elements, in separate storage. |
| Matrices.Matrix.Clear | Assignment1/C/matrix_mult_single.cpp:67-73 | Every element becomes 0; the size is unchanged. |
| Matrices.Matrix.Equals | Assignment1/C/matrix_mult_single.cpp:104-119 | True exactly when the sizes agree and every element differs by at most the tolerance. |
| Matrices.ElementsCells | Assignment1/C/matrix_mult_single.cpp:76-77 | `operator()(i, j)` reads element `i*n+j` of the matrix's row-major contents. |
| Matrices.SameElementsWithin | Assignment1/C/matrix_mult_single.cpp:104-119 | Matrices with equal contents are equal within every tolerance ≥ 0, so `equals` is reflexive. |
| Matrices.DotStep | Assignment1/C/matrix_mult_single.cpp:133-134 | Adding `A(i,k)·B(k,j)` extends the dot product of row i and column j by the term k. |
| Matrices.ProductOf | Assignment1/C/matrix_mult_single.cpp:136 | A matrix whose every element is the full dot product of its row and column holds A·B. |
| SinglePatterns.RowColumnDot | Assignment1/C/matrix_mult_single.cpp:131-135 | The k loop's `sum` is the dot product of row i of A and column j of B. |
| SinglePatterns.Pattern1Ijk | Assignment1/C/matrix_mult_single.cpp:123-138 | C becomes A·B. |
| SinglePatterns.Pattern3Jik | Assignment1/C/matrix_mult_single.cpp:159-175 | C becomes A·B, visited column by column. |
| SinglePatterns.AccumulateSpan | Assignment1/C/matrix_mult_single.cpp:243-246 | Columns [lo, hi) of row i gain `aik·B(k, j)`; every other element is unchanged. |
| SinglePatterns.Pattern2Ikj | Assignment1/C/matrix_mult_single.cpp:141-156 | After `clear`, C becomes A·B. |
| SinglePatterns.AccumulateEight | Assignment1/C/matrix_mult_single.cpp:232-239 | The eight unrolled statements add `aik·B(k, j')` to columns j … j+7 of row i and nothing else. |
| SinglePatterns.AccumulateRowUnrolled | Assignment1/C/matrix_mult_single.cpp:227-246 | The unrolled loop plus the remainder loop add `aik·B(k, j)` to every column of row i exactly once and leave the other rows unchanged. |
| SinglePatterns.Pattern5Simd | Assignment1/C/matrix_mult_single.cpp:215-249 | After `clear`, C becomes A·B. |
| SinglePatterns.AccumulateBlockRow | Assignment1/C/matrix_mult_single.cpp:200-207 | Row i of a block advances from the dot product up to kk to the dot product up to k_end on columns [jj, j_end); nothing else changes. |
| SinglePatterns.AccumulateBlock | Assignment1/C/matrix_mult_single.cpp:193-208 | A block `(ii, jj, kk)` advances each of its cells from the dot product up to kk to the one up to k_end; nothing else changes. |
| SinglePatterns.BlockedTile | Assignment1/C/matrix_mult_single.cpp:190-209 | The kk loop over one zeroed `(ii, jj)` tile leaves the full dot products there; nothing else changes. |
| SinglePatterns.BlockedRow | Assignment1/C/matrix_mult_single.cpp:188-210 | The jj loop over one zeroed band of rows leaves the full dot products there; nothing else changes. |
| SinglePatterns.Pattern4Blocked | Assignment1/C/matrix_mult_single.cpp:178-212 | For every block size ≥ 1, clamped to n, C becomes A·B. |
| SinglePatterns.RowAccumulatorsStep | Assignment1/C/matrix_mult_single.cpp:275-296 | One k step keeps the four accumulators of row i equal to the partial dot products for columns j … j+3. Columns past n see `b = 0`. |
| SinglePatterns.RegisterStep | Assignment1/C/matrix_mult_single.cpp:275-296 | One k step advances all eight accumulators of the 2×4 block, the second row only when `i+1 < n`. |
| SinglePatterns.RegisterAccumulate | Assignment1/C/matrix_mult_single.cpp:265-297 | After the k loop, the accumulators hold the full dot products of the block's cells. |
| SinglePatterns.StoreBlockRow | Assignment1/C/matrix_mult_single.cpp:300-309 | The guarded stores write columns j … j+3 of row i that lie below n, and nothing else. |
| SinglePatterns.RegisterBlock | Assignment1/C/matrix_mult_single.cpp:262-320 | Every cell of the 2×4 block that lies inside the matrix gets its full dot product; nothing else changes. |
| SinglePatterns.Pattern6RegisterBlocking | Assignment1/C/matrix_mult_single.cpp:252-322 | After `clear`, C becomes A·B, including the ragged edges when n is not a multiple of 2 or 4. |
| SinglePatterns.RunPattern | Assignment1/C/matrix_mult_single.cpp:333 | Each of the five fixed patterns leaves A·B in C. |
| SinglePatterns.MeasureTime | Assignment1/C/matrix_mult_single.cpp:324-342 | Because C is cleared before every run, C holds A·B after at least one run. |
| SinglePatterns.MeasureTimeBlocked | Assignment1/C/matrix_mult_single.cpp:345-363 | The same for the blocked pattern with any block size ≥ 1. |
| SinglePatterns.CountAtMost | Assignment1/C/matrix_mult_single.cpp:441-443 | The number of block sizes that pass `blockSize <= n` is at most the number of block sizes. |
| SinglePatterns.CountAtMostSnoc | Assignment1/C/matrix_mult_single.cpp:441-443 | Appending a block size adds one to the count exactly when it passes `blockSize <= n`. |
| SinglePatterns.Compare | Assignment1/C/matrix_mult_single.cpp:414 | Two matrices that both hold A·B compare equal. |
| SinglePatterns.CompareBlocked | Assignment1/C/matrix_mult_single.cpp:441-463 | Every block size tried (those ≤ n) produces a result that matches the reference. |
| SinglePatterns.CompareWithReference | Assignment1/C/matrix_mult_single.cpp:405-492 | Every comparison the driver makes against the ijk reference succeeds. |
| MatmulBuffers.SubmatrixCell | Assignment1/D/matmul.cpp:34-37 | Element `(i, j)` of the extracted n×n matrix is `MASTER[i*MAXN+j]`. |
| MatmulBuffers.CopyRow | Assignment1/D/matmul.cpp:36 | The memcpy of row i copies `MASTER[i*MAXN .. i*MAXN+n)` into row i and leaves the other rows unchanged. |
| MatmulBuffers.ExtractSubmatrix | Assignment1/D/matmul.cpp:34-37 | dst becomes the leading n×n corner of MASTER (n ≤ MAXN). |
| MatmulBuffers.Zero | Assignment1/D/matmul.cpp:39-41 | Every element of the n×n buffer becomes 0. |
| MatmulBuffers.TransposedCell | Assignment1/D/matmul.cpp:46 | `BT[i*N+j] == B[j*N+i]` for all i, j < N. |
| MatmulBuffers.TransposedInvolution | Assignment1/D/matmul.cpp:43-47 | Transposing twice gives back the original matrix. |
| MatmulBuffers.Transpose | Assignment1/D/matmul.cpp:43-47 | BT becomes the transpose of B. |
| MatmulBuffers.MaxDiffBounds | Assignment1/D/matmul.cpp:49-54 | The max absolute difference is ≥ 0 and bounds every `\|A[i]-B[i]\|`. It is 0 or attained at some i. |
| MatmulBuffers.MaxDiffZero | Assignment1/D/matmul.cpp:49-54 | The max absolute difference is 0 exactly when the buffers are equal. |
| MatmulBuffers.MaxDiffSymmetric | Assignment1/D/matmul.cpp:49-54 | The max absolute difference is symmetric in its two buffers. |
| MatmulBuffers.MaxAbsDiff | Assignment1/D/matmul.cpp:49-54 | `err` is the max absolute difference. It is ≥ 0, and 0 exactly when the buffers are equal. |
| MatmulKernels.DotAtStep | Assignment1/D/matmul.cpp:78 | `C[i*N+j] += A[i*N+k]*B[k*N+j]` extends the dot product at that offset by the term k. |
| MatmulKernels.AccumulateDot | Assignment1/D/matmul.cpp:77-78 | The k loop adds the dot product of row i and column j to `C[i*N+j]` and nothing else. |
| MatmulKernels.TransposedDot | Assignment1/D/matmul.cpp:92-94 | The sum over `A[i*N+k]*BT[j*N+k]` is the dot product of row i of A and column j of B. |
| MatmulKernels.AccumulateRowSpan | Assignment1/D/matmul.cpp:131-132 | Columns [lo, hi) of row i gain `aik·B[k*N+j]`; every other element is unchanged. |
| MatmulKernels.AccumulateRow | Assignment1/D/matmul.cpp:128-133 | One row of a block advances from the dot product up to kk to the one up to k_end on its columns; nothing else changes. |
| MatmulKernels.AccumulateBlock | Assignment1/D/matmul.cpp:128-133 | Every cell of a `BS`-block advances from the dot product up to kk to the one up to k_end; nothing else changes. |
| MatmulKernels.BandSweep | Assignment1/D/matmul.cpp:146-153 | The kk and jj loops over one band of rows add the full dot products there; nothing else changes. |
| MatmulKernels.TileSweep | Assignment1/D/matmul.cpp:169-175 | The kk loop over one tile adds the full dot products there; nothing else changes. |
| MatmulKernels.MmIjk | Assignment1/D/matmul.cpp:70-80 | Exactly the rows `[tid*N/T, (tid+1)*N/T)` gain their row of A·B. |
| MatmulKernels.MmTransposed | Assignment1/D/matmul.cpp:85-98 | Exactly the thread's rows are set to their row of A·B, computed from BT. |
| MatmulKernels.MmIkj | Assignment1/D/matmul.cpp:103-115 | Exactly the thread's rows gain their row of A·B. |
| MatmulKernels.MmBlocked | Assignment1/D/matmul.cpp:120-135 | Exactly the thread's rows gain their row of A·B. The inner bound `min(ii+BS, r1)` keeps writes inside them. |
| MatmulKernels.Bands | Assignment1/D/matmul.cpp:142 | `(N+BS-1)/BS` bands cover every row, and every band starts below N. |
| MatmulKernels.BandRows | Assignment1/D/matmul.cpp:145-148 | Row r lies in band x exactly when `x*BS ≤ r < x*BS+BS`, so each row lies in one band. |
| MatmulKernels.MmBlockedParallel | Assignment1/D/matmul.cpp:140-156 | Exactly the rows whose band number is ≡ tid mod T gain their row of A·B. |
| MatmulKernels.TileOf | Assignment1/D/matmul.cpp:163-167 | Every cell lies in a tile numbered below tiles². |
| MatmulKernels.TileCells | Assignment1/D/matmul.cpp:166-167 | A cell lies in tile `tile` exactly when its band is `tile/tiles` and its column band is `tile%tiles`. So the map from tile to origin is one-to-one. |
| MatmulKernels.TileStep | Assignment1/D/matmul.cpp:165-176 | One tile adds the full dot products to its zero-started cells; nothing else changes. |
| MatmulKernels.Mm2dTiled | Assignment1/D/matmul.cpp:161-178 | Exactly the cells whose tile number is ≡ tid mod T gain their element of A·B. |
| MatmulKernels.RowWorker | Assignment1/D/matmul.cpp:70-135 | Any of the four row-splitting kernels, started on zeroed rows, leaves exactly its thread's rows holding A·B. |
| MatmulKernels.RunRowSplit | Assignment1/D/matmul.cpp:188-195 | After `zero`, running all threads of a row-splitting kernel leaves A·B in C. |
| MatmulKernels.RunBlockedParallel | Assignment1/D/matmul.cpp:188-195 | After `zero`, running all threads of `mm_blocked_parallel` leaves A·B in C. |
| MatmulKernels.RunTiled | Assignment1/D/matmul.cpp:188-195 | After `zero`, running all threads of `mm_2d_tiled_parallel` leaves A·B in C. |
| MatmulKernels.Run | Assignment1/D/matmul.cpp:181-203 | Given a reference holding A·B, C equals the reference, `max_abs_diff` is 0 and no error is reported. |
| MatmulKernels.RunAll | Assignment1/D/matmul.cpp:229-248 | All 6 kernels × 5 thread counts report a difference of 0. |
| MatmulKernels.Prepare | Assignment1/D/matmul.cpp:222-224 | A and B are the leading n×n corner of MASTER, and BT is the transpose of B. |
| SparseCsr.RowMajorCell | Lab4/prog.c:66 | The offset `i*cols+j` with j < cols has row i and column j. |
| SparseCsr.NonZeros | Lab4/prog.c:54 | The offsets below hi holding a non-zero are listed, in order, each below hi. |
| SparseCsr.NonZerosPrefix | Lab4/prog.c:62-73 | The non-zeros below x are a prefix of those below hi, for x ≤ hi. |
| SparseCsr.NonZerosSplit | Lab4/prog.c:62-73 | The k-th non-zero below hi lies below x exactly when k is among the first `\|NonZeros(x)\|`. |
| SparseCsr.NonZerosIncreasing | Lab4/prog.c:62-73 | The non-zero offsets are strictly increasing. |
| SparseCsr.NonZerosAt | Lab4/prog.c:67-70 | A non-zero at x is the next entry written: it sits at position `count` = number of non-zeros before x. |
| SparseCsr.CsrOf | Lab4/prog.c:46-76 | The CSR form has the given rows and cols, and `nnz` is the number of non-zero dense entries. |
| SparseCsr.PackedUpToStep | Lab4/prog.c:67-70 | Writing `values[count]` and `col_ind[count]` for the next non-zero extends the packed prefix by one entry. |
| SparseCsr.PackRow | Lab4/prog.c:65-72 | The j loop of row i packs that row's non-zeros after the earlier rows'. `count` ends at the number of non-zeros before row i+1. |
| SparseCsr.ConvertToCsr | Lab4/prog.c:46-76 | The arrays filled by `convertToCSR` are exactly the CSR form of the dense input. |
| SparseCsr.CsrOfWellFormed | Lab4/prog.c:50-74 | `row_ptr` has rows+1 entries, starts at 0, never decreases and ends at `nnz`. Column indices are below cols. |
| SparseCsr.NonZeroInRow | Lab4/prog.c:63-72 | Entry k of row i's range is a non-zero inside row i, and its column is its offset minus `i*cols`. |
| SparseCsr.CsrOfRows | Lab4/prog.c:62-73 | For k in row i's range, `values[k] == matrix[i*cols+col_ind[k]] != 0` and `col_ind` is strictly increasing within the row. |
| SparseCsr.Expand | Lab4/prog.c:104-116 | The dense form of a CSR matrix has rows·cols elements. |
| SparseCsr.ExpandCell | Lab4/prog.c:105-113 | Element `(i, j)` of the dense form is the sum of the entries of row i stored at column j. |
| SparseCsr.CsrOfPacks | Lab4/prog.c:62-73 | The CSR form lists, in order, every non-zero's column and value. |
| SparseCsr.RowSumPrefix | Lab4/prog.c:65-72 | Over the first j' columns of row i, the CSR entries stored at column c sum to `m[i*cols+c]` if c < j', else 0. |
| SparseCsr.RowSumStep | Lab4/prog.c:66-71 | Column `x-s` of row i adds `m[x]` to the entries at that column when it is non-zero, and nothing otherwise. |
| SparseCsr.RowStartNext | Lab4/prog.c:64 | `row_ptr[i]` and `row_ptr[i+1]` count the non-zeros before rows i and i+1. |
| SparseCsr.RoundTripCell | Lab4/prog.c:62-73 | Expanding the CSR form returns the dense input at every offset. |
| SparseCsr.CsrRoundTrip | Lab4/prog.c:46-76 | The CSR form is well formed, and expanding it gives back the dense input. |
| SparseRows.Column | Lab4/prog.c:110-113 | Column j of a CSR matrix has one element per row. |
| SparseRows.WeightedColumnsEmpty | Lab4/prog.c:105 | An empty entry range contributes 0 to every dot product. |
| SparseRows.WeightedColumnsStep | Lab4/prog.c:105-107 | One more entry of row r adds its value times column j's element at its column. |
| SparseRows.WeightedSwap | Lab4/prog.c:105-115 | Adding the products entry by entry, as `compute_row` does, gives the column-by-column dot product. |
| SparseRows.DotAsColumns | Lab4/prog.c:104-116 | The dense dot product of row i and column j is row i's CSR entries weighted by column j. |
| SparseRows.RowProduct | Lab4/prog.c:104-116 | Every column of row i's entries is a valid row of B. What `compute_row` adds at `(i, j)` is element `(i, j)` of the product of the dense forms. |
| SparseRows.ResetResult | Lab4/prog.c:41-43 | The first `size` elements become 0; the rest are unchanged. |
| SparseRows.AddScaledRow | Lab4/prog.c:110-114 | Row r of C gains `val_a` times row `col_a` of B; all other rows are unchanged. |
| SparseRows.ComputeRow | Lab4/prog.c:104-116 | Row r of C gains row r of A·B; all other rows of C are unchanged. |
| SparseRows.CsrProduct | Lab4/prog.c:232-233 | The product of the CSR forms' dense expansions is the product of the dense inputs. |
| SparseSchedules.ComputeRows | Lab4/prog.c:125-127 | Rows [lo, hi) of C gain their row of A·B; the rest are unchanged. |
| SparseSchedules.StaticBlockWorker | Lab4/prog.c:119-129 | Exactly the rows of thread t's block range gain their row of A·B. |
| SparseSchedules.StaticCyclicWorker | Lab4/prog.c:174-180 | Exactly the rows with `row % T == t` gain their row of A·B. |
| SparseSchedules.GuidedChunkBounds | Lab4/prog.c:199-202 | `chunk == remaining` exactly when remaining ≤ 64. Above 64 rows, chunk is 64 or `remaining/(2T)`, and at most `max(64, remaining/2)`. |
| SparseSchedules.GuidedChunk | Lab4/prog.c:199-202 | Every guided chunk takes at least one row and no more than remain, so the loop advances and never overruns. |
| SparseSchedules.RowCounter.constructor | Lab4/prog.c:31 | The counter starts at 0 with nothing handed out. |
| SparseSchedules.RowCounter.Reset | Lab4/prog.c:265 | `global_row_counter = 0`: the counter is 0 and the log of handed-out rows is empty. |
| SparseSchedules.RowCounter.ClaimRow | Lab4/prog.c:136-142 | Succeeds exactly when the counter is below rows. It then hands out the old counter value and increments it; otherwise nothing changes. |
| SparseSchedules.RowCounter.ClaimChunk | Lab4/prog.c:154-163 | Succeeds exactly when the counter is below rows. The counter advances by 64, which may pass rows, and only `[start, min(start+64, rows))` is handed out. |
| SparseSchedules.RowCounter.ClaimGuided | Lab4/prog.c:191-208 | Succeeds exactly when rows remain. It hands out `[start, start+chunk)` with the guided chunk and never moves the counter past rows. |
| SparseSchedules.HandedExactlyOnce | Lab4/prog.c:137 | Once the counter has reached rows, every row has been handed out exactly once, whatever the order of claims. |
| SparseSchedules.DynamicFineWorker | Lab4/prog.c:132-147 | The worker claims until the counter reaches rows. Every row it claimed gains its row of A·B. |
| SparseSchedules.DynamicChunkWorker | Lab4/prog.c:150-169 | The same for 64-row chunks, the last clipped at rows. |
| SparseSchedules.DynamicGuidedWorker | Lab4/prog.c:185-214 | The same for guided chunks; the counter ends exactly at rows. |
| SparseSchedules.RunStatic | Lab4/prog.c:264-289 | After `reset_result`, all threads of the block or the cyclic strategy leave A·B (of the dense forms) in C. |
| SparseSchedules.RunDynamic | Lab4/prog.c:264-289 | After the counter reset, all threads of a dynamic strategy leave A·B in C, and every row was handed out exactly once. |
| SparseSchedules.Benchmark | Lab4/prog.c:232-289 | After converting both inputs and running every strategy with every thread count, C holds the product of the dense inputs. |

## Left out
- Threads, mutexes, OpenMP pragmas and `std::thread` are not modelled. Workers run one after the other, and each locked claim is one atomic step. Interleavings of unlocked code and data races are not modelled, for example the `volatile` flag at Lab5/prog2.cpp:58.
- OpenMP `reduction` is modelled as an arbitrary chunking of the index range combined in chunk order. The run-time schedule is not modelled.
- Timing, best-time and best-thread selection, CPU-usage sampling, `printf`/`cout`/CSV output, `Matrix::print` and the Python plotting scripts are all I/O.
- Floating point is not modelled. Elements are integers, so the `equals` tolerance and `EPS` are integer parameters, 0 in the drivers' checks.
- Random inputs are not modelled: `rand`/`srand`, `generateRandomSparseMatrix`, `init_master`, `Matrix::initialize`. The model takes arbitrary input contents instead.
- `isSparse`'s density ratio is left out: it only decides a message.
- `cblas_dgemm` is a foreign call. Its result is taken as a precondition: the reference buffer holds A·B.
- `thread::hardware_concurrency` is a parameter `numThreads ≥ 1`.
- Lab1's deliberate memory-error demonstrations are not modelled (`arr` redeclared, the oversized `malloc`).
- C `int` overflow is not modelled. `i*i` in `isPrime`, `N*N` and the offsets `i*N+j` are mathematical integers. The Assignment1/B model requires N ≤ 46340 so that N*N fits an `int`.
- Primes.CollectPrimes: does not prove that the 1000th prime is reached before 100000. It proves the collected list is exactly the primes below the point where the scan stopped, full when it stopped early.
- The RUNS repetitions of Lab3 and the `runs` loop of `measure_time` are modelled as one run, or as the final run. Every run computes the same result from a cleared buffer.
- `compute_row` strides C by the global N. The model fixes rows = cols = N = 4096 for both operands.
- The CSR value, column and row-pointer arrays are returned as sequences in a datatype. The model does not capture separate heap buffers or the `free` calls.
- Matrices.Matrix stores its elements in one `array2`, not in `n` separately allocated rows.
- Lab5/prog2.cpp's `vector<int>` input is a sequence. The checks do not mutate it.
- PthreadAdd.AddMortonPthread: proves the sum only at the offsets some cell's code reaches below N*N, not C == A + B. For N not a power of two some offsets are never reached (PthreadAdd.MortonMissesForThree). main only uses powers of two, and the model does not carry Morton.EncodeBelow and Morton.DecodeBelow over to the worker loop for those sizes.
- SinglePatterns.CountAtMost: its contract only bounds the count. What it counts is stated by SinglePatterns.CountAtMostSnoc.

## Findings

| source | as written | input that shows it | evidently intended | confidence | as-written member | corrected member |
|---|---|---|---|---|---|---|
| Lab3/ptr_vs_idx.c:64 | prints `Expected Sum = 1249975000` | SIZE = 500000 with `array[i] = i`: the sum is 500000·499999/2 = 124999750000; 1249975000 is the sum for 50000 elements | the expected sum SIZE·(SIZE-1)/2 = 124999750000 | high, not executed | PtrVsIdx.PrintedExpectedIsForTenthOfSize | PtrVsIdx.RunApproaches |
