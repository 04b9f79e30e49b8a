# FList and DefaultNDArray in Dafny

This project models the two implemented components of a Kotlin course
repository:

- **FList** (`homework02/.../binomial/FList.kt`) is a persistent singly-linked list with
  two variants, `Nil` and `Cons(head, tail)`. Its operations are `size`,
  `isEmpty`, `map`, `filter`, a left `fold`, `reverse` (built from `fold`),
  `add` (concatenation, built from `reverse` and `fold`), a forward
  iterator, and the `flistOf` constructor. Here it is a Dafny `datatype`
  with recursive functions (`flist.dfy`), plus an iterator class whose
  `current` field `Next` advances. Every operation is specified against
  `Elements`, the sequence of values a list holds, head first.
- **DefaultNDArray** (`homework01/src/main/kotlin/DefaultNDArray.kt`) is a sparse
  integer array of fixed shape. It keeps written points in a mutable map,
  and points never written read as the factory default (1 for `ones`, 0
  for `zeros`).
  - `at`/`set` validate a point: first its number of coordinates, then
    each coordinate.
  - `copy` gets a map of its own. `view` shares the map, so writes through
    any view are seen by all of them.
  - `add` adds in place, broadcasting over trailing dimensions. It walks
    the points with an odometer (`getNextPoint`).
  - `dot` is a matrix-matrix or matrix-vector product. The source also
    has a branch meant to scale by a length-1 vector, but as written it
    always throws (see "## Findings"). The model's `dot` uses the
    corrected branch.

  The class (`ndarray.dfy`) has a `Storage` object holding the
  `map<seq<int>, int>`. A view holds the same `Storage`; a copy gets a
  fresh one. Its methods are proved against value-level functions on a
  `Tensor` snapshot (`tensor.dfy`). `points.dfy` defines shapes, points
  and the odometer order, and proves that the odometer visits every point
  exactly once.

Files: `wrappers.dfy` (Option/Result), `flist.dfy`, `points.dfy`,
`tensor.dfy`, `ndarray.dfy`.

Modelling conventions:

- A shape is a `seq<int>` with at least one dimension, all positive.
  Shape.kt is not part of this model; the model assumes its constructor
  enforces exactly this.
- A point is a `seq<int>`, and points compare by value.
- Exceptions become `Option<NDError>` or `Result` values. The iterator's
  `IllegalArgumentException` becomes `NoElementLeft`.

Where the comments and the code disagree, the model follows the code:

- The interface comment on `add` (DefaultNDArray.kt:47-60) says the
  operand has the same number of dimensions as the array, or one fewer.
  The code (lines 152-158) accepts any operand with no more dimensions,
  provided its dimensions equal the array's leading ones.
  `Tensors.AddError` states what the code does.
- The comment on FList's `add` (FList.kt:47) says it adds `other`'s
  elements at the beginning. Its picture (lines 48-50) and the code put
  `this` first, then `other`, and so does the model.

## Model

| member | source | states |
|---|---|---|
| PersistentList.Size | homework02/lib/src/main/kotlin/binomial/FList.kt:92-93 | the size is the number of elements held (0 for `Nil`, one more than the tail for `Cons`) |
| PersistentList.IsEmpty | homework02/lib/src/main/kotlin/binomial/FList.kt:84-94 | `isEmpty` holds exactly when the size is 0, i.e. the list holds no element |
| PersistentList.Map | homework02/lib/src/main/kotlin/binomial/FList.kt:96-98 | `map(f)` keeps the size and its element i is `f` of the input's element i |
| PersistentList.Filter | homework02/lib/src/main/kotlin/binomial/FList.kt:100-105 | the result is no longer than the input and every element it holds satisfies `f` |
| PersistentList.FilterKeepsOrder | homework02/lib/src/main/kotlin/binomial/FList.kt:100-105 | the kept elements appear in their original relative order (the result is a subsequence of the input) |
| PersistentList.FilterKeepsAccepted | homework02/lib/src/main/kotlin/binomial/FList.kt:100-105 | every occurrence of an element `f` accepts is kept |
| PersistentList.Fold | homework02/lib/src/main/kotlin/binomial/FList.kt:107-112 | the source's fold (stopping at the last cell) equals the left fold `f(...f(f(base, x0), x1)..., xn)`, and `base` for `Nil` |
| PersistentList.Reverse | homework02/lib/src/main/kotlin/binomial/FList.kt:44-46 | the fold that prepends yields the elements back to front, with the same size |
| PersistentList.ReverseInvolution | homework02/lib/src/main/kotlin/binomial/FList.kt:44-46 | reversing twice gives back the same list |
| PersistentList.Add | homework02/lib/src/main/kotlin/binomial/FList.kt:47-54 | `this.add(other)` holds `this`'s elements then `other`'s, its size is the sum, and dropping `this.size` cells leaves `other` |
| PersistentList.FoldAppendIsMap | homework02/lib/src/main/kotlin/binomial/FList.kt:35-40 | folding with "append [f(x)]" from `Nil` gives `map(f)` |
| PersistentList.FListOf | homework02/lib/src/main/kotlin/binomial/FList.kt:124-132 | `flistOf(v0..vn-1)` holds v0..vn-1 in argument order, size n |
| PersistentList.FListOfElements | homework02/lib/src/main/kotlin/binomial/FList.kt:127-132 | building a list from a list's elements gives that list back |
| PersistentList.FListIterator.constructor | homework02/lib/src/main/kotlin/binomial/FList.kt:68-69 | a new iterator has the whole list still to yield |
| PersistentList.FListIterator.HasNext | homework02/lib/src/main/kotlin/binomial/FList.kt:70-72 | `hasNext` is true exactly when elements remain |
| PersistentList.FListIterator.Next | homework02/lib/src/main/kotlin/binomial/FList.kt:74-81 | yields the first remaining element and leaves the rest; on an exhausted iterator fails and changes nothing |
| Points.NextPointRank | homework01/src/main/kotlin/DefaultNDArray.kt:131-139 | one odometer step keeps the point in bounds and moves one place on in odometer order, wrapping to the origin after the last point |
| Points.OdometerEnumerates | homework01/src/main/kotlin/DefaultNDArray.kt:159-164 | from the origin, the first Size steps are pairwise distinct in-bounds points covering every in-bounds point, and step Size is the origin again |
| Points.ReducedPointInBounds | homework01/src/main/kotlin/DefaultNDArray.kt:168-170 | dropping the trailing coordinates of an in-bounds point gives an in-bounds point of the operand whose dimensions are the leading ones |
| Tensors.Tensor.Read | homework01/src/main/kotlin/DefaultNDArray.kt:110-112 | `getValue` returns the value stored at the point, or the factory default when the point was never written |
| Points.ReducePoint | homework01/src/main/kotlin/DefaultNDArray.kt:168-170 | `reducePoint(p, offset)` is the prefix of `p` with its last `offset` coordinates dropped |
| Tensors.PointError | homework01/src/main/kotlin/DefaultNDArray.kt:100-109 | a wrong number of coordinates is a dimension error (checked first); otherwise a coordinate outside [0, dim) is a coordinate error; no error exactly for in-bounds points |
| Tensors.UnwrittenReadsDefault | homework01/src/main/kotlin/DefaultNDArray.kt:110-116 | a valid point never written reads as the factory default |
| Tensors.StoreFailsLikeLookup | homework01/src/main/kotlin/DefaultNDArray.kt:113-121 | `set` fails exactly where `at` fails, with the same error |
| Tensors.StoreThenLookup | homework01/src/main/kotlin/DefaultNDArray.kt:118-121 | after `set(p, v)`, `at(p)` is `v` and every other point reads as before |
| Tensors.AddError | homework01/src/main/kotlin/DefaultNDArray.kt:152-158 | `add` succeeds exactly when `other` has no more dimensions and they equal this array's leading ones; otherwise a dimension error |
| Tensors.DotError | homework01/src/main/kotlin/DefaultNDArray.kt:209-226 | `dot` succeeds exactly when `this` is 2-D, `other` has 1 or 2 dimensions, and `other` is a length-1 vector or its first dimension equals this array's second; success on a length-1 vector follows the corrected scalar branch (see "## Findings"), whereas the source as written throws there |
| Tensors.DotShape | homework01/src/main/kotlin/DefaultNDArray.kt:220-238 | the result shape is valid: this array's shape when scaling, 2-D for a matrix operand, 1-D for a vector operand |
| NDArrays.DefaultNDArray.constructor | homework01/src/main/kotlin/DefaultNDArray.kt:90-93 | an array is its default, its shape and the map it is given |
| NDArrays.DefaultNDArray.Ones | homework01/src/main/kotlin/DefaultNDArray.kt:97 | a fresh array with an empty map of its own, every valid point reading 1 |
| NDArrays.DefaultNDArray.Zeros | homework01/src/main/kotlin/DefaultNDArray.kt:98 | a fresh array with an empty map of its own, every valid point reading 0 |
| NDArrays.DefaultNDArray.CheckPoint | homework01/src/main/kotlin/DefaultNDArray.kt:100-109 | the coordinate loop reports exactly `PointError` |
| NDArrays.DefaultNDArray.At | homework01/src/main/kotlin/DefaultNDArray.kt:110-116 | `at` returns the stored value or the default, or the validation error |
| NDArrays.DefaultNDArray.Set | homework01/src/main/kotlin/DefaultNDArray.kt:118-121 | `set` validates first and reports `PointError`; on error the shared map is left exactly as it was; otherwise it writes `p := v` and keeps only in-bounds points stored |
| NDArrays.DefaultNDArray.Copy | homework01/src/main/kotlin/DefaultNDArray.kt:123-125 | the copy has the same shape, default and contents in a fresh map |
| NDArrays.DefaultNDArray.View | homework01/src/main/kotlin/DefaultNDArray.kt:127-129 | the view is a new object over the very same map, shape and default |
| NDArrays.SetThroughViewIsShared | homework01/src/main/kotlin/DefaultNDArray.kt:36-38 | a write through a view of a view is read back through the original |
| NDArrays.SetOnCopyIsIsolated | homework01/src/main/kotlin/DefaultNDArray.kt:123-125 | a write to a copy leaves the original's contents unchanged |
| NDArrays.DefaultNDArray.GetNextPoint | homework01/src/main/kotlin/DefaultNDArray.kt:131-139 | the `%`/`/` carry loop computes exactly the odometer's next point |
| NDArrays.DefaultNDArray.CheckDimensions | homework01/src/main/kotlin/DefaultNDArray.kt:141-148 | true exactly when the first `ndim - offset` dimensions of both arrays are equal |
| NDArrays.DefaultNDArray.Add | homework01/src/main/kotlin/DefaultNDArray.kt:150-166 | on error nothing changes; otherwise every in-bounds point becomes old `this[p]` plus old `other[p without its trailing coordinates]`, with all sums read before any write |
| NDArrays.DefaultNDArray.Sums | homework01/src/main/kotlin/DefaultNDArray.kt:159-164 | the do-while over odometer points collects the new value of every in-bounds point and of nothing else |
| NDArrays.DefaultNDArray.ConvertToMatrix | homework01/src/main/kotlin/DefaultNDArray.kt:172-187 | a 2-D array becomes its matrix, a 1-D array a single column |
| NDArrays.DefaultNDArray.Multiply | homework01/src/main/kotlin/DefaultNDArray.kt:227-234 | entry (i, k) of the result is the sum over j of m1[i, j] * m2[j, k] |
| NDArrays.DefaultNDArray.ConvertToNDArray2 | homework01/src/main/kotlin/DefaultNDArray.kt:189-198 | a fresh 2-D array, default 0, holding every matrix entry |
| NDArrays.DefaultNDArray.ConvertToNDArray1 | homework01/src/main/kotlin/DefaultNDArray.kt:199-206 | a fresh 1-D array, default 0, holding the matrix's first column |
| NDArrays.DefaultNDArray.DotScalar | homework01/src/main/kotlin/DefaultNDArray.kt:212-221 | with the factor read at (0), every element of a fresh array of this shape is this element times the factor |
| NDArrays.DefaultNDArray.ScalarFactorAsWritten | homework01/src/main/kotlin/DefaultNDArray.kt:214-217 | the factor read at the 2-coordinate start point of a 1-D operand always fails with a dimension error |
| NDArrays.DefaultNDArray.Dot | homework01/src/main/kotlin/DefaultNDArray.kt:208-239 | fails exactly when `DotError` says so; otherwise a fresh array (default 0) of `DotShape` whose entry (i, k) is the sum over j of this[i][j] * other[j][k], and neither operand changes; for a length-1 vector it runs the corrected scalar branch `DotScalar` (see "## Findings"), where the source as written throws |

## Left out

- homework02/lib/src/main/kotlin/binomial/BinomialHeap.kt: every heap operation (`single`, both `plus`, `top`, `drop`) is `TODO()`, so there is no behaviour to model. BinomialTree and SelfMergeable are not part of this model.
- Kotlin `Iterable` plumbing (`iterator()`), the `dummy` field of `Nil`, the companion `nil` helpers and the unused Guava import: language boilerplate with no behaviour of its own.
- 32-bit `Int` wrap-around: list sizes, array sums and products, and shape sizes are unbounded integers.
- Hashing and the equality of `DefaultPoint`: points are sequences compared by value.
- `Shape`, `Point`, `DefaultShape` and `DefaultPoint` are not part of this model. The `size`, `ndim` and `dim` accessors (DefaultNDArray.kt:240-245) only delegate to the shape.
- Thread safety of views: the source explicitly ignores it.
- The exception class hierarchy (DefaultNDArray.kt:249-252): it becomes the `NDError` datatype.
- `dot` and `add` accept any `NDArray` in the source; the model's operand is a `DefaultNDArray`, the only implementation.
- Structural sharing of FList cells and the identity of `other` inside `add` cannot be observed on Dafny datatype values. PersistentList.Add: states that `other` is the suffix by value, not that it is the same object.
- Tensors.DotError: treats a length-1 vector operand as a success, following the corrected scalar branch of `dot`; as written, the source throws `IllegalPointDimensionException` there (see "## Findings").
- NDArrays.DefaultNDArray.Dot: scales by a length-1 vector through `DotScalar`, the corrected branch; the source as written throws there (see "## Findings").
- `Sums` is the loop of `add` split into its own method so that each proof stays small. The order of work is unchanged: every sum is computed before the map is written.

## Findings

| source | as written | input that shows it | evidently intended | confidence | as-written member | corrected member |
|---|---|---|---|---|---|---|
| homework01/src/main/kotlin/DefaultNDArray.kt:214-217 | the scaling branch of `dot` reads the factor as `other.at(startPoint)`, where `startPoint` has two coordinates, but `other` is one-dimensional | any 2-D `this` and an `other` of shape (1): `checkPoint` sees 2 coordinates against 1 dimension and throws `IllegalPointDimensionException`, so the branch never returns | read the factor at (0) and scale every element of `this` | high; not executed | NDArrays.DefaultNDArray.ScalarFactorAsWritten | NDArrays.DefaultNDArray.DotScalar |
