/** Assignment1/C/matrix_mult_single.cpp: the square `Matrix` class the six
    single-threaded multiplication patterns work on. Elements are mathematical
    integers; the array of row pointers is one two-dimensional array, and
    `operator()(i, j)` is direct access to `data[i, j]`. The size and the storage are
    fixed at construction, so both are constants. */
module Matrices {

  import opened Arith
  import opened Dense

  class Matrix {
    const size: nat
    const data: array2<int>

    /** The storage is size × size. */
    predicate Valid() {
      data.Length0 == size && data.Length1 == size
    }

    /** Matrix(n): an n×n matrix whose every element is 0. */
    constructor (n: nat)
      ensures size == n && Valid() && fresh(data)
      ensures forall i, j :: 0 <= i < n && 0 <= j < n ==> data[i, j] == 0
    {
      size := n;
      data := new int[n, n]((_, _) => 0);
    }

    /** The copy constructor: same size and elements, in storage of its own. */
    constructor Copy(other: Matrix)
      requires other.Valid()
      ensures size == other.size && Valid() && fresh(data)
      ensures forall i, j :: 0 <= i < size && 0 <= j < size ==> data[i, j] == other.data[i, j]
      ensures Elements() == other.Elements()
    {
      size := other.size;
      data := new int[other.size, other.size];
      new;
      for i := 0 to size
        invariant forall i', j :: 0 <= i' < i && 0 <= j < size ==> data[i', j] == other.data[i', j]
      {
        for j := 0 to size
          invariant forall i', j' :: 0 <= i' < i && 0 <= j' < size ==> data[i', j'] == other.data[i', j']
          invariant forall j' :: 0 <= j' < j ==> data[i, j'] == other.data[i, j']
        {
          data[i, j] := other.data[i, j];
        }
      }
      ElementsCells(this);
      ElementsCells(other);
      CellsCover(Elements(), other.Elements(), size);
    }

    /** clear: every element becomes 0; the size stays. */
    method Clear()
      requires Valid()
      modifies data
      ensures forall i, j :: 0 <= i < size && 0 <= j < size ==> data[i, j] == 0
    {
      for i := 0 to size
        invariant forall i', j :: 0 <= i' < i && 0 <= j < size ==> data[i', j] == 0
      {
        for j := 0 to size
          invariant forall i', j' :: 0 <= i' < i && 0 <= j' < size ==> data[i', j'] == 0
          invariant forall j' :: 0 <= j' < j ==> data[i, j'] == 0
        {
          data[i, j] := 0;
        }
      }
    }

    /** The element at row-major offset p. */
    ghost function Cell(p: int): int
      reads data
      requires Valid() && 0 <= p < size * size
    {
      OffsetCell(size, p);
      data[p / size, p % size]
    }

    /** The elements in row-major order: the flat buffer the product is defined on. */
    ghost function Elements(): (e: seq<int>)
      reads data
      requires Valid()
      ensures |e| == size * size
    {
      seq(size * size, p requires 0 <= p < size * size reads data => Cell(p))
    }

    /** The elements of this matrix and of other differ by at most tolerance. */
    ghost predicate Within(other: Matrix, tolerance: int)
      reads data, other.data
      requires Valid() && other.Valid() && size == other.size
    {
      forall i, j :: 0 <= i < size && 0 <= j < size ==> Abs(data[i, j] - other.data[i, j]) <= tolerance
    }

    /** equals: false when the sizes differ, otherwise whether no element differs
        from its counterpart by more than tolerance. */
    method Equals(other: Matrix, tolerance: int) returns (eq: bool)
      requires Valid() && other.Valid()
      ensures eq <==> size == other.size && Within(other, tolerance)
    {
      if size != other.size {
        return false;
      }
      for i := 0 to size
        invariant forall i', j :: 0 <= i' < i && 0 <= j < size ==> Abs(data[i', j] - other.data[i', j]) <= tolerance
      {
        for j := 0 to size
          invariant forall i', j' :: 0 <= i' < i && 0 <= j' < size ==> Abs(data[i', j'] - other.data[i', j']) <= tolerance
          invariant forall j' :: 0 <= j' < j ==> Abs(data[i, j'] - other.data[i, j']) <= tolerance
        {
          if Abs(data[i, j] - other.data[i, j]) > tolerance {
            return false;
          }
        }
      }
      return true;
    }
  }

  /** Element (i, j) of m sits at offset Idx(m.size, i, j) of m.Elements(). */
  lemma ElementsCells(m: Matrix)
    requires m.Valid()
    ensures forall i, j :: 0 <= i < m.size && 0 <= j < m.size ==> m.Elements()[Idx(m.size, i, j)] == m.data[i, j]
  {
    forall i, j | 0 <= i < m.size && 0 <= j < m.size
      ensures m.Elements()[Idx(m.size, i, j)] == m.data[i, j]
    {
      IdxCell(m.size, i, j);
    }
  }

  /** Two matrices with the same elements are equal within any tolerance that is
      not negative: equals is reflexive, and it accepts any two results that both
      hold the product. */
  lemma SameElementsWithin(m: Matrix, other: Matrix, tolerance: int)
    requires m.Valid() && other.Valid() && m.size == other.size
    requires m.Elements() == other.Elements() && tolerance >= 0
    ensures m.Within(other, tolerance)
  {
    ElementsCells(m);
    ElementsCells(other);
  }

  /** The partial dot product grows by A(i, k) * B(k, j) with step k. */
  lemma DotStep(A: Matrix, B: Matrix, a: seq<int>, b: seq<int>, i: int, j: int, k: int)
    requires A.Valid() && B.Valid() && A.size == B.size && a == A.Elements() && b == B.Elements()
    requires 0 <= i < A.size && 0 <= j < A.size && 0 <= k < A.size
    ensures Dot(a, b, A.size, i, j, k + 1) == Dot(a, b, A.size, i, j, k) + A.data[i, k] * B.data[k, j]
  {
    IdxCell(A.size, i, k);
    IdxCell(A.size, k, j);
  }

  /** A matrix whose every element (i, j) is the full dot product of row i of a and
      column j of b holds the product of a and b. */
  lemma ProductOf(C: Matrix, a: seq<int>, b: seq<int>)
    requires C.Valid() && |a| == C.size * C.size && |b| == C.size * C.size
    requires forall i, j :: 0 <= i < C.size && 0 <= j < C.size ==> C.data[i, j] == Dot(a, b, C.size, i, j, C.size)
    ensures IsProduct(C.Elements(), a, b, C.size)
  {
    ElementsCells(C);
  }
}
