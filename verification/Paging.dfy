/** OFFSET and LIMIT over an ordered selection, and what successive pages add up to. */
module Paging {

  function Min(a: int, b: int): int {
    if a < b then a else b
  }

  /** The rows an OFFSET and LIMIT clause leaves of an ordered selection. */
  function Slice<T>(rows: seq<T>, offset: nat, limit: nat): (page: seq<T>)
    ensures |page| <= limit
    ensures page == [] <==> |rows| <= offset || limit == 0
  {
    if |rows| <= offset then [] else rows[offset..Min(offset + limit, |rows|)]
  }

  /** The number of pages of the given size that n rows fill. */
  function PageCount(n: nat, size: nat): nat
    requires 0 < size
  {
    (n + size - 1) / size
  }

  lemma PageCountExactly(n: nat, size: nat, k: nat)
    requires 0 < size && n <= k * size && (0 < k ==> (k - 1) * size < n)
    ensures PageCount(n, size) == k
  {
    var m := PageCount(n, size);
    assert m * size <= n + size - 1 < (m + 1) * size by {
      assert n + size - 1 == m * size + (n + size - 1) % size;
    }
    if m < k {
      MulMonotone(m, k - 1, size);
    } else if k < m {
      MulMonotone(k + 1, m, size);
    }
  }

  /** Where page number k starts, counting from 0. */
  function Start(size: nat, k: nat): nat {
    if k == 0 then 0 else Start(size, k - 1) + size
  }

  lemma {:induction false} StartExactly(size: nat, k: nat)
    ensures Start(size, k) == k * size
  {
    if k > 0 {
      StartExactly(size, k - 1);
      assert k * size == (k - 1) * size + size;
    }
  }

  /** Reading on while rows are left takes exactly as many pages as the rows fill. */
  lemma PagesRead(n: nat, size: nat, k: nat)
    requires 0 < size && n <= Start(size, k) && (0 < k ==> Start(size, k - 1) < n)
    ensures PageCount(n, size) == k
  {
    StartExactly(size, k);
    if 0 < k {
      StartExactly(size, k - 1);
    }
    PageCountExactly(n, size, k);
  }

  lemma NothingRead<T>(rows: seq<T>, size: nat)
    ensures 0 == Min(Start(size, 0), |rows|)
  {
  }

  /** Page number k of a list that is read up to its start: either everything has been read,
      or the page carries on to the start of page k + 1. */
  lemma NextPage<T>(rows: seq<T>, size: nat, k: nat, offset: nat)
    requires 0 < size && offset == Min(Start(size, k), |rows|)
    requires 0 < k ==> Start(size, k - 1) < |rows|
    ensures var page := Slice(rows, offset, size);
            if page == [] then offset == |rows| && PageCount(|rows|, size) == k
            else
              && offset + |page| <= |rows| && page == rows[offset..offset + |page|]
              && offset + |page| == Min(Start(size, k + 1), |rows|) && Start(size, k) < |rows|
              && page[|page| - 1] == rows[offset + |page| - 1]
  {
    if Slice(rows, offset, size) == [] {
      PagesRead(|rows|, size, k);
    }
  }

  lemma MulMonotone(a: int, b: int, c: nat)
    requires a <= b
    ensures a * c <= b * c
  {
  }
}
