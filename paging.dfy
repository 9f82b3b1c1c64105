/** Spring Data paging, abstracted to a window over the query's result list. */
module Paging {
  function Min(a: int, b: int): int {
    if a <= b then a else b
  }

  /** The window of page `page` (counted from 0) when `items` is cut into pages of `size`. */
  function PageSlice<T>(items: seq<T>, page: nat, size: nat): (r: seq<T>)
    ensures |r| <= size
    ensures page * size <= |items| ==> |r| == Min(size, |items| - page * size)
    ensures page * size >= |items| ==> r == []
    ensures forall i :: 0 <= i < |r| ==> page * size + i < |items| && r[i] == items[page * size + i]
    ensures forall x :: x in r ==> x in items
  {
    var lo := Min(page * size, |items|);
    items[lo..Min(lo + size, |items|)]
  }

  /** Paging loses nothing: item i sits on page i / size at offset i % size. */
  lemma ItemOnPage<T>(items: seq<T>, size: nat, i: nat)
    requires size > 0 && i < |items|
    ensures i % size < |PageSlice(items, i / size, size)|
    ensures PageSlice(items, i / size, size)[i % size] == items[i]
  {
    var p := i / size;
    assert p * size + i % size == i;
    assert p * size <= i;
  }
}
