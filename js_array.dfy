/**
  The part of JavaScript's `Array.prototype.splice` that the board relies on.
  `splice(start, deleteCount, ...items)` first turns `start` into an index into
  the array: a negative start counts from the end and is clamped at 0, a start
  past the end is clamped to the length. The number of deleted elements is then
  clamped to what is left after that index. The array is changed in place and the
  deleted elements are returned; here both are returned as one value.
 */
module JsArray {

  /** What a call of `splice` leaves behind: the changed array and the removed elements. */
  datatype Spliced<T> = Spliced(after: seq<T>, removed: seq<T>)

  /** The index at which `splice` starts, for an array of length `len`. */
  function RelativeStart(len: nat, start: int): (r: nat)
    ensures r <= len
  {
    if start < 0 then
      if len + start < 0 then 0 else len + start
    else if start < len then start
    else len
  }

  /** The number of elements `splice` deletes from index `a` of an array of length `len`. */
  function DeleteCount(len: nat, a: nat, deleteCount: int): (d: nat)
    requires a <= len
    ensures a + d <= len
  {
    if deleteCount < 0 then 0 else if deleteCount < len - a then deleteCount else len - a
  }

  function Splice<T>(s: seq<T>, start: int, deleteCount: int, items: seq<T>): Spliced<T> {
    var a := RelativeStart(|s|, start);
    var d := DeleteCount(|s|, a, deleteCount);
    Spliced(s[..a] + items + s[a + d..], s[a..a + d])
  }

  /**
    Nothing is lost and nothing is made up: the elements are moved, not copied.
    At most `deleteCount` elements are removed, none when it is negative.
   */
  lemma SpliceMovesElements<T>(s: seq<T>, start: int, deleteCount: int, items: seq<T>)
    ensures var r := Splice(s, start, deleteCount, items);
      && multiset(r.after) + multiset(r.removed) == multiset(s) + multiset(items)
      && |r.removed| <= (if deleteCount < 0 then 0 else deleteCount)
      && |r.after| == |s| - |r.removed| + |items|
  {
    var a := RelativeStart(|s|, start);
    var d := DeleteCount(|s|, a, deleteCount);
    assert s == s[..a] + s[a..a + d] + s[a + d..];
  }

  /** `splice(i, 1)` with an index inside the array removes exactly the element at `i`. */
  lemma SpliceRemovesAt<T>(s: seq<T>, i: int)
    requires 0 <= i < |s|
    ensures Splice(s, i, 1, []) == Spliced(s[..i] + s[i + 1..], [s[i]])
  {
  }

  /**
    `splice(-1, 1)`, which is what `splice(findIndex(...), 1)` becomes when nothing
    matched, removes the LAST element, and removes nothing from an empty array.
   */
  lemma SpliceMinusOneRemovesLast<T>(s: seq<T>)
    ensures Splice(s, -1, 1, []) ==
      if s == [] then Spliced([], []) else Spliced(s[..|s| - 1], [s[|s| - 1]])
  {
  }

  /** `splice(j, 0, x)` with `0 <= j <= length` inserts `x` in front of the element at `j`. */
  lemma SpliceInsertsAt<T>(s: seq<T>, j: int, x: T)
    requires 0 <= j <= |s|
    ensures Splice(s, j, 0, [x]) == Spliced(s[..j] + [x] + s[j..], [])
  {
  }

  /**
    `splice(-1, 0, x)` inserts `x` in front of the last element, and into an empty
    array at index 0.
   */
  lemma SpliceMinusOneInsertsBeforeLast<T>(s: seq<T>, x: T)
    ensures Splice(s, -1, 0, [x]) ==
      if s == [] then Spliced([x], []) else Spliced(s[..|s| - 1] + [x] + [s[|s| - 1]], [])
  {
    if s != [] {
      assert s[|s| - 1..] == [s[|s| - 1]];
    }
  }
}
