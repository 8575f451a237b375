/** Sequence helpers standing for Kotlin's `asReversed()` and `sortedByDescending`. */
module Sequences {

  /** The elements of `s` in the opposite order. */
  function Reverse<T>(s: seq<T>): (r: seq<T>)
    ensures |r| == |s|
    ensures forall k :: 0 <= k < |s| ==> r[k] == s[|s| - 1 - k]
    decreases |s|
  {
    if s == [] then [] else [s[|s| - 1]] + Reverse(s[..|s| - 1])
  }

  /** Reversing after appending one element puts that element first. */
  lemma ReverseSnoc<T>(s: seq<T>, x: T)
    ensures Reverse(s + [x]) == [x] + Reverse(s)
  {
    assert (s + [x])[..|s|] == s;
  }

  /** A prefix one longer is the prefix with the next element appended. */
  lemma PrefixSnoc<T>(s: seq<T>, k: nat)
    requires k < |s|
    ensures s[..k + 1] == s[..k] + [s[k]]
  {
  }

  /** True when `s` is ordered from the largest key to the smallest. */
  ghost predicate SortedDescending<T>(s: seq<T>, key: T -> int) {
    forall i, j :: 0 <= i < j < |s| ==> key(s[i]) >= key(s[j])
  }

  /** Inserts `x` into a descending sequence after every element whose key is at least its own. */
  function InsertDescending<T>(x: T, s: seq<T>, key: T -> int): (r: seq<T>)
    requires SortedDescending(s, key)
    ensures SortedDescending(r, key)
    ensures multiset(r) == multiset(s) + multiset{x}
    decreases |s|
  {
    if s == [] then [x]
    else if key(s[0]) >= key(x) then
      var rest := InsertDescending(x, s[1..], key);
      assert s == [s[0]] + s[1..];
      HeadBoundsInsert(x, s, key, rest);
      [s[0]] + rest
    else [x] + s
  }

  /** After inserting below the head of a descending sequence, no key exceeds the head's. */
  lemma HeadBoundsInsert<T>(x: T, s: seq<T>, key: T -> int, rest: seq<T>)
    requires s != [] && key(s[0]) >= key(x) && SortedDescending(s, key)
    requires multiset(rest) == multiset(s[1..]) + multiset{x}
    ensures forall j :: 0 <= j < |rest| ==> key(rest[j]) <= key(s[0])
  {
    forall j | 0 <= j < |rest| ensures key(rest[j]) <= key(s[0]) {
      assert rest[j] in multiset(rest);
      if rest[j] != x {
        assert rest[j] in multiset(s[1..]);
        var i :| 0 <= i < |s[1..]| && s[1..][i] == rest[j];
        assert s[i + 1] == rest[j];
      }
    }
  }

  /** Sorting by a key, largest first; unlike the stable `sortedByDescending`, equal keys need not keep their input order. */
  function SortDescending<T>(s: seq<T>, key: T -> int): (r: seq<T>)
    ensures SortedDescending(r, key)
    ensures multiset(r) == multiset(s)
    decreases |s|
  {
    if s == [] then []
    else
      assert s == [s[0]] + s[1..];
      InsertDescending(s[0], SortDescending(s[1..], key), key)
  }
}
