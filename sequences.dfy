/** Option type used for the results of parsing (Python's float() raising ValueError). */
module Optional {
  datatype Option<+T> = None | Some(value: T)
}

/**
 * The in-place list edits shared by the bill table and the PDF list:
 * deleting a row by position, deleting the first occurrence of a value
 * (Python's list.remove) and exchanging two neighbouring entries.
 */
module Sequences {

  /** The sequence with the entry at position r deleted; later entries shift down by one. */
  function RemoveAt<T>(s: seq<T>, r: nat): (t: seq<T>)
    requires r < |s|
    ensures |t| == |s| - 1
    ensures forall i :: 0 <= i < r ==> t[i] == s[i]
    ensures forall i :: r <= i < |t| ==> t[i] == s[i + 1]
    ensures multiset(t) + multiset{s[r]} == multiset(s)
  {
    assert s == s[..r] + [s[r]] + s[r + 1..];
    s[..r] + s[r + 1..]
  }

  /** Position of the first occurrence of x in s. */
  function FirstIndex<T(==)>(s: seq<T>, x: T): (i: nat)
    requires x in s
    ensures i < |s| && s[i] == x
    ensures forall j :: 0 <= j < i ==> s[j] != x
  {
    if s[0] == x then 0 else 1 + FirstIndex(s[1..], x)
  }

  /** Python's list.remove(x): drops the first occurrence of x, and only that one copy. */
  function RemoveFirst<T(==)>(s: seq<T>, x: T): (t: seq<T>)
    requires x in s
    ensures |t| == |s| - 1
    ensures multiset(t) == multiset(s) - multiset{x}
  {
    RemoveAt(s, FirstIndex(s, x))
  }

  /**
   * Two sequences with the same entries keep the same entries when one loses
   * row r and the other the first copy of that row's value.
   */
  lemma {:induction false} RemoveFromBoth<T>(a: seq<T>, b: seq<T>, r: nat)
    requires multiset(a) == multiset(b) && r < |b|
    ensures b[r] in a
    ensures multiset(RemoveFirst(a, b[r])) == multiset(RemoveAt(b, r))
    ensures |RemoveFirst(a, b[r])| == |RemoveAt(b, r)|
  {
    assert b[r] in multiset(a) by { assert b[r] in multiset(b); }
    assert multiset(RemoveAt(b, r)) == multiset(b) - multiset{b[r]};
  }

  /**
   * Deleting the first occurrence of s[r] deletes row r itself whenever no
   * earlier row holds the same value.
   */
  lemma {:induction false} RemoveFirstIsRemoveAt<T>(s: seq<T>, r: nat)
    requires r < |s|
    requires forall j :: 0 <= j < r ==> s[j] != s[r]
    ensures RemoveFirst(s, s[r]) == RemoveAt(s, r)
  {
    assert FirstIndex(s, s[r]) == r by {
      var i := FirstIndex(s, s[r]);
      assert !(i < r);
      assert !(r < i);
    }
  }

  /** The sequence with the entries at positions i and j exchanged. */
  function Swap<T>(s: seq<T>, i: nat, j: nat): (t: seq<T>)
    requires i < |s| && j < |s|
    ensures |t| == |s|
    ensures t[i] == s[j] && t[j] == s[i]
    ensures forall k :: 0 <= k < |s| && k != i && k != j ==> t[k] == s[k]
  {
    s[i := s[j]][j := s[i]]
  }

  /** A swap is a permutation: the multiset of entries is unchanged. */
  lemma {:induction false} SwapPermutes<T>(s: seq<T>, i: nat, j: nat)
    requires i < |s| && j < |s|
    ensures multiset(Swap(s, i, j)) == multiset(s)
  {
    if i != j {
      var t := s[i := s[j]];
      assert multiset(t) == multiset(s) - multiset{s[i]} + multiset{s[j]};
      assert multiset(t[j := s[i]]) == multiset(t) - multiset{s[j]} + multiset{s[i]};
    }
  }

  /** Swapping the same two positions twice restores the sequence. */
  lemma {:induction false} SwapTwice<T>(s: seq<T>, i: nat, j: nat)
    requires i < |s| && j < |s|
    ensures Swap(Swap(s, i, j), i, j) == s
  {
    var t := Swap(Swap(s, i, j), i, j);
    assert forall k :: 0 <= k < |s| ==> t[k] == s[k];
  }
}
