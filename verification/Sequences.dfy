/** Facts about sequences, kept apart so that they are proved without any other context. */
module Sequences {

  lemma LastApart<T>(s: seq<T>)
    requires |s| > 0
    ensures s == s[..|s| - 1] + [s[|s| - 1]]
  {
  }

  lemma CountLast<T>(s: seq<T>, x: T)
    requires |s| > 0
    ensures multiset(s)[x] == multiset(s[..|s| - 1])[x] + if s[|s| - 1] == x then 1 else 0
  {
    LastApart(s);
  }

  lemma CountSnoc<T>(s: seq<T>, c: T, b: bool, x: T)
    ensures multiset(s + if b then [c] else [])[x] == multiset(s)[x] + if b && x == c then 1 else 0
  {
    assert s + [] == s;
  }

  // A list and the part of another from element i on, with that element set apart
  lemma ElementApart<T>(s: seq<T>, t: seq<T>, i: nat)
    requires i < |t|
    ensures s + t[i..] == s + [t[i]] + t[i + 1..]
    ensures t[..i + 1] == t[..i] + [t[i]]
  {
  }

  lemma Whole<T>(s: seq<T>, t: seq<T>)
    ensures t[..|t|] == t && t[0..] == t && s + t[|t|..] == s && [] + t == t && t + [] == t
  {
  }

  lemma SliceApart<T>(s: seq<T>, lo: nat, mid: nat, hi: nat)
    requires lo <= mid <= hi <= |s|
    ensures s[lo..hi][..mid - lo] == s[lo..mid] && s[lo..hi][mid - lo..] == s[mid..hi]
    ensures s[..hi][..mid] == s[..mid] && s[..hi][mid..] == s[mid..hi]
  {
  }
}
