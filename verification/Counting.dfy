/**
 Counting the elements of a list that satisfy a predicate, and how the
 list operations of the manager (append, remove, overwrite) move the count.
 */
module Counting {

  function Remove<T>(s: seq<T>, i: nat): (r: seq<T>)
    requires i < |s|
  {
    s[..i] + s[i + 1..]
  }

  ghost function Count<T>(s: seq<T>, p: T -> bool): nat {
    if s == [] then 0 else Count(s[..|s| - 1], p) + (if p(s[|s| - 1]) then 1 else 0)
  }

  lemma CountSnoc<T>(s: seq<T>, x: T, p: T -> bool)
    ensures Count(s + [x], p) == Count(s, p) + (if p(x) then 1 else 0)
  {
    assert (s + [x])[..|s|] == s;
  }

  lemma {:induction false} CountAppend<T>(s: seq<T>, t: seq<T>, p: T -> bool)
    ensures Count(s + t, p) == Count(s, p) + Count(t, p)
  {
    if t == [] {
      assert s + t == s;
    } else {
      var front, x := t[..|t| - 1], t[|t| - 1];
      assert s + t == (s + front) + [x];
      CountSnoc(s + front, x, p);
      CountAppend(s, front, p);
    }
  }

  lemma CountSplit<T>(s: seq<T>, i: nat, p: T -> bool)
    requires i < |s|
    ensures Count(s, p) == Count(s[..i], p) + (if p(s[i]) then 1 else 0) + Count(s[i + 1..], p)
  {
    assert s == (s[..i] + [s[i]]) + s[i + 1..];
    CountAppend(s[..i] + [s[i]], s[i + 1..], p);
    CountSnoc(s[..i], s[i], p);
  }

  lemma CountRemove<T>(s: seq<T>, i: nat, p: T -> bool)
    requires i < |s|
    ensures Count(Remove(s, i), p) == Count(s, p) - (if p(s[i]) then 1 else 0)
  {
    CountSplit(s, i, p);
    CountAppend(s[..i], s[i + 1..], p);
  }

  lemma CountUpdate<T>(s: seq<T>, i: nat, x: T, p: T -> bool)
    requires i < |s|
    ensures Count(s[i := x], p) == Count(s, p) - (if p(s[i]) then 1 else 0) + (if p(x) then 1 else 0)
  {
    CountSplit(s, i, p);
    CountSplit(s[i := x], i, p);
    assert s[i := x][..i] == s[..i] && s[i := x][i + 1..] == s[i + 1..];
  }

  lemma {:induction false} CountZero<T>(s: seq<T>, p: T -> bool)
    ensures Count(s, p) == 0 <==> forall i :: 0 <= i < |s| ==> !p(s[i])
  {
    if s != [] {
      var front := s[..|s| - 1];
      CountZero(front, p);
      assert forall i :: 0 <= i < |front| ==> front[i] == s[i];
    }
  }

  lemma CountPositive<T>(s: seq<T>, i: nat, p: T -> bool)
    requires i < |s| && p(s[i])
    ensures Count(s, p) >= 1
  {
    CountZero(s, p);
  }

  /** Two different positions that satisfy p make the count at least two. */
  lemma CountPair<T>(s: seq<T>, i: nat, j: nat, p: T -> bool)
    requires i < j < |s| && p(s[i]) && p(s[j])
    ensures Count(s, p) >= 2
  {
    CountRemove(s, i, p);
    assert Remove(s, i)[j - 1] == s[j];
    CountPositive(Remove(s, i), j - 1, p);
  }
}
