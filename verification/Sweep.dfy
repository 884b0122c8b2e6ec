/**
 One pass of the TTL timer over a list from which it removes as it goes: after
 each removal the next entry has moved into the place just visited, and is
 skipped.
 */
module Sweep {
  import opened Counting

  /**
   What one pass leaves. If it gets over the end of the shrunken list, the
   slots there still show the last entry, and an expired last entry that was
   skipped goes after all.
   */
  function Kept<T(!new)>(s: seq<T>, expired: T -> bool): (r: seq<T>)
  {
    if s == [] then []
    else if !expired(s[0]) then [s[0]] + Kept(s[1..], expired)
    else if |s| == 1 then []
    else if |s| == 2 then (if expired(s[1]) then [] else [s[1]])
    else [s[1]] + Kept(s[2..], expired)
  }

  /** What one pass removes, in order. */
  function Swept<T(!new)>(s: seq<T>, expired: T -> bool): seq<T> {
    if s == [] then []
    else if !expired(s[0]) then Swept(s[1..], expired)
    else if |s| == 1 then [s[0]]
    else if |s| == 2 then (if expired(s[1]) then s else [s[0]])
    else [s[0]] + Swept(s[2..], expired)
  }

  /** The entries that are not expired, in order. */
  function Fresh<T(!new)>(s: seq<T>, expired: T -> bool): seq<T> {
    if s == [] then [] else (if expired(s[0]) then [] else [s[0]]) + Fresh(s[1..], expired)
  }

  lemma CountHead<T(!new)>(s: seq<T>, p: T -> bool)
    requires s != []
    ensures Count(s, p) == (if p(s[0]) then 1 else 0) + Count(s[1..], p)
  {
    CountSplit(s, 0, p);
    assert s[..0] == [];
  }

  lemma {:induction false} SweptAreExpired<T(!new)>(s: seq<T>, expired: T -> bool)
    ensures forall x :: x in Swept(s, expired) ==> expired(x) && x in s
  {
    if s != [] {
      if !expired(s[0]) {
        SweptAreExpired(s[1..], expired);
      } else if |s| > 2 {
        SweptAreExpired(s[2..], expired);
      }
    }
  }

  ghost predicate Splits<T(!new)>(s: seq<T>, expired: T -> bool) {
    multiset(s) == multiset(Kept(s, expired)) + multiset(Swept(s, expired))
  }

  lemma SplitsFresh<T(!new)>(s: seq<T>, expired: T -> bool)
    requires s != [] && !expired(s[0]) && Splits(s[1..], expired)
    ensures Splits(s, expired)
  {
    assert s == [s[0]] + s[1..];
  }

  lemma SplitsPair<T(!new)>(s: seq<T>, expired: T -> bool)
    requires |s| > 2 && expired(s[0]) && Splits(s[2..], expired)
    ensures Splits(s, expired)
  {
    assert s == [s[0]] + ([s[1]] + s[2..]);
  }

  lemma SplitsEnd<T(!new)>(s: seq<T>, expired: T -> bool)
    requires |s| <= 2 && (s != [] ==> expired(s[0]))
    ensures Splits(s, expired)
  {
    assert |s| == 2 ==> s == [s[0]] + [s[1]];
  }

  /** Every entry is either kept or taken by a pass, and it takes expired entries only. */
  lemma {:induction false} SweepSplits<T(!new)>(s: seq<T>, expired: T -> bool)
    ensures Splits(s, expired)
    ensures forall x :: x in Swept(s, expired) ==> expired(x)
  {
    hide Splits, Kept, Swept;
    SweptAreExpired(s, expired);
    if s != [] && !expired(s[0]) {
      SweepSplits(s[1..], expired);
      SplitsFresh(s, expired);
    } else if |s| > 2 {
      SweepSplits(s[2..], expired);
      SplitsPair(s, expired);
    } else {
      SplitsEnd(s, expired);
    }
  }

  lemma {:induction false} SweepKeepsFresh<T(!new)>(s: seq<T>, expired: T -> bool)
    ensures Fresh(Kept(s, expired), expired) == Fresh(s, expired)
  {
    if s != [] {
      if !expired(s[0]) {
        SweepKeepsFresh(s[1..], expired);
        KeptHead(s[0], Kept(s[1..], expired), expired);
      } else if |s| > 1 {
        assert s[1..][1..] == s[2..];
        SweepKeepsFresh(s[2..], expired);
        KeptHead(s[1], Kept(s[2..], expired), expired);
      }
    }
  }

  lemma {:induction false} SweepRemovesHalf<T(!new)>(s: seq<T>, expired: T -> bool)
    ensures Count(Kept(s, expired), expired) == Count(s, expired) - |Swept(s, expired)|
    ensures Count(s, expired) <= 2 * |Swept(s, expired)|
  {
    hide Count;
    if s == [] {
      CountZero(s, expired);
    } else {
      CountHead(s, expired);
      if !expired(s[0]) {
        SweepRemovesHalf(s[1..], expired);
        KeptHead(s[0], Kept(s[1..], expired), expired);
      } else if |s| == 2 {
        CountHead(s[1..], expired);
        KeptHead(s[1], [], expired);
        CountZero([], expired);
        assert s[1..][1..] == [] && [s[1]] + [] == [s[1]];
      } else if |s| > 2 {
        CountHead(s[1..], expired);
        assert s[1..][1..] == s[2..];
        SweepRemovesHalf(s[2..], expired);
        KeptHead(s[1], Kept(s[2..], expired), expired);
      } else {
        CountZero(s[1..], expired);
      }
    }
  }

  lemma KeptHead<T(!new)>(x: T, rest: seq<T>, expired: T -> bool)
    ensures Count([x] + rest, expired) == (if expired(x) then 1 else 0) + Count(rest, expired)
    ensures Fresh([x] + rest, expired) == (if expired(x) then [] else [x]) + Fresh(rest, expired)
  {
    CountHead([x] + rest, expired);
    assert ([x] + rest)[1..] == rest;
  }

  lemma {:induction false} LastIsKept<T(!new)>(s: seq<T>, expired: T -> bool)
    requires s != [] && !expired(s[|s| - 1])
    ensures var r := Kept(s, expired); r != [] && r[|r| - 1] == s[|s| - 1]
  {
    if |s| > 1 {
      if !expired(s[0]) {
        LastIsKept(s[1..], expired);
      } else if |s| > 2 {
        LastIsKept(s[2..], expired);
      }
    }
  }

  function Pow2(n: nat): nat { if n == 0 then 1 else 2 * Pow2(n - 1) }

  lemma {:induction false} FreshIsAll<T(!new)>(s: seq<T>, expired: T -> bool)
    requires Count(s, expired) == 0
    ensures Fresh(s, expired) == s
  {
    if s != [] {
      CountHead(s, expired);
      FreshIsAll(s[1..], expired);
    }
  }

  // ---- what the pass keeps is a part of the list, in order

  lemma {:induction false} KeptIsOld<T(!new)>(s: seq<T>, expired: T -> bool)
    ensures forall x :: x in Kept(s, expired) ==> x in s
    ensures s != [] && expired(s[|s| - 1]) ==> forall x :: x in Kept(s, expired) ==> x in s[..|s| - 1]
  {
    if s != [] {
      if !expired(s[0]) {
        KeptIsOld(s[1..], expired);
        assert |s| > 1 ==> s[1..][..|s| - 2] == s[..|s| - 1][1..];
      } else if |s| > 2 {
        KeptIsOld(s[2..], expired);
        assert s[2..][..|s| - 3] == s[..|s| - 1][2..];
        assert s[1] == s[..|s| - 1][1];
      }
    }
  }

  ghost predicate AllPairs<T(!new)>(s: seq<T>, r: (T, T) -> bool) {
    forall i, j | 0 <= i < j < |s| :: r(s[i], s[j])
  }

  lemma {:induction false} KeptPairs<T(!new)>(s: seq<T>, expired: T -> bool, r: (T, T) -> bool)
    requires AllPairs(s, r)
    ensures AllPairs(Kept(s, expired), r)
  {
    if s != [] {
      if !expired(s[0]) {
        KeptPairs(s[1..], expired, r);
        KeptHeads(s, 0, 1, expired, r);
      } else if |s| > 2 {
        KeptPairs(s[2..], expired, r);
        KeptHeads(s, 1, 2, expired, r);
      }
    }
  }

  lemma KeptHeads<T(!new)>(s: seq<T>, h: nat, from: nat, expired: T -> bool, r: (T, T) -> bool)
    requires h < from <= |s| && AllPairs(s, r) && AllPairs(Kept(s[from..], expired), r)
    ensures AllPairs([s[h]] + Kept(s[from..], expired), r)
  {
    var rest, k := s[from..], Kept(s[from..], expired);
    KeptIsOld(rest, expired);
    forall i, j | 0 <= i < j < |[s[h]] + k| ensures r(([s[h]] + k)[i], ([s[h]] + k)[j]) {
      if i == 0 {
        assert k[j - 1] in k;
        var l :| 0 <= l < |rest| && rest[l] == k[j - 1];
        assert rest[l] == s[from + l];
      }
    }
  }

  // ---- the pass as the loop runs it: position i in a list that shrinks under it

  /** Position i is within cur, done has been removed, and the rest of orig is still to be passed. */
  ghost predicate Ahead<T(!new)>(orig: seq<T>, cur: seq<T>, i: nat, done: seq<T>, expired: T -> bool) {
    && i < |cur| && |cur| + |done| == |orig|
    && cur[i..] == orig[i + |done|..]
    && (forall x :: x in cur[..i] ==> x in orig[..i + |done|])
    && Kept(orig, expired) == cur[..i] + Kept(cur[i..], expired)
    && Swept(orig, expired) == done + Swept(cur[i..], expired)
  }

  /** The pass has got over the end of the list and nothing more will happen. */
  ghost predicate Settled<T(!new)>(orig: seq<T>, cur: seq<T>, done: seq<T>, expired: T -> bool) {
    cur == Kept(orig, expired) && done == Swept(orig, expired)
  }

  /** It has got over the end, and the expired last entry was skipped. */
  ghost predicate LeftLast<T(!new)>(orig: seq<T>, cur: seq<T>, done: seq<T>, expired: T -> bool) {
    && orig != [] && expired(orig[|orig| - 1])
    && cur == Kept(orig, expired) + [orig[|orig| - 1]]
    && Swept(orig, expired) == done + [orig[|orig| - 1]]
  }

  lemma AheadSkips<T(!new)>(orig: seq<T>, cur: seq<T>, i: nat, done: seq<T>, expired: T -> bool)
    requires Ahead(orig, cur, i, done, expired) && !expired(cur[i])
    ensures if i + 1 < |cur| then Ahead(orig, cur, i + 1, done, expired) else Settled(orig, cur, done, expired)
  {
    var rest := cur[i..];
    assert rest[0] == cur[i] && rest[1..] == cur[i + 1..];
    assert Kept(rest, expired) == [rest[0]] + Kept(rest[1..], expired);
    assert Swept(rest, expired) == Swept(rest[1..], expired);
    hide Kept, Swept;
    assert cur[..i] + [cur[i]] == cur[..i + 1];
    if i + 1 < |cur| {
      assert orig[i + |done|..][0] == orig[i + |done|] && orig[i + |done|..][1..] == orig[i + 1 + |done|..];
      assert orig[..i + 1 + |done|] == orig[..i + |done|] + [orig[i + |done|]];
    } else {
      assert rest[1..] == [] && cur[..i + 1] == cur;
      EmptySweep(expired);
    }
  }

  lemma EmptySweep<T(!new)>(expired: T -> bool)
    ensures Kept<T>([], expired) == [] && Swept<T>([], expired) == []
  {
  }

  lemma AheadTakesLast<T(!new)>(orig: seq<T>, cur: seq<T>, i: nat, done: seq<T>, expired: T -> bool)
    requires Ahead(orig, cur, i, done, expired) && expired(cur[i]) && i + 1 == |cur|
    ensures Settled(orig, Remove(cur, i), done + [cur[i]], expired)
  {
    assert cur[i..] == [cur[i]] && Remove(cur, i) == cur[..i];
  }

  lemma AheadTakesLastButOne<T(!new)>(orig: seq<T>, cur: seq<T>, i: nat, done: seq<T>, expired: T -> bool)
    requires Ahead(orig, cur, i, done, expired) && expired(cur[i]) && i + 2 == |cur|
    ensures if expired(orig[|orig| - 1]) then LeftLast(orig, Remove(cur, i), done + [cur[i]], expired)
            else Settled(orig, Remove(cur, i), done + [cur[i]], expired)
  {
    var last := orig[|orig| - 1];
    assert last == orig[i + |done|..][1] == cur[i..][1] == cur[i + 1];
    assert cur[i..] == [cur[i], last] && Remove(cur, i) == cur[..i] + [last];
    assert done + [cur[i], last] == (done + [cur[i]]) + [last];
  }

  lemma AheadTakes<T(!new)>(orig: seq<T>, cur: seq<T>, i: nat, done: seq<T>, expired: T -> bool)
    requires Ahead(orig, cur, i, done, expired) && expired(cur[i]) && i + 2 < |cur|
    ensures Ahead(orig, Remove(cur, i), i + 1, done + [cur[i]], expired)
  {
    var rest, after, done' := cur[i..], Remove(cur, i), done + [cur[i]];
    assert rest[0] == cur[i] && rest[1] == cur[i + 1] && rest[2..] == cur[i + 2..];
    assert Kept(rest, expired) == [rest[1]] + Kept(rest[2..], expired);
    assert Swept(rest, expired) == [rest[0]] + Swept(rest[2..], expired);
    hide Kept, Swept;
    assert after[..i + 1] == cur[..i] + [cur[i + 1]] && after[i + 1..] == rest[2..];
    assert orig[i + |done|..][2..] == orig[i + 1 + |done'|..];
    assert orig[i + |done|] == rest[0] && orig[i + |done| + 1] == orig[i + |done|..][1] == rest[1];
    assert orig[..i + 1 + |done'|] == orig[..i + |done|] + [rest[0]] + [rest[1]];
    assert cur[..i] + ([rest[1]] + Kept(rest[2..], expired)) == after[..i + 1] + Kept(rest[2..], expired);
    assert done + ([rest[0]] + Swept(rest[2..], expired)) == done' + Swept(rest[2..], expired);
  }

  lemma AheadPlaces<T(!new)>(orig: seq<T>, cur: seq<T>, i: nat, done: seq<T>, expired: T -> bool)
    requires Ahead(orig, cur, i, done, expired)
    ensures orig[i + |done|] == cur[i] && orig[|orig| - 1] == cur[|cur| - 1]
  {
    assert cur[i..][0] == orig[i + |done|..][0] && cur[i..][|cur| - 1 - i] == orig[i + |done|..][|cur| - 1 - i];
  }

  lemma AheadLeaves<T(!new)>(orig: seq<T>, cur: seq<T>, i: nat, done: seq<T>, expired: T -> bool)
    requires Ahead(orig, cur, i, done, expired) && expired(cur[i])
    ensures done + [cur[i]] <= Swept(orig, expired)
  {
    assert cur[i..][0] == cur[i];
  }
}
