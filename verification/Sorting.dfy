/**
 Stable sorting by a comparison, standing for Array.prototype.sort with a comparator.
 */
module Sorting {
  ghost predicate TotalPreorder<T(!new)>(le: (T, T) -> bool) {
    && (forall a, b :: le(a, b) || le(b, a))
    && (forall a, b, c :: le(a, b) && le(b, c) ==> le(a, c))
  }

  ghost predicate SortedBy<T>(s: seq<T>, le: (T, T) -> bool) {
    forall i, j :: 0 <= i < j < |s| ==> le(s[i], s[j])
  }

  ghost predicate NoDuplicates<T>(s: seq<T>) {
    forall i, j :: 0 <= i < j < |s| ==> s[i] != s[j]
  }

  function Insert<T>(x: T, s: seq<T>, le: (T, T) -> bool): (r: seq<T>)
    ensures multiset(r) == multiset{x} + multiset(s)
  {
    if s == [] || le(x, s[0]) then [x] + s
    else
      assert s == [s[0]] + s[1..];
      [s[0]] + Insert(x, s[1..], le)
  }

  function Sort<T>(s: seq<T>, le: (T, T) -> bool): (r: seq<T>)
    ensures multiset(r) == multiset(s)
    ensures |r| == |s|
  {
    if s == [] then []
    else
      assert s == [s[0]] + s[1..];
      var r := Insert(s[0], Sort(s[1..], le), le);
      assert |multiset(r)| == |r| && |multiset(s)| == |s|;
      r
  }

  lemma {:induction false} InsertKeepsSorted<T(!new)>(x: T, s: seq<T>, le: (T, T) -> bool)
    requires TotalPreorder(le) && SortedBy(s, le)
    ensures SortedBy(Insert(x, s, le), le)
  {
    if s == [] {
    } else if le(x, s[0]) {
      forall i | 0 <= i < |s|
        ensures le(x, s[i])
      {
        assert i > 0 ==> le(s[0], s[i]);
      }
    } else {
      InsertKeepsSorted(x, s[1..], le);
      var r := Insert(x, s[1..], le);
      forall i | 0 <= i < |r|
        ensures le(s[0], r[i])
      {
        assert r[i] in multiset(r);
        assert r[i] == x || r[i] in s[1..];
        assert le(x, s[0]) || le(s[0], x);
      }
    }
  }

  lemma {:induction false} SortSorts<T(!new)>(s: seq<T>, le: (T, T) -> bool)
    requires TotalPreorder(le)
    ensures SortedBy(Sort(s, le), le)
  {
    if s != [] {
      SortSorts(s[1..], le);
      InsertKeepsSorted(s[0], Sort(s[1..], le), le);
    }
  }

  lemma {:induction false} NoDuplicatesByCount<T>(s: seq<T>)
    ensures NoDuplicates(s) <==> forall x :: multiset(s)[x] <= 1
  {
    if s != [] {
      NoDuplicatesByCount(s[1..]);
      assert s == [s[0]] + s[1..];
      if NoDuplicates(s) {
        forall i, j | 0 <= i < j < |s[1..]|
          ensures s[1..][i] != s[1..][j]
        {
          assert s[i + 1] != s[j + 1];
        }
        assert s[0] !in s[1..];
        forall x
          ensures multiset(s)[x] <= 1
        {
        }
      }
      if forall x :: multiset(s)[x] <= 1 {
        forall x
          ensures multiset(s[1..])[x] <= 1
        {
          assert multiset(s)[x] <= 1;
        }
        assert multiset(s)[s[0]] <= 1;
        assert s[0] !in s[1..];
        forall i, j | 0 <= i < j < |s|
          ensures s[i] != s[j]
        {
          assert s[j] == s[1..][j - 1];
        }
      }
    }
  }

  /** Sorting keeps the elements, and keeps them distinct. */
  lemma SortKeepsElements<T>(s: seq<T>, le: (T, T) -> bool)
    ensures forall x :: x in Sort(s, le) <==> x in s
    ensures NoDuplicates(s) ==> NoDuplicates(Sort(s, le))
  {
    forall x
      ensures x in Sort(s, le) <==> x in s
    {
      assert x in Sort(s, le) <==> x in multiset(Sort(s, le));
      assert x in s <==> x in multiset(s);
    }
    NoDuplicatesByCount(s);
    NoDuplicatesByCount(Sort(s, le));
  }

  lemma DistinctTail<T>(s: seq<T>)
    requires NoDuplicates(s) && s != []
    ensures NoDuplicates(s[1..]) && s[0] !in s[1..]
  {
    forall i, j | 0 <= i < j < |s[1..]|
      ensures s[1..][i] != s[1..][j]
    {
      assert s[i + 1] != s[j + 1];
    }
    forall i | 0 <= i < |s[1..]|
      ensures s[1..][i] != s[0]
    {
      assert s[0] != s[i + 1];
    }
  }

  lemma DistinctConcat<T>(a: seq<T>, b: seq<T>)
    requires NoDuplicates(a) && NoDuplicates(b) && forall x :: x in b ==> x !in a
    ensures NoDuplicates(a + b)
  {
    forall i, j | 0 <= i < j < |a + b|
      ensures (a + b)[i] != (a + b)[j]
    {
      if i < |a| <= j {
        assert b[j - |a|] in b;
      }
    }
  }

  lemma {:induction false} DistinctCount<T>(s: seq<T>)
    ensures |set x | x in s| <= |s|
    ensures |set x | x in s| == |s| <==> NoDuplicates(s)
  {
    if s != [] {
      var rest := s[1..];
      DistinctCount(rest);
      assert s == [s[0]] + rest;
      assert (set x | x in s) == {s[0]} + set x | x in rest;
      if s[0] in rest {
        assert (set x | x in s) == set x | x in rest;
        var j :| 0 <= j < |rest| && rest[j] == s[0];
        assert s[0] == s[j + 1];
      } else {
        assert NoDuplicates(rest) ==> NoDuplicates(s);
        if NoDuplicates(s) {
          forall i, j | 0 <= i < j < |rest|
            ensures rest[i] != rest[j]
          {
            assert s[i + 1] != s[j + 1];
          }
        }
      }
    }
  }

  // ---------------------------------------------------------------- parts of a sequence, in its order

  /** Positions of a sequence of length `n`, in order and each once. */
  ghost predicate ArePositions(at: seq<nat>, n: nat) {
    && (forall k :: 0 <= k < |at| ==> at[k] < n)
    && forall j, k :: 0 <= j < k < |at| ==> at[j] < at[k]
  }

  /** `part` is what `all` has at the positions. */
  ghost predicate IsPart<T>(part: seq<T>, all: seq<T>, at: seq<nat>) {
    && ArePositions(at, |all|) && |part| == |at|
    && forall k :: 0 <= k < |at| ==> part[k] == all[at[k]]
  }

  lemma LaterPart<T>(part: seq<T>, all: seq<T>, rest: seq<nat>) returns (at: seq<nat>)
    requires all != [] && IsPart(part, all[1..], rest)
    ensures IsPart(part, all, at) && forall i: nat :: i in at <==> i > 0 && i - 1 in rest
  {
    at := seq(|rest|, k requires 0 <= k < |rest| => rest[k] + 1);
    forall i: nat
      ensures i in at <==> i > 0 && i - 1 in rest
    {
      if i in at {
        var k :| 0 <= k < |at| && at[k] == i;
        assert rest[k] == i - 1;
      }
      if i > 0 && i - 1 in rest {
        var k :| 0 <= k < |rest| && rest[k] == i - 1;
        assert at[k] == i;
      }
    }
  }

  lemma PartWithFirst<T>(part: seq<T>, all: seq<T>, at: seq<nat>)
    requires all != [] && IsPart(part, all, at) && 0 !in at
    ensures IsPart([all[0]] + part, all, [0] + at)
  {
  }
}
