/** Sequence operations the model uses for list filters and selections. */
module Seqs {

  /** The elements of `s` that satisfy `p`, in their original order (JavaScript `Array.filter`,
      a Python list comprehension with an `if`, a boolean-masked pandas frame). */
  function Keep<T>(s: seq<T>, p: T -> bool): (r: seq<T>)
    ensures |r| <= |s|
  {
    if s == [] then [] else (if p(s[0]) then [s[0]] else []) + Keep(s[1..], p)
  }

  /** `a` is obtained from `b` by deleting elements, without reordering the rest. */
  predicate IsSubsequence<T(==)>(a: seq<T>, b: seq<T>)
    decreases |b|
  {
    if a == [] then true
    else if b == [] then false
    else if a[0] == b[0] then IsSubsequence(a[1..], b[1..])
    else IsSubsequence(a, b[1..])
  }

  /** No element occurs twice. */
  predicate NoDup<T(==)>(s: seq<T>) {
    forall i, j :: 0 <= i < j < |s| ==> s[i] != s[j]
  }

  /** Number of elements of `s` that satisfy `p`. */
  function Count<T>(s: seq<T>, p: T -> bool): (n: nat)
    ensures n <= |s|
  {
    if s == [] then 0 else (if p(s[0]) then 1 else 0) + Count(s[1..], p)
  }

  /** The distinct elements of `s`, each at the place where it first occurs: what inserting the
      elements one after the other into a JavaScript `Set` (or pandas `unique`) yields. */
  function Dedup<T(==)>(s: seq<T>): (r: seq<T>)
  {
    if s == [] then []
    else
      var front := Dedup(s[..|s| - 1]);
      if s[|s| - 1] in front then front else front + [s[|s| - 1]]
  }

  /** The first position of `x` in `s`. */
  function FirstIndex<T(==)>(s: seq<T>, x: T): (k: nat)
    requires x in s
    ensures k < |s| && s[k] == x && x !in s[..k]
  {
    if s[0] == x then 0 else 1 + FirstIndex(s[1..], x)
  }

  lemma {:induction false} KeepMembers<T>(s: seq<T>, p: T -> bool, x: T)
    ensures x in Keep(s, p) <==> x in s && p(x)
  {
    if s != [] {
      KeepMembers(s[1..], p, x);
      assert s == [s[0]] + s[1..];
    }
  }

  lemma {:induction false} KeepIsSubsequence<T>(s: seq<T>, p: T -> bool)
    ensures IsSubsequence(Keep(s, p), s)
  {
    if s != [] {
      KeepIsSubsequence(s[1..], p);
      var r := Keep(s[1..], p);
      if p(s[0]) {
        assert Keep(s, p) == [s[0]] + r;
        assert ([s[0]] + r)[1..] == r;
      } else {
        assert Keep(s, p) == r;
        SubsequenceOfTail(r, s);
      }
    }
  }

  /** Dropping the head of `b` keeps every subsequence of the tail a subsequence of `b`. */
  lemma {:induction false} SubsequenceOfTail<T>(a: seq<T>, b: seq<T>)
    requires b != [] && IsSubsequence(a, b[1..])
    ensures IsSubsequence(a, b)
    decreases |b|, 0
  {
    if a != [] && a[0] == b[0] {
      SubsequenceDropHead(a, b[1..]);
    }
  }

  lemma {:induction false} SubsequenceDropHead<T>(a: seq<T>, b: seq<T>)
    requires a != [] && IsSubsequence(a, b)
    ensures IsSubsequence(a[1..], b)
    decreases |b|, 1
  {
    if a[0] != b[0] {
      SubsequenceDropHead(a, b[1..]);
      SubsequenceOfTail(a[1..], b);
    } else if a[1..] != [] {
      SubsequenceOfTail(a[1..], b);
    }
  }

  /** A filter that keeps every element is the identity. */
  lemma {:induction false} KeepAll<T>(s: seq<T>, p: T -> bool)
    requires forall i :: 0 <= i < |s| ==> p(s[i])
    ensures Keep(s, p) == s
  {
    if s != [] {
      KeepAll(s[1..], p);
      assert s == [s[0]] + s[1..];
    }
  }

  /** Two filters in a row are one filter by the conjunction. */
  lemma {:induction false} KeepKeep<T>(s: seq<T>, p: T -> bool, q: T -> bool, pq: T -> bool)
    requires forall x :: pq(x) == (p(x) && q(x))
    ensures Keep(Keep(s, p), q) == Keep(s, pq)
  {
    if s != [] {
      KeepKeep(s[1..], p, q, pq);
      var head := if p(s[0]) then [s[0]] else [];
      KeepAppend(head, Keep(s[1..], p), q);
      assert Keep(head, q) == if pq(s[0]) then [s[0]] else [] by {
        if p(s[0]) {
          assert head[1..] == [];
        }
      }
    }
  }

  /** Filters with predicates that agree on every element give the same result. */
  lemma {:induction false} KeepCongruent<T>(s: seq<T>, p: T -> bool, q: T -> bool)
    requires forall i :: 0 <= i < |s| ==> p(s[i]) == q(s[i])
    ensures Keep(s, p) == Keep(s, q)
  {
    if s != [] {
      KeepCongruent(s[1..], p, q);
    }
  }

  lemma {:induction false} KeepAppend<T>(a: seq<T>, b: seq<T>, p: T -> bool)
    ensures Keep(a + b, p) == Keep(a, p) + Keep(b, p)
  {
    if a == [] {
      assert a + b == b;
    } else {
      var head := if p(a[0]) then [a[0]] else [];
      assert (a + b)[0] == a[0];
      assert (a + b)[1..] == a[1..] + b;
      KeepAppend(a[1..], b, p);
      calc {
        Keep(a + b, p);
        head + Keep((a + b)[1..], p);
        head + Keep(a[1..] + b, p);
        head + (Keep(a[1..], p) + Keep(b, p));
        (head + Keep(a[1..], p)) + Keep(b, p);
        Keep(a, p) + Keep(b, p);
      }
    }
  }

  /** The elements kept are as many as the elements counted. */
  lemma {:induction false} KeepLength<T>(s: seq<T>, p: T -> bool)
    ensures |Keep(s, p)| == Count(s, p)
  {
    if s != [] {
      KeepLength(s[1..], p);
    }
  }

  lemma {:induction false} CountAppend<T>(a: seq<T>, b: seq<T>, p: T -> bool)
    ensures Count(a + b, p) == Count(a, p) + Count(b, p)
  {
    if a == [] {
      assert a + b == b;
    } else {
      assert (a + b)[1..] == a[1..] + b;
      CountAppend(a[1..], b, p);
    }
  }

  lemma {:induction false} DedupMembers<T>(s: seq<T>, x: T)
    ensures x in Dedup(s) <==> x in s
    decreases |s|
  {
    if s != [] {
      var init := s[..|s| - 1];
      DedupMembers(init, x);
      assert s == init + [s[|s| - 1]];
    }
  }

  lemma {:induction false} DedupNoDup<T>(s: seq<T>)
    ensures NoDup(Dedup(s))
    decreases |s|
  {
    if s != [] {
      DedupNoDup(s[..|s| - 1]);
    }
  }

  lemma {:induction false} DedupIsSubsequence<T>(s: seq<T>)
    ensures IsSubsequence(Dedup(s), s)
    decreases |s|
  {
    if s != [] {
      var init := s[..|s| - 1];
      var last := s[|s| - 1];
      DedupIsSubsequence(init);
      assert s == init + [last];
      if last in Dedup(init) {
        SubsequenceAppendRight(Dedup(init), init, [last]);
      } else {
        SubsequenceAppendBoth(Dedup(init), init, last);
      }
    }
  }

  lemma {:induction false} SubsequenceAppendRight<T>(a: seq<T>, b: seq<T>, c: seq<T>)
    requires IsSubsequence(a, b)
    ensures IsSubsequence(a, b + c)
    decreases |b|
  {
    if a != [] {
      assert (b + c)[1..] == b[1..] + c;
      if a[0] == b[0] {
        SubsequenceAppendRight(a[1..], b[1..], c);
      } else {
        SubsequenceAppendRight(a, b[1..], c);
      }
    }
  }

  lemma {:induction false} SubsequenceAppendBoth<T>(a: seq<T>, b: seq<T>, x: T)
    requires IsSubsequence(a, b)
    ensures IsSubsequence(a + [x], b + [x])
    decreases |b|
  {
    if a == [] {
      assert a + [x] == [x];
      SubsequenceSingleton(b, x);
    } else {
      assert (a + [x])[1..] == a[1..] + [x];
      assert (b + [x])[1..] == b[1..] + [x];
      if a[0] == b[0] {
        SubsequenceAppendBoth(a[1..], b[1..], x);
      } else {
        SubsequenceAppendBoth(a, b[1..], x);
      }
    }
  }

  lemma {:induction false} SubsequenceSingleton<T>(b: seq<T>, x: T)
    ensures IsSubsequence([x], b + [x])
    decreases |b|
  {
    if b != [] {
      assert (b + [x])[1..] == b[1..] + [x];
      SubsequenceSingleton(b[1..], x);
    }
  }

  lemma {:induction false} FirstIndexPrefix<T>(s: seq<T>, t: seq<T>, x: T)
    requires x in s
    ensures x in s + t && FirstIndex(s + t, x) == FirstIndex(s, x)
  {
    if s[0] != x {
      assert (s + t)[1..] == s[1..] + t;
      FirstIndexPrefix(s[1..], t, x);
    }
  }

  lemma FirstIndexFresh<T>(s: seq<T>, x: T)
    requires x !in s
    ensures x in s + [x] && FirstIndex(s + [x], x) == |s|
  {
    var k := FirstIndex(s + [x], x);
    assert forall i :: 0 <= i < |s| ==> (s + [x])[i] == s[i];
  }

  /** The distinct elements are listed in the order of their first occurrences in `s`. */
  lemma {:induction false} DedupFirstOccurrenceOrder<T>(s: seq<T>, i: nat, j: nat)
    requires i < j < |Dedup(s)|
    ensures Dedup(s)[i] in s && Dedup(s)[j] in s
    ensures FirstIndex(s, Dedup(s)[i]) < FirstIndex(s, Dedup(s)[j])
    decreases |s|
  {
    var init := s[..|s| - 1];
    var last := s[|s| - 1];
    var d := Dedup(init);
    assert s == init + [last];
    DedupMembers(init, Dedup(s)[i]);
    DedupMembers(init, Dedup(s)[j]);
    if j < |d| {
      DedupFirstOccurrenceOrder(init, i, j);
      FirstIndexPrefix(init, [last], d[i]);
      FirstIndexPrefix(init, [last], d[j]);
    } else {
      assert Dedup(s)[j] == last && last !in init;
      DedupMembers(init, d[i]);
      FirstIndexPrefix(init, [last], d[i]);
      FirstIndexFresh(init, last);
    }
  }

  /** Some element satisfies `p` exactly when the count is positive. */
  lemma {:induction false} CountPositive<T>(s: seq<T>, p: T -> bool)
    ensures Count(s, p) >= 1 <==> exists i :: 0 <= i < |s| && p(s[i])
  {
    if s != [] {
      CountPositive(s[1..], p);
      if exists i :: 0 <= i < |s| && p(s[i]) {
        var i :| 0 <= i < |s| && p(s[i]);
        if i > 0 {
          assert s[1..][i - 1] == s[i];
        }
      }
      if exists i :: 0 <= i < |s[1..]| && p(s[1..][i]) {
        var i :| 0 <= i < |s[1..]| && p(s[1..][i]);
        assert s[i + 1] == s[1..][i];
      }
    }
  }

  /** At least two elements satisfy `p` exactly when two different positions do. */
  lemma {:induction false} CountAtLeastTwo<T>(s: seq<T>, p: T -> bool)
    ensures Count(s, p) >= 2 <==> exists i, j :: 0 <= i < j < |s| && p(s[i]) && p(s[j])
  {
    if s != [] {
      var t := s[1..];
      CountAtLeastTwo(t, p);
      CountPositive(t, p);
      if exists i, j :: 0 <= i < j < |s| && p(s[i]) && p(s[j]) {
        var i, j :| 0 <= i < j < |s| && p(s[i]) && p(s[j]);
        assert t[j - 1] == s[j];
        if i > 0 {
          assert t[i - 1] == s[i];
        }
      }
      if Count(s, p) >= 2 {
        if p(s[0]) {
          var j :| 0 <= j < |t| && p(t[j]);
          assert s[j + 1] == t[j];
        } else {
          var i, j :| 0 <= i < j < |t| && p(t[i]) && p(t[j]);
          assert s[i + 1] == t[i] && s[j + 1] == t[j];
        }
      }
    }
  }

  /** In a sequence without duplicates every value occurs at most once. */
  lemma {:induction false} NoDupMultiplicity<T>(a: seq<T>, x: T)
    requires NoDup(a)
    ensures multiset(a)[x] <= 1
  {
    if a != [] {
      assert a == [a[0]] + a[1..];
      assert NoDup(a[1..]) by {
        forall i, j | 0 <= i < j < |a[1..]| ensures a[1..][i] != a[1..][j] {
          assert a[1..][i] == a[i + 1] && a[1..][j] == a[j + 1];
        }
      }
      NoDupMultiplicity(a[1..], x);
    }
  }

  /** A permutation of a sequence without duplicates has none either. */
  lemma NoDupPermutation<T>(a: seq<T>, b: seq<T>)
    requires NoDup(a) && multiset(a) == multiset(b)
    ensures NoDup(b)
  {
    forall i, j | 0 <= i < j < |b| ensures b[i] != b[j] {
      if b[i] == b[j] {
        assert b == b[..j] + b[j..];
        assert b[i] in b[..j] && b[j] in b[j..];
        assert multiset(b)[b[i]] == multiset(b[..j])[b[i]] + multiset(b[j..])[b[i]];
        NoDupMultiplicity(a, b[i]);
        assert false;
      }
    }
  }

  /** A filter that no element passes keeps nothing. */
  lemma {:induction false} KeepNone<T>(s: seq<T>, p: T -> bool)
    requires forall i :: 0 <= i < |s| ==> !p(s[i])
    ensures Keep(s, p) == []
  {
    if s != [] {
      KeepNone(s[1..], p);
    }
  }

  /** How many of `p(0)`, ..., `p(n - 1)` hold. */
  function CountTrue(p: nat -> bool, n: nat): (c: nat)
    ensures c <= n
  {
    if n == 0 then 0 else CountTrue(p, n - 1) + (if p(n - 1) then 1 else 0)
  }

  /** Filtering a list without repeats gives a list without repeats. */
  lemma {:induction false} KeepNoDup<T>(s: seq<T>, p: T -> bool)
    requires NoDup(s)
    ensures NoDup(Keep(s, p))
  {
    if s != [] {
      assert NoDup(s[1..]) by {
        forall i, j | 0 <= i < j < |s[1..]| ensures s[1..][i] != s[1..][j] {
          assert s[1..][i] == s[i + 1] && s[1..][j] == s[j + 1];
        }
      }
      KeepNoDup(s[1..], p);
      KeepMembers(s[1..], p, s[0]);
      var rest := Keep(s[1..], p);
      if p(s[0]) {
        var r := [s[0]] + rest;
        forall i, j | 0 <= i < j < |r| ensures r[i] != r[j] {
          if i == 0 {
            assert r[j] == rest[j - 1];
            assert rest[j - 1] in rest;
          } else {
            assert r[i] == rest[i - 1] && r[j] == rest[j - 1];
          }
        }
      }
    }
  }

  /** A stage that filters by `q` only when it is active is the filter by `active ==> q`. */
  lemma KeepWhen<T>(s: seq<T>, active: bool, q: T -> bool, p: T -> bool)
    requires forall x :: p(x) == (active ==> q(x))
    ensures (if active then Keep(s, q) else s) == Keep(s, p)
  {
    if active {
      KeepCongruent(s, q, p);
    } else {
      KeepAll(s, p);
    }
  }

  /** Four filters in a row are one filter by their conjunction. */
  lemma KeepStages<T>(s: seq<T>, p1: T -> bool, p2: T -> bool, p3: T -> bool, p4: T -> bool, all: T -> bool)
    requires forall x :: all(x) == (p1(x) && p2(x) && p3(x) && p4(x))
    ensures Keep(Keep(Keep(Keep(s, p1), p2), p3), p4) == Keep(s, all)
  {
    var p12 := (x: T) => p1(x) && p2(x);
    var p123 := (x: T) => p12(x) && p3(x);
    KeepKeep(s, p1, p2, p12);
    KeepKeep(s, p12, p3, p123);
    KeepKeep(s, p123, p4, all);
  }
}
