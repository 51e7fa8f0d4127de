/** The byte-wise lexicographic order on strings. Ruby's `String#<=>` (used by
    `Array#sort` on directory entries and roots) and the key order in which the
    object store lists a bucket are both this order. */
module Ordering {

  /** Strict lexicographic order: a proper prefix comes first, otherwise the
      first differing character decides. */
  predicate Less(a: string, b: string)
    decreases |a|
  {
    if |a| == 0 then |b| > 0
    else if |b| == 0 then false
    else if a[0] != b[0] then a[0] < b[0]
    else Less(a[1..], b[1..])
  }

  predicate LessEq(a: string, b: string) {
    a == b || Less(a, b)
  }

  lemma {:induction false} LessIrreflexive(a: string)
    ensures !Less(a, a)
    decreases |a|
  {
    if |a| > 0 {
      LessIrreflexive(a[1..]);
    }
  }

  lemma {:induction false} LessAsymmetric(a: string, b: string)
    requires Less(a, b)
    ensures !Less(b, a)
    decreases |a|
  {
    if |a| > 0 && |b| > 0 && a[0] == b[0] {
      LessAsymmetric(a[1..], b[1..]);
    }
  }

  lemma {:induction false} LessTransitive(a: string, b: string, c: string)
    requires Less(a, b) && Less(b, c)
    ensures Less(a, c)
    decreases |a|
  {
    if |a| > 0 && a[0] == b[0] && b[0] == c[0] {
      LessTransitive(a[1..], b[1..], c[1..]);
    }
  }

  lemma {:induction false} LessTotal(a: string, b: string)
    requires a != b
    ensures Less(a, b) || Less(b, a)
    decreases |a|
  {
    if |a| > 0 && |b| > 0 && a[0] == b[0] {
      assert a == [a[0]] + a[1..] && b == [b[0]] + b[1..];
      LessTotal(a[1..], b[1..]);
    }
  }

  /** The empty string is the least string: every non-empty key follows the
      initial listing marker `''`. */
  lemma EmptyIsLeast(a: string)
    requires a != ""
    ensures Less("", a)
  {
  }

  lemma LessIsStrictTotalOrder()
    ensures forall a: string, b: string :: Less(a, b) ==> !Less(b, a)
    ensures forall a: string, b: string, c: string :: Less(a, b) && Less(b, c) ==> Less(a, c)
    ensures forall a: string, b: string :: a != b ==> Less(a, b) || Less(b, a)
  {
    forall a: string, b: string | Less(a, b) ensures !Less(b, a) {
      LessAsymmetric(a, b);
    }
    forall a: string, b: string, c: string | Less(a, b) && Less(b, c) ensures Less(a, c) {
      LessTransitive(a, b, c);
    }
    forall a: string, b: string | a != b ensures Less(a, b) || Less(b, a) {
      LessTotal(a, b);
    }
  }

  /** `m` is the least element of `s`. */
  predicate IsLeast(m: string, s: set<string>) {
    m in s && forall y :: y in s ==> y == m || Less(m, y)
  }

  lemma {:induction false} LeastExists(s: set<string>)
    requires s != {}
    ensures exists m :: IsLeast(m, s)
    decreases |s|
  {
    var x :| x in s;
    if s == {x} {
      assert IsLeast(x, s);
    } else {
      LeastExists(s - {x});
      var m :| IsLeast(m, s - {x});
      if Less(m, x) {
        assert IsLeast(m, s);
      } else {
        LessTotal(m, x);
        forall y | y in s ensures y == x || Less(x, y) {
          if y != x && y != m {
            LessTransitive(x, m, y);
          }
        }
        assert IsLeast(x, s);
      }
    }
  }

  /** The least element of a non-empty finite set of strings. */
  function Min(s: set<string>): (m: string)
    requires s != {}
    ensures m in s
    ensures forall y :: y in s && y != m ==> Less(m, y)
  {
    LeastExists(s);
    LessIsStrictTotalOrder();
    var m :| IsLeast(m, s);
    m
  }

  /** Strictly increasing: sorted and without repetitions. */
  predicate StrictlySorted(q: seq<string>) {
    forall i, j :: 0 <= i < j < |q| ==> Less(q[i], q[j])
  }

  /** Non-strictly increasing. */
  predicate Sorted(q: seq<string>) {
    forall i, j :: 0 <= i < j < |q| ==> LessEq(q[i], q[j])
  }

  /** The elements of a finite set of strings in increasing order. */
  function SortedSet(s: set<string>): (r: seq<string>)
    ensures StrictlySorted(r)
    ensures forall x :: x in r <==> x in s
    ensures |r| == |s|
    decreases |s|
  {
    if s == {} then []
    else
      var m := Min(s);
      var rest := SortedSet(s - {m});
      assert forall x :: x in rest ==> x in s && x != m;
      [m] + rest
  }

  /** In a sorted set, a smaller element sits at a smaller index. */
  lemma SortedSetIndices(s: set<string>, x: string, y: string) returns (i: nat, j: nat)
    requires x in s && y in s && Less(x, y)
    ensures i < j < |SortedSet(s)| && SortedSet(s)[i] == x && SortedSet(s)[j] == y
  {
    var q := SortedSet(s);
    i :| 0 <= i < |q| && q[i] == x;
    j :| 0 <= j < |q| && q[j] == y;
    if j <= i {
      LessIrreflexive(x);
      if j < i {
        LessAsymmetric(y, x);
      }
      assert false;
    }
  }

  /** Where a member of `q` sits in `Sort(q)`. */
  lemma SortIndex(q: seq<string>, x: string) returns (i: nat)
    requires x in q
    ensures i < |Sort(q)| && Sort(q)[i] == x
  {
    assert x in multiset(Sort(q));
    i :| 0 <= i < |Sort(q)| && Sort(q)[i] == x;
  }

  /** In a sorted sequence, a smaller element sits before a greater one. */
  lemma SortedIndices(q: seq<string>, x: string, y: string) returns (i: nat, j: nat)
    requires Sorted(q) && x in q && y in q && Less(x, y)
    ensures i < j < |q| && q[i] == x && q[j] == y
  {
    i :| 0 <= i < |q| && q[i] == x;
    j :| 0 <= j < |q| && q[j] == y;
    LessIrreflexive(x);
    if j < i {
      assert LessEq(q[j], q[i]);
      LessAsymmetric(x, y);
    }
  }

  lemma LessEqTransitive(a: string, b: string, c: string)
    requires LessEq(a, b) && LessEq(b, c)
    ensures LessEq(a, c)
  {
    if a != b && b != c {
      LessTransitive(a, b, c);
    }
  }

  /** Every element of `q` is at least `b`. */
  predicate Above(b: string, q: seq<string>) {
    forall i :: 0 <= i < |q| ==> LessEq(b, q[i])
  }

  /** Inserts `x` into a sorted sequence, before the first element not below it. */
  function Insert(x: string, q: seq<string>): (r: seq<string>)
    requires Sorted(q)
    ensures Sorted(r)
    ensures multiset(r) == multiset(q) + multiset{x}
    decreases |q|, 0
  {
    if |q| == 0 then [x]
    else if LessEq(x, q[0]) then
      assert Above(x, q) by {
        forall i | 0 <= i < |q| ensures LessEq(x, q[i]) {
          LessEqTransitive(x, q[0], q[i]);
        }
      }
      [x] + q
    else
      var rest := Insert(x, q[1..]);
      LessTotal(x, q[0]);
      InsertAbove(q[0], x, q[1..]);
      assert q == [q[0]] + q[1..];
      [q[0]] + rest
  }

  lemma {:induction false} InsertAbove(b: string, x: string, q: seq<string>)
    requires Sorted(q) && Above(b, q) && LessEq(b, x)
    ensures Above(b, Insert(x, q))
    decreases |q|, 1
  {
    if |q| > 0 && !LessEq(x, q[0]) {
      InsertAbove(b, x, q[1..]);
    }
  }

  /** Insertion sort: a sorted permutation of `q` (Ruby's `Array#sort`). */
  function Sort(q: seq<string>): (r: seq<string>)
    ensures Sorted(r)
    ensures multiset(r) == multiset(q)
    decreases |q|
  {
    if |q| == 0 then []
    else
      assert q == [q[0]] + q[1..];
      Insert(q[0], Sort(q[1..]))
  }

  /** The elements of `s` that follow `m`. */
  function After(s: set<string>, m: string): (t: set<string>)
    ensures t <= s
    ensures forall k :: k in t <==> k in s && Less(m, k)
  {
    set k | k in s && Less(m, k)
  }

  /** Past the least element after `m`, the elements after it are the rest. */
  lemma AfterMin(s: set<string>, m: string)
    requires After(s, m) != {}
    ensures After(s, Min(After(s, m))) == After(s, m) - {Min(After(s, m))}
  {
    var t := After(s, m);
    var x := Min(t);
    LessIsStrictTotalOrder();
    assert forall k :: k in After(s, x) ==> k in t - {x};
  }

  /** The sorted elements after `m` are the least of them followed by the
      sorted elements after that one. */
  lemma SortedAfterUnfold(s: set<string>, m: string)
    requires After(s, m) != {}
    ensures SortedSet(After(s, m)) == [Min(After(s, m))] + SortedSet(After(s, Min(After(s, m))))
  {
    AfterMin(s, m);
  }

  /** Sets that agree above `m` have the same elements after `m`. */
  lemma AfterAgree(s1: set<string>, s2: set<string>, m: string)
    requires forall k :: Less(m, k) ==> (k in s1 <==> k in s2)
    ensures After(s1, m) == After(s2, m)
  {
  }

  /** A later marker leaves fewer elements after it. */
  lemma AfterMonotone(s: set<string>, a: string, b: string)
    requires Less(a, b)
    ensures After(s, b) <= After(s, a)
  {
    forall k | k in After(s, b) ensures Less(a, k) {
      LessTransitive(a, b, k);
    }
  }
}
