/** ORDER BY: string order, orderings as relations, and a sort that yields a
    sorted permutation of its input. */
module Ordering {

  /** Lexicographic order on strings by character code; a prefix sorts first. */
  predicate StrLe(a: string, b: string)
    decreases |a|
  {
    a == [] || (b != [] && (a[0] < b[0] || (a[0] == b[0] && StrLe(a[1..], b[1..]))))
  }

  /** At the first position where a and b differ, a has the smaller character. */
  ghost predicate SmallerAtFirstDifference(a: string, b: string)
  {
    exists k :: 0 <= k < |a| && k < |b| && a[..k] == b[..k] && a[k] < b[k]
  }

  /** StrLe is the dictionary order: a is a prefix of b, or a has the
      smaller character where they first differ. */
  lemma {:induction false} StrLeMeaning(a: string, b: string)
    ensures StrLe(a, b) <==> a <= b || SmallerAtFirstDifference(a, b)
    decreases |a|
  {
    if a != [] && b != [] && a[0] == b[0] {
      StrLeMeaning(a[1..], b[1..]);
      SameHead(a, b);
    } else if a != [] && b != [] {
      assert a[..0] == b[..0];
    }
  }

  /** Dropping a common first character changes neither relation. */
  lemma SameHead(a: string, b: string)
    requires a != [] && b != [] && a[0] == b[0]
    ensures a <= b <==> a[1..] <= b[1..]
    ensures SmallerAtFirstDifference(a, b) <==> SmallerAtFirstDifference(a[1..], b[1..])
  {
    assert a == [a[0]] + a[1..] && b == [b[0]] + b[1..];
    if SmallerAtFirstDifference(a, b) {
      var k :| 0 <= k < |a| && k < |b| && a[..k] == b[..k] && a[k] < b[k];
      assert k > 0;
      assert a[1..][..k - 1] == a[1..k] == b[1..k] == b[1..][..k - 1];
    }
    if SmallerAtFirstDifference(a[1..], b[1..]) {
      var k :| 0 <= k < |a[1..]| && k < |b[1..]| && a[1..][..k] == b[1..][..k] && a[1..][k] < b[1..][k];
      assert a[..k + 1] == [a[0]] + a[1..][..k];
      assert b[..k + 1] == [b[0]] + b[1..][..k];
    }
  }

  lemma {:induction false} StrLeTotal(a: string, b: string)
    ensures StrLe(a, b) || StrLe(b, a)
    decreases |a|
  {
    if a != [] && b != [] && a[0] == b[0] {
      StrLeTotal(a[1..], b[1..]);
    }
  }

  lemma {:induction false} StrLeTransitive(a: string, b: string, c: string)
    requires StrLe(a, b) && StrLe(b, c)
    ensures StrLe(a, c)
    decreases |a|
  {
    if a != [] && a[0] == b[0] && b[0] == c[0] {
      StrLeTransitive(a[1..], b[1..], c[1..]);
    }
  }

  lemma {:induction false} StrLeAntisymmetric(a: string, b: string)
    requires StrLe(a, b) && StrLe(b, a)
    ensures a == b
    decreases |a|
  {
    if a != [] {
      StrLeAntisymmetric(a[1..], b[1..]);
      assert a == [a[0]] + a[1..] && b == [b[0]] + b[1..];
    }
  }

  /** `ORDER BY x1, x2` on two string columns. */
  predicate PairLe(x1: string, x2: string, y1: string, y2: string)
  {
    !StrLe(y1, x1) || (x1 == y1 && StrLe(x2, y2))
  }

  /** PairLe is total and transitive at these arguments. */
  lemma PairLeFacts(x1: string, x2: string, y1: string, y2: string, z1: string, z2: string)
    ensures PairLe(x1, x2, y1, y2) || PairLe(y1, y2, x1, x2)
    ensures PairLe(x1, x2, y1, y2) && PairLe(y1, y2, z1, z2) ==> PairLe(x1, x2, z1, z2)
  {
    StrLeTotal(x1, y1);
    StrLeTotal(x2, y2);
    if StrLe(x1, y1) && StrLe(y1, x1) {
      StrLeAntisymmetric(x1, y1);
    }
    if PairLe(x1, x2, y1, y2) && PairLe(y1, y2, z1, z2) {
      StrLeTotal(x1, z1);
      if StrLe(z1, x1) {
        if StrLe(y1, x1) {
          StrLeAntisymmetric(x1, y1);
          if StrLe(z1, y1) {
            StrLeAntisymmetric(y1, z1);
            StrLeTransitive(x2, y2, z2);
          }
        } else {
          StrLeTotal(y1, z1);
          if StrLe(z1, y1) {
            StrLeTransitive(z1, y1, x1);
            StrLeAntisymmetric(x1, z1);
          } else {
            StrLeTransitive(y1, z1, x1);
          }
        }
      }
    }
  }

  /** A relation usable as an ORDER BY: total and transitive. */
  ghost predicate TotalPreorder<T(!new)>(le: (T, T) -> bool)
  {
    && (forall a, b :: le(a, b) || le(b, a))
    && (forall a, b, c :: le(a, b) && le(b, c) ==> le(a, c))
  }

  predicate SortedBy<T>(s: seq<T>, le: (T, T) -> bool)
  {
    forall i, j :: 0 <= i < j < |s| ==> le(s[i], s[j])
  }

  /** Inserts x before the first element it may precede. */
  function InsertBy<T>(x: T, s: seq<T>, le: (T, T) -> bool): (r: seq<T>)
    ensures multiset(r) == multiset(s) + multiset{x}
    ensures |r| == |s| + 1
    decreases |s|
  {
    if s == [] || le(x, s[0]) then [x] + s
    else
      assert s == [s[0]] + s[1..];
      [s[0]] + InsertBy(x, s[1..], le)
  }

  /** Insertion sort: a permutation of s. */
  function SortBy<T>(s: seq<T>, le: (T, T) -> bool): (r: seq<T>)
    ensures multiset(r) == multiset(s)
    ensures |r| == |s|
    decreases |s|
  {
    if s == [] then []
    else
      assert s == [s[0]] + s[1..];
      InsertBy(s[0], SortBy(s[1..], le), le)
  }

  lemma {:induction false} InsertBySorted<T(!new)>(x: T, s: seq<T>, le: (T, T) -> bool)
    requires TotalPreorder(le)
    requires SortedBy(s, le)
    ensures SortedBy(InsertBy(x, s, le), le)
    decreases |s|
  {
    if s != [] && !le(x, s[0]) {
      var t := s[1..];
      assert SortedBy(t, le) by {
        forall i, j | 0 <= i < j < |t| ensures le(t[i], t[j]) {
          assert t[i] == s[i + 1] && t[j] == s[j + 1];
        }
      }
      InsertBySorted(x, t, le);
      var u := InsertBy(x, t, le);
      assert le(s[0], x);
      forall y | y in multiset(u) ensures le(s[0], y) {
        assert y in multiset(t) + multiset{x};
        if y in multiset(t) {
          var k :| 0 <= k < |t| && t[k] == y;
          assert t[k] == s[k + 1];
        }
      }
      forall i, j | 0 <= i < j < |u| + 1 ensures le(([s[0]] + u)[i], ([s[0]] + u)[j]) {
        if i == 0 {
          assert u[j - 1] in multiset(u);
        }
      }
    }
  }

  lemma {:induction false} SortBySorted<T(!new)>(s: seq<T>, le: (T, T) -> bool)
    requires TotalPreorder(le)
    ensures SortedBy(SortBy(s, le), le)
    decreases |s|
  {
    if s != [] {
      SortBySorted(s[1..], le);
      InsertBySorted(s[0], SortBy(s[1..], le), le);
    }
  }

  /** In a sorted sequence every element of a prefix precedes every element
      of the rest. */
  lemma SortedPrefix<T>(s: seq<T>, le: (T, T) -> bool, k: nat)
    requires SortedBy(s, le)
    requires k <= |s|
    ensures forall x, y :: x in s[..k] && y in s[k..] ==> le(x, y)
  {
    forall x, y | x in s[..k] && y in s[k..] ensures le(x, y) {
      var i :| 0 <= i < k && s[..k][i] == x;
      var j :| 0 <= j < |s| - k && s[k..][j] == y;
      assert s[i] == x && s[k + j] == y;
    }
  }
}
