/** The relational operations the SQL statements use: selection by a key
    column (`WHERE col = ?`), its complement (what `DELETE ... WHERE col = ?`
    keeps), and a pointwise update (`UPDATE ... WHERE col = ?`). Rows keep
    their table order, which stands for the unspecified order of a query
    without ORDER BY. */
module Query {

  /** `SELECT * FROM s WHERE key = k`. */
  function Where<T(!new)>(s: seq<T>, key: T -> string, k: string): (r: seq<T>)
    ensures |r| <= |s|
    ensures forall x :: x in r <==> x in s && key(x) == k
    ensures forall i :: 0 <= i < |r| ==> key(r[i]) == k
    decreases |s|
  {
    if s == [] then []
    else (if key(s[0]) == k then [s[0]] else []) + Where(s[1..], key, k)
  }

  /** The rows a `DELETE FROM s WHERE key = k` leaves behind. */
  function Except<T(!new)>(s: seq<T>, key: T -> string, k: string): (r: seq<T>)
    ensures |r| <= |s|
    ensures forall x :: x in r <==> x in s && key(x) != k
    decreases |s|
  {
    if s == [] then []
    else (if key(s[0]) == k then [] else [s[0]]) + Except(s[1..], key, k)
  }

  /** Selection distributes over appending rows. */
  lemma {:induction false} WhereAppend<T(!new)>(a: seq<T>, b: seq<T>, key: T -> string, k: string)
    ensures Where(a + b, key, k) == Where(a, key, k) + Where(b, key, k)
    decreases |a|
  {
    if a == [] {
      assert a + b == b;
    } else {
      assert (a + b)[1..] == a[1..] + b;
      WhereAppend(a[1..], b, key, k);
    }
  }

  /** Deletion distributes over appending rows, so the rows left keep their
      table order. */
  lemma {:induction false} ExceptAppend<T(!new)>(a: seq<T>, b: seq<T>, key: T -> string, k: string)
    ensures Except(a + b, key, k) == Except(a, key, k) + Except(b, key, k)
    decreases |a|
  {
    if a == [] {
      assert a + b == b;
    } else {
      assert (a + b)[1..] == a[1..] + b;
      ExceptAppend(a[1..], b, key, k);
    }
  }

  /** A selection keeps every row carrying the key as often as the table
      holds it, and no other row. */
  lemma {:induction false} WhereCount<T(!new)>(s: seq<T>, key: T -> string, k: string, x: T)
    ensures multiset(Where(s, key, k))[x] == if key(x) == k then multiset(s)[x] else 0
    decreases |s|
  {
    if s != [] {
      WhereCount(s[1..], key, k, x);
      assert s == [s[0]] + s[1..];
    }
  }

  /** A deletion keeps every row not carrying the key as often as the table
      holds it, and no other row. */
  lemma {:induction false} ExceptCount<T(!new)>(s: seq<T>, key: T -> string, k: string, x: T)
    ensures multiset(Except(s, key, k))[x] == if key(x) != k then multiset(s)[x] else 0
    decreases |s|
  {
    if s != [] {
      ExceptCount(s[1..], key, k, x);
      assert s == [s[0]] + s[1..];
    }
  }

  /** A selection and the deletion of the same key split the table: every
      row lands in exactly one of them, as often as it occurs in the table. */
  lemma WherePartition<T(!new)>(s: seq<T>, key: T -> string, k: string)
    ensures multiset(Where(s, key, k)) + multiset(Except(s, key, k)) == multiset(s)
  {
    forall x ensures (multiset(Where(s, key, k)) + multiset(Except(s, key, k)))[x] == multiset(s)[x] {
      WhereCount(s, key, k, x);
      ExceptCount(s, key, k, x);
    }
  }

  lemma ConcatCount<T>(a: seq<T>, b: seq<T>, x: T)
    ensures multiset(a + b)[x] == multiset(a)[x] + multiset(b)[x]
  {
  }

  lemma HeadCount<T>(s: seq<T>, x: T)
    requires s != []
    ensures multiset(s)[x] == (if s[0] == x then 1 else 0) + multiset(s[1..])[x]
  {
    assert s == [s[0]] + s[1..];
  }

  /** Counting one more occurrence adds one more factor. */
  lemma MulSplit(n: nat, rest: nat, m: int, head: bool)
    requires n == (if head then 1 else 0) + rest
    ensures n * m == (if head then m else 0) + rest * m
  {
  }

  /** The count of a matching row in `head ++ rest` is the head's part plus
      the rest's. */
  lemma CountStep(n: nat, rest: nat, m: int, here: int, later: int, head: bool, matches: bool)
    requires n == (if head then 1 else 0) + rest
    requires here == if matches && head then m else 0
    requires later == if matches then rest * m else 0
    ensures (if matches then n * m else 0) == here + later
  {
    if matches {
      MulSplit(n, rest, m, head);
    }
  }

  lemma AppendAssoc<T>(a: seq<T>, b: seq<T>, c: seq<T>)
    ensures (a + b) + c == a + (b + c)
  {
  }

  /** Selecting on a key every row carries returns the rows unchanged, in order. */
  lemma {:induction false} WhereAll<T(!new)>(s: seq<T>, key: T -> string, k: string)
    requires forall i :: 0 <= i < |s| ==> key(s[i]) == k
    ensures Where(s, key, k) == s
    decreases |s|
  {
    if s != [] {
      WhereAll(s[1..], key, k);
    }
  }

  /** Selecting a key no row carries yields nothing. */
  lemma {:induction false} WhereNone<T(!new)>(s: seq<T>, key: T -> string, k: string)
    requires forall x :: x in s ==> key(x) != k
    ensures Where(s, key, k) == []
    decreases |s|
  {
    if s != [] {
      assert s[0] in s;
      WhereNone(s[1..], key, k);
    }
  }

  /** At most one row per key value. */
  ghost predicate UniqueKeys<T>(s: seq<T>, key: T -> string)
  {
    forall p, q :: 0 <= p < q < |s| ==> key(s[p]) != key(s[q])
  }

  /** With at most one row per key, removing a present key removes exactly
      that row and keeps the others in order. */
  lemma {:induction false} ExceptUniqueKey<T(!new)>(s: seq<T>, key: T -> string, i: nat)
    requires i < |s|
    requires UniqueKeys(s, key)
    ensures Except(s, key, key(s[i])) == s[..i] + s[i + 1..]
    decreases |s|
  {
    var k := key(s[i]);
    var t := s[1..];
    UniqueTail(s, key);
    if i == 0 {
      ExceptNone(t, key, k);
      assert Except(s, key, k) == Except(t, key, k);
    } else {
      assert key(s[0]) != k;
      assert t[i - 1] == s[i];
      ExceptUniqueKey(t, key, i - 1);
      assert Except(s, key, k) == [s[0]] + Except(t, key, k);
      assert t[..i - 1] == s[1..i];
      assert t[i..] == s[i + 1..];
      ConsSlices(s, i);
    }
  }

  lemma ConsSlices<T>(s: seq<T>, i: nat)
    requires 0 < i < |s|
    ensures [s[0]] + (s[1..i] + s[i + 1..]) == s[..i] + s[i + 1..]
  {
    assert s[..i] == [s[0]] + s[1..i];
  }

  /** Dropping the first row keeps keys unique, and no later row shares the
      first row's key. */
  lemma UniqueTail<T>(s: seq<T>, key: T -> string)
    requires s != [] && UniqueKeys(s, key)
    ensures UniqueKeys(s[1..], key)
    ensures forall j :: 0 <= j < |s[1..]| ==> key(s[1..][j]) != key(s[0])
  {
    var t := s[1..];
    forall p, q | 0 <= p < q < |t| ensures key(t[p]) != key(t[q]) {
      assert t[p] == s[p + 1] && t[q] == s[q + 1];
    }
    forall j | 0 <= j < |t| ensures key(t[j]) != key(s[0]) {
      assert t[j] == s[j + 1];
    }
  }

  /** Appending a row whose key no present row carries keeps keys unique. */
  lemma UniqueAppend<T(!new)>(s: seq<T>, key: T -> string, y: T)
    requires UniqueKeys(s, key)
    requires Where(s, key, key(y)) == []
    ensures UniqueKeys(s + [y], key)
  {
    forall p, q | 0 <= p < q < |s + [y]| ensures key((s + [y])[p]) != key((s + [y])[q]) {
      assert (s + [y])[p] == s[p] && s[p] in s;
    }
  }

  /** Deleting rows keeps keys unique. */
  lemma {:induction false} UniqueExcept<T(!new)>(s: seq<T>, key: T -> string, k: string)
    requires UniqueKeys(s, key)
    ensures UniqueKeys(Except(s, key, k), key)
    decreases |s|
  {
    if s != [] {
      var t := s[1..];
      UniqueTail(s, key);
      UniqueExcept(t, key, k);
      var e := Except(t, key, k);
      if key(s[0]) != k {
        assert Except(s, key, k) == [s[0]] + e;
        forall q | 0 <= q < |e| ensures key(e[q]) != key(s[0]) {
          assert e[q] in e;
          var j :| 0 <= j < |t| && t[j] == e[q];
        }
      } else {
        assert Except(s, key, k) == e;
      }
    }
  }

  /** Rewriting rows without touching their keys keeps keys unique. */
  lemma UniqueSameKeys<T>(s: seq<T>, s': seq<T>, key: T -> string)
    requires UniqueKeys(s, key)
    requires |s'| == |s| && forall i :: 0 <= i < |s| ==> key(s'[i]) == key(s[i])
    ensures UniqueKeys(s', key)
  {
  }

  /** With unique keys a selection returns at most one row, and one exactly
      when some row carries the key. */
  lemma {:induction false} WhereAtMostOne<T(!new)>(s: seq<T>, key: T -> string, k: string)
    requires UniqueKeys(s, key)
    ensures |Where(s, key, k)| <= 1
    ensures |Where(s, key, k)| == 1 <==> exists x :: x in s && key(x) == k
    decreases |s|
  {
    if s != [] {
      UniqueTail(s, key);
      WhereAtMostOne(s[1..], key, k);
      if key(s[0]) == k {
        forall x | x in s[1..] ensures key(x) != k {
          var j :| 0 <= j < |s[1..]| && s[1..][j] == x;
        }
        WhereNone(s[1..], key, k);
      }
      if |Where(s, key, k)| == 0 {
        assert forall x :: x in s ==> key(x) != k by {
          forall x | x in s ensures key(x) != k {
            assert x !in Where(s, key, k);
          }
        }
      } else {
        assert Where(s, key, k)[0] in Where(s, key, k);
      }
    }
  }

  /** Deleting a key no row carries changes nothing. */
  lemma {:induction false} ExceptNone<T(!new)>(s: seq<T>, key: T -> string, k: string)
    requires forall i :: 0 <= i < |s| ==> key(s[i]) != k
    ensures Except(s, key, k) == s
    decreases |s|
  {
    if s != [] {
      ExceptNone(s[1..], key, k);
    }
  }

  /** The head of a selection is the first row of the table carrying the key. */
  lemma {:induction false} WhereFirst<T(!new)>(s: seq<T>, key: T -> string, k: string)
    requires Where(s, key, k) != []
    ensures exists j :: 0 <= j < |s| && s[j] == Where(s, key, k)[0] && key(s[j]) == k
                        && forall i :: 0 <= i < j ==> key(s[i]) != k
    decreases |s|
  {
    if key(s[0]) != k {
      WhereFirst(s[1..], key, k);
      var j :| 0 <= j < |s[1..]| && s[1..][j] == Where(s[1..], key, k)[0] && key(s[1..][j]) == k
                && forall i :: 0 <= i < j ==> key(s[1..][i]) != k;
      assert s[j + 1] == Where(s, key, k)[0];
      forall i | 0 <= i < j + 1 ensures key(s[i]) != k {
        if i > 0 {
          assert s[i] == s[1..][i - 1];
        }
      }
    } else {
      assert s[0] == Where(s, key, k)[0];
    }
  }
}
