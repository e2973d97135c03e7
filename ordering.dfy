/**
  * ORDER BY on one text column, as SQLite evaluates it: NULL sorts before
  * every text, text compares by code point (BINARY collation), DESC
  * reverses the whole order, NULLs included. Rows with equal keys may come
  * back in any order, so an ordering is specified as "a permutation of the
  * rows, sorted by the key"; OrderBy below is one such ordering.
  */
module Ordering {
  import opened Common

  /** A sort key: NULL or a text. */
  type Key = Option<string>

  predicate KeyLe(a: Key, b: Key)
  {
    a.None? || (b.Some? && StrLe(a.value, b.value))
  }

  /** a may come before b in ORDER BY ... ASC (desc false) or ... DESC (desc true). */
  predicate InOrder(a: Key, b: Key, desc: bool)
  {
    if desc then KeyLe(b, a) else KeyLe(a, b)
  }

  lemma KeyLeTotal(a: Key, b: Key)
    ensures KeyLe(a, b) || KeyLe(b, a)
  {
    if a.Some? && b.Some? {
      StrLeTotal(a.value, b.value);
    }
  }

  lemma KeyLeTrans(a: Key, b: Key, c: Key)
    requires KeyLe(a, b) && KeyLe(b, c)
    ensures KeyLe(a, c)
  {
    if a.Some? {
      StrLeTrans(a.value, b.value, c.value);
    }
  }

  lemma InOrderTotal(a: Key, b: Key, desc: bool)
    ensures InOrder(a, b, desc) || InOrder(b, a, desc)
  {
    KeyLeTotal(a, b);
  }

  lemma InOrderTrans(a: Key, b: Key, c: Key, desc: bool)
    requires InOrder(a, b, desc) && InOrder(b, c, desc)
    ensures InOrder(a, c, desc)
  {
    if desc { KeyLeTrans(c, b, a); } else { KeyLeTrans(a, b, c); }
  }

  ghost predicate SortedBy<T>(s: seq<T>, key: T -> Key, desc: bool)
  {
    forall i, j :: 0 <= i < j < |s| ==> InOrder(key(s[i]), key(s[j]), desc)
  }

  /** o is an admissible answer of ORDER BY key over the rows s: the same rows, sorted. */
  ghost predicate IsOrdering<T>(o: seq<T>, s: seq<T>, key: T -> Key, desc: bool)
  {
    multiset(o) == multiset(s) && SortedBy(o, key, desc)
  }

  /** Puts x in front of the first row it may precede. */
  function Insert<T>(x: T, s: seq<T>, key: T -> Key, desc: bool): (r: seq<T>)
    ensures multiset(r) == multiset(s) + multiset{x}
  {
    if s == [] || InOrder(key(x), key(s[0]), desc) then [x] + s
    else
      assert s == [s[0]] + s[1..];
      [s[0]] + Insert(x, s[1..], key, desc)
  }

  /** A row that may precede every row of a sorted list may go in front of it. */
  lemma ConsSortedBy<T>(x: T, s: seq<T>, key: T -> Key, desc: bool)
    requires SortedBy(s, key, desc)
    requires forall y :: y in s ==> InOrder(key(x), key(y), desc)
    ensures SortedBy([x] + s, key, desc)
  {
    var r := [x] + s;
    forall i, j | 0 <= i < j < |r| ensures InOrder(key(r[i]), key(r[j]), desc) {
      assert r[j] == s[j - 1];
      if i > 0 {
        assert r[i] == s[i - 1];
      }
    }
  }

  lemma {:induction false} InsertSorted<T>(x: T, s: seq<T>, key: T -> Key, desc: bool)
    requires SortedBy(s, key, desc)
    ensures SortedBy(Insert(x, s, key, desc), key, desc)
  {
    if s == [] {
    } else if InOrder(key(x), key(s[0]), desc) {
      forall y | y in s ensures InOrder(key(x), key(y), desc) {
        var j :| 0 <= j < |s| && s[j] == y;
        if j > 0 {
          InOrderTrans(key(x), key(s[0]), key(s[j]), desc);
        }
      }
      ConsSortedBy(x, s, key, desc);
    } else {
      InOrderTotal(key(x), key(s[0]), desc);
      var rest := Insert(x, s[1..], key, desc);
      InsertSorted(x, s[1..], key, desc);
      forall y | y in rest ensures InOrder(key(s[0]), key(y), desc) {
        assert y in multiset(rest);
        if y != x {
          assert y in multiset(s[1..]);
          var j :| 0 <= j < |s[1..]| && s[1..][j] == y;
          assert s[j + 1] == y;
        }
      }
      ConsSortedBy(s[0], rest, key, desc);
    }
  }

  /** The rows ordered by key: a permutation of the input, sorted. Equal keys keep the input order. */
  function OrderBy<T>(s: seq<T>, key: T -> Key, desc: bool): (r: seq<T>)
    ensures multiset(r) == multiset(s)
    ensures SortedBy(r, key, desc)
  {
    if s == [] then []
    else
      assert s == [s[0]] + s[1..];
      InsertSorted(s[0], OrderBy(s[1..], key, desc), key, desc);
      Insert(s[0], OrderBy(s[1..], key, desc), key, desc)
  }

  lemma PermutationLength<T>(a: seq<T>, b: seq<T>)
    requires multiset(a) == multiset(b)
    ensures |a| == |b|
  {
    assert |multiset(a)| == |a| && |multiset(b)| == |b|;
  }
}
