/**
  * SELECT DISTINCT key ... ORDER BY key and SELECT key, SUM(value) ...
  * GROUP BY key ORDER BY key, over text keys. A row is a pair
  * (group key, value); COUNT(*) is the sum of a 1 per row.
  */
module Grouping {
  import opened Common

  type Row = (string, int)

  ghost predicate StrictlyAscending(ks: seq<string>)
  {
    forall i, j :: 0 <= i < j < |ks| ==> StrLt(ks[i], ks[j])
  }

  ghost predicate NoDup(ks: seq<string>)
  {
    forall i, j :: 0 <= i < j < |ks| ==> ks[i] != ks[j]
  }

  lemma StrLtTrans(a: string, b: string, c: string)
    requires StrLt(a, b) && StrLt(b, c)
    ensures StrLt(a, c)
  {
    StrLeTrans(a, b, c);
    if a == c {
      StrLeAntisym(a, b);
    }
  }

  // ---------------------------------------------------------------------
  // DISTINCT ... ORDER BY
  // ---------------------------------------------------------------------

  /** Adds k to an ascending key list, in its place, unless it is there already. */
  function AddKey(ks: seq<string>, k: string): (r: seq<string>)
    ensures forall x :: x in r <==> x in ks || x == k
  {
    if ks == [] then [k]
    else if k == ks[0] then ks
    else if StrLe(k, ks[0]) then [k] + ks
    else
      assert ks == [ks[0]] + ks[1..];
      [ks[0]] + AddKey(ks[1..], k)
  }

  lemma {:induction false} AddKeyAscending(ks: seq<string>, k: string)
    requires StrictlyAscending(ks)
    ensures StrictlyAscending(AddKey(ks, k))
  {
    var r := AddKey(ks, k);
    if ks == [] || k == ks[0] {
    } else if StrLe(k, ks[0]) {
      forall i, j | 0 <= i < j < |r| ensures StrLt(r[i], r[j]) {
        if i == 0 && j > 1 {
          StrLtTrans(k, ks[0], ks[j - 1]);
        }
      }
    } else {
      StrLeTotal(k, ks[0]);
      var rest := AddKey(ks[1..], k);
      AddKeyAscending(ks[1..], k);
      assert r == [ks[0]] + rest;
      forall y | y in rest ensures StrLt(ks[0], y) {
        if y != k {
          var j :| 0 <= j < |ks[1..]| && ks[1..][j] == y;
          assert ks[j + 1] == y;
        }
      }
      forall i, j | 0 <= i < j < |r| ensures StrLt(r[i], r[j]) {
        if i == 0 {
          assert r[j] == rest[j - 1] && rest[j - 1] in rest;
        } else {
          assert r[i] == rest[i - 1] && r[j] == rest[j - 1];
        }
      }
    }
  }

  /** The distinct keys, ascending. */
  function Distinct(keys: seq<string>): (r: seq<string>)
    ensures StrictlyAscending(r)
    ensures forall x :: x in r <==> x in keys
  {
    if keys == [] then []
    else
      assert keys == [keys[0]] + keys[1..];
      AddKeyAscending(Distinct(keys[1..]), keys[0]);
      AddKey(Distinct(keys[1..]), keys[0])
  }

  /** An ascending list without repeats is determined by its members: Distinct is the only correct answer. */
  lemma {:induction false} AscendingDetermined(a: seq<string>, b: seq<string>)
    requires StrictlyAscending(a) && StrictlyAscending(b)
    requires forall x :: x in a <==> x in b
    ensures a == b
  {
    if a != [] && b != [] {
      assert a[0] in b && b[0] in a;
      var i :| 0 <= i < |b| && b[i] == a[0];
      var j :| 0 <= j < |a| && a[j] == b[0];
      if a[0] != b[0] {
        assert i > 0 && j > 0;
        assert StrLt(b[0], a[0]) && StrLt(a[0], b[0]);
        StrLtTrans(a[0], b[0], a[0]);
        assert false;
      }
      forall x ensures x in a[1..] <==> x in b[1..] {
        if x in a[1..] {
          var k :| 1 <= k < |a| && a[k] == x;
          assert x != a[0];
          assert x in b;
        }
        if x in b[1..] {
          var k :| 1 <= k < |b| && b[k] == x;
          assert x != b[0];
          assert x in a;
        }
      }
      AscendingDetermined(a[1..], b[1..]);
      assert a == [a[0]] + a[1..] && b == [b[0]] + b[1..];
    } else if a != [] {
      HeadIsMember(a);
      assert false;
    } else if b != [] {
      HeadIsMember(b);
      assert false;
    }
  }

  lemma HeadIsMember(s: seq<string>)
    requires s != []
    ensures s[0] in s
  {
  }

  lemma AscendingNoDup(ks: seq<string>)
    requires StrictlyAscending(ks)
    ensures NoDup(ks)
  {
    forall i, j | 0 <= i < j < |ks| ensures ks[i] != ks[j] {
      assert StrLt(ks[i], ks[j]);
    }
  }

  // ---------------------------------------------------------------------
  // SUM per group
  // ---------------------------------------------------------------------

  /** SUM(value) over the rows of group k, with COALESCE(.., 0): 0 when the group is empty. */
  function GroupSum(rows: seq<Row>, k: string): int
  {
    if rows == [] then 0
    else (if rows[0].0 == k then rows[0].1 else 0) + GroupSum(rows[1..], k)
  }

  /** SUM(value) over all rows, 0 when there are none. */
  function Total(rows: seq<Row>): int
  {
    if rows == [] then 0 else rows[0].1 + Total(rows[1..])
  }

  function Keys(rows: seq<Row>): seq<string>
  {
    seq(|rows|, i requires 0 <= i < |rows| => rows[i].0)
  }

  /** One (key, group sum) row per key of d, in the order of d. */
  function GroupRows(d: seq<string>, rows: seq<Row>): seq<Row>
  {
    seq(|d|, i requires 0 <= i < |d| => (d[i], GroupSum(rows, d[i])))
  }

  /** SELECT key, SUM(value) FROM rows GROUP BY key ORDER BY key */
  function GroupBy(rows: seq<Row>): seq<Row>
  {
    GroupRows(Distinct(Keys(rows)), rows)
  }

  lemma {:induction false} AbsentGroupIsZero(rows: seq<Row>, k: string)
    requires k !in Keys(rows)
    ensures GroupSum(rows, k) == 0
  {
    if rows != [] {
      assert rows[0].0 == Keys(rows)[0];
      assert Keys(rows[1..]) == Keys(rows)[1..];
      AbsentGroupIsZero(rows[1..], k);
    }
  }

  /** A group whose every row carries 0 sums to 0. */
  lemma {:induction false} ZeroGroup(rows: seq<Row>, k: string)
    requires forall i :: 0 <= i < |rows| && rows[i].0 == k ==> rows[i].1 == 0
    ensures GroupSum(rows, k) == 0
  {
    if rows != [] {
      ZeroGroup(rows[1..], k);
    }
  }

  /** Raising values row by row, keys unchanged, does not lower a group sum. */
  lemma {:induction false} GroupSumMonotone(a: seq<Row>, b: seq<Row>, k: string)
    requires |a| == |b|
    requires forall i :: 0 <= i < |a| ==> a[i].0 == b[i].0 && a[i].1 <= b[i].1
    ensures GroupSum(a, k) <= GroupSum(b, k)
  {
    if a != [] {
      GroupSumMonotone(a[1..], b[1..], k);
    }
  }

  lemma {:induction false} GroupSumNonneg(rows: seq<Row>, k: string)
    requires forall i :: 0 <= i < |rows| ==> rows[i].1 >= 0
    ensures GroupSum(rows, k) >= 0
  {
    if rows != [] {
      GroupSumNonneg(rows[1..], k);
    }
  }

  lemma {:induction false} TotalSameValues(a: seq<Row>, b: seq<Row>)
    requires |a| == |b| && forall i :: 0 <= i < |a| ==> a[i].1 == b[i].1
    ensures Total(a) == Total(b)
  {
    if a != [] {
      TotalSameValues(a[1..], b[1..]);
    }
  }

  lemma {:induction false} GroupRowsStep(d: seq<string>, rows: seq<Row>)
    requires rows != [] && NoDup(d)
    ensures Total(GroupRows(d, rows))
         == (if rows[0].0 in d then rows[0].1 else 0) + Total(GroupRows(d, rows[1..]))
  {
    if d != [] {
      var g, g' := GroupRows(d, rows), GroupRows(d, rows[1..]);
      assert g[1..] == GroupRows(d[1..], rows);
      assert g'[1..] == GroupRows(d[1..], rows[1..]);
      assert NoDup(d[1..]);
      GroupRowsStep(d[1..], rows);
      if d[0] == rows[0].0 {
        assert rows[0].0 !in d[1..];
      } else {
        assert rows[0].0 in d <==> rows[0].0 in d[1..];
      }
    }
  }

  /**
    * Summing the group sums over a list of distinct keys that covers every
    * row's key gives the sum over all rows: no row is lost or counted twice.
    */
  lemma {:induction false} GroupsCoverTotal(d: seq<string>, rows: seq<Row>)
    requires NoDup(d)
    requires forall i :: 0 <= i < |rows| ==> rows[i].0 in d
    ensures Total(GroupRows(d, rows)) == Total(rows)
  {
    if rows == [] {
      var g := GroupRows(d, rows);
      forall i | 0 <= i < |g| ensures g[i].1 == 0 { }
      ZeroTotal(g);
    } else {
      GroupRowsStep(d, rows);
      GroupsCoverTotal(d, rows[1..]);
    }
  }

  lemma {:induction false} ZeroTotal(rows: seq<Row>)
    requires forall i :: 0 <= i < |rows| ==> rows[i].1 == 0
    ensures Total(rows) == 0
  {
    if rows != [] {
      ZeroTotal(rows[1..]);
    }
  }

  /** What GROUP BY returns: each key present exactly once, ascending, with its group's sum; the sums add up to the total. */
  lemma GroupByFacts(rows: seq<Row>)
    ensures StrictlyAscending(Keys(GroupBy(rows)))
    ensures forall k :: k in Keys(GroupBy(rows)) <==> k in Keys(rows)
    ensures forall i :: 0 <= i < |GroupBy(rows)| ==> GroupBy(rows)[i].1 == GroupSum(rows, GroupBy(rows)[i].0)
    ensures Total(GroupBy(rows)) == Total(rows)
  {
    var d := Distinct(Keys(rows));
    assert Keys(GroupBy(rows)) == d;
    forall i | 0 <= i < |rows| ensures rows[i].0 in d {
      assert Keys(rows)[i] == rows[i].0;
    }
    GroupsCoverTotal(d, rows);
  }

  // ---------------------------------------------------------------------
  // COUNT(*) per group
  // ---------------------------------------------------------------------

  /** One row of value 1 per key: its group sums are the counts. */
  function Tally(keys: seq<string>): seq<Row>
  {
    seq(|keys|, i requires 0 <= i < |keys| => (keys[i], 1))
  }

  lemma {:induction false} TallyCounts(keys: seq<string>, k: string)
    ensures GroupSum(Tally(keys), k) == multiset(keys)[k]
    ensures Total(Tally(keys)) == |keys|
  {
    if keys != [] {
      assert Tally(keys)[1..] == Tally(keys[1..]);
      assert keys == [keys[0]] + keys[1..];
      TallyCounts(keys[1..], k);
    }
  }

  /** SELECT key, COUNT(*) GROUP BY key ORDER BY key */
  function CountBy(keys: seq<string>): seq<Row>
  {
    GroupBy(Tally(keys))
  }

  /** Each present key once, ascending, with its number of occurrences (at least 1); the counts add up to the row count. */
  lemma CountByFacts(keys: seq<string>)
    ensures StrictlyAscending(Keys(CountBy(keys)))
    ensures forall k :: k in Keys(CountBy(keys)) <==> k in keys
    ensures forall i :: 0 <= i < |CountBy(keys)| ==>
              CountBy(keys)[i].1 == multiset(keys)[CountBy(keys)[i].0] >= 1
    ensures Total(CountBy(keys)) == |keys|
  {
    var t := Tally(keys);
    assert Keys(t) == keys;
    GroupByFacts(t);
    TallyCounts(keys, "");
    forall i | 0 <= i < |CountBy(keys)|
      ensures CountBy(keys)[i].1 == multiset(keys)[CountBy(keys)[i].0] >= 1
    {
      var k := CountBy(keys)[i].0;
      TallyCounts(keys, k);
      assert k in Keys(CountBy(keys));
    }
  }
}
