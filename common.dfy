/**
  * Value types and sequence/string helpers shared by the whole model:
  * an Option type (SQL NULL, JavaScript undefined), the code-point order on
  * text that SQLite's BINARY collation uses, JavaScript's `split(' ')`,
  * ASCII case mapping, and filters and key lookups over sequences.
  */
module Common {

  datatype Option<+T> = None | Some(value: T) {
    /** `x ?? d` / `COALESCE(x, d)` */
    function GetOr(default: T): T {
      match this
      case Some(v) => v
      case None => default
    }
  }

  // ---------------------------------------------------------------------
  // Code-point order on text (SQLite BINARY collation, memcmp on UTF-8,
  // which orders strings exactly as their code points do)
  // ---------------------------------------------------------------------

  /** Lexicographic `a <= b`. */
  predicate StrLe(a: string, b: string)
  {
    a == [] || (b != [] && (a[0] < b[0] || (a[0] == b[0] && StrLe(a[1..], b[1..]))))
  }

  predicate StrLt(a: string, b: string)
  {
    StrLe(a, b) && a != b
  }

  lemma {:induction false} StrLeRefl(a: string)
    ensures StrLe(a, a)
  {
    if a != [] {
      StrLeRefl(a[1..]);
    }
  }

  lemma {:induction false} StrLeTotal(a: string, b: string)
    ensures StrLe(a, b) || StrLe(b, a)
  {
    if a != [] && b != [] && a[0] == b[0] {
      StrLeTotal(a[1..], b[1..]);
    }
  }

  lemma {:induction false} StrLeTrans(a: string, b: string, c: string)
    requires StrLe(a, b) && StrLe(b, c)
    ensures StrLe(a, c)
  {
    if a != [] && b != [] && c != [] && a[0] == b[0] && b[0] == c[0] {
      StrLeTrans(a[1..], b[1..], c[1..]);
    }
  }

  lemma {:induction false} StrLeAntisym(a: string, b: string)
    requires StrLe(a, b) && StrLe(b, a)
    ensures a == b
  {
    if a != [] && b != [] {
      StrLeAntisym(a[1..], b[1..]);
      assert a == [a[0]] + a[1..] && b == [b[0]] + b[1..];
    }
  }

  // ---------------------------------------------------------------------
  // JavaScript String.prototype.split with a one-character separator
  // ---------------------------------------------------------------------

  /** `s.split(sep)`: the pieces between separators, empty pieces included. */
  function Split(s: string, sep: char): (pieces: seq<string>)
    ensures |pieces| >= 1
    ensures forall i :: 0 <= i < |pieces| ==> sep !in pieces[i]
    decreases |s|
  {
    if s == [] then [[]]
    else
      assert s == [s[0]] + s[1..];
      var rest := Split(s[1..], sep);
      if s[0] == sep then [[]] + rest
      else [[s[0]] + rest[0]] + rest[1..]
  }

  /** One more piece than there are separators. */
  lemma {:induction false} SplitCount(s: string, sep: char)
    ensures |Split(s, sep)| == multiset(s)[sep] + 1
    decreases |s|
  {
    if s != [] {
      SplitCount(s[1..], sep);
      assert s == [s[0]] + s[1..];
      assert multiset(s) == multiset{s[0]} + multiset(s[1..]);
    }
  }

  /** `pieces.join(sep)` */
  function Join(pieces: seq<string>, sep: char): string
    requires |pieces| >= 1
    decreases |pieces|
  {
    if |pieces| == 1 then pieces[0] else pieces[0] + [sep] + Join(pieces[1..], sep)
  }

  /** Splitting and re-joining on the same separator gives the text back. */
  lemma {:induction false} SplitJoin(s: string, sep: char)
    ensures Join(Split(s, sep), sep) == s
    decreases |s|
  {
    if s != [] {
      var rest := Split(s[1..], sep);
      var pieces := Split(s, sep);
      SplitJoin(s[1..], sep);
      assert Join(rest, sep) == s[1..];
      assert s == [s[0]] + s[1..];
      if s[0] == sep {
        assert pieces == [[]] + rest;
        assert pieces[1..] == rest;
        assert Join(pieces, sep) == [] + [sep] + Join(rest, sep);
      } else {
        assert pieces == [[s[0]] + rest[0]] + rest[1..];
        if |rest| == 1 {
          assert Join(pieces, sep) == [s[0]] + rest[0];
        } else {
          assert pieces[1..] == rest[1..];
          assert Join(rest, sep) == rest[0] + [sep] + Join(rest[1..], sep);
          assert Join(pieces, sep) == ([s[0]] + rest[0]) + [sep] + Join(rest[1..], sep);
        }
      }
    }
  }

  /** The text before the first occurrence of `sep` (all of it when there is none). */
  function UpTo(s: string, sep: char): (r: string)
    ensures r <= s && sep !in r
    ensures |r| < |s| ==> s[|r|] == sep
    decreases |s|
  {
    if s == [] || s[0] == sep then [] else [s[0]] + UpTo(s[1..], sep)
  }

  /** The first piece of a split is the text before the first separator. */
  lemma {:induction false} SplitFirstPiece(s: string, sep: char)
    ensures Split(s, sep)[0] == UpTo(s, sep)
    decreases |s|
  {
    if s != [] && s[0] != sep {
      SplitFirstPiece(s[1..], sep);
    }
  }

  /** A separator-free prefix followed by the separator is exactly the first piece. */
  lemma {:induction false} SplitAfterPrefix(p: string, sep: char, rest: string)
    requires sep !in p
    ensures Split(p + [sep] + rest, sep) == [p] + Split(rest, sep)
    decreases |p|
  {
    if p == [] {
      assert p + [sep] + rest == [sep] + rest;
      assert ([sep] + rest)[1..] == rest;
    } else {
      assert (p + [sep] + rest)[1..] == p[1..] + [sep] + rest;
      SplitAfterPrefix(p[1..], sep, rest);
      assert [p[0]] + p[1..] == p;
    }
  }

  // ---------------------------------------------------------------------
  // ASCII case mapping and substring search
  // ---------------------------------------------------------------------

  function LowerChar(c: char): char
  {
    if 'A' <= c <= 'Z' then (c as int + 32) as char else c
  }

  function UpperChar(c: char): char
  {
    if 'a' <= c <= 'z' then (c as int - 32) as char else c
  }

  function Lower(s: string): string
  {
    seq(|s|, i requires 0 <= i < |s| => LowerChar(s[i]))
  }

  function Upper(s: string): string
  {
    seq(|s|, i requires 0 <= i < |s| => UpperChar(s[i]))
  }

  /** `t` occurs in `s` at some position (the reference definition of a substring). */
  ghost predicate OccursIn(t: string, s: string)
  {
    exists i :: OccursAt(t, s, i)
  }

  predicate OccursAt(t: string, s: string, i: int)
  {
    0 <= i <= |s| - |t| && s[i..i + |t|] == t
  }

  /** Substring search by scanning `s` from the left. */
  predicate HasInfix(t: string, s: string)
    decreases |s|
  {
    t <= s || (s != [] && HasInfix(t, s[1..]))
  }

  lemma OccursAtShift(t: string, s: string, i: int)
    requires s != [] && i >= 1
    ensures OccursAt(t, s, i) <==> OccursAt(t, s[1..], i - 1)
  {
    if i - 1 <= |s[1..]| - |t| {
      assert s[1..][i - 1..i - 1 + |t|] == s[i..i + |t|];
    }
  }

  lemma {:induction false} HasInfixSound(t: string, s: string)
    requires HasInfix(t, s)
    ensures OccursIn(t, s)
    decreases |s|
  {
    if t <= s {
      assert OccursAt(t, s, 0);
    } else {
      HasInfixSound(t, s[1..]);
      var i :| OccursAt(t, s[1..], i);
      OccursAtShift(t, s, i + 1);
    }
  }

  lemma {:induction false} HasInfixComplete(t: string, s: string, i: int)
    requires OccursAt(t, s, i)
    ensures HasInfix(t, s)
    decreases |s|
  {
    if i == 0 {
      assert t <= s;
    } else {
      OccursAtShift(t, s, i);
      HasInfixComplete(t, s[1..], i - 1);
    }
  }

  /** The left-to-right scan finds `t` exactly when it occurs somewhere in `s`. */
  lemma HasInfixIff(t: string, s: string)
    ensures HasInfix(t, s) <==> OccursIn(t, s)
  {
    if HasInfix(t, s) {
      HasInfixSound(t, s);
    }
    if OccursIn(t, s) {
      var i :| OccursAt(t, s, i);
      HasInfixComplete(t, s, i);
    }
  }

  // ---------------------------------------------------------------------
  // Filters and sums over sequences
  // ---------------------------------------------------------------------

  /** The elements of `s` that satisfy `keep`, in their order. */
  function Filter<T(!new)>(s: seq<T>, keep: T -> bool): (r: seq<T>)
    ensures |r| <= |s|
    ensures forall x :: x in r <==> x in s && keep(x)
    decreases |s|
  {
    if s == [] then []
    else
      assert s == [s[0]] + s[1..];
      if keep(s[0]) then [s[0]] + Filter(s[1..], keep) else Filter(s[1..], keep)
  }

  /** Filtering a list with one more element in front. */
  lemma FilterCons<T(!new)>(x: T, s: seq<T>, keep: T -> bool)
    ensures Filter([x] + s, keep) == if keep(x) then [x] + Filter(s, keep) else Filter(s, keep)
  {
    assert ([x] + s)[1..] == s;
  }

  /** No two positions of `s` share a key. */
  ghost predicate UniqueKey<T, K>(s: seq<T>, key: T -> K)
  {
    forall i, j :: 0 <= i < j < |s| ==> key(s[i]) != key(s[j])
  }

  /** The keys present in `s`. */
  function KeySet<T, K>(s: seq<T>, key: T -> K): set<K>
  {
    set i | 0 <= i < |s| :: key(s[i])
  }

  /** The first position whose key is `k`, if any. */
  function IndexOf<T, K(==)>(s: seq<T>, key: T -> K, k: K): (r: Option<nat>)
    ensures r.Some? ==> r.value < |s| && key(s[r.value]) == k
    ensures r.None? <==> k !in KeySet(s, key)
    decreases |s|
  {
    if s == [] then None
    else if key(s[0]) == k then Some(0)
    else
      var r := IndexOf(s[1..], key, k);
      assert k in KeySet(s[1..], key) ==> k in KeySet(s, key) by {
        if k in KeySet(s[1..], key) {
          var i :| 0 <= i < |s[1..]| && key(s[1..][i]) == k;
          assert key(s[i + 1]) == k;
        }
      }
      assert k in KeySet(s, key) ==> k in KeySet(s[1..], key) by {
        if k in KeySet(s, key) {
          var i :| 0 <= i < |s| && key(s[i]) == k;
          assert i > 0 && key(s[1..][i - 1]) == k;
        }
      }
      if r.None? then None else Some(r.value + 1)
  }

  /** With unique keys, the position holding a key is the one IndexOf finds. */
  lemma IndexOfUnique<T, K>(s: seq<T>, key: T -> K, i: nat)
    requires UniqueKey(s, key) && i < |s|
    ensures IndexOf(s, key, key(s[i])) == Some(i)
  {
    assert key(s[i]) in KeySet(s, key);
  }

  /** Filtering keeps keys unique. */
  lemma {:induction false} FilterKeepsUnique<T(!new), K>(s: seq<T>, keep: T -> bool, key: T -> K)
    requires UniqueKey(s, key)
    ensures UniqueKey(Filter(s, keep), key)
    decreases |s|
  {
    if s != [] {
      FilterKeepsUnique(s[1..], keep, key);
      var r := Filter(s[1..], keep);
      forall y | y in r ensures key(y) != key(s[0]) {
        var j :| 0 <= j < |s[1..]| && s[1..][j] == y;
        assert s[j + 1] == y;
      }
    }
  }

  /** With unique keys, filtering out one key removes exactly the one row that has it. */
  lemma {:induction false} FilterRemovesOne<T(!new)>(s: seq<T>, keep: T -> bool, i: nat)
    requires i < |s| && !keep(s[i])
    requires forall j :: 0 <= j < |s| && j != i ==> keep(s[j])
    ensures Filter(s, keep) == s[..i] + s[i + 1..]
    decreases |s|
  {
    var t := s[1..];
    if i == 0 {
      forall j | 0 <= j < |t| ensures keep(t[j]) {
        assert t[j] == s[j + 1];
      }
      FilterAll(t, keep);
    } else {
      forall j | 0 <= j < |t| && j != i - 1 ensures keep(t[j]) {
        assert t[j] == s[j + 1];
      }
      FilterRemovesOne(t, keep, i - 1);
      KeptHeadSlices(s, keep, i);
    }
  }

  /** Keeping the head in front of the tail with its (i-1)-th element removed removes the i-th element. */
  lemma KeptHeadSlices<T(!new)>(s: seq<T>, keep: T -> bool, i: nat)
    requires 0 < i < |s| && keep(s[0])
    requires Filter(s[1..], keep) == s[1..][..i - 1] + s[1..][i..]
    ensures Filter(s, keep) == s[..i] + s[i + 1..]
  {
    var t := s[1..];
    var kept := [s[0]] + (t[..i - 1] + t[i..]);
    var removed := s[..i] + s[i + 1..];
    assert Filter(s, keep) == kept;
    forall k | 0 <= k < |removed| ensures kept[k] == removed[k] {
      if k >= i {
        assert kept[k] == t[k] == s[k + 1];
      }
    }
    assert kept == removed;
  }

  lemma {:induction false} FilterAll<T(!new)>(s: seq<T>, keep: T -> bool)
    requires forall j :: 0 <= j < |s| ==> keep(s[j])
    ensures Filter(s, keep) == s
    decreases |s|
  {
    if s != [] {
      FilterAll(s[1..], keep);
    }
  }
}
