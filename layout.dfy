/**
  * The two text helpers of the application shell: the initials shown in
  * the avatar and the readable form of a role name. Both are expression
  * chains over JavaScript strings; the current user's full name and the
  * role arrive as optional values.
  */
module Layout {
  import opened Common

  function NonEmpty(w: string): bool { w != "" }

  /** The words of a name: the pieces of `split(' ')` that are not empty. */
  function Words(name: string): seq<string>
  {
    Filter(Split(name, ' '), NonEmpty)
  }

  /**
    * `pieces.map(n => n[0]).join('')`: an empty piece has no first
    * character, `n[0]` is undefined there, and join writes nothing for it.
    */
  function FirstChars(pieces: seq<string>): string
  {
    if pieces == [] then ""
    else (if pieces[0] == "" then "" else [pieces[0][0]]) + FirstChars(pieces[1..])
  }

  /** The first characters are those of the non-empty pieces, one each, in order. */
  lemma {:induction false} FirstCharsOfWords(pieces: seq<string>)
    ensures |FirstChars(pieces)| == |Filter(pieces, NonEmpty)|
    ensures forall i :: 0 <= i < |FirstChars(pieces)| ==>
              Filter(pieces, NonEmpty)[i] != "" && FirstChars(pieces)[i] == Filter(pieces, NonEmpty)[i][0]
  {
    if pieces != [] {
      FirstCharsOfWords(pieces[1..]);
      assert pieces == [pieces[0]] + pieces[1..];
      FilterCons(pieces[0], pieces[1..], NonEmpty);
    }
  }

  /** `substring(0, 2)` */
  function Prefix2(s: string): (r: string)
    ensures r <= s && |r| == if |s| < 2 then |s| else 2
  {
    if |s| < 2 then s else s[..2]
  }

  /** getInitials: the upper-cased first characters of the first two words of the full name. */
  function GetInitials(fullName: Option<string>): (r: string)
    ensures fullName.None? || fullName.value == "" ==> r == ""
    ensures var words := Words(fullName.GetOr(""));
            && |r| == (if |words| < 2 then |words| else 2)
            && forall i :: 0 <= i < |r| ==> words[i] != "" && r[i] == UpperChar(words[i][0])
  {
    var name := fullName.GetOr("");
    FirstCharsOfWords(Split(name, ' '));
    Upper(Prefix2(FirstChars(Split(name, ' '))))
  }

  /** A doubled space between two words changes nothing: both spellings give the two words' upper-cased initials. */
  lemma {:induction false} ExtraSpacesIgnored(a: string, b: string)
    requires a != "" && b != "" && ' ' !in a && ' ' !in b
    ensures GetInitials(Some(a + " " + b)) == GetInitials(Some(a + "  " + b))
    ensures GetInitials(Some(a + " " + b)) == [UpperChar(a[0]), UpperChar(b[0])]
  {
    SplitTwoWords(a, b);
    assert Filter([b], NonEmpty) == [b] by { FilterCons(b, [], NonEmpty); }
    assert Words(a + " " + b) == [a, b] by { FilterCons(a, [b], NonEmpty); }
    assert Filter(["", b], NonEmpty) == [b] by { FilterCons("", [b], NonEmpty); }
    assert Words(a + "  " + b) == [a, b] by { FilterCons(a, ["", b], NonEmpty); }
    var initials := [UpperChar(a[0]), UpperChar(b[0])];
    var one := GetInitials(Some(a + " " + b));
    var two := GetInitials(Some(a + "  " + b));
    assert one == initials by {
      assert |one| == 2 && one[0] == initials[0] && one[1] == initials[1];
    }
    assert two == initials by {
      assert |two| == 2 && two[0] == initials[0] && two[1] == initials[1];
    }
  }

  /** Two words split into two pieces at one space, and into three, the middle one empty, at two. */
  lemma SplitTwoWords(a: string, b: string)
    requires ' ' !in a && ' ' !in b
    ensures Split(a + " " + b, ' ') == [a, b]
    ensures Split(a + "  " + b, ' ') == [a, "", b]
  {
    SplitAfterPrefix(a, ' ', b);
    SplitAfterPrefix(a, ' ', " " + b);
    SplitAfterPrefix([], ' ', b);
    assert a + " " + b == a + [' '] + b;
    assert a + "  " + b == a + [' '] + (" " + b);
    assert " " + b == [] + [' '] + b;
    SplitNoSep(b);
  }

  /** A text without the separator is a single piece. */
  lemma {:induction false} SplitNoSep(s: string)
    requires ' ' !in s
    ensures Split(s, ' ') == [s]
    decreases |s|
  {
    if s != [] {
      SplitNoSep(s[1..]);
      assert s == [s[0]] + s[1..];
    }
  }

  /** `s.replace(a, b)` with a one-character pattern: only the first occurrence is replaced. */
  function ReplaceFirst(s: string, a: char, b: char): string
  {
    if s == [] then []
    else if s[0] == a then [b] + s[1..]
    else [s[0]] + ReplaceFirst(s[1..], a, b)
  }

  /**
    * Without the pattern the text is unchanged; with it, the text before
    * the first occurrence and everything after it are kept, so any later
    * occurrence stays.
    */
  lemma {:induction false} ReplaceFirstSpec(s: string, a: char, b: char)
    ensures a !in s ==> ReplaceFirst(s, a, b) == s
    ensures a in s ==> ReplaceFirst(s, a, b) == UpTo(s, a) + [b] + s[|UpTo(s, a)| + 1..]
    ensures |ReplaceFirst(s, a, b)| == |s|
    decreases |s|
  {
    if s != [] && s[0] != a {
      var t := s[1..];
      ReplaceFirstSpec(t, a, b);
      assert s == [s[0]] + t;
      assert ReplaceFirst(s, a, b) == [s[0]] + ReplaceFirst(t, a, b);
      if a in s {
        assert a in t;
        assert UpTo(s, a) == [s[0]] + UpTo(t, a);
        assert s[|UpTo(s, a)| + 1..] == t[|UpTo(t, a)| + 1..];
      }
    }
  }

  /** formatRole: the first '_' becomes a space; no role, or an empty one, gives "". */
  function FormatRole(role: Option<string>): (r: string)
    ensures role.None? || role.value == "" ==> r == ""
    ensures role.Some? && '_' !in role.value ==> r == role.value
    ensures role.Some? && '_' in role.value ==>
              r == UpTo(role.value, '_') + " " + role.value[|UpTo(role.value, '_')| + 1..]
  {
    if role.None? then ""
    else
      ReplaceFirstSpec(role.value, '_', ' ');
      ReplaceFirst(role.value, '_', ' ')
  }

  lemma {:induction false} UpToPrefix(p: string, sep: char, rest: string)
    requires sep !in p
    ensures UpTo(p + [sep] + rest, sep) == p
    decreases |p|
  {
    if p != [] {
      assert (p + [sep] + rest)[1..] == p[1..] + [sep] + rest;
      UpToPrefix(p[1..], sep, rest);
      assert [p[0]] + p[1..] == p;
    }
  }

  /** A snake-case pair of words becomes two words: 'portfolio_manager' reads 'portfolio manager'. */
  lemma SnakeRole(a: string, b: string)
    requires '_' !in a
    ensures FormatRole(Some(a + "_" + b)) == a + " " + b
  {
    var s := a + "_" + b;
    assert s == a + ['_'] + b;
    UpToPrefix(a, '_', b);
    assert s[|a|] == '_';
    assert s[|a| + 1..] == b;
  }
}
