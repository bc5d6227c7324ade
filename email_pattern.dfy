/** The address check of the contact endpoint: the ECMAScript regular
    expression /^[^\s@]+@[^\s@]+\.[^\s@]+$/, used without flags. */
module EmailPattern {

  /** The class `\s` of ECMA-262: the WhiteSpace code points (section 12.2:
      TAB, VT, FF, ZWNBSP and every Unicode "Space_Separator") and the
      LineTerminator code points (section 12.3: LF, CR, LS, PS). */
  predicate IsWhitespace(c: char): (b: bool)
    ensures c == ' ' || c == '\t' || c == '\n' || c == '\r' ==> b
    ensures ('0' <= c <= '9' || 'a' <= c <= 'z' || 'A' <= c <= 'Z' || c == '@' || c == '.') ==> !b
  {
    || c == '\U{0009}' || c == '\U{000B}' || c == '\U{000C}' || c == '\U{FEFF}'
    || c == '\U{0020}' || c == '\U{00A0}' || c == '\U{1680}'
    || ('\U{2000}' <= c <= '\U{200A}')
    || c == '\U{202F}' || c == '\U{205F}' || c == '\U{3000}'
    || c == '\U{000A}' || c == '\U{000D}' || c == '\U{2028}' || c == '\U{2029}'
  }

  /** A character of the class `[^\s@]`. */
  predicate IsAtom(c: char)
  {
    !IsWhitespace(c) && c != '@'
  }

  predicate AllAtoms(s: string)
  {
    forall k :: 0 <= k < |s| ==> IsAtom(s[k])
  }

  /** `emailRegex.test(s)`: the anchors make the whole input the match, and
      backtracking tries every split, so the pattern accepts exactly the
      strings `local + "@" + d1 + "." + d2` whose three parts are non-empty
      runs of `[^\s@]`. `i` is the position of the `@`, `j` that of the `.`. */
  predicate Matches(s: string): (b: bool)
    ensures b ==> 5 <= |s| && s[0] != '@' && s[|s| - 1] != '@'
    ensures b ==> '@' in s && '.' in s
  {
    exists i, j | 0 < i < |s| && i + 1 < j < |s| - 1 ::
      && s[i] == '@' && s[j] == '.'
      && AllAtoms(s[..i]) && AllAtoms(s[i + 1..j]) && AllAtoms(s[j + 1..])
  }

  /** The number of times `c` occurs in `s`. */
  function Occurrences(s: string, c: char): (n: nat)
    ensures n <= |s|
    ensures n == 0 <==> c !in s
  {
    if s == [] then 0
    else (if s[0] == c then 1 else 0) + Occurrences(s[1..], c)
  }

  /** The first position of `c` in `s`, or -1 when there is none. */
  function IndexOf(s: string, c: char): (r: int)
    ensures r == -1 <==> c !in s
    ensures r != -1 ==> 0 <= r < |s| && s[r] == c && c !in s[..r]
  {
    if s == [] then -1
    else if s[0] == c then 0
    else
      var r := IndexOf(s[1..], c);
      if r == -1 then -1
      else
        assert s[..r + 1] == [s[0]] + s[1..][..r];
        r + 1
  }

  predicate NoWhitespace(s: string)
  {
    forall k :: 0 <= k < |s| ==> !IsWhitespace(s[k])
  }

  /** `d` has a `.` that is neither its first nor its last character. */
  predicate HasInnerDot(d: string)
  {
    exists k | 0 < k < |d| - 1 :: d[k] == '.'
  }

  /** The shape of an accepted address in plain terms: no whitespace, exactly
      one `@`, something before it, and a `.` inside the part after it. */
  predicate PlainShape(s: string)
  {
    && NoWhitespace(s)
    && Occurrences(s, '@') == 1
    && var at := IndexOf(s, '@');
       0 < at && HasInnerDot(s[at + 1..])
  }

  lemma {:induction false} OccurrencesConcat(a: string, b: string, c: char)
    ensures Occurrences(a + b, c) == Occurrences(a, c) + Occurrences(b, c)
  {
    if a == [] {
      assert a + b == b;
    } else {
      assert (a + b)[1..] == a[1..] + b;
      OccurrencesConcat(a[1..], b, c);
    }
  }

  /** Given one occurrence of `c` at `i`, it is the only one exactly when
      neither side of `i` holds another. */
  lemma SoleOccurrence(s: string, i: nat, c: char)
    requires i < |s| && s[i] == c
    ensures Occurrences(s, c) == 1 <==> c !in s[..i] && c !in s[i + 1..]
  {
    assert s == s[..i] + [s[i]] + s[i + 1..];
    OccurrencesConcat(s[..i] + [s[i]], s[i + 1..], c);
    OccurrencesConcat(s[..i], [s[i]], c);
  }

  /** `c` is absent from `s[lo..]` when no position from `lo` on holds it. */
  lemma AbsentFromSuffix(s: string, lo: nat, c: char)
    requires lo <= |s|
    requires forall m :: lo <= m < |s| ==> s[m] != c
    ensures c !in s[lo..]
  {
    forall k | 0 <= k < |s[lo..]|
      ensures s[lo..][k] != c
    {
      assert s[lo..][k] == s[lo + k];
    }
  }

  lemma MatchesHasPlainShape(s: string)
    requires Matches(s)
    ensures PlainShape(s)
  {
    var i, j :| 0 < i < |s| && i + 1 < j < |s| - 1
      && s[i] == '@' && s[j] == '.'
      && AllAtoms(s[..i]) && AllAtoms(s[i + 1..j]) && AllAtoms(s[j + 1..]);
    forall k | 0 <= k < |s|
      ensures IsAtom(s[k]) || k == i || k == j
    {
      if k < i {
        assert s[k] == s[..i][k];
      } else if i < k < j {
        assert s[k] == s[i + 1..j][k - i - 1];
      } else if j < k {
        assert s[k] == s[j + 1..][k - j - 1];
      }
    }
    assert NoWhitespace(s);
    AbsentFromSuffix(s, i + 1, '@');
    SoleOccurrence(s, i, '@');
    assert IndexOf(s, '@') == i;
    assert s[i + 1..][j - i - 1] == '.';
  }

  lemma PlainShapeMatches(s: string)
    requires PlainShape(s)
    ensures Matches(s)
  {
    var i := IndexOf(s, '@');
    var d := s[i + 1..];
    var k :| 0 < k < |d| - 1 && d[k] == '.';
    var j := i + 1 + k;
    assert s[j] == '.';
    SoleOccurrence(s, i, '@');
    forall m | 0 <= m < |s| && m != i
      ensures IsAtom(s[m])
    {
      if m < i {
        assert s[..i][m] == s[m];
      } else {
        assert s[i + 1..][m - i - 1] == s[m];
      }
    }
    assert AllAtoms(s[..i]);
    assert AllAtoms(s[i + 1..j]);
    assert AllAtoms(s[j + 1..]);
  }

  /** The regular expression accepts a string exactly when it has the plain
      shape. */
  lemma Characterisation(s: string)
    ensures Matches(s) <==> PlainShape(s)
  {
    if Matches(s) {
      MatchesHasPlainShape(s);
    }
    if PlainShape(s) {
      PlainShapeMatches(s);
    }
  }
}
