/**
 * The e-mail test the sign-up and login forms share: the pattern
 * `^[^\s@]+@[^\s@]+\.[^\s@]+$`, stated as the split the pattern describes,
 * and a direct check proved to accept exactly the same strings.
 */
module Email {
  import opened Text
  import opened Values

  /** One `[^\s@]+` run: non-empty, no white space, no `@`. */
  predicate Segment(t: string)
  {
    t != [] && forall k :: 0 <= k < |t| ==> !IsSpace(t[k]) && t[k] != '@'
  }

  /**
   * The pattern matches: an `@` at `i` and a `.` at `j` split the text into
   * three runs.
   */
  predicate SplitAt(s: string, i: int, j: int)
  {
    && 0 < i && i + 1 < j && j + 1 < |s| && s[i] == '@' && s[j] == '.'
    && Segment(s[..i]) && Segment(s[i + 1..j]) && Segment(s[j + 1..])
  }

  predicate MatchesPattern(s: string)
  {
    exists i, j :: 0 < i < j < |s| && SplitAt(s, i, j)
  }

  /** The position of the first `@`. */
  function FirstAt(s: string): (r: Option<nat>)
    ensures r.Some? ==> r.value < |s| && s[r.value] == '@' && forall k :: 0 <= k < r.value ==> s[k] != '@'
    ensures r.None? ==> forall k :: 0 <= k < |s| ==> s[k] != '@'
  {
    if s == [] then None
    else if s[0] == '@' then Some(0)
    else match FirstAt(s[1..])
      case None => None
      case Some(k) => Some(k + 1)
  }

  /**
   * The check: no white space, exactly one `@` and not first, and after it
   * a `.` that is neither the domain's first nor its last character.
   */
  predicate Valid(s: string)
  {
    match FirstAt(s)
    case None => false
    case Some(i) =>
      var domain := s[i + 1..];
      && 0 < i && NoSpace(s) && '@' !in domain
      && |domain| >= 3 && '.' in domain[1..|domain| - 1]
  }

  /** The check accepts exactly the strings the pattern matches. */
  lemma ValidIffPattern(s: string)
    ensures Valid(s) <==> MatchesPattern(s)
  {
    if Valid(s) {
      ValidMatches(s);
    }
    if MatchesPattern(s) {
      var i, j :| 0 < i < j < |s| && SplitAt(s, i, j);
      MatchIsValid(s, i, j);
    }
  }

  lemma ValidMatches(s: string)
    requires Valid(s)
    ensures MatchesPattern(s)
  {
    var i := FirstAt(s).value;
    var domain := s[i + 1..];
    var m :| 0 <= m < |domain[1..|domain| - 1]| && domain[1..|domain| - 1][m] == '.';
    var j := i + 2 + m;
    assert s[j] == '.';
    assert forall k :: 0 <= k < |domain| ==> domain[k] != '@';
    assert SplitAt(s, i, j);
  }

  lemma MatchIsValid(s: string, i: int, j: int)
    requires 0 < i < j < |s| && SplitAt(s, i, j)
    ensures Valid(s)
  {
    assert FirstAt(s) == Some(i) by {
      assert s[..i][0] == s[0];
      assert forall k :: 0 <= k < i ==> s[k] == s[..i][k];
    }
    SplitHasNoSpace(s, i, j);
    var domain := s[i + 1..];
    assert '@' !in domain by {
      forall k | 0 <= k < |domain| ensures domain[k] != '@' {
        if k < j - i - 1 { assert domain[k] == s[i + 1..j][k]; }
        else if k > j - i - 1 { assert domain[k] == s[j + 1..][k - (j - i)]; }
      }
    }
    assert domain[1..|domain| - 1][j - i - 2] == '.';
  }

  lemma SplitHasNoSpace(s: string, i: int, j: int)
    requires 0 < i < j < |s| && SplitAt(s, i, j)
    ensures NoSpace(s)
  {
    forall k | 0 <= k < |s| ensures !IsSpace(s[k]) {
      if k < i { assert s[k] == s[..i][k]; }
      else if i < k < j { assert s[k] == s[i + 1..j][k - i - 1]; }
      else if j < k { assert s[k] == s[j + 1..][k - j - 1]; }
    }
  }

  /** Examples: a plain address passes; a missing dot, a dot right after `@`, a space or a second `@` fail. */
  lemma Examples()
    ensures Valid("a@b.co")
    ensures !Valid("a@bco") && !Valid("a@.co") && !Valid("a b@c.de") && !Valid("a@b@c.de")
  {
    AcceptsPlainAddress();
    RefusesMalformed();
  }

  lemma AcceptsPlainAddress()
    ensures Valid("a@b.co")
  {
    assert FirstAt("a@b.co") == Some(1);
    assert "b.co"[1..3][0] == '.';
    assert NoSpace("a@b.co");
  }

  lemma RefusesMalformed()
    ensures !Valid("a@bco") && !Valid("a@.co") && !Valid("a b@c.de") && !Valid("a@b@c.de")
  {
    assert FirstAt("a@bco") == Some(1);
    assert FirstAt("a@.co") == Some(1);
    assert "a b@c.de"[1] == ' ';
    assert FirstAt("a@b@c.de") == Some(1);
    assert "a@b@c.de"[2..][1] == '@';
  }
}
