/** The loose email check of the waitlist endpoint: `!email` rejects a
    missing or empty value, and the unanchored pattern `\S+@\S+\.\S+` must
    match somewhere in the string. */
module EmailCheck {
  import opened Wrappers
  import opened JsStrings

  /** s[a..e] is a match of `\S+@\S+\.\S+`, with the `@` at b and the `.`
      at c: three non-empty whitespace-free runs around them. */
  ghost predicate MatchAt(s: string, a: int, b: int, c: int, e: int) {
    && 0 <= a < b && b + 1 < c && c + 1 < e <= |s|
    && NoWhitespace(s[a..b]) && s[b] == '@'
    && NoWhitespace(s[b + 1..c]) && s[c] == '.'
    && NoWhitespace(s[c + 1..e])
  }

  /** `/\S+@\S+\.\S+/.test(s)`: the pattern matches somewhere in s. */
  ghost predicate PatternMatches(s: string) {
    exists a, b, c, e :: MatchAt(s, a, b, c, e)
  }

  /** The shortest match with its `@` at b and its `.` at c: one
      non-whitespace character before `@` and one after `.` suffice. */
  predicate ShapeAt(s: string, b: int, c: int) {
    && 1 <= b && b + 1 < c && c + 1 < |s|
    && !IsWhitespace(s[b - 1]) && s[b] == '@'
    && NoWhitespace(s[b + 1..c]) && s[c] == '.'
    && !IsWhitespace(s[c + 1])
  }

  /** The pattern matches exactly when some shortest match exists. */
  lemma PatternIffShape(s: string)
    ensures PatternMatches(s) <==> exists b, c :: ShapeAt(s, b, c)
  {
    if PatternMatches(s) {
      var a, b, c, e :| MatchAt(s, a, b, c, e);
      assert s[a..b][b - 1 - a] == s[b - 1];
      assert s[c + 1..e][0] == s[c + 1];
      assert ShapeAt(s, b, c);
    }
    if exists b, c :: ShapeAt(s, b, c) {
      var b, c :| ShapeAt(s, b, c);
      assert MatchAt(s, b - 1, b, c, c + 2);
    }
  }

  /** Searches for the `.` of a match whose `@` is at b, scanning from c
      until the run after `@` meets whitespace. */
  function DotFrom(s: string, b: nat, c: nat): bool
    decreases |s| - c
  {
    if c + 1 >= |s| then false
    else if IsWhitespace(s[c]) then false
    else ShapeAt(s, b, c) || DotFrom(s, b, c + 1)
  }

  /** Searches for a match whose `@` is at position b or later. */
  function AtFrom(s: string, b: nat): bool
    decreases |s| - b
  {
    if b >= |s| then false
    else (1 <= b && s[b] == '@' && !IsWhitespace(s[b - 1]) && DotFrom(s, b, b + 1))
         || AtFrom(s, b + 1)
  }

  /** With a whitespace-free run between `@` and c, the scan finds a `.` at
      or after c exactly when a shortest match with that `@` exists. */
  lemma {:induction false} DotFromFinds(s: string, b: nat, c: nat)
    requires 1 <= b && b + 1 <= c <= |s|
    requires NoWhitespace(s[b + 1..c])
    ensures DotFrom(s, b, c) <==> exists c' :: c <= c' && ShapeAt(s, b, c')
    decreases |s| - c
  {
    if c + 1 < |s| && !IsWhitespace(s[c]) {
      forall x | b + 1 <= x < c + 1 ensures !IsWhitespace(s[x]) {
        if x < c { assert s[x] == s[b + 1..c][x - b - 1]; }
      }
      DotFromFinds(s, b, c + 1);
    } else if c + 1 < |s| {
      // s[c] is whitespace: every later `.` has it inside its run after `@`
      forall c' | c < c' ensures !ShapeAt(s, b, c') {
        if c' <= |s| {
          assert s[b + 1..c'][c - b - 1] == s[c];
        }
      }
    }
  }

  /** The search from b finds a match exactly when a shortest match with
      its `@` at b or later exists. */
  lemma {:induction false} AtFromFinds(s: string, b: nat)
    ensures AtFrom(s, b) <==> exists b', c :: b <= b' && ShapeAt(s, b', c)
    decreases |s| - b
  {
    if b < |s| {
      if 1 <= b {
        DotFromFinds(s, b, b + 1);
      }
      AtFromFinds(s, b + 1);
      if exists b', c :: b <= b' && ShapeAt(s, b', c) {
        var b', c :| b <= b' && ShapeAt(s, b', c);
        if b' == b {
          assert DotFrom(s, b, b + 1);
        }
      }
    }
  }

  /** `/\S+@\S+\.\S+/.test(s)`, computed by a left-to-right search. */
  predicate IsLooseEmail(s: string) {
    AtFrom(s, 0)
  }

  /** The computed check agrees with the pattern on every string. */
  lemma IsLooseEmailMatches(s: string)
    ensures IsLooseEmail(s) <==> PatternMatches(s)
  {
    AtFromFinds(s, 0);
    PatternIffShape(s);
  }

  /** `!(!email || !/\S+@\S+\.\S+/.test(email))`: the value is present,
      non-empty and matches the pattern. */
  predicate Accepts(email: Option<string>) {
    email.Some? && email.value != "" && IsLooseEmail(email.value)
  }

  /** An email is accepted exactly when it is present and the pattern
      matches it; the empty-string test adds nothing. */
  lemma AcceptsIffPattern(email: Option<string>)
    ensures Accepts(email) <==> email.Some? && PatternMatches(email.value)
  {
    if email.Some? {
      IsLooseEmailMatches(email.value);
      if email.value == "" {
        ShortNeverMatches("");
      }
    }
  }

  /** A match needs at least five characters, so the empty-string test in
      front of the pattern rejects nothing the pattern would accept. */
  lemma ShortNeverMatches(s: string)
    requires |s| < 5
    ensures !PatternMatches(s)
  {
    PatternIffShape(s);
  }

  /** The pattern is unanchored: characters around a match, spaces included,
      do not stop it from matching. */
  lemma {:induction false} MatchSurvivesContext(pre: string, s: string, post: string)
    requires PatternMatches(s)
    ensures PatternMatches(pre + s + post)
  {
    var a, b, c, e :| MatchAt(s, a, b, c, e);
    var t := pre + s + post;
    var o := |pre|;
    SliceInContext(pre, s, post, a, b);
    SliceInContext(pre, s, post, b + 1, c);
    SliceInContext(pre, s, post, c + 1, e);
    assert t[b + o] == s[b] && t[c + o] == s[c];
    assert MatchAt(t, a + o, b + o, c + o, e + o);
  }

  lemma SliceInContext(pre: string, s: string, post: string, x: int, y: int)
    requires 0 <= x <= y <= |s|
    ensures (pre + s + post)[x + |pre|..y + |pre|] == s[x..y]
  {
    var t := pre + s + post;
    assert forall k :: x + |pre| <= k < y + |pre| ==> t[k] == s[k - |pre|];
  }

  /** Well-formed addresses, and one with text and spaces around it, are
      accepted. */
  lemma AcceptedExamples()
    ensures Accepts(Some("a@b.com"))
    ensures Accepts(Some("user@example.com"))
    ensures Accepts(Some(" hello a@b.c "))
  {
    AcceptedShape("a@b.com", 1, 3);
    AcceptedShape("user@example.com", 4, 12);
    AcceptedShape(" hello a@b.c ", 8, 10);
  }

  /** A shortest match anywhere in a string is enough for acceptance. */
  lemma AcceptedShape(s: string, b: int, c: int)
    requires ShapeAt(s, b, c)
    ensures Accepts(Some(s))
  {
    PatternIffShape(s);
    AcceptsIffPattern(Some(s));
  }

  /** A missing or empty value, text without `@`, and whitespace before `@`
      are rejected. */
  lemma RejectedExamples()
    ensures !Accepts(None)
    ensures !Accepts(Some(""))
    ensures !Accepts(Some("bad"))
    ensures !Accepts(Some("not-an-email"))
    ensures !Accepts(Some("a @b.c"))
  {
    ShortNeverMatches("bad");
    AcceptsIffPattern(Some("bad"));
    NoAtNoMatch("not-an-email");
    AcceptsIffPattern(Some("not-an-email"));
    PatternIffShape("a @b.c");
    AcceptsIffPattern(Some("a @b.c"));
  }

  /** Without an `@` there is no match. */
  lemma NoAtNoMatch(s: string)
    requires '@' !in s
    ensures !PatternMatches(s)
  {
    PatternIffShape(s);
  }
}
