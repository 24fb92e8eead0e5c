/** The few string operations of JavaScript the modelled code relies on:
    the whitespace class shared by `\s`/`\S` and `String.prototype.trim`,
    `trim`, `split` on a one-character separator and `join`. */
module JsStrings {

  /** ECMAScript WhiteSpace and LineTerminator code points: the set that the
      regular-expression class `\s` matches and that `trim` strips. */
  predicate IsWhitespace(c: char) {
    || c == ' ' || c == '\t' || c == '\n' || c == '\r'
    || c == '\U{000B}' || c == '\U{000C}'
    || c == '\U{00A0}' || c == '\U{1680}'
    || ('\U{2000}' <= c <= '\U{200A}')
    || c == '\U{2028}' || c == '\U{2029}' || c == '\U{202F}'
    || c == '\U{205F}' || c == '\U{3000}' || c == '\U{FEFF}'
  }

  predicate AllWhitespace(s: string) {
    forall i :: 0 <= i < |s| ==> IsWhitespace(s[i])
  }

  predicate NoWhitespace(s: string) {
    forall i :: 0 <= i < |s| ==> !IsWhitespace(s[i])
  }

  /** Number of whitespace characters at the start of s. */
  function LeadingWhitespace(s: string): (k: nat)
    ensures k <= |s|
    ensures AllWhitespace(s[..k])
    ensures k < |s| ==> !IsWhitespace(s[k])
  {
    if |s| == 0 || !IsWhitespace(s[0]) then 0
    else
      var k' := LeadingWhitespace(s[1..]);
      assert s[1..][..k'] == s[1..k' + 1];
      1 + k'
  }

  /** Number of whitespace characters at the end of s. */
  function TrailingWhitespace(s: string): (k: nat)
    ensures k <= |s|
    ensures AllWhitespace(s[|s| - k..])
    ensures k < |s| ==> !IsWhitespace(s[|s| - k - 1])
  {
    if |s| == 0 || !IsWhitespace(s[|s| - 1]) then 0
    else
      var k' := TrailingWhitespace(s[..|s| - 1]);
      assert s[..|s| - 1][|s| - 1 - k'..] == s[|s| - 1 - k'..|s| - 1];
      1 + k'
  }

  /** r is what trimming s must give: a slice of s, everything cut away is
      whitespace, and r neither starts nor ends with whitespace. */
  ghost predicate IsTrimOf(r: string, s: string) {
    && (exists i, j :: 0 <= i <= j <= |s| && r == s[i..j]
                       && AllWhitespace(s[..i]) && AllWhitespace(s[j..]))
    && (r == [] || (!IsWhitespace(r[0]) && !IsWhitespace(r[|r| - 1])))
  }

  /** `s.trim()` */
  function Trim(s: string): string
  {
    var i := LeadingWhitespace(s);
    var rest := s[i..];
    s[i..|s| - TrailingWhitespace(rest)]
  }

  /** Trim cuts exactly the leading and trailing whitespace. */
  lemma TrimIsTrim(s: string)
    ensures IsTrimOf(Trim(s), s)
  {
    var i := LeadingWhitespace(s);
    var rest := s[i..];
    var k := TrailingWhitespace(rest);
    var j := |s| - k;
    var r := Trim(s);
    assert rest[|rest| - k..] == s[j..];
    assert r == s[i..j];
    assert AllWhitespace(s[..i]) && AllWhitespace(s[j..]);
    if r != [] {
      assert r[0] == s[i] && i < |s|;
      assert r[|r| - 1] == rest[|rest| - k - 1];
    }
  }

  /** A whitespace-free character after a whitespace-only prefix marks
      where the leading whitespace ends. */
  lemma LeadingEnd(s: string, i: nat)
    requires i < |s| && AllWhitespace(s[..i]) && !IsWhitespace(s[i])
    ensures LeadingWhitespace(s) == i
  {
  }

  /** A whitespace-free character before a whitespace-only suffix marks
      where the trailing whitespace starts. */
  lemma TrailingStart(s: string, j: nat)
    requires 0 < j <= |s| && AllWhitespace(s[j..]) && !IsWhitespace(s[j - 1])
    ensures TrailingWhitespace(s) == |s| - j
  {
  }

  /** An all-whitespace string trims to the empty string. */
  lemma TrimAllWhitespace(s: string)
    requires AllWhitespace(s)
    ensures Trim(s) == []
  {
    assert LeadingWhitespace(s) == |s|;
  }

  /** A non-empty slice s[i..j] with whitespace-free ends and only
      whitespace around it is the trim of s. */
  lemma TrimOfSlice(s: string, i: nat, j: nat)
    requires i < j <= |s|
    requires AllWhitespace(s[..i]) && AllWhitespace(s[j..])
    requires !IsWhitespace(s[i]) && !IsWhitespace(s[j - 1])
    ensures Trim(s) == s[i..j]
  {
    LeadingEnd(s, i);
    var rest := s[i..];
    assert rest[j - i..] == s[j..];
    TrailingStart(rest, j - i);
  }

  /** Whitespace before i and from j on, with nothing between, makes all of
      s whitespace. */
  lemma WhitespaceAround(s: string, i: nat, j: nat)
    requires i == j <= |s|
    requires AllWhitespace(s[..i]) && AllWhitespace(s[j..])
    ensures AllWhitespace(s)
  {
    assert s == s[..i] + s[j..];
  }

  /** The trim of s is the only string that satisfies IsTrimOf. */
  lemma TrimUnique(r: string, s: string)
    requires IsTrimOf(r, s)
    ensures r == Trim(s)
  {
    var i, j :| 0 <= i <= j <= |s| && r == s[i..j]
                && AllWhitespace(s[..i]) && AllWhitespace(s[j..]);
    if i < j {
      assert |r| == j - i && r[0] == s[i] && r[|r| - 1] == s[j - 1];
    }
    TrimOfBounds(s, i, j);
  }

  /** A slice with only whitespace around it, and whitespace-free ends when
      it is non-empty, is the trim of s. */
  lemma TrimOfBounds(s: string, i: nat, j: nat)
    requires i <= j <= |s|
    requires AllWhitespace(s[..i]) && AllWhitespace(s[j..])
    requires i == j || (!IsWhitespace(s[i]) && !IsWhitespace(s[j - 1]))
    ensures Trim(s) == s[i..j]
  {
    if i == j {
      WhitespaceAround(s, i, j);
      TrimAllWhitespace(s);
    } else {
      TrimOfSlice(s, i, j);
    }
  }

  /** Index of the first occurrence of c in s, or |s| when there is none. */
  function IndexOf(s: string, c: char): (i: nat)
    ensures i <= |s|
    ensures i < |s| ==> s[i] == c
    ensures c !in s[..i]
  {
    if |s| == 0 then 0
    else if s[0] == c then 0
    else
      var i' := IndexOf(s[1..], c);
      assert s[..i' + 1] == [s[0]] + s[1..][..i'];
      1 + i'
  }

  /** `parts.join(sep)` for a one-character separator. */
  function Join(parts: seq<string>, sep: char): string
  {
    if |parts| == 0 then ""
    else if |parts| == 1 then parts[0]
    else parts[0] + [sep] + Join(parts[1..], sep)
  }

  /** `s.split(sep)` for a one-character separator: the pieces between
      separators, never an empty list, and joining them gives s back. */
  function Split(s: string, sep: char): (parts: seq<string>)
    ensures |parts| >= 1
    decreases |s|
  {
    var i := IndexOf(s, sep);
    if i == |s| then [s]
    else [s[..i]] + Split(s[i + 1..], sep)
  }

  /** No piece of a split holds the separator, and joining the pieces with
      it restores the input. */
  lemma {:induction false} JoinSplit(s: string, sep: char)
    ensures forall k :: 0 <= k < |Split(s, sep)| ==> sep !in Split(s, sep)[k]
    ensures Join(Split(s, sep), sep) == s
    decreases |s|
  {
    var i := IndexOf(s, sep);
    if i == |s| {
      assert s[..i] == s;
    } else {
      var rest := Split(s[i + 1..], sep);
      var parts := Split(s, sep);
      JoinSplit(s[i + 1..], sep);
      assert parts == [s[..i]] + rest;
      assert parts[1..] == rest;
      assert Join(parts, sep) == s[..i] + [sep] + Join(rest, sep);
      assert s == s[..i] + [sep] + s[i + 1..];
      forall k | 0 <= k < |parts| ensures sep !in parts[k] {
        if k > 0 { assert parts[k] == rest[k - 1]; }
      }
    }
  }

  /** The first piece of a split is the longest separator-free prefix. */
  lemma SplitFirst(s: string, sep: char)
    ensures Split(s, sep)[0] == s[..IndexOf(s, sep)]
  {
  }

  lemma SplitPrefix(a: string, b: string, sep: char)
    requires sep !in a
    ensures Split(a + [sep] + b, sep) == [a] + Split(b, sep)
  {
    var s := a + [sep] + b;
    var i := IndexOf(s, sep);
    assert s[|a|] == sep;
    assert s[..|a|] == a;
    assert i == |a|;
    assert s[..i] == a;
    assert s[i + 1..] == b;
  }

  /** Splitting a join gives the parts back when none contains the separator. */
  lemma {:induction false} SplitJoin(parts: seq<string>, sep: char)
    requires |parts| >= 1
    requires forall k :: 0 <= k < |parts| ==> sep !in parts[k]
    ensures Split(Join(parts, sep), sep) == parts
    decreases |parts|
  {
    if |parts| == 1 {
      assert IndexOf(parts[0], sep) == |parts[0]|;
    } else {
      SplitJoin(parts[1..], sep);
      SplitPrefix(parts[0], Join(parts[1..], sep), sep);
      assert parts == [parts[0]] + parts[1..];
    }
  }
}
