/** Text handling applied to every input field: Python's `str.strip()` with no arguments. */
module Text {

  /** The characters for which Python's `str.isspace()` holds. */
  const Whitespace: set<char> := {
      '\U{0009}', '\U{000A}', '\U{000B}', '\U{000C}', '\U{000D}', '\U{001C}', '\U{001D}', '\U{001E}',
      '\U{001F}', '\U{0020}', '\U{0085}', '\U{00A0}', '\U{1680}', '\U{2000}', '\U{2001}', '\U{2002}',
      '\U{2003}', '\U{2004}', '\U{2005}', '\U{2006}', '\U{2007}', '\U{2008}', '\U{2009}', '\U{200A}',
      '\U{2028}', '\U{2029}', '\U{202F}', '\U{205F}', '\U{3000}'
    }

  predicate IsWhitespace(c: char) {
    c in Whitespace
  }

  /** A field the application treats as not filled in. */
  predicate IsBlank(s: string) {
    forall i :: 0 <= i < |s| ==> IsWhitespace(s[i])
  }

  /** `s.strip()`: drops whitespace from both ends; the result is empty exactly when `s`
      is blank, and otherwise starts and ends with a non-space character of `s`. */
  function Strip(s: string): (r: string)
    ensures |r| <= |s|
    ensures r == [] <==> IsBlank(s)
    ensures r == [] || (!IsWhitespace(r[0]) && !IsWhitespace(r[|r| - 1]))
  {
    if s == [] then []
    else if IsWhitespace(s[0]) then Strip(s[1..])
    else if IsWhitespace(s[|s| - 1]) then Strip(s[..|s| - 1])
    else s
  }

  /** Stripping an already stripped field changes nothing. */
  lemma StripIdempotent(s: string)
    ensures Strip(Strip(s)) == Strip(s)
  {
  }

  /** `r` is `s[i..j]`, with only whitespace before `i` and after `j`. */
  predicate TrimmedAt(s: string, r: string, i: nat, j: nat) {
    && i <= j <= |s| && r == s[i..j]
    && (forall k :: 0 <= k < i ==> IsWhitespace(s[k]))
    && (forall k :: j <= k < |s| ==> IsWhitespace(s[k]))
  }

  /** Stripping removes only whitespace, and only from the two ends: the result is a
      contiguous slice of `s` with only whitespace before it and after it. */
  lemma {:induction false} StripIsSlice(s: string)
    ensures exists i: nat, j: nat :: TrimmedAt(s, Strip(s), i, j)
  {
    if s == [] {
      assert TrimmedAt(s, Strip(s), 0, 0);
    } else if IsWhitespace(s[0]) {
      StripIsSlice(s[1..]);
      var i: nat, j: nat :| TrimmedAt(s[1..], Strip(s[1..]), i, j);
      TrimmedAfterFirst(s, Strip(s[1..]), i, j);
      assert Strip(s) == Strip(s[1..]);
      assert TrimmedAt(s, Strip(s), i + 1, j + 1);
    } else if IsWhitespace(s[|s| - 1]) {
      StripIsSlice(s[..|s| - 1]);
      var i: nat, j: nat :| TrimmedAt(s[..|s| - 1], Strip(s[..|s| - 1]), i, j);
      TrimmedBeforeLast(s, Strip(s[..|s| - 1]), i, j);
      assert Strip(s) == Strip(s[..|s| - 1]);
      assert TrimmedAt(s, Strip(s), i, j);
    } else {
      assert TrimmedAt(s, Strip(s), 0, |s|);
    }
  }

  /** Whitespace in front of a trimmed slice leaves it a trimmed slice. */
  lemma TrimmedAfterFirst(s: string, r: string, i: nat, j: nat)
    requires s != [] && IsWhitespace(s[0])
    requires TrimmedAt(s[1..], r, i, j)
    ensures TrimmedAt(s, r, i + 1, j + 1)
  {
    var t := s[1..];
    assert t[i..j] == s[i + 1..j + 1];
    assert forall k :: 1 <= k < |s| ==> s[k] == t[k - 1];
  }

  /** Whitespace after a trimmed slice leaves it a trimmed slice. */
  lemma TrimmedBeforeLast(s: string, r: string, i: nat, j: nat)
    requires s != [] && IsWhitespace(s[|s| - 1])
    requires TrimmedAt(s[..|s| - 1], r, i, j)
    ensures TrimmedAt(s, r, i, j)
  {
    var p := s[..|s| - 1];
    assert p[i..j] == s[i..j];
    assert forall k :: 0 <= k < |p| ==> s[k] == p[k];
  }
}
