/** The name sanitiser `get_valid_filename`: strip surrounding whitespace,
    keep at most the first 32 characters, then delete every character that
    is not `-`, `.` or a word character. It never fails. */
module Sanitizer {

  /** Longest name the sanitiser keeps. */
  const MaxLength: nat := 32

  /** Python's `str.isspace`: the characters `str.strip()` removes. */
  predicate IsWhitespace(c: char)
  {
    || '\t' <= c <= '\r'
    || '\U{1C}' <= c <= '\U{1F}'
    || c == ' '
    || c == '\U{85}'
    || c == '\U{A0}'
    || c == '\U{1680}'
    || '\U{2000}' <= c <= '\U{200A}'
    || c == '\U{2028}'
    || c == '\U{2029}'
    || c == '\U{202F}'
    || c == '\U{205F}'
    || c == '\U{3000}'
  }

  /** The regular-expression class `\w`, approximated by its ASCII part. */
  predicate IsWordChar(c: char)
  {
    'a' <= c <= 'z' || 'A' <= c <= 'Z' || '0' <= c <= '9' || c == '_'
  }

  /** The characters the pattern `[^-\w.]` does not match. */
  predicate IsAllowed(c: char)
  {
    c == '-' || c == '.' || IsWordChar(c)
  }

  predicate AllAllowed(s: string)
  {
    forall i :: 0 <= i < |s| ==> IsAllowed(s[i])
  }

  /** `a` can be obtained from `b` by deleting characters. */
  predicate IsSubsequence(a: string, b: string)
    decreases |b|
  {
    if a == [] then true
    else if b == [] then false
    else if a[0] == b[0] then IsSubsequence(a[1..], b[1..])
    else IsSubsequence(a, b[1..])
  }

  /** Number of whitespace characters `s` starts with. */
  function LeadingWhitespace(s: string): (n: nat)
    ensures n <= |s|
    ensures forall k :: 0 <= k < n ==> IsWhitespace(s[k])
    ensures n < |s| ==> !IsWhitespace(s[n])
  {
    if s != [] && IsWhitespace(s[0]) then 1 + LeadingWhitespace(s[1..]) else 0
  }

  /** Number of whitespace characters `s` ends with. */
  function TrailingWhitespace(s: string): (n: nat)
    ensures n <= |s|
    ensures forall k :: |s| - n <= k < |s| ==> IsWhitespace(s[k])
    ensures n < |s| ==> !IsWhitespace(s[|s| - 1 - n])
  {
    if s != [] && IsWhitespace(s[|s| - 1]) then 1 + TrailingWhitespace(s[..|s| - 1]) else 0
  }

  /** `s.strip()`: drop the leading, then the trailing whitespace. What is
      left neither starts nor ends with whitespace. */
  function Strip(s: string): (r: string)
    ensures |r| <= |s|
    ensures r == [] || (!IsWhitespace(r[0]) && !IsWhitespace(r[|r| - 1]))
  {
    var t := s[LeadingWhitespace(s)..];
    t[..|t| - TrailingWhitespace(t)]
  }

  /** What `strip` removes: `Strip(s)` is the slice of `s` that starts at
      the first non-whitespace character, and everything outside it is
      whitespace. */
  lemma StripSlice(s: string)
    ensures var i := LeadingWhitespace(s);
      && i + |Strip(s)| <= |s|
      && Strip(s) == s[i..i + |Strip(s)|]
      && (forall k :: 0 <= k < i ==> IsWhitespace(s[k]))
      && (forall k :: i + |Strip(s)| <= k < |s| ==> IsWhitespace(s[k]))
  {
    var i := LeadingWhitespace(s);
    var t := s[i..];
    var n := TrailingWhitespace(t);
    assert Strip(s) == t[..|t| - n];
    assert t[..|t| - n] == s[i..i + |t| - n];
    assert forall k :: i + |t| - n <= k < |s| ==> IsWhitespace(s[k]) by {
      forall k | i + |t| - n <= k < |s| ensures IsWhitespace(s[k]) {
        assert s[k] == t[k - i];
      }
    }
  }

  /** `s[:32]` when `s` is longer than 32 characters. */
  function Truncate(s: string): (r: string)
    ensures |r| == (if |s| <= MaxLength then |s| else MaxLength) && r == s[..|r|]
  {
    if |s| > MaxLength then s[..MaxLength] else s
  }

  /** `re.sub(r'(?u)[^-\w.]', '', s)`, written as a filter over the
      characters: the result keeps the allowed characters of `s` in their
      order and drops every other one. */
  function RemoveInvalid(s: string): (r: string)
    ensures |r| <= |s|
    ensures AllAllowed(r)
    ensures IsSubsequence(r, s)
    decreases |s|
  {
    if s == [] then []
    else if IsAllowed(s[0]) then [s[0]] + RemoveInvalid(s[1..])
    else RemoveInvalid(s[1..])
  }

  /** `get_valid_filename`. */
  function GetValidFilename(filename: string): (r: string)
    ensures |r| <= MaxLength
    ensures AllAllowed(r)
    ensures forall i :: 0 <= i < |r| ==> !IsWhitespace(r[i])
    ensures IsSubsequence(r, Truncate(Strip(filename)))
  {
    RemoveInvalid(Truncate(Strip(filename)))
  }

  /** Each allowed character occurs in the filter's output exactly as often
      as in its input; a disallowed one never occurs. */
  lemma {:induction false} RemoveInvalidCounts(s: string, c: char)
    ensures multiset(RemoveInvalid(s))[c] == if IsAllowed(c) then multiset(s)[c] else 0
    decreases |s|
  {
    if s != [] {
      RemoveInvalidCounts(s[1..], c);
      assert s == [s[0]] + s[1..];
    }
  }

  /** The filter is the identity exactly on strings made of allowed characters. */
  lemma {:induction false} RemoveInvalidIdentity(s: string)
    ensures RemoveInvalid(s) == s <==> AllAllowed(s)
    decreases |s|
  {
    if s != [] {
      RemoveInvalidIdentity(s[1..]);
      if !IsAllowed(s[0]) {
        assert |RemoveInvalid(s)| < |s|;
      }
    }
  }

  /** The filter deletes everything from a string with no allowed character. */
  lemma {:induction false} RemoveInvalidAllInvalid(s: string)
    requires forall i :: 0 <= i < |s| ==> !IsAllowed(s[i])
    ensures RemoveInvalid(s) == []
    decreases |s|
  {
    if s != [] {
      RemoveInvalidAllInvalid(s[1..]);
    }
  }

  /** Truncating a slice of `s` gives the slice of `s` that starts at the
      same place. */
  lemma TruncateSlice(s: string, i: nat, t: string)
    requires i + |t| <= |s| && t == s[i..i + |t|]
    ensures i + |Truncate(t)| <= |s| && Truncate(t) == s[i..i + |Truncate(t)|]
  {
    assert Truncate(t) == t[..|Truncate(t)|];
  }

  /** Stripping happens before truncation: the (at most) 32 characters the
      filter sees are counted from the first non-whitespace character. */
  lemma TruncateCountsFromFirstNonWhitespace(s: string)
    ensures var i := LeadingWhitespace(s);
      i + |Truncate(Strip(s))| <= |s| && Truncate(Strip(s)) == s[i..i + |Truncate(Strip(s))|]
  {
    var i := LeadingWhitespace(s);
    var t := Strip(s);
    assert i + |t| <= |s| && t == s[i..i + |t|] by { StripSlice(s); }
    assert i + |Truncate(t)| <= |s| && Truncate(t) == s[i..i + |Truncate(t)|] by {
      TruncateSlice(s, i, t);
    }
  }

  /** Of the stripped and truncated name, every allowed character is kept as
      often as it occurs, and no other character is. */
  lemma GetValidFilenameKeepsAllowed(s: string, c: char)
    ensures multiset(GetValidFilename(s))[c]
         == if IsAllowed(c) then multiset(Truncate(Strip(s)))[c] else 0
  {
    RemoveInvalidCounts(Truncate(Strip(s)), c);
  }

  /** A name of at most 32 allowed characters is returned unchanged. */
  lemma {:induction false} GetValidFilenameIdentity(s: string)
    requires |s| <= MaxLength && AllAllowed(s)
    ensures GetValidFilename(s) == s
  {
    assert Strip(s) == s;
    RemoveInvalidIdentity(s);
  }

  /** Sanitising an already sanitised name changes nothing. */
  lemma GetValidFilenameIdempotent(s: string)
    ensures GetValidFilename(GetValidFilename(s)) == GetValidFilename(s)
  {
    GetValidFilenameIdentity(GetValidFilename(s));
  }

  /** An input with no allowed character, whitespace-only input among them,
      sanitises to the empty string; no error is raised. */
  lemma GetValidFilenameAllInvalid(s: string)
    requires forall i :: 0 <= i < |s| ==> !IsAllowed(s[i])
    ensures GetValidFilename(s) == []
  {
    var t := Truncate(Strip(s));
    assert forall k :: 0 <= k < |t| ==> !IsAllowed(t[k]) by {
      TruncateCountsFromFirstNonWhitespace(s);
    }
    RemoveInvalidAllInvalid(t);
  }

  /** A whitespace-only input strips to nothing and sanitises to the empty string. */
  lemma GetValidFilenameAllWhitespace(s: string)
    requires forall i :: 0 <= i < |s| ==> IsWhitespace(s[i])
    ensures Strip(s) == [] && GetValidFilename(s) == []
  {
  }
}
