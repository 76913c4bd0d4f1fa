/**
 * The two string operations the comment extractor applies to a comment's
 * contents: Python's `str.strip()` (with no argument) and `str.lower()`,
 * restricted to ASCII.
 */
module Text {

  /** A character `str.strip()` removes: space, the controls from horizontal
      tab to carriage return, and the four ASCII information separators. */
  predicate IsSpace(c: char) {
    c == ' ' || ('\t' <= c <= '\r') || ('\U{1C}' <= c <= '\U{1F}')
  }

  predicate AllSpace(s: string) {
    forall i :: 0 <= i < |s| ==> IsSpace(s[i])
  }

  predicate IsUpper(c: char) {
    'A' <= c <= 'Z'
  }

  /** Neither starts nor ends with whitespace. */
  predicate Trimmed(s: string) {
    s == [] || (!IsSpace(s[0]) && !IsSpace(s[|s| - 1]))
  }

  /** Holds no upper-case letter. */
  predicate LowerCase(s: string) {
    forall i :: 0 <= i < |s| ==> !IsUpper(s[i])
  }

  /** What `strip().lower()` can return: trimmed and lower-case. */
  predicate Normalized(s: string) {
    Trimmed(s) && LowerCase(s)
  }

  /** `s` is `r` placed at offset `i` with only whitespace before and
      after it. */
  ghost predicate PaddedAt(r: string, s: string, i: int) {
    0 <= i && i + |r| <= |s| && AllSpace(s[..i]) && s[i..i + |r|] == r && AllSpace(s[i + |r|..])
  }

  /** Drops the leading whitespace: the result is the suffix of `s` that
      starts at its first non-space character. */
  function TrimStart(s: string): (r: string)
    ensures |r| <= |s| && r == s[|s| - |r|..]
    ensures AllSpace(s[..|s| - |r|])
    ensures r == [] || !IsSpace(r[0])
  {
    if s != [] && IsSpace(s[0]) then
      var r := TrimStart(s[1..]);
      assert s[..|s| - |r|] == [s[0]] + s[1..][..|s| - 1 - |r|];
      r
    else
      s
  }

  /** Drops the trailing whitespace: the result is the prefix of `s` that
      ends at its last non-space character. */
  function TrimEnd(s: string): (r: string)
    ensures |r| <= |s| && r == s[..|r|]
    ensures AllSpace(s[|r|..])
    ensures r == [] || !IsSpace(r[|r| - 1])
  {
    if s != [] && IsSpace(s[|s| - 1]) then
      var r := TrimEnd(s[..|s| - 1]);
      assert s[|r|..] == s[..|s| - 1][|r|..] + [s[|s| - 1]];
      r
    else
      s
  }

  /** `str.strip()`: `s` is the result surrounded by whitespace on both
      sides, and the result neither starts nor ends with whitespace. */
  function Strip(s: string): (r: string)
    ensures Trimmed(r)
    ensures PaddedAt(r, s, |s| - |TrimStart(s)|)
  {
    var t := TrimStart(s);
    var r := TrimEnd(t);
    TrimmedEnds(t, r);
    StripInfix(s, t, r);
    r
  }

  // Cutting the end off a text that starts with a non-space keeps that start.
  lemma TrimmedEnds(t: string, r: string)
    requires t == [] || !IsSpace(t[0])
    requires |r| <= |t| && r == t[..|r|] && (r == [] || !IsSpace(r[|r| - 1]))
    ensures Trimmed(r)
  {
    if r != [] {
      assert r[0] == t[0];
    }
  }

  // A prefix `r` of the suffix `t` of `s` sits in `s` at the offset where `t` starts.
  lemma StripInfix(s: string, t: string, r: string)
    requires |t| <= |s| && t == s[|s| - |t|..] && AllSpace(s[..|s| - |t|])
    requires |r| <= |t| && r == t[..|r|] && AllSpace(t[|r|..])
    ensures PaddedAt(r, s, |s| - |t|)
  {
    SliceOfSuffix(s, |s| - |t|, |r|);
  }

  // Slicing a suffix is slicing the whole text further along.
  lemma SliceOfSuffix(s: string, i: int, n: int)
    requires 0 <= i && 0 <= n && i + n <= |s|
    ensures s[i..][..n] == s[i..i + n]
    ensures s[i..][n..] == s[i + n..]
  {
  }

  function LowerChar(c: char): (d: char)
    ensures !IsUpper(d)
    ensures IsSpace(d) <==> IsSpace(c)
    ensures !IsUpper(c) ==> d == c
  {
    if IsUpper(c) then c - 'A' + 'a' else c
  }

  /** `str.lower()`: every upper-case letter becomes its lower-case
      counterpart and every other character is kept. */
  function Lower(s: string): (r: string)
    ensures |r| == |s| && LowerCase(r)
    ensures forall i :: 0 <= i < |s| && IsUpper(s[i]) ==> r[i] as int == s[i] as int + ('a' as int - 'A' as int)
    ensures forall i :: 0 <= i < |s| && !IsUpper(s[i]) ==> r[i] == s[i]
    ensures forall i :: 0 <= i < |s| ==> IsSpace(r[i]) == IsSpace(s[i])
    ensures LowerCase(s) ==> r == s
  {
    seq(|s|, i requires 0 <= i < |s| => LowerChar(s[i]))
  }

  /** Stripping a trimmed text padded with whitespace on both sides gives
      back that text. */
  lemma StripPadded(pre: string, s: string, post: string)
    requires AllSpace(pre) && AllSpace(post) && Trimmed(s)
    ensures Strip(pre + s + post) == s
  {
    if s == [] {
      assert AllSpace(pre + s + post);
      TrimStartAllSpace(pre + s + post);
    } else {
      assert pre + s + post == pre + (s + post);
      TrimStartPadded(pre, s + post);
      StripEndPadded(s, post);
    }
  }

  // Leading whitespace before a text that starts with a non-space is all
  // that `TrimStart` removes.
  lemma {:induction false} TrimStartPadded(pre: string, t: string)
    requires AllSpace(pre) && (t == [] || !IsSpace(t[0]))
    ensures TrimStart(pre + t) == t
  {
    if pre == [] {
      assert pre + t == t;
    } else {
      assert (pre + t)[1..] == pre[1..] + t;
      TrimStartPadded(pre[1..], t);
    }
  }

  /** A text made only of whitespace trims to nothing. */
  lemma TrimStartAllSpace(t: string)
    requires AllSpace(t)
    ensures TrimStart(t) == []
  {
  }

  // Trailing whitespace after a trimmed text is all that `TrimEnd` removes.
  lemma {:induction false} StripEndPadded(s: string, post: string)
    requires AllSpace(post) && Trimmed(s)
    ensures TrimEnd(s + post) == s
  {
    if post == [] {
      assert s + post == s;
    } else {
      assert (s + post)[..|s + post| - 1] == s + post[..|post| - 1];
      StripEndPadded(s, post[..|post| - 1]);
    }
  }

  /** A text without surrounding whitespace is left alone by stripping. */
  lemma StripTrimmed(s: string)
    requires Trimmed(s)
    ensures Strip(s) == s
  {
    assert TrimStart(s) == s;
    assert TrimEnd(s) == s;
  }

  /** Only one text is trimmed and sits in `s` with only whitespace around
      it, whatever its offset: the contract of `Strip` fixes its result. */
  lemma StripUnique(s: string, r: string, i: int, r': string, i': int)
    requires Trimmed(r) && PaddedAt(r, s, i)
    requires Trimmed(r') && PaddedAt(r', s, i')
    ensures r == r'
  {
    PaddedBounds(r, s, i);
    PaddedBounds(r', s, i');
    if r != [] && r' != [] {
      assert r == s[i..i + |r|];
    }
  }

  // Where a trimmed text sits in its padding: everything before and after
  // it is whitespace, and when it is not empty its ends are not.
  lemma PaddedBounds(r: string, s: string, i: int)
    requires Trimmed(r) && PaddedAt(r, s, i)
    ensures forall j :: 0 <= j < i ==> IsSpace(s[j])
    ensures forall j :: i + |r| <= j < |s| ==> IsSpace(s[j])
    ensures r == [] ==> forall j :: 0 <= j < |s| ==> IsSpace(s[j])
    ensures r != [] ==> !IsSpace(s[i]) && !IsSpace(s[i + |r| - 1])
  {
    forall j | 0 <= j < i
      ensures IsSpace(s[j])
    {
      assert s[..i][j] == s[j];
    }
    forall j | i + |r| <= j < |s|
      ensures IsSpace(s[j])
    {
      assert s[i + |r|..][j - i - |r|] == s[j];
    }
    if r != [] {
      assert s[i..i + |r|][0] == s[i];
      assert s[i..i + |r|][|r| - 1] == s[i + |r| - 1];
    }
  }

  /** Stripping twice is stripping once. */
  lemma StripIdempotent(s: string)
    ensures Strip(Strip(s)) == Strip(s)
  {
    StripTrimmed(Strip(s));
  }

  /** Lower-casing keeps a trimmed text trimmed. */
  lemma LowerTrimmed(t: string)
    requires Trimmed(t)
    ensures Normalized(Lower(t))
  {
    var r := Lower(t);
    if t != [] {
      assert IsSpace(r[0]) == IsSpace(t[0]);
      assert IsSpace(r[|r| - 1]) == IsSpace(t[|t| - 1]);
    }
  }

  /** `r` is `s` with whitespace dropped at both ends and the rest
      lower-cased. */
  ghost predicate Cleaned(r: string, s: string) {
    exists i :: CleanedAt(r, s, i)
  }

  /** `r` is `s` lower-cased between offset `i` and `i + |r|`, with only
      whitespace outside. */
  ghost predicate CleanedAt(r: string, s: string, i: int) {
    0 <= i <= |s| - |r| && AllSpace(s[..i]) && Lower(s[i..i + |r|]) == r && AllSpace(s[i + |r|..])
  }

  /** `s.strip().lower()`: the result is normalized, and it is `s` less its
      surrounding whitespace, lower-cased. */
  function StripLower(s: string): (r: string)
    ensures Normalized(r) && Cleaned(r, s)
  {
    StripLowerCleaned(s);
    LowerTrimmed(Strip(s));
    Lower(Strip(s))
  }

  // `strip().lower()` lower-cases the stripped text where it sits in `s`.
  lemma StripLowerCleaned(s: string)
    ensures Cleaned(Lower(Strip(s)), s)
  {
    LowerOfInfix(s, |s| - |TrimStart(s)|, Strip(s));
  }

  // Lower-casing a padded text keeps it where it was and its length.
  lemma LowerOfInfix(s: string, i: int, t: string)
    requires PaddedAt(t, s, i)
    ensures CleanedAt(Lower(t), s, i)
  {
    assert |Lower(t)| == |t|;
  }

  /** A normalized text padded with whitespace comes back from
      `strip().lower()` unchanged. */
  lemma StripLowerPadded(pre: string, s: string, post: string)
    requires AllSpace(pre) && AllSpace(post) && Normalized(s)
    ensures StripLower(pre + s + post) == s
  {
    StripPadded(pre, s, post);
  }
}
