/** The string operations of JavaScript that the dashboard relies on: the `\s`
    class of regular expressions (which is also the set `trim()` removes),
    `trim()`, `toLowerCase()` and `replace(/\s+/g, '')`. */
module Text {
  import opened Seqs

  /** JavaScript line terminators: LF, CR, LINE SEPARATOR, PARAGRAPH SEPARATOR.
      The regular-expression `.` matches every character except these. */
  predicate IsLineTerminator(c: char) {
    c == '\n' || c == '\r' || c as int == 0x2028 || c as int == 0x2029
  }

  /** The `\s` class: JavaScript white space (TAB, VT, FF, SPACE, NBSP, BOM and the
      Unicode space separators) together with the line terminators. */
  predicate IsSpace(c: char) {
    var n := c as int;
    n == 0x09 || n == 0x0B || n == 0x0C || n == 0x20 || n == 0xA0 || n == 0xFEFF
    || n == 0x1680 || (0x2000 <= n <= 0x200A) || n == 0x202F || n == 0x205F || n == 0x3000
    || IsLineTerminator(c)
  }

  predicate AllSpace(s: string) {
    forall i :: 0 <= i < |s| ==> IsSpace(s[i])
  }

  predicate NoLineTerminator(s: string) {
    forall i :: 0 <= i < |s| ==> !IsLineTerminator(s[i])
  }

  /** `s.trimStart()`: drops the leading white space. */
  function TrimStart(s: string): (t: string)
    ensures |t| <= |s| && t == s[|s| - |t|..]
    ensures t == [] || !IsSpace(t[0])
    ensures AllSpace(s[..|s| - |t|])
  {
    if s != [] && IsSpace(s[0]) then TrimStart(s[1..]) else s
  }

  /** `s.trimEnd()`: drops the trailing white space. */
  function TrimEnd(s: string): (t: string)
    ensures |t| <= |s| && t == s[..|t|]
    ensures t == [] || !IsSpace(t[|t| - 1])
    ensures AllSpace(s[|t|..])
  {
    if s != [] && IsSpace(s[|s| - 1]) then TrimEnd(s[..|s| - 1]) else s
  }

  /** `s.trim()`: the inner part of `s` that neither starts nor ends with white space,
      with only white space dropped on either side. */
  function Trim(s: string): (t: string)
    ensures |t| <= |s|
    ensures t == [] || (!IsSpace(t[0]) && !IsSpace(t[|t| - 1]))
    ensures exists i :: 0 <= i <= |s| - |t| && t == s[i..i + |t|]
                        && AllSpace(s[..i]) && AllSpace(s[i + |t|..])
  {
    var u := TrimEnd(s);
    var t := TrimStart(u);
    assert t != [] ==> t[|t| - 1] == u[|u| - 1];
    var i := |u| - |t|;
    assert t == s[i..i + |t|] && s[..i] == u[..i] && s[i + |t|..] == s[|u|..];
    t
  }

  /** Leading white space in front of a string that does not start with white space
      is exactly what `trimStart()` removes. */
  lemma {:induction false} TrimStartOfSpacePrefix(w: string, rest: string)
    requires AllSpace(w)
    requires rest == [] || !IsSpace(rest[0])
    ensures TrimStart(w + rest) == rest
  {
    if w != [] {
      assert (w + rest)[1..] == w[1..] + rest;
      TrimStartOfSpacePrefix(w[1..], rest);
    } else {
      assert w + rest == rest;
    }
  }

  /** White space appended to a string does not survive `trim()`. */
  lemma {:induction false} TrimEndIgnoresTrailingSpace(s: string, w: string)
    requires AllSpace(w)
    ensures TrimEnd(s + w) == TrimEnd(s)
    decreases |w|
  {
    if w != [] {
      var w' := w[..|w| - 1];
      assert (s + w)[..|s + w| - 1] == s + w';
      TrimEndIgnoresTrailingSpace(s, w');
    } else {
      assert s + w == s;
    }
  }

  lemma TrimIgnoresTrailingSpace(s: string, w: string)
    requires AllSpace(w)
    ensures Trim(s + w) == Trim(s)
  {
    TrimEndIgnoresTrailingSpace(s, w);
  }

  /** A string of white space only trims to the empty string. */
  lemma TrimOfSpace(w: string)
    requires AllSpace(w)
    ensures Trim(w) == []
  {
    TrimEndIgnoresTrailingSpace([], w);
    assert [] + w == w;
  }

  predicate IsUpperAscii(c: char) {
    'A' <= c <= 'Z'
  }

  /** `toLowerCase()` on one character, for the ASCII letters. */
  function LowerChar(c: char): (d: char)
    ensures !IsUpperAscii(d)
    ensures IsSpace(d) <==> IsSpace(c)
  {
    if IsUpperAscii(c) then (c as int + 32) as char else c
  }

  /** `s.toLowerCase()`. */
  function ToLower(s: string): (t: string)
    ensures |t| == |s|
    ensures forall i :: 0 <= i < |s| ==> t[i] == LowerChar(s[i])
  {
    seq(|s|, i requires 0 <= i < |s| => LowerChar(s[i]))
  }

  /** `s.replace(/\s+/g, '')`: every run of white space removed. */
  function RemoveSpaces(s: string): (t: string)
    ensures |t| <= |s|
    ensures forall i :: 0 <= i < |t| ==> !IsSpace(t[i])
    ensures forall c :: c in t <==> c in s && !IsSpace(c)
  {
    if s == [] then []
    else if IsSpace(s[0]) then RemoveSpaces(s[1..])
    else [s[0]] + RemoveSpaces(s[1..])
  }

  /** A string without upper-case letters is its own lower case. */
  lemma ToLowerOfLower(s: string)
    requires forall i :: 0 <= i < |s| ==> !IsUpperAscii(s[i])
    ensures ToLower(s) == s
  {
  }

  /** A string without white space loses nothing. */
  lemma {:induction false} RemoveSpacesOfSpaceless(s: string)
    requires forall i :: 0 <= i < |s| ==> !IsSpace(s[i])
    ensures RemoveSpaces(s) == s
  {
    if s != [] {
      RemoveSpacesOfSpaceless(s[1..]);
      assert s == [s[0]] + s[1..];
    }
  }

  /** Removing white space from two strings joined is removing it from each. */
  lemma {:induction false} RemoveSpacesAppend(a: string, b: string)
    ensures RemoveSpaces(a + b) == RemoveSpaces(a) + RemoveSpaces(b)
  {
    if a == [] {
      assert a + b == b;
    } else {
      assert (a + b)[0] == a[0];
      assert (a + b)[1..] == a[1..] + b;
      RemoveSpacesAppend(a[1..], b);
    }
  }

  /** Removing white space keeps every other character, each copy of it, in order: it is
      `filter` with the test "not white space". */
  lemma {:induction false} RemoveSpacesIsFilter(s: string)
    ensures RemoveSpaces(s) == Filter(s, c => !IsSpace(c))
  {
    if s != [] {
      RemoveSpacesIsFilter(s[1..]);
    }
  }

  /** `s.startsWith(p)`. */
  predicate StartsWith(s: string, p: string) {
    |p| <= |s| && s[..|p|] == p
  }
}
