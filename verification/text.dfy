/** String helpers with JavaScript semantics: `String.prototype.trim` and
    the case mappings (restricted to ASCII letters). */
module Text {

  /** The characters `trim` removes: ECMAScript WhiteSpace (tab, vertical tab,
      form feed, space, no-break space, byte order mark and the Zs category)
      and LineTerminator (LF, CR, line and paragraph separators). */
  predicate IsSpace(c: char)
  {
    || c == '\t' || c == '\n' || c == '\U{B}' || c == '\U{C}' || c == '\r'
    || c == ' ' || c == '\U{A0}' || c == '\U{1680}'
    || ('\U{2000}' <= c <= '\U{200A}')
    || c == '\U{2028}' || c == '\U{2029}' || c == '\U{202F}' || c == '\U{205F}'
    || c == '\U{3000}' || c == '\U{FEFF}'
  }

  /** Every character of `s` is white space (`s.trim()` is empty). */
  predicate Blank(s: string)
  {
    forall i :: 0 <= i < |s| ==> IsSpace(s[i])
  }

  /** Neither end of `s` is white space. */
  predicate Trimmed(s: string)
  {
    s == [] || (!IsSpace(s[0]) && !IsSpace(s[|s| - 1]))
  }

  function TrimStart(s: string): (r: string)
    ensures |r| <= |s| && r == s[|s| - |r|..]
    ensures Blank(s[..|s| - |r|])
    ensures r == [] || !IsSpace(r[0])
  {
    if |s| == 0 || !IsSpace(s[0]) then s
    else
      var r := TrimStart(s[1..]);
      assert s[1..][..|s| - 1 - |r|] == s[1..|s| - |r|];
      r
  }

  function TrimEnd(s: string): (r: string)
    ensures |r| <= |s| && r == s[..|r|]
    ensures Blank(s[|r|..])
    ensures r == [] || !IsSpace(r[|r| - 1])
  {
    if |s| == 0 || !IsSpace(s[|s| - 1]) then s
    else
      var r := TrimEnd(s[..|s| - 1]);
      assert s[..|s| - 1][|r|..] == s[|r|..|s| - 1];
      r
  }

  /** `s.trim()`: the slice of `s` that remains after removing white space
      from both ends. */
  function Trim(s: string): (r: string)
    ensures Trimmed(r)
    ensures exists a, b :: 0 <= a <= b <= |s| && r == s[a..b] && Blank(s[..a]) && Blank(s[b..])
  {
    var t := TrimStart(s);
    var a := |s| - |t|;
    TrimEndOfSuffix(s, t);
    assert Blank(s[..a]);
    TrimEnd(t)
  }

  /** Trimming the end of the suffix `t` of `s` cuts a blank tail off `s`. */
  lemma TrimEndOfSuffix(s: string, t: string)
    requires |t| <= |s| && t == s[|s| - |t|..]
    requires t == [] || !IsSpace(t[0])
    ensures var r, a := TrimEnd(t), |s| - |t|;
      && a + |r| <= |s| && r == s[a..a + |r|] && Blank(s[a + |r|..]) && Trimmed(r)
  {
    var r := TrimEnd(t);
    var a := |s| - |t|;
    assert s[a + |r|..] == t[|r|..];
    assert r != [] ==> r[0] == t[0];
  }

  /** Trimming leaves an already trimmed string alone. */
  lemma TrimOfTrimmed(s: string)
    requires Trimmed(s)
    ensures Trim(s) == s
  {
  }

  /** `s.trim()` is empty exactly when `s` is all white space. */
  lemma TrimEmptyIffBlank(s: string)
    ensures Trim(s) == [] <==> Blank(s)
  {
    var a, b :| 0 <= a <= b <= |s| && Trim(s) == s[a..b] && Blank(s[..a]) && Blank(s[b..]);
    if Trim(s) == [] {
      forall i | 0 <= i < |s| ensures IsSpace(s[i]) {
        if i < a { assert s[..a][i] == s[i]; } else { assert s[b..][i - b] == s[i]; }
      }
    } else {
      var t := Trim(s);
      assert t[0] == s[a] && !IsSpace(t[0]);
    }
  }

  /** ASCII `toUpperCase` of one character. */
  function UpperChar(c: char): char
  {
    if 'a' <= c <= 'z' then (c as int - 32) as char else c
  }

  /** ASCII `toLowerCase` of one character. */
  function LowerChar(c: char): char
  {
    if 'A' <= c <= 'Z' then (c as int + 32) as char else c
  }

  function ToLower(s: string): (r: string)
    ensures |r| == |s|
    ensures forall i :: 0 <= i < |s| ==> r[i] == LowerChar(s[i])
  {
    seq(|s|, i requires 0 <= i < |s| => LowerChar(s[i]))
  }

  /** Case mapping never turns a letter into white space or back. */
  lemma CaseKeepsSpace(c: char)
    ensures IsSpace(UpperChar(c)) <==> IsSpace(c)
    ensures IsSpace(LowerChar(c)) <==> IsSpace(c)
  {
  }

  /** Lower-casing forgets any upper-casing done before. */
  lemma LowerOfUpper(c: char)
    ensures LowerChar(UpperChar(c)) == LowerChar(c)
    ensures UpperChar(UpperChar(c)) == UpperChar(c)
  {
  }
}
