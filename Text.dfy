/** Character classes and the string built-ins the relay relies on:
    Python's str.strip() and str.title(), JavaScript's \s and \d. */
module Text {

  /** Whitespace as Python's str.isspace() (and so str.strip()) sees it. */
  predicate IsPySpace(c: char) {
    || ('\t' <= c <= '\r')                // \t \n \v \f \r
    || ('\U{1C}' <= c <= '\U{1F}')        // file, group, record and unit separators
    || c == ' ' || c == '\U{85}' || c == '\U{A0}' || c == '\U{1680}'
    || ('\U{2000}' <= c <= '\U{200A}')
    || c == '\U{2028}' || c == '\U{2029}' || c == '\U{202F}' || c == '\U{205F}' || c == '\U{3000}'
  }

  /** Whitespace as the JavaScript regular-expression class \s sees it. */
  predicate IsJsSpace(c: char) {
    || ('\t' <= c <= '\r')
    || c == ' ' || c == '\U{A0}' || c == '\U{1680}'
    || ('\U{2000}' <= c <= '\U{200A}')
    || c == '\U{2028}' || c == '\U{2029}' || c == '\U{202F}' || c == '\U{205F}' || c == '\U{3000}'
    || c == '\U{FEFF}'
  }

  /** The JavaScript class \d: ASCII digits only. */
  predicate IsAsciiDigit(c: char) {
    '0' <= c <= '9'
  }

  predicate AllPySpace(s: string) {
    forall i :: 0 <= i < |s| ==> IsPySpace(s[i])
  }

  /** Drops leading whitespace: what is removed is all whitespace, and what is left
      (if anything) starts with a non-whitespace character. */
  function TrimStart(s: string): (r: string)
    ensures |r| <= |s| && r == s[|s| - |r|..]
    ensures AllPySpace(s[..|s| - |r|])
    ensures r != [] ==> !IsPySpace(r[0])
  {
    if s != [] && IsPySpace(s[0]) then TrimStart(s[1..]) else s
  }

  /** Drops trailing whitespace, symmetrically to TrimStart. */
  function TrimEnd(s: string): (r: string)
    ensures |r| <= |s| && r == s[..|r|]
    ensures AllPySpace(s[|r|..])
    ensures r != [] ==> !IsPySpace(r[|r| - 1])
  {
    if s != [] && IsPySpace(s[|s| - 1]) then
      var p := s[..|s| - 1];
      var r := TrimEnd(p);
      assert s[|r|..] == p[|r|..] + [s[|s| - 1]];
      AllPySpaceConcat(p[|r|..], [s[|s| - 1]]);
      r
    else s
  }

  lemma {:induction false} AllPySpaceConcat(a: string, b: string)
    ensures AllPySpace(a + b) <==> AllPySpace(a) && AllPySpace(b)
  {
    if AllPySpace(a) && AllPySpace(b) {
      forall i | 0 <= i < |a + b| ensures IsPySpace((a + b)[i]) {
        if i < |a| { assert (a + b)[i] == a[i]; } else { assert (a + b)[i] == b[i - |a|]; }
      }
    }
    if AllPySpace(a + b) {
      forall i | 0 <= i < |a| ensures IsPySpace(a[i]) { assert a[i] == (a + b)[i]; }
      forall i | 0 <= i < |b| ensures IsPySpace(b[i]) { assert b[i] == (a + b)[|a| + i]; }
    }
  }

  /** TrimStart stops exactly at the first non-whitespace character. */
  lemma {:induction false} TrimStartAt(s: string, i: nat)
    requires i <= |s| && AllPySpace(s[..i])
    requires i < |s| ==> !IsPySpace(s[i])
    ensures TrimStart(s) == s[i..]
  {
    if i > 0 {
      assert s[0] == s[..i][0];
      assert s[1..][..i - 1] == s[..i][1..];
      TrimStartAt(s[1..], i - 1);
      assert s[1..][i - 1..] == s[i..];
    }
  }

  /** TrimEnd stops exactly after the last non-whitespace character. */
  lemma {:induction false} TrimEndAt(s: string, j: nat)
    requires j <= |s| && AllPySpace(s[j..])
    requires j > 0 ==> !IsPySpace(s[j - 1])
    ensures TrimEnd(s) == s[..j]
  {
    if j < |s| {
      assert s[|s| - 1] == s[j..][|s| - 1 - j];
      var p := s[..|s| - 1];
      assert p[j..] == s[j..][..|s| - 1 - j];
      TrimEndAt(p, j);
      assert p[..j] == s[..j];
    }
  }

  /** Python's str.strip() with no argument: what is left neither starts nor ends
      with whitespace, and nothing is left exactly when the input is all whitespace. */
  function Strip(s: string): (r: string)
    ensures |r| <= |s|
    ensures r != [] ==> !IsPySpace(r[0]) && !IsPySpace(r[|r| - 1])
    ensures r == [] <==> AllPySpace(s)
  {
    TrimBoth(s);
    TrimEnd(TrimStart(s))
  }

  lemma {:induction false} TrimBoth(s: string)
    ensures var r := TrimEnd(TrimStart(s));
      && (r != [] ==> !IsPySpace(r[0]))
      && (r == [] <==> AllPySpace(s))
  {
    var t := TrimStart(s);
    var k := |s| - |t|;
    var r := TrimEnd(t);
    if r == [] {
      assert t[|r|..] == t;
      assert s == s[..k] + t;
      AllPySpaceConcat(s[..k], t);
    } else {
      assert r[0] == t[0];
      assert t[0] == s[k];
    }
  }

  /** Strip is fully determined by the "outer whitespace" shape: whenever s splits
      into whitespace, a core that neither starts nor ends with whitespace, and
      whitespace, Strip returns exactly that core. */
  lemma {:induction false} StripIsOuterCore(s: string, i: nat, j: nat)
    requires i <= j <= |s|
    requires AllPySpace(s[..i]) && AllPySpace(s[j..])
    requires i < j ==> !IsPySpace(s[i]) && !IsPySpace(s[j - 1])
    ensures Strip(s) == s[i..j]
  {
    if i < j {
      TrimAround(s, i, j);
    } else {
      assert s == s[..i] + s[j..];
      AllPySpaceConcat(s[..i], s[j..]);
    }
  }

  lemma {:induction false} TrimAround(s: string, i: nat, j: nat)
    requires i < j <= |s|
    requires AllPySpace(s[..i]) && AllPySpace(s[j..])
    requires !IsPySpace(s[i]) && !IsPySpace(s[j - 1])
    ensures TrimEnd(TrimStart(s)) == s[i..j]
  {
    var t := s[i..];
    var m := j - i;
    assert t[m..] == s[j..] && t[m - 1] == s[j - 1] && t[..m] == s[i..j];
    TrimEndAt(t, m);
    TrimStartAt(s, i);
  }

  /** Text that neither starts nor ends with whitespace is left as it is. */
  lemma {:induction false} StripKeeps(s: string)
    requires s != [] ==> !IsPySpace(s[0]) && !IsPySpace(s[|s| - 1])
    ensures Strip(s) == s
  {
    assert s[..0] == [] && s[|s|..] == [] && s[0..|s|] == s;
    StripIsOuterCore(s, 0, |s|);
  }

  /** Stripping twice is stripping once. */
  lemma {:induction false} StripIdempotent(s: string)
    ensures Strip(Strip(s)) == Strip(s)
  {
    var r := Strip(s);
    assert r != [] ==> !IsPySpace(r[0]) && !IsPySpace(r[|r| - 1]);
    StripKeeps(r);
  }

  predicate IsAsciiUpper(c: char) { 'A' <= c <= 'Z' }
  predicate IsAsciiLower(c: char) { 'a' <= c <= 'z' }
  predicate IsAsciiLetter(c: char) { IsAsciiUpper(c) || IsAsciiLower(c) }

  function ToUpper(c: char): char {
    if IsAsciiLower(c) then (c as int - 32) as char else c
  }

  function ToLower(c: char): char {
    if IsAsciiUpper(c) then (c as int + 32) as char else c
  }

  /** Python's str.title() scan: a letter that follows a cased character is
      lower-cased, any other letter is upper-cased, everything else is kept. */
  function TitleFrom(s: string, afterCased: bool): (r: string)
    ensures |r| == |s|
  {
    if s == [] then []
    else
      var c := s[0];
      var head := if !IsAsciiLetter(c) then c else if afterCased then ToLower(c) else ToUpper(c);
      [head] + TitleFrom(s[1..], IsAsciiLetter(c))
  }

  /** Python's str.title(), with ASCII letters as the only cased characters. */
  function Title(s: string): (r: string)
    ensures |r| == |s|
  {
    TitleFrom(s, false)
  }

  /** Each character of the title-cased text, position by position: a letter is
      lower-cased exactly when the character before it is a letter. */
  lemma {:induction false} TitleFromAt(s: string, afterCased: bool, i: nat)
    requires i < |s|
    ensures TitleFrom(s, afterCased)[i] ==
      (if !IsAsciiLetter(s[i]) then s[i]
       else if (if i == 0 then afterCased else IsAsciiLetter(s[i - 1])) then ToLower(s[i])
       else ToUpper(s[i]))
  {
    if i > 0 {
      TitleFromAt(s[1..], IsAsciiLetter(s[0]), i - 1);
      if i > 1 { assert s[1..][i - 2] == s[i - 1]; }
    }
  }

  lemma {:induction false} TitleAt(s: string, i: nat)
    requires i < |s|
    ensures |Title(s)| == |s|
    ensures Title(s)[i] ==
      (if !IsAsciiLetter(s[i]) then s[i]
       else if i > 0 && IsAsciiLetter(s[i - 1]) then ToLower(s[i])
       else ToUpper(s[i]))
  {
    TitleFromAt(s, false, i);
  }

  /** Title-casing twice changes nothing more: each character's case depends only
      on whether the previous one is a letter, which title-casing preserves. */
  lemma {:induction false} TitleIdempotent(s: string)
    ensures Title(Title(s)) == Title(s)
  {
    var t := Title(s);
    var tt := Title(t);
    forall i | 0 <= i < |s| ensures tt[i] == t[i] {
      TitleAt(s, i);
      TitleAt(t, i);
      if i > 0 { TitleAt(s, i - 1); }
    }
  }
}
