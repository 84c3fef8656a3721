/** The string operations the routes rely on: `str.strip()`, `str.lower()` and `str.endswith()`. */
module Text {

  /** Python's `str.isspace()` characters, the set `str.strip()` removes by default. */
  predicate IsSpace(c: char) {
    || c == ' ' || c == '\t' || c == '\n' || c == '\r' || c == '\U{000B}' || c == '\U{000C}'
    || ('\U{001C}' <= c <= '\U{001F}')
    || c == '\U{0085}' || c == '\U{00A0}' || c == '\U{1680}'
    || ('\U{2000}' <= c <= '\U{200A}')
    || c == '\U{2028}' || c == '\U{2029}' || c == '\U{202F}' || c == '\U{205F}' || c == '\U{3000}'
  }

  /** Drops the leading whitespace. */
  function TrimStart(s: string): (r: string)
    ensures |r| <= |s|
    ensures r != [] ==> !IsSpace(r[0])
  {
    if s != [] && IsSpace(s[0]) then TrimStart(s[1..]) else s
  }

  /** Drops the trailing whitespace. */
  function TrimEnd(s: string): (r: string)
    ensures |r| <= |s|
    ensures r != [] ==> !IsSpace(r[|r| - 1])
  {
    if s != [] && IsSpace(s[|s| - 1]) then TrimEnd(s[..|s| - 1]) else s
  }

  /** What TrimStart removes is a prefix of whitespace; what it keeps is the rest. */
  lemma {:induction false} TrimStartSpec(s: string)
    ensures TrimStart(s) == s[|s| - |TrimStart(s)|..]
    ensures forall k :: 0 <= k < |s| - |TrimStart(s)| ==> IsSpace(s[k])
  {
    if s != [] && IsSpace(s[0]) {
      TrimStartSpec(s[1..]);
    }
  }

  /** What TrimEnd removes is a suffix of whitespace; what it keeps is the rest. */
  lemma {:induction false} TrimEndSpec(s: string)
    ensures TrimEnd(s) == s[..|TrimEnd(s)|]
    ensures forall k :: |TrimEnd(s)| <= k < |s| ==> IsSpace(s[k])
  {
    if s != [] && IsSpace(s[|s| - 1]) {
      TrimEndSpec(s[..|s| - 1]);
    }
  }

  /** `s.strip()`: what is left after removing whitespace at both ends. */
  function Strip(s: string): (r: string)
    ensures |r| <= |s|
    ensures r != [] ==> !IsSpace(r[0]) && !IsSpace(r[|r| - 1])
  {
    var t := TrimStart(s);
    assert TrimEnd(t) != [] ==> TrimEnd(t)[0] == t[0] by {
      TrimEndSpec(t);
    }
    TrimEnd(t)
  }

  /** The stripped string is an infix of the input with only whitespace around it; it is empty
      exactly when the input is all whitespace (the "blank question" test of the ask route). */
  lemma StripSpec(s: string)
    ensures exists i, j ::
              && 0 <= i <= j <= |s| && Strip(s) == s[i..j]
              && (forall k :: 0 <= k < i ==> IsSpace(s[k]))
              && (forall k :: j <= k < |s| ==> IsSpace(s[k]))
    ensures Strip(s) == [] <==> forall k :: 0 <= k < |s| ==> IsSpace(s[k])
  {
    var t := TrimStart(s);
    var u := TrimEnd(t);
    var i := |s| - |t|;
    TrimStartSpec(s);
    TrimEndSpec(t);
    assert u == s[i..i + |u|];
    forall k | i + |u| <= k < |s| ensures IsSpace(s[k]) {
      assert s[k] == t[k - i];
    }
    if u != [] {
      assert s[i] == u[0];
    }
  }

  /** A string with no whitespace at either end is left as it is by `strip()`. */
  lemma StripFixed(s: string)
    requires s != [] ==> !IsSpace(s[0]) && !IsSpace(s[|s| - 1])
    ensures Strip(s) == s
  {
  }

  /** Stripping twice is stripping once. */
  lemma StripIdempotent(s: string)
    ensures Strip(Strip(s)) == Strip(s)
  {
    StripFixed(Strip(s));
  }

  /** Lower-casing of one character (ASCII letters; other characters are kept). */
  function LowerChar(c: char): char {
    if 'A' <= c <= 'Z' then (c as int - 'A' as int + 'a' as int) as char else c
  }

  /** `s.lower()`, character by character. */
  function Lower(s: string): (r: string)
    ensures |r| == |s| && forall k :: 0 <= k < |s| ==> r[k] == LowerChar(s[k])
  {
    seq(|s|, k requires 0 <= k < |s| => LowerChar(s[k]))
  }

  /** `s.endswith(suffix)`. */
  predicate EndsWith(s: string, suffix: string) {
    |suffix| <= |s| && s[|s| - |suffix|..] == suffix
  }

  /** The upload route's extension test, `filename.lower().endswith(".pdf")`. */
  predicate IsPdfName(filename: string) {
    EndsWith(Lower(filename), ".pdf")
  }

  /** The extension test depends only on the last four characters, in either case:
      "x.PDF", "a.Pdf" and ".pdf" pass, "pdf" and "a.pdfx" do not. */
  lemma PdfNameCharacterised(filename: string)
    ensures IsPdfName(filename) <==>
      var n := |filename|;
      && n >= 4
      && filename[n - 4] == '.'
      && (filename[n - 3] == 'p' || filename[n - 3] == 'P')
      && (filename[n - 2] == 'd' || filename[n - 2] == 'D')
      && (filename[n - 1] == 'f' || filename[n - 1] == 'F')
  {
    var n := |filename|;
    var l := Lower(filename);
    if n >= 4 {
      var tail := l[n - 4..];
      assert tail == [l[n - 4], l[n - 3], l[n - 2], l[n - 1]];
      if IsPdfName(filename) {
        assert tail[0] == '.' && tail[1] == 'p' && tail[2] == 'd' && tail[3] == 'f';
      }
    }
  }
}
