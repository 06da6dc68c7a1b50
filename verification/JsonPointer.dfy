/** Escaping of one reference token of a JSON Pointer: sections 3 and 4 of RFC 6901. */
module JsonPointer {

  /** Replace every occurrence of `pattern`, left to right and without overlap. */
  function Replace(s: string, pattern: string, replacement: string): string
    requires pattern != ""
    decreases |s|
  {
    if |s| < |pattern| then s
    else if s[..|pattern|] == pattern then replacement + Replace(s[|pattern|..], pattern, replacement)
    else [s[0]] + Replace(s[1..], pattern, replacement)
  }

  function Escape(segment: string): string {
    Replace(Replace(segment, "~", "~0"), "/", "~1")
  }

  function Unescape(segment: string): string {
    Replace(Replace(segment, "~1", "/"), "~0", "~")
  }

  // ---------------------------------------------------------------- character by character

  function EscapedChar(c: char): string {
    if c == '~' then "~0" else if c == '/' then "~1" else [c]
  }

  lemma {:induction false} EscapeStep(c: char, s: string)
    ensures Escape([c] + s) == EscapedChar(c) + Escape(s)
  {
    var t := Replace(s, "~", "~0");
    assert ([c] + s)[..1] == [c] && ([c] + s)[1..] == s;
    if c == '~' {
      assert Replace([c] + s, "~", "~0") == "~0" + t;
      assert ("~0" + t)[1..] == ['0'] + t && (['0'] + t)[1..] == t;
      assert ("~0" + t)[..1] == "~" && (['0'] + t)[..1] == "0";
      assert Replace(['0'] + t, "/", "~1") == ['0'] + Replace(t, "/", "~1");
      assert Replace("~0" + t, "/", "~1") == ['~'] + Replace(['0'] + t, "/", "~1");
    } else {
      assert Replace([c] + s, "~", "~0") == [c] + t;
      assert ([c] + t)[..1] == [c] && ([c] + t)[1..] == t;
    }
  }

  lemma EmptyEscape()
    ensures Escape("") == "" && Unescape("") == ""
  {
  }

  /** Undoing one escaped character in front of any text. */
  lemma {:induction false} UnescapeStep(c: char, t: string)
    ensures Unescape(EscapedChar(c) + t) == [c] + Unescape(t)
  {
    var e := EscapedChar(c);
    var u := Replace(t, "~1", "/");
    if c == '/' {
      assert (e + t)[..2] == "~1" && (e + t)[2..] == t;
      assert Replace(e + t, "~1", "/") == "/" + u;
      SkipPlain('/', u);
    } else if c == '~' {
      assert (e + t)[..2] == "~0" && (e + t)[1..] == ['0'] + t;
      assert Replace(e + t, "~1", "/") == "~" + Replace(['0'] + t, "~1", "/");
      SkipPlainOne('0', t);
      assert Replace(e + t, "~1", "/") == "~0" + u;
      assert ("~0" + u)[..2] == "~0" && ("~0" + u)[2..] == u;
    } else {
      SkipPlainOne(c, t);
      SkipPlain(c, u);
    }
  }

  lemma SkipPlainOne(c: char, t: string)
    requires c != '~'
    ensures Replace([c] + t, "~1", "/") == [c] + Replace(t, "~1", "/")
  {
    assert ([c] + t)[1..] == t;
    assert |t| > 0 ==> ([c] + t)[..2][0] == c;
  }

  lemma SkipPlain(c: char, t: string)
    requires c != '~'
    ensures Replace([c] + t, "~0", "~") == [c] + Replace(t, "~0", "~")
  {
    assert ([c] + t)[1..] == t;
    assert |t| > 0 ==> ([c] + t)[..2][0] == c;
  }

  /** Escaping a token and unescaping it gives the token back, for every string. */
  lemma {:induction false} UnescapeUndoesEscape(s: string)
    ensures Unescape(Escape(s)) == s
    decreases |s|
  {
    if s == "" {
      EmptyEscape();
    } else {
      assert s == [s[0]] + s[1..];
      EscapeStep(s[0], s[1..]);
      UnescapeUndoesEscape(s[1..]);
      UnescapeStep(s[0], Escape(s[1..]));
    }
  }

  /** An escaped token contains no separator, so it stays one token of the pointer. */
  lemma {:induction false} EscapedIsOneToken(s: string)
    ensures '/' !in Escape(s)
    decreases |s|
  {
    if s == "" {
      EmptyEscape();
    } else {
      assert s == [s[0]] + s[1..];
      EscapeStep(s[0], s[1..]);
      EscapedIsOneToken(s[1..]);
    }
  }

  /** The order of the two replacements matters: undoing `~0` first turns the escape of `~1`
      into a slash. */
  lemma OtherOrderFails()
    ensures Escape("~1") == "~01"
    ensures Replace(Replace(Escape("~1"), "~0", "~"), "~1", "/") == "/"
  {
    EscapeStep('~', "1");
    EscapeStep('1', "");
    EmptyEscape();
    assert ['~'] + "1" == "~1" && ['1'] + "" == "1";
    assert "~01"[..2] == "~0" && "~01"[2..] == "1";
    assert Replace("~01", "~0", "~") == "~1";
    assert "~1"[..2] == "~1" && "~1"[2..] == "";
  }
}
