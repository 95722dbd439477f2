/**
 * Html::escape, which Drupal's t() applies to every `@` placeholder whose
 * value is a plain string (a value that is already markup is inserted as it
 * is): htmlspecialchars with ENT_QUOTES, so `&`, `<`, `>`, `"` and `'`
 * become entities. Unescape decodes exactly those five entities.
 */
module Html {

  /** The entity Html::escape writes for one character. */
  function EscapeChar(c: char): string {
    if c == '&' then "&amp;"
    else if c == '<' then "&lt;"
    else if c == '>' then "&gt;"
    else if c == '"' then "&quot;"
    else if c == '\'' then "&#039;"
    else [c]
  }

  /** Html::escape: every special character replaced by its entity, the rest kept in order. */
  function Escape(s: string): (r: string)
    ensures |r| >= |s|
  {
    if s == [] then "" else EscapeChar(s[0]) + Escape(s[1..])
  }

  /** `s` begins with `p`. */
  predicate StartsWith(s: string, p: string) {
    |p| <= |s| && s[..|p|] == p
  }

  /** Decodes the five entities Html::escape writes, left to right. */
  function Unescape(s: string): string
    decreases |s|
  {
    if s == [] then ""
    else if s[0] != '&' then [s[0]] + Unescape(s[1..])
    else if StartsWith(s, "&amp;") then "&" + Unescape(s[5..])
    else if StartsWith(s, "&lt;") then "<" + Unescape(s[4..])
    else if StartsWith(s, "&gt;") then ">" + Unescape(s[4..])
    else if StartsWith(s, "&quot;") then "\"" + Unescape(s[6..])
    else if StartsWith(s, "&#039;") then "'" + Unescape(s[6..])
    else "&" + Unescape(s[1..])
  }

  /** A character Html::escape leaves as it is. */
  predicate Plain(c: char) {
    c != '&' && c != '<' && c != '>' && c != '"' && c != '\''
  }

  /** Escaping distributes over concatenation. */
  lemma {:induction false} EscapeAppend(a: string, b: string)
    ensures Escape(a + b) == Escape(a) + Escape(b)
  {
    if a != [] {
      assert (a + b)[1..] == a[1..] + b;
      EscapeAppend(a[1..], b);
    } else {
      assert a + b == b;
    }
  }

  /** Text without special characters is left unchanged. */
  lemma {:induction false} EscapePlain(s: string)
    requires forall i :: 0 <= i < |s| ==> Plain(s[i])
    ensures Escape(s) == s
  {
    if s != [] {
      EscapePlain(s[1..]);
    }
  }

  /** Escaped text holds no `<`, `>`, `"` or `'`: it cannot open a tag or close an attribute. */
  lemma {:induction false} EscapeSafe(s: string)
    ensures forall i :: 0 <= i < |Escape(s)| ==> Escape(s)[i] !in "<>\"'"
  {
    if s != [] {
      EscapeSafe(s[1..]);
      var head, tail := EscapeChar(s[0]), Escape(s[1..]);
      assert forall i :: 0 <= i < |head| ==> head[i] !in "<>\"'";
      assert forall i :: 0 <= i < |head + tail| ==> (head + tail)[i] == if i < |head| then head[i] else tail[i - |head|];
    }
  }

  /** Decoding one escaped character in front of any text gives the character back. */
  lemma UnescapeChar(c: char, tail: string)
    ensures Unescape(EscapeChar(c) + tail) == [c] + Unescape(tail)
  {
    var e := EscapeChar(c) + tail;
    if c == '&' {
      assert StartsWith(e, "&amp;") by { assert e[..5] == "&amp;"; }
      assert e[5..] == tail;
    } else if c == '<' {
      assert !StartsWith(e, "&amp;") by { assert e[1] == 'l'; }
      assert StartsWith(e, "&lt;") by { assert e[..4] == "&lt;"; }
      assert e[4..] == tail;
    } else if c == '>' {
      assert !StartsWith(e, "&amp;") && !StartsWith(e, "&lt;") by { assert e[1] == 'g'; }
      assert StartsWith(e, "&gt;") by { assert e[..4] == "&gt;"; }
      assert e[4..] == tail;
    } else if c == '"' {
      assert !StartsWith(e, "&amp;") && !StartsWith(e, "&lt;") && !StartsWith(e, "&gt;") by { assert e[1] == 'q'; }
      assert StartsWith(e, "&quot;") by { assert e[..6] == "&quot;"; }
      assert e[6..] == tail;
    } else if c == '\'' {
      assert !StartsWith(e, "&amp;") && !StartsWith(e, "&lt;") && !StartsWith(e, "&gt;") && !StartsWith(e, "&quot;")
      by { assert e[1] == '#'; }
      assert StartsWith(e, "&#039;") by { assert e[..6] == "&#039;"; }
      assert e[6..] == tail;
    } else {
      assert e[0] == c && e[1..] == tail;
    }
  }

  /** Decoding undoes escaping. */
  lemma {:induction false} UnescapeEscape(s: string)
    ensures Unescape(Escape(s)) == s
  {
    if s != [] {
      UnescapeChar(s[0], Escape(s[1..]));
      UnescapeEscape(s[1..]);
    }
  }

  /** Escaping text twice leaves it escaped once after one decoding. */
  lemma EscapedTwice(s: string)
    ensures Unescape(Escape(Escape(s))) == Escape(s)
  {
    UnescapeEscape(Escape(s));
  }

  /** `AT&T` escapes to `AT&amp;T`. */
  lemma EscapeExample()
    ensures Escape("AT&T") == "AT&amp;T"
  {
    assert Escape("T") == "T" by { assert "T"[1..] == ""; }
    assert Escape("&T") == "&amp;T" by { assert "&T"[1..] == "T"; }
    assert Escape("T&T") == "T&amp;T" by { assert "T&T"[1..] == "&T"; }
    assert "AT&T"[1..] == "T&T";
  }

  /** `AT&T` escaped twice shows as `AT&amp;T` after one decoding. */
  lemma EscapedTwiceExample()
    ensures Unescape(Escape(Escape("AT&T"))) == "AT&amp;T"
  {
    EscapeExample();
    EscapedTwice("AT&T");
  }
}
