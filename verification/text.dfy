/**
 * The string operations the category form relies on: the `trim` and `escape`
 * sanitizers that express-validator delegates to validator.js, and the plain
 * code-point order MongoDB uses to sort strings without a collation.
 */
module Text {

  import opened Wrappers

  // ---------------------------------------------------------------------------
  // Whitespace and trimming
  // ---------------------------------------------------------------------------

  /** The characters matched by `\s` in a JavaScript regular expression. */
  predicate IsWhitespace(c: char) {
    c == ' ' || c == '\t' || c == '\n' || c == '\r' || c == '\U{000B}' || c == '\U{000C}'
    || c == '\U{00A0}' || c == '\U{1680}' || ('\U{2000}' <= c <= '\U{200A}')
    || c == '\U{2028}' || c == '\U{2029}' || c == '\U{202F}' || c == '\U{205F}'
    || c == '\U{3000}' || c == '\U{FEFF}'
  }

  predicate AllWhitespace(s: string) {
    forall k :: 0 <= k < |s| ==> IsWhitespace(s[k])
  }

  /** `ltrim`: drops the leading run of whitespace. */
  function TrimLeft(s: string): (r: string)
    ensures |r| <= |s| && r == s[|s| - |r|..]
    ensures forall k :: 0 <= k < |s| - |r| ==> IsWhitespace(s[k])
    ensures r == [] || !IsWhitespace(r[0])
  {
    if s != [] && IsWhitespace(s[0]) then
      var r := TrimLeft(s[1..]);
      assert forall k :: 0 < k < |s| ==> s[k] == s[1..][k - 1];
      r
    else s
  }

  /** `rtrim`: drops the trailing run of whitespace. */
  function TrimRight(s: string): (r: string)
    ensures |r| <= |s| && r == s[..|r|]
    ensures forall k :: |r| <= k < |s| ==> IsWhitespace(s[k])
    ensures r == [] || !IsWhitespace(r[|r| - 1])
  {
    if s != [] && IsWhitespace(s[|s| - 1]) then
      TrimRight(s[..|s| - 1])
    else s
  }

  /** The `trim` sanitizer: `rtrim(ltrim(s))`. */
  function Trim(s: string): (r: string)
    ensures |r| <= |s|
    ensures r == [] || (!IsWhitespace(r[0]) && !IsWhitespace(r[|r| - 1]))
  {
    TrimRight(TrimLeft(s))
  }

  /**
   * Reference definition of trimming: `r` is the slice of `s` left when
   * whitespace-only margins are cut off and `r` has no whitespace at either end.
   */
  ghost predicate IsTrimmingOf(r: string, s: string) {
    exists i, j :: 0 <= i <= j <= |s| && r == s[i..j]
      && AllWhitespace(s[..i]) && AllWhitespace(s[j..])
      && (r == [] || (!IsWhitespace(r[0]) && !IsWhitespace(r[|r| - 1])))
  }

  /** What TrimLeft drops is a whitespace-only prefix. */
  lemma TrimLeftMargin(s: string)
    ensures AllWhitespace(s[..|s| - |TrimLeft(s)|])
  {
    var i := |s| - |TrimLeft(s)|;
    forall k | 0 <= k < i ensures IsWhitespace(s[..i][k]) { assert s[..i][k] == s[k]; }
  }

  /** What TrimRight drops is a whitespace-only suffix. */
  lemma TrimRightMargin(s: string)
    ensures AllWhitespace(s[|TrimRight(s)|..])
  {
    var j := |TrimRight(s)|;
    forall k | 0 <= k < |s| - j ensures IsWhitespace(s[j..][k]) { assert s[j..][k] == s[j + k]; }
  }

  /** Trim produces a trimming of its input. */
  lemma TrimIsTrimming(s: string)
    ensures IsTrimmingOf(Trim(s), s)
  {
    var t := TrimLeft(s);
    var r := TrimRight(t);
    var i := |s| - |t|;
    var j := i + |r|;
    TrimLeftMargin(s);
    TrimRightMargin(t);
    assert r == s[i..j];
    assert s[j..] == t[|r|..];
    assert 0 <= i <= j <= |s| && r == s[i..j] && AllWhitespace(s[..i]) && AllWhitespace(s[j..]);
  }

  /** Whitespace in front of a string is all that TrimLeft removes. */
  lemma {:induction false} TrimLeftSkipsMargin(w: string, t: string)
    requires AllWhitespace(w)
    requires t == [] || !IsWhitespace(t[0])
    ensures TrimLeft(w + t) == t
  {
    if w != [] {
      assert (w + t)[1..] == w[1..] + t;
      TrimLeftSkipsMargin(w[1..], t);
    } else {
      assert w + t == t;
    }
  }

  /** Whitespace behind a string is all that TrimRight removes. */
  lemma {:induction false} TrimRightSkipsMargin(t: string, w: string)
    requires AllWhitespace(w)
    requires t == [] || !IsWhitespace(t[|t| - 1])
    ensures TrimRight(t + w) == t
  {
    if w != [] {
      assert (t + w)[..|t + w| - 1] == t + w[..|w| - 1];
      TrimRightSkipsMargin(t, w[..|w| - 1]);
    } else {
      assert t + w == t;
    }
  }

  /** A string of whitespace only trims to nothing. */
  lemma TrimOfBlank(s: string)
    requires AllWhitespace(s)
    ensures Trim(s) == []
  {
    TrimLeftSkipsMargin(s, []);
    assert s + [] == s;
  }

  /** Whitespace-only margins that meet leave a string of whitespace only. */
  lemma BlankMarginsMeet(s: string, i: nat)
    requires i <= |s|
    requires AllWhitespace(s[..i]) && AllWhitespace(s[i..])
    ensures AllWhitespace(s)
  {
    forall k | 0 <= k < |s| ensures IsWhitespace(s[k]) {
      if k < i { assert s[k] == s[..i][k]; } else { assert s[k] == s[i..][k - i]; }
    }
  }

  /** A non-empty slice with non-blank ends between whitespace margins is what Trim keeps. */
  lemma TrimOfNonBlankSlice(s: string, i: nat, j: nat)
    requires i < j <= |s|
    requires AllWhitespace(s[..i]) && AllWhitespace(s[j..])
    requires !IsWhitespace(s[i]) && !IsWhitespace(s[j - 1])
    ensures Trim(s) == s[i..j]
  {
    var r, tail := s[i..j], s[j..];
    var t := r + tail;
    assert t[0] == s[i] && r[|r| - 1] == s[j - 1];
    assert s == s[..i] + t;
    TrimLeftSkipsMargin(s[..i], t);
    TrimRightSkipsMargin(r, tail);
  }

  /** Cutting whitespace margins off a slice with non-blank ends is what Trim does. */
  lemma TrimOfMarginedSlice(s: string, i: nat, j: nat)
    requires i <= j <= |s|
    requires AllWhitespace(s[..i]) && AllWhitespace(s[j..])
    requires i == j || (!IsWhitespace(s[i]) && !IsWhitespace(s[j - 1]))
    ensures Trim(s) == s[i..j]
  {
    if i == j {
      BlankMarginsMeet(s, i);
      TrimOfBlank(s);
    } else {
      TrimOfNonBlankSlice(s, i, j);
    }
  }

  /** A trimming of `s` is unique: it is exactly what Trim computes. */
  lemma TrimmingIsTrim(r: string, s: string)
    requires IsTrimmingOf(r, s)
    ensures r == Trim(s)
  {
    var i, j :| 0 <= i <= j <= |s| && r == s[i..j]
      && AllWhitespace(s[..i]) && AllWhitespace(s[j..])
      && (r == [] || (!IsWhitespace(r[0]) && !IsWhitespace(r[|r| - 1])));
    TrimOfMarginedSlice(s, i, j);
  }

  /** Trimming twice is trimming once. */
  lemma TrimIdempotent(s: string)
    ensures Trim(Trim(s)) == Trim(s)
  {
    var r := Trim(s);
    if r != [] {
      TrimOfUnpadded(r);
    }
  }

  /** A value that neither starts nor ends with whitespace is its own trimming. */
  lemma TrimOfUnpadded(s: string)
    requires s != [] && !IsWhitespace(s[0]) && !IsWhitespace(s[|s| - 1])
    ensures Trim(s) == s
  {
    TrimOfMarginedSlice(s, 0, |s|);
    assert s[0..|s|] == s;
  }

  // ---------------------------------------------------------------------------
  // HTML escaping
  // ---------------------------------------------------------------------------

  /** The characters the `escape` sanitizer replaces by an HTML entity. */
  predicate IsMarkup(c: char) {
    c == '&' || c == '"' || c == '\'' || c == '<' || c == '>' || c == '/' || c == '\\' || c == '`'
  }

  /** The entity `escape` writes for one character (the character itself if it is not markup). */
  function EscapeChar(c: char): (r: string)
    ensures IsMarkup(c) <==> r != [c]
    ensures 1 <= |r| <= 6 && (r[0] == '&' <==> IsMarkup(c))
    ensures forall k :: 0 <= k < |r| ==> r[k] == '&' || !IsMarkup(r[k])
  {
    if c == '&' then "&amp;"
    else if c == '"' then "&quot;"
    else if c == '\'' then "&#x27;"
    else if c == '<' then "&lt;"
    else if c == '>' then "&gt;"
    else if c == '/' then "&#x2F;"
    else if c == '\\' then "&#x5C;"
    else if c == '`' then "&#96;"
    else [c]
  }

  /** The `escape` sanitizer: every markup character becomes its entity. */
  function Escape(s: string): (r: string)
    ensures |r| >= |s|
    ensures forall k :: 0 <= k < |r| ==> r[k] == '&' || !IsMarkup(r[k])
    ensures (forall k :: 0 <= k < |s| ==> !IsMarkup(s[k])) <==> r == s
  {
    if s == [] then []
    else
      var head, tail := EscapeChar(s[0]), Escape(s[1..]);
      assert forall k :: 0 <= k < |head + tail| ==> (head + tail)[k] == if k < |head| then head[k] else tail[k - |head|];
      if IsMarkup(s[0]) then
        assert |head| > 1;
        head + tail
      else
        assert head == [s[0]] && s == [s[0]] + s[1..];
        head + tail
  }

  /** Escaping at most sextuples the length of a string. */
  lemma {:induction false} EscapeLengthBound(s: string)
    ensures |s| <= |Escape(s)| <= 6 * |s|
  {
    if s != [] {
      EscapeLengthBound(s[1..]);
    }
  }

  /** A run of one character escapes to a run of its entity. */
  lemma {:induction false} EscapeRepeated(s: string, c: char)
    requires forall k :: 0 <= k < |s| ==> s[k] == c
    ensures |Escape(s)| == |s| * |EscapeChar(c)|
  {
    if s != [] {
      var w := |EscapeChar(c)|;
      assert s[0] == c;
      assert Escape(s) == EscapeChar(c) + Escape(s[1..]);
      EscapeRepeated(s[1..], c);
      assert |s| * w == w + (|s| - 1) * w;
    }
  }

  /** Every `<` becomes the four characters `&lt;`. */
  lemma EscapeLessThanRun(s: string)
    requires forall k :: 0 <= k < |s| ==> s[k] == '<'
    ensures |Escape(s)| == 4 * |s|
  {
    EscapeRepeated(s, '<');
    assert EscapeChar('<') == "&lt;";
  }

  predicate StartsWith(s: string, prefix: string) {
    |prefix| <= |s| && s[..|prefix|] == prefix
  }

  /** The character an entity at the front of `s` stands for, and the entity's width. */
  function EntityAt(s: string): (r: Option<(char, nat)>)
    ensures r.Some? ==> 0 < r.value.1 <= |s| && IsMarkup(r.value.0)
  {
    if s == [] || s[0] != '&' then None
    else if StartsWith(s, "&amp;") then Some(('&', 5))
    else if StartsWith(s, "&quot;") then Some(('"', 6))
    else if StartsWith(s, "&#x27;") then Some(('\'', 6))
    else if StartsWith(s, "&lt;") then Some(('<', 4))
    else if StartsWith(s, "&gt;") then Some(('>', 4))
    else if StartsWith(s, "&#x2F;") then Some(('/', 6))
    else if StartsWith(s, "&#x5C;") then Some(('\\', 6))
    else if StartsWith(s, "&#96;") then Some(('`', 5))
    else None
  }

  /** Decodes the entities Escape writes, reading left to right. */
  function Unescape(s: string): string
    decreases |s|
  {
    if s == [] then []
    else
      match EntityAt(s)
      case Some((c, width)) => [c] + Unescape(s[width..])
      case None => [s[0]] + Unescape(s[1..])
  }

  /** The entity EscapeChar writes is the one EntityAt reads back. */
  lemma EntityAtEscapeChar(c: char, t: string)
    ensures EntityAt(EscapeChar(c) + t) == if IsMarkup(c) then Some((c, |EscapeChar(c)|)) else None
  {
    var e := EscapeChar(c);
    var s := e + t;
    assert s[..|e|] == e;
    if c == '&' {
      assert StartsWith(s, "&amp;");
    } else if c == '"' {
      assert s[1] == 'q';
      assert StartsWith(s, "&quot;");
    } else if c == '\'' {
      assert s[1] == '#' && s[3] == '2' && s[4] == '7';
      assert StartsWith(s, "&#x27;");
    } else if c == '<' {
      assert s[1] == 'l';
      assert StartsWith(s, "&lt;");
    } else if c == '>' {
      assert s[1] == 'g';
      assert StartsWith(s, "&gt;");
    } else if c == '/' {
      assert s[1] == '#' && s[3] == '2' && s[4] == 'F';
      assert StartsWith(s, "&#x2F;");
    } else if c == '\\' {
      assert s[1] == '#' && s[3] == '5';
      assert StartsWith(s, "&#x5C;");
    } else if c == '`' {
      assert s[1] == '#' && s[2] == '9';
      assert StartsWith(s, "&#96;");
    } else {
      assert s[0] == c;
    }
  }

  /** Unescape reads back one escaped character and continues with the rest. */
  lemma UnescapeEscapeChar(c: char, t: string)
    ensures Unescape(EscapeChar(c) + t) == [c] + Unescape(t)
  {
    var e := EscapeChar(c);
    var s := e + t;
    EntityAtEscapeChar(c, t);
    assert s[|e|..] == t;
    if !IsMarkup(c) {
      assert s[0] == c;
    }
  }

  /** Escaping loses nothing: Unescape recovers the original string. */
  lemma {:induction false} UnescapeEscape(s: string)
    ensures Unescape(Escape(s)) == s
  {
    if s != [] {
      UnescapeEscapeChar(s[0], Escape(s[1..]));
      UnescapeEscape(s[1..]);
      assert s == [s[0]] + s[1..];
    }
  }

  // ---------------------------------------------------------------------------
  // String order
  // ---------------------------------------------------------------------------

  /** Lexicographic order on code points: MongoDB's string order without a collation. */
  predicate LexLe(a: string, b: string) {
    a == [] || (b != [] && (a[0] < b[0] || (a[0] == b[0] && LexLe(a[1..], b[1..]))))
  }

  lemma {:induction false} LexLeTotal(a: string, b: string)
    ensures LexLe(a, b) || LexLe(b, a)
  {
    if a != [] && b != [] && a[0] == b[0] {
      LexLeTotal(a[1..], b[1..]);
    }
  }

  lemma {:induction false} LexLeTransitive(a: string, b: string, c: string)
    requires LexLe(a, b) && LexLe(b, c)
    ensures LexLe(a, c)
  {
    if a != [] && a[0] == b[0] && b[0] == c[0] {
      LexLeTransitive(a[1..], b[1..], c[1..]);
    }
  }

  lemma {:induction false} LexLeAntisymmetric(a: string, b: string)
    requires LexLe(a, b) && LexLe(b, a)
    ensures a == b
  {
    if a != [] {
      LexLeAntisymmetric(a[1..], b[1..]);
      assert a == [a[0]] + a[1..] && b == [b[0]] + b[1..];
    }
  }
}
