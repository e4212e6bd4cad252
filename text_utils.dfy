/** The `Utils` helpers: fixed-width text wrapping (no word boundaries) and
    the chain of character replacements used to escape text before it is
    embedded in the SVG scene. */
module TextUtils {
  import opened Strings

  // ---------------------------------------------------------------------
  // wrapText
  // ---------------------------------------------------------------------

  /** The line length the wrapping loop actually produces: once a character
      has been appended the line has length at least 1, so a budget below 1
      closes every line after one character. */
  function Width(maxChars: int): (w: nat)
    ensures w >= 1 && (maxChars >= 1 ==> w == maxChars)
  {
    if maxChars >= 1 then maxChars else 1
  }

  /** `lines` cut `text` into pieces of exactly `w` characters, except for a
      last piece of 1 to `w` characters. */
  predicate IsWrapping(lines: seq<string>, text: string, w: nat)
  {
    && |lines| >= 1
    && Concat(lines) == text
    && (forall i :: 0 <= i < |lines| - 1 ==> |lines[i]| == w)
    && 1 <= |lines[|lines| - 1]| <= w
  }

  /** Reference definition of the wrapped lines: the empty text gives one empty
      line, any other text its successive `Width(maxChars)`-character pieces. */
  function Wrapped(text: string, maxChars: int): seq<string>
    decreases |text|
  {
    var w := Width(maxChars);
    if text == "" then [""]
    else if |text| <= w then [text]
    else [text[..w]] + Wrapped(text[w..], maxChars)
  }

  /** The empty text wraps to one empty line; any other text to a wrapping. */
  lemma {:induction false} WrappedShape(text: string, maxChars: int)
    ensures text == "" ==> Wrapped(text, maxChars) == [""]
    ensures text != "" ==> IsWrapping(Wrapped(text, maxChars), text, Width(maxChars))
    decreases |text|
  {
    var w := Width(maxChars);
    if |text| > w {
      var rest := Wrapped(text[w..], maxChars);
      WrappedShape(text[w..], maxChars);
      assert Concat([text[..w]] + rest) == text[..w] + Concat(rest);
      assert Wrapped(text, maxChars) == [text[..w]] + rest;
    }
  }

  /** A wrapping has a single line exactly when the text fits in one line. */
  lemma WrappingShape(lines: seq<string>, text: string, w: nat)
    requires w >= 1 && IsWrapping(lines, text, w)
    ensures |lines| == 1 <==> |text| <= w
  {
    ConcatFirstSplit(lines);
    if |lines| == 1 {
      assert lines[1..] == [];
    }
  }

  /** Two wrappings of the same text at the same width are the same lines. */
  lemma {:induction false} WrappingUnique(a: seq<string>, b: seq<string>, text: string, w: nat)
    requires w >= 1 && IsWrapping(a, text, w) && IsWrapping(b, text, w)
    ensures a == b
    decreases |a|
  {
    WrappingShape(a, text, w);
    WrappingShape(b, text, w);
    ConcatFirstSplit(a);
    ConcatFirstSplit(b);
    if |text| <= w {
      assert a[1..] == [] && b[1..] == [];
      assert a == [a[0]] && b == [b[0]];
    } else {
      assert a[0] == text[..w] == b[0];
      WrappingUnique(a[1..], b[1..], text[w..], w);
      assert a == [a[0]] + a[1..] && b == [b[0]] + b[1..];
    }
  }

  lemma {:induction false} ConcatFirstSplit(lines: seq<string>)
    requires |lines| >= 1
    ensures Concat(lines) == lines[0] + Concat(lines[1..])
    ensures |lines| > 1 && |lines[|lines| - 1]| >= 1 ==> |Concat(lines[1..])| >= 1
  {
    if |lines| > 1 {
      var tail := lines[1..];
      assert tail == tail[..|tail| - 1] + [tail[|tail| - 1]];
      ConcatSplit(tail[..|tail| - 1], [tail[|tail| - 1]]);
      assert Concat([tail[|tail| - 1]]) == tail[|tail| - 1] + Concat<char>([]);
    }
  }

  /** For non-empty text the number of lines is the ceiling of |text| / w:
      the least n with |text| <= n * w. */
  lemma {:induction false} WrappedLineCount(text: string, maxChars: int)
    requires text != ""
    ensures var n, w := |Wrapped(text, maxChars)|, Width(maxChars);
      (n - 1) * w < |text| <= n * w
    decreases |text|
  {
    var w := Width(maxChars);
    if |text| > w {
      var rest := text[w..];
      WrappedLineCount(rest, maxChars);
      var m := |Wrapped(rest, maxChars)|;
      assert Wrapped(text, maxChars) == [text[..w]] + Wrapped(rest, maxChars);
      MulStep(m, w);
    }
  }

  lemma MulStep(m: int, w: int)
    ensures (m - 1) * w == m * w - w && (m + 1) * w == m * w + w
  {
  }

  /** `Utils.wrapText`: appends characters to the current line and closes it
      once it reaches `maxChars`; a falsy (empty) text gives one empty line. */
  method WrapText(text: string, maxChars: int) returns (lines: seq<string>)
    ensures text == "" ==> lines == [""]
    ensures text != "" ==> IsWrapping(lines, text, Width(maxChars))
    ensures lines == Wrapped(text, maxChars)
  {
    if text == "" {
      return [""];
    }
    lines := [];
    var currentLine := "";
    var i := 0;
    while i < |text|
      invariant 0 <= i <= |text|
      invariant Concat(lines) + currentLine == text[..i]
      invariant forall k :: 0 <= k < |lines| ==> |lines[k]| == Width(maxChars)
      invariant |currentLine| < Width(maxChars)
    {
      assert text[..i + 1] == text[..i] + [text[i]];
      currentLine := currentLine + [text[i]];
      if |currentLine| >= maxChars {
        ConcatAppend(lines, currentLine);
        lines := lines + [currentLine];
        currentLine := "";
      }
      i := i + 1;
    }
    assert text[..i] == text;
    WrapFinish(lines, currentLine, text, maxChars);
    if currentLine != "" {
      lines := lines + [currentLine];
    }
    WrappedShape(text, maxChars);
  }

  /** After the loop of `wrapText`: the closed lines, with the open line if it
      holds anything, are the reference wrapping. */
  lemma WrapFinish(lines: seq<string>, currentLine: string, text: string, maxChars: int)
    requires text != "" && Concat(lines) + currentLine == text
    requires forall k :: 0 <= k < |lines| ==> |lines[k]| == Width(maxChars)
    requires |currentLine| < Width(maxChars)
    ensures (if currentLine != "" then lines + [currentLine] else lines) == Wrapped(text, maxChars)
  {
    var all := if currentLine != "" then lines + [currentLine] else lines;
    ConcatAppend(lines, currentLine);
    if |all| == 0 {
      // the pieces concatenate to the non-empty text, so there is at least one
      assert false;
    }
    assert IsWrapping(all, text, Width(maxChars));
    WrappedShape(text, maxChars);
    WrappingUnique(all, Wrapped(text, maxChars), text, Width(maxChars));
  }

  // ---------------------------------------------------------------------
  // escapeHTML
  // ---------------------------------------------------------------------

  /** `s.replace(/c/g, rep)`: every occurrence of the character `c` becomes `rep`. */
  function ReplaceChar(s: string, c: char, rep: string): (r: string)
    ensures c !in s ==> r == s
  {
    if s == "" then "" else (if s[0] == c then rep else [s[0]]) + ReplaceChar(s[1..], c, rep)
  }

  lemma {:induction false} ReplaceCharSplit(a: string, b: string, c: char, rep: string)
    ensures ReplaceChar(a + b, c, rep) == ReplaceChar(a, c, rep) + ReplaceChar(b, c, rep)
  {
    if a != "" {
      assert (a + b)[1..] == a[1..] + b;
      ReplaceCharSplit(a[1..], b, c, rep);
    } else {
      assert a + b == b;
    }
  }

  /** The four replacements of `escapeHTML`, in source order, with `gt` as the
      replacement chosen for `>`. */
  function EscapeChain(s: string, gt: string): string
  {
    ReplaceChar(ReplaceChar(ReplaceChar(ReplaceChar(s, '&', "&amp;"), '<', "&lt;"), '>', gt), '\'', "&#039;")
  }

  /** `Utils.escapeHTML`, one character at a time; `EscapeHtmlAsWritten`
      shows it is the source's chain of replacements, where a falsy (empty)
      string gives the empty string and `>` is replaced by `&quot;`, which is
      the defect of the source. */
  function EscapeHtml(s: string): string
  {
    EscapeEachWith(s, "&quot;")
  }

  /** The character-by-character escaping is exactly the chain of four
      `replace` calls of `escapeHTML`, empty input included. */
  lemma EscapeHtmlAsWritten(s: string)
    ensures EscapeHtml(s) == if s == "" then "" else EscapeChain(s, "&quot;")
  {
    EscapeChainCharwise(s, "&quot;");
  }

  /** The escaping evidently intended: the same chain with `>` replaced by `&gt;`. */
  function EscapeHtmlIntended(s: string): string
  {
    if s == "" then "" else EscapeChain(s, "&gt;")
  }

  /** What one character becomes after the whole chain. */
  function EscapeCharWith(c: char, gt: string): string
  {
    if c == '&' then "&amp;"
    else if c == '<' then "&lt;"
    else if c == '>' then gt
    else if c == '\'' then "&#039;"
    else [c]
  }

  /** Escaping one character at a time, each character independently. */
  function EscapeEachWith(s: string, gt: string): string
  {
    if s == "" then "" else EscapeCharWith(s[0], gt) + EscapeEachWith(s[1..], gt)
  }

  /** The replacement chain acts character by character: because `&` is
      replaced first and no later replacement text holds the character a
      later step looks for, no inserted entity is escaped a second time. */
  lemma {:induction false} EscapeChainCharwise(s: string, gt: string)
    requires '\'' !in gt
    ensures EscapeChain(s, gt) == EscapeEachWith(s, gt)
  {
    if s != "" {
      var c, rest := s[0], s[1..];
      assert s == [c] + rest;
      var r1 := ReplaceChar([c], '&', "&amp;");
      var r2 := ReplaceChar(r1, '<', "&lt;");
      var r3 := ReplaceChar(r2, '>', gt);
      ReplaceCharSplit([c], rest, '&', "&amp;");
      ReplaceCharSplit(r1, ReplaceChar(rest, '&', "&amp;"), '<', "&lt;");
      ReplaceCharSplit(r2, ReplaceChar(ReplaceChar(rest, '&', "&amp;"), '<', "&lt;"), '>', gt);
      ReplaceCharSplit(r3, ReplaceChar(ReplaceChar(ReplaceChar(rest, '&', "&amp;"), '<', "&lt;"), '>', gt), '\'', "&#039;");
      SingleCharChain(c, gt);
      EscapeChainCharwise(rest, gt);
    }
  }

  lemma ReplaceOne(c: char, x: char, rep: string)
    ensures ReplaceChar([c], x, rep) == if c == x then rep else [c]
  {
    assert [c][1..] == "";
  }

  /** The chain applied to a single character. */
  lemma SingleCharChain(c: char, gt: string)
    requires '\'' !in gt
    ensures EscapeChain([c], gt) == EscapeCharWith(c, gt)
  {
    ReplaceOne(c, '&', "&amp;");
    var r1 := ReplaceChar([c], '&', "&amp;");
    if c == '&' {
      assert '<' !in r1 && '>' !in r1 && '\'' !in r1;
    } else {
      ReplaceOne(c, '<', "&lt;");
      var r2 := ReplaceChar(r1, '<', "&lt;");
      if c == '<' {
        assert '>' !in r2 && '\'' !in r2;
      } else {
        ReplaceOne(c, '>', gt);
        var r3 := ReplaceChar(r2, '>', gt);
        if c != '>' {
          ReplaceOne(c, '\'', "&#039;");
        }
      }
    }
  }

  /** A character that never appears in any escaped piece. */
  predicate Unescaped(c: char) { c == '<' || c == '>' || c == '\'' }

  lemma {:induction false} EscapeEachNoRaw(s: string, gt: string)
    requires forall k :: 0 <= k < |gt| ==> !Unescaped(gt[k])
    ensures forall k :: 0 <= k < |EscapeEachWith(s, gt)| ==> !Unescaped(EscapeEachWith(s, gt)[k])
  {
    if s != "" {
      EscapeEachNoRaw(s[1..], gt);
      var head := EscapeCharWith(s[0], gt);
      assert forall k :: 0 <= k < |head| ==> !Unescaped(head[k]);
    }
  }

  /** The output of `escapeHTML` holds no raw `<`, `>` or `'`. */
  lemma EscapeHtmlSafe(s: string)
    ensures forall k :: 0 <= k < |EscapeHtml(s)| ==> !Unescaped(EscapeHtml(s)[k])
  {
    EscapeEachNoRaw(s, "&quot;");
  }

  /** The replacement table of `escapeHTML`: a falsy (empty) input gives the
      empty string, `&`, `<`, `>` and `'` become entities (`>` the wrong one),
      and a double quote or any other character is kept. */
  lemma EscapeHtmlTable(c: char)
    ensures EscapeHtml("") == ""
    ensures EscapeHtml("&") == "&amp;" && EscapeHtml("<") == "&lt;"
    ensures EscapeHtml(">") == "&quot;" && EscapeHtml("'") == "&#039;"
    ensures EscapeHtml("\"") == "\""
    ensures c != '&' && c != '<' && c != '>' && c != '\'' ==> EscapeHtml([c]) == [c]
  {
    EscapeHtmlOne('&');
    EscapeHtmlOne('<');
    EscapeHtmlOne('>');
    EscapeHtmlOne('\'');
    EscapeHtmlOne('"');
    EscapeHtmlOne(c);
  }

  lemma EscapeHtmlOne(c: char)
    ensures EscapeHtml([c]) == EscapeCharWith(c, "&quot;")
  {
    assert [c][1..] == "";
    assert EscapeEachWith([c], "&quot;") == EscapeCharWith(c, "&quot;") + EscapeEachWith("", "&quot;");
    assert EscapeCharWith(c, "&quot;") + "" == EscapeCharWith(c, "&quot;");
  }

  // ---------------------------------------------------------------------
  // Reading the escaped text back, as an SVG (XML) parser does
  // ---------------------------------------------------------------------

  /** Decoding of the predefined XML entities and of the character reference
      `&#039;`, as an SVG parser applies it to text content. */
  function XmlUnescape(s: string): (r: string)
    decreases |s|
  {
    if s == "" then ""
    else if |s| >= 5 && s[..5] == "&amp;" then "&" + XmlUnescape(s[5..])
    else if |s| >= 4 && s[..4] == "&lt;" then "<" + XmlUnescape(s[4..])
    else if |s| >= 4 && s[..4] == "&gt;" then ">" + XmlUnescape(s[4..])
    else if |s| >= 6 && s[..6] == "&quot;" then "\"" + XmlUnescape(s[6..])
    else if |s| >= 6 && s[..6] == "&apos;" then "'" + XmlUnescape(s[6..])
    else if |s| >= 6 && s[..6] == "&#039;" then "'" + XmlUnescape(s[6..])
    else [s[0]] + XmlUnescape(s[1..])
  }

  /** As written, a `>` typed by the user reads back as a double quote. */
  lemma EscapeHtmlDefect()
    ensures XmlUnescape(EscapeHtml(">")) == "\""
    ensures XmlUnescape(EscapeHtml(">")) != ">"
  {
    EscapeHtmlTable('>');
    UnescapeQuot();
  }

  lemma UnescapeQuot()
    ensures XmlUnescape("&quot;") == "\""
  {
    var e := "&quot;";
    assert e[..5][1] == 'q' && e[..4][1] == 'q';
    assert e[..6] == "&quot;" && e[6..] == "";
  }

  lemma UnescapeIntendedPiece(c: char, rest: string)
    ensures XmlUnescape(EscapeCharWith(c, "&gt;") + rest) == [c] + XmlUnescape(rest)
  {
    if c == '&' {
      UnescapeEntity("&amp;", c, rest);
    } else if c == '<' {
      UnescapeEntity("&lt;", c, rest);
    } else if c == '>' {
      UnescapeEntity("&gt;", c, rest);
    } else if c == '\'' {
      UnescapeEntity("&#039;", c, rest);
    } else {
      UnescapePlain(c, rest);
    }
  }

  /** An entity the intended escaping emits reads back as its character. */
  lemma UnescapeEntity(entity: string, c: char, rest: string)
    requires || (entity == "&amp;" && c == '&') || (entity == "&lt;" && c == '<')
             || (entity == "&gt;" && c == '>') || (entity == "&#039;" && c == '\'')
    ensures XmlUnescape(entity + rest) == [c] + XmlUnescape(rest)
  {
    var t := entity + rest;
    assert t[1] == entity[1];
    assert t[..|entity|] == entity && t[|entity|..] == rest;
  }

  lemma UnescapePlain(c: char, rest: string)
    requires c != '&'
    ensures XmlUnescape([c] + rest) == [c] + XmlUnescape(rest)
  {
    var t := [c] + rest;
    assert t[0] == c && t[1..] == rest;
    if |t| >= 4 {
      assert t[..4][0] == c;
    }
    if |t| >= 5 {
      assert t[..5][0] == c;
    }
    if |t| >= 6 {
      assert t[..6][0] == c;
    }
  }

  /** With `&gt;` for `>`, an SVG parser reads back exactly the original text. */
  lemma {:induction false} EscapeIntendedRoundTrip(s: string)
    ensures XmlUnescape(EscapeHtmlIntended(s)) == s
    ensures forall k :: 0 <= k < |EscapeHtmlIntended(s)| ==> !Unescaped(EscapeHtmlIntended(s)[k])
  {
    EscapeChainCharwise(s, "&gt;");
    EscapeEachNoRaw(s, "&gt;");
    EachRoundTrip(s);
  }

  lemma {:induction false} EachRoundTrip(s: string)
    ensures XmlUnescape(EscapeEachWith(s, "&gt;")) == s
  {
    if s != "" {
      EachRoundTrip(s[1..]);
      UnescapeIntendedPiece(s[0], EscapeEachWith(s[1..], "&gt;"));
      assert s == [s[0]] + s[1..];
    }
  }
}
