// TextToHTML: escape, collapse runs of newlines, turn the remaining ones into line breaks.
module TextToHtml {
  import opened Sequences

  function EscapeChar(c: char): string {
    if c == '&' then "&amp;"
    else if c == '\'' then "&#39;"
    else if c == '<' then "&lt;"
    else if c == '>' then "&gt;"
    else if c == '"' then "&#34;"
    else [c]
  }

  function EscapeString(s: string): string {
    if s == "" then "" else EscapeChar(s[0]) + EscapeString(s[1..])
  }

  function DropNewlines(s: string): (r: string)
    ensures |r| <= |s|
  {
    if s != "" && s[0] == '\n' then DropNewlines(s[1..]) else s
  }

  // Every run of newlines becomes one newline.
  function Collapse(s: string): string
    decreases |s|
  {
    if s == "" then ""
    else if s[0] == '\n' then "\n" + Collapse(DropNewlines(s[1..]))
    else [s[0]] + Collapse(s[1..])
  }

  function ReplaceNewlines(s: string): string {
    if s == "" then "" else (if s[0] == '\n' then "<br>" else [s[0]]) + ReplaceNewlines(s[1..])
  }

  function TextToHTML(text: string): string {
    "<div>" + ReplaceNewlines(Collapse(EscapeString(text))) + "</div>"
  }

  // ---------------------------------------------------------------- reading the markup back

  // What one character of the collapsed text becomes.
  function Code(c: char): string {
    if c == '\n' then "<br>" else EscapeChar(c)
  }

  function Render(s: string): string {
    if s == "" then "" else Code(s[0]) + Render(s[1..])
  }

  // The first code at the front of some markup, and its length.
  function FirstCode(h: string): (char, nat)
    requires h != ""
  {
    if "<br>" <= h then ('\n', 4)
    else if "&amp;" <= h then ('&', 5)
    else if "&#39;" <= h then ('\'', 5)
    else if "&lt;" <= h then ('<', 4)
    else if "&gt;" <= h then ('>', 4)
    else if "&#34;" <= h then ('"', 5)
    else (h[0], 1)
  }

  function ReadBack(h: string): string {
    if h == "" then "" else [FirstCode(h).0] + ReadBack(h[FirstCode(h).1..])
  }

  // What the text was, up to the length of its runs of newlines.
  function HTMLToText(html: string): string {
    if |html| < 11 then "" else ReadBack(html[5..|html| - 6])
  }

  lemma FirstCodeOf(c: char, rest: string)
    ensures FirstCode(Code(c) + rest) == (c, |Code(c)|)
  {
    var h := Code(c) + rest;
    assert Code(c) <= h;
    assert h[0] == Code(c)[0];
    assert |Code(c)| > 1 ==> h[1] == Code(c)[1];
    assert |Code(c)| > 2 ==> h[2] == Code(c)[2];
    assert |Code(c)| > 3 ==> h[3] == Code(c)[3];
  }

  lemma {:induction false} ReadBackRender(s: string)
    ensures ReadBack(Render(s)) == s
  {
    if s != "" {
      FirstCodeOf(s[0], Render(s[1..]));
      ReadBackRender(s[1..]);
      assert Render(s)[|Code(s[0])|..] == Render(s[1..]);
      assert s == [s[0]] + s[1..];
    }
  }

  // ---------------------------------------------------------------- collapsing and escaping

  lemma EscapeStartsAlike(s: string)
    ensures s != "" ==> EscapeString(s) != "" && (EscapeString(s)[0] == '\n' <==> s[0] == '\n')
  {
  }

  lemma {:induction false} DropThenEscape(s: string)
    ensures DropNewlines(EscapeString(s)) == EscapeString(DropNewlines(s))
  {
    EscapeStartsAlike(s);
    if s != "" && s[0] == '\n' {
      assert EscapeString(s)[1..] == EscapeString(s[1..]);
      DropThenEscape(s[1..]);
    }
  }

  // Codes of characters other than the newline pass through the two later steps.
  lemma {:induction false} CollapsePrefix(a: string, b: string)
    requires '\n' !in a
    ensures Collapse(a + b) == a + Collapse(b)
  {
    if a == "" {
      assert a + b == b;
    } else {
      CollapsePrefix(a[1..], b);
      HeadInFront(a, b);
      HeadInFront(a, Collapse(b));
    }
  }

  lemma {:induction false} ReplacePrefix(a: string, b: string)
    requires '\n' !in a
    ensures ReplaceNewlines(a + b) == a + ReplaceNewlines(b)
  {
    if a == "" {
      assert a + b == b;
    } else {
      ReplacePrefix(a[1..], b);
      HeadInFront(a, b);
      HeadInFront(a, ReplaceNewlines(b));
    }
  }

  lemma CharCodes(c: char)
    ensures c != '\n' ==> '\n' !in EscapeChar(c) && Code(c) == EscapeChar(c)
    ensures c == '\n' ==> EscapeChar(c) == "\n" && Code(c) == "<br>"
  {
  }

  lemma EscapeOne(s: string)
    requires s != ""
    ensures EscapeString(s) == EscapeChar(s[0]) + EscapeString(s[1..])
    ensures s[0] != '\n' ==> '\n' !in EscapeChar(s[0]) && Code(s[0]) == EscapeChar(s[0])
    ensures s[0] == '\n' ==> EscapeChar(s[0]) == "\n" && Code(s[0]) == "<br>"
  {
    CharCodes(s[0]);
    hide EscapeChar, Code;
  }

  lemma RenderOne(c: char, s: string)
    ensures Render([c] + s) == Code(c) + Render(s)
  {
    assert ([c] + s)[1..] == s;
  }

  lemma CollapseNewline(s: string)
    ensures Collapse("\n" + s) == "\n" + Collapse(DropNewlines(s))
  {
    assert ("\n" + s)[1..] == s;
  }

  lemma NewlineStep(s: string)
    requires s != "" && s[0] == '\n'
    ensures var rest := DropNewlines(s[1..]);
            && Collapse(EscapeString(s)) == "\n" + Collapse(EscapeString(rest))
            && Render(Collapse(s)) == "<br>" + Render(Collapse(rest))
  {
    DropThenEscape(s[1..]);
    EscapeOne(s);
    CollapseNewline(EscapeString(s[1..]));
    CollapseNewline(s[1..]);
    RenderOne('\n', Collapse(DropNewlines(s[1..])));
    hide *;
    assert s == "\n" + s[1..];
  }

  lemma CharStep(s: string)
    requires s != "" && s[0] != '\n'
    ensures ReplaceNewlines(Collapse(EscapeString(s))) == EscapeChar(s[0]) + ReplaceNewlines(Collapse(EscapeString(s[1..])))
    ensures Render(Collapse(s)) == EscapeChar(s[0]) + Render(Collapse(s[1..]))
  {
    EscapeOne(s);
    CollapsePrefix(EscapeChar(s[0]), EscapeString(s[1..]));
    ReplacePrefix(EscapeChar(s[0]), Collapse(EscapeString(s[1..])));
    RenderOne(s[0], Collapse(s[1..]));
    CollapsePrefix([s[0]], s[1..]);
    hide *;
    assert s == [s[0]] + s[1..];
  }

  lemma {:induction false} BodyIsRendered(s: string)
    ensures ReplaceNewlines(Collapse(EscapeString(s))) == Render(Collapse(s))
    decreases |s|
  {
    if s == "" {
    } else if s[0] == '\n' {
      var rest := DropNewlines(s[1..]);
      BodyIsRendered(rest);
      NewlineStep(s);
      hide EscapeString, Collapse, Render;
      assert ("\n" + Collapse(EscapeString(rest)))[1..] == Collapse(EscapeString(rest));
    } else {
      BodyIsRendered(s[1..]);
      CharStep(s);
    }
  }

  lemma ReadsBack(s: string)
    ensures HTMLToText(TextToHTML(s)) == Collapse(s)
  {
    BodyIsRendered(s);
    ReadBackRender(Collapse(s));
    var html := TextToHTML(s);
    assert html[5..|html| - 6] == Render(Collapse(s));
  }

  // Two texts give the same markup exactly when they differ only in the length of runs of newlines.
  lemma SameMarkupIff(a: string, b: string)
    ensures TextToHTML(a) == TextToHTML(b) <==> Collapse(a) == Collapse(b)
  {
    ReadsBack(a);
    ReadsBack(b);
    BodyIsRendered(a);
    BodyIsRendered(b);
  }

  predicate NoRuns(s: string) {
    forall i :: 0 <= i < |s| - 1 ==> !(s[i] == '\n' && s[i + 1] == '\n')
  }

  lemma {:induction false} DropStops(s: string)
    ensures DropNewlines(s) != "" ==> DropNewlines(s)[0] != '\n'
  {
    if s != "" && s[0] == '\n' {
      DropStops(s[1..]);
    }
  }

  // Collapsing removes every run and leaves a text without runs as it is.
  lemma {:induction false} CollapseIs(s: string)
    ensures NoRuns(Collapse(s))
    ensures NoRuns(s) ==> Collapse(s) == s
    ensures s != "" ==> Collapse(s) != "" && Collapse(s)[0] == s[0]
    decreases |s|
  {
    if s != "" {
      var rest := if s[0] == '\n' then DropNewlines(s[1..]) else s[1..];
      CollapseIs(rest);
      DropStops(s[1..]);
      var c := Collapse(rest);
      assert Collapse(s) == [s[0]] + c;
      forall i | 0 <= i < |Collapse(s)| - 1 ensures !(Collapse(s)[i] == '\n' && Collapse(s)[i + 1] == '\n') {
        if i > 0 {
          assert !(c[i - 1] == '\n' && c[i] == '\n');
        }
      }
      if NoRuns(s) {
        assert |s| > 1 ==> !(s[0] == '\n' && s[1] == '\n');
        assert rest == s[1..];
        forall i | 0 <= i < |rest| - 1 ensures !(rest[i] == '\n' && rest[i + 1] == '\n') {
          assert !(s[i + 1] == '\n' && s[i + 2] == '\n');
        }
        assert s == [s[0]] + rest;
      }
    }
  }

  // What collapsing does is fixed by the next two: runs become one newline, and every other
  // character stays, with what is on either side of it collapsed on its own.
  lemma {:induction false} CollapseRun(s: string)
    requires s != "" && forall i :: 0 <= i < |s| ==> s[i] == '\n'
    ensures Collapse(s) == "\n" && DropNewlines(s) == ""
  {
    if |s| > 1 {
      CollapseRun(s[1..]);
    }
  }

  lemma {:induction false} DropPrefix(a: string, c: char, b: string)
    requires c != '\n'
    ensures DropNewlines(a + [c] + b) == DropNewlines(a) + [c] + b
  {
    if a == "" {
      assert a + [c] + b == [c] + b;
    } else if a[0] == '\n' {
      DropPrefix(a[1..], c, b);
      assert (a + [c] + b)[0] == a[0] && (a + [c] + b)[1..] == a[1..] + [c] + b;
    }
  }

  lemma {:induction false} CollapseAround(a: string, c: char, b: string)
    requires c != '\n'
    ensures Collapse(a + [c] + b) == Collapse(a) + [c] + Collapse(b)
    decreases |a|
  {
    if a == "" {
      CollapsePrefix([c], b);
      assert a + [c] + b == [c] + b && Collapse(a) == "";
    } else {
      var rest := if a[0] == '\n' then DropNewlines(a[1..]) else a[1..];
      DropPrefix(a[1..], c, b);
      CollapseAround(rest, c, b);
      assert (a + [c] + b)[0] == a[0] && (a + [c] + b)[1..] == a[1..] + [c] + b;
      assert Collapse(a + [c] + b) == [a[0]] + Collapse(rest + [c] + b);
      assert Collapse(a) == [a[0]] + Collapse(rest);
      hide Collapse, DropNewlines;
      Regroup([a[0]], Collapse(rest), [c]);
      Regroup([a[0]], Collapse(rest) + [c], Collapse(b));
    }
  }

  lemma MarkupInCode(c: char, i: nat)
    requires i < |Code(c)|
    ensures Code(c)[i] != '"' && Code(c)[i] != '\''
    ensures Code(c)[i] == '<' ==> i == 0 && Code(c) == "<br>"
    ensures Code(c)[i] == '>' ==> i == 3 && Code(c) == "<br>"
  {
  }

  // The characters from i on spell a line break.
  predicate BreakAt(h: string, i: int) {
    0 <= i && i + 4 <= |h| && h[i] == '<' && h[i + 1] == 'b' && h[i + 2] == 'r' && h[i + 3] == '>'
  }

  lemma BreakShifts(front: string, h: string, i: int)
    ensures BreakAt(h, i) ==> BreakAt(front + h, i + |front|)
  {
  }

  lemma BreakInFront(h: string, rest: string)
    ensures h == "<br>" ==> BreakAt(h + rest, 0)
  {
  }

  // No character of the text can open a tag or close a quotation.
  lemma {:induction false} RendersBreaks(s: string, i: nat)
    requires i < |Render(s)|
    ensures Render(s)[i] != '"' && Render(s)[i] != '\''
    ensures Render(s)[i] == '<' ==> BreakAt(Render(s), i)
    ensures Render(s)[i] == '>' ==> BreakAt(Render(s), i - 3)
  {
    var c, rest := Code(s[0]), Render(s[1..]);
    assert Render(s) == c + rest;
    hide Code, Render, BreakAt;
    if i < |c| {
      assert (c + rest)[i] == c[i];
      MarkupInCode(s[0], i);
      BreakInFront(c, rest);
    } else {
      assert (c + rest)[i] == rest[i - |c|];
      RendersBreaks(s[1..], i - |c|);
      BreakShifts(c, rest, i - |c|);
      BreakShifts(c, rest, i - |c| - 3);
    }
  }

  // Quotation marks are gone, and every angle bracket belongs to a line break.
  ghost predicate BreaksOnly(html: string, i: nat)
    requires i < |html|
  {
    && html[i] != '"' && html[i] != '\''
    && (html[i] == '<' ==> BreakAt(html, i))
    && (html[i] == '>' ==> BreakAt(html, i - 3))
  }

  lemma BreaksInside(front: string, body: string, back: string, i: nat)
    requires i < |body| && BreaksOnly(body, i)
    ensures BreaksOnly(front + body + back, |front| + i)
  {
    var html := front + body + back;
    assert forall k :: 0 <= k < |body| ==> html[|front| + k] == body[k];
  }

  // The only markup between the enclosing tags is the line break.
  lemma OnlyBreaks(text: string)
    ensures var html := TextToHTML(text);
            && |html| >= 11 && html[..5] == "<div>" && html[|html| - 6..] == "</div>"
            && forall i :: 5 <= i < |html| - 6 ==> BreaksOnly(html, i)
  {
    var html, body := TextToHTML(text), Render(Collapse(text));
    BodyIsRendered(text);
    hide Render, Collapse, EscapeString, ReplaceNewlines;
    assert html == "<div>" + body + "</div>";
    forall i | 5 <= i < |html| - 6 ensures BreaksOnly(html, i) {
      RendersBreaks(Collapse(text), i - 5);
      BreaksInside("<div>", body, "</div>", i - 5);
    }
  }

  // ---------------------------------------------------------------- what the codes are

  lemma {:induction false} RenderConcat(a: string, b: string)
    ensures Render(a + b) == Render(a) + Render(b)
  {
    if a == "" {
      assert a + b == b;
    } else {
      var rest := a[1..];
      assert a == [a[0]] + rest && a + b == [a[0]] + (rest + b);
      RenderConcat(rest, b);
      hide Render;
      RenderOne(a[0], rest);
      RenderOne(a[0], rest + b);
      Regroup(Code(a[0]), Render(rest), Render(b));
    }
  }

  // The five special characters by their references, and every other one by itself.
  lemma CodesAre(c: char)
    ensures Render("&") == "&amp;" && Render("<") == "&lt;" && Render(">") == "&gt;"
    ensures Render("\"") == "&#34;" && Render("'") == "&#39;" && Render("\n") == "<br>"
    ensures c !in "&<>\"'\n" ==> Render([c]) == [c]
  {
    assert forall d: char :: [d][1..] == "";
    assert Render([c]) == Code(c) + "";
    assert c !in "&<>\"'\n" ==> Code(c) == [c] by {
      assert "&<>\"'\n"[0] == '&' && "&<>\"'\n"[1] == '<' && "&<>\"'\n"[2] == '>';
      assert "&<>\"'\n"[3] == '"' && "&<>\"'\n"[4] == '\'' && "&<>\"'\n"[5] == '\n';
    }
  }
}
