// stripPEMHeaders: the body lines of a PEM block.
module Pem {
  import opened Splitting

  // unicode.IsSpace
  predicate IsSpace(c: char) {
    || '\t' <= c <= '\r' || c == ' ' || c == '\U{85}' || c == '\U{A0}'
    || c == '\U{1680}' || '\U{2000}' <= c <= '\U{200A}' || c == '\U{2028}' || c == '\U{2029}'
    || c == '\U{202F}' || c == '\U{205F}' || c == '\U{3000}'
  }

  function TrimLeft(s: string): string {
    if s != "" && IsSpace(s[0]) then TrimLeft(s[1..]) else s
  }

  function TrimRight(s: string): string {
    if s != "" && IsSpace(s[|s| - 1]) then TrimRight(s[..|s| - 1]) else s
  }

  function TrimSpace(s: string): string {
    TrimRight(TrimLeft(s))
  }

  predicate AllSpace(s: string) {
    forall i :: 0 <= i < |s| ==> IsSpace(s[i])
  }

  predicate Trimmed(s: string) {
    s != "" ==> !IsSpace(s[0]) && !IsSpace(s[|s| - 1])
  }

  lemma {:induction false} TrimLeftIs(s: string) returns (front: string)
    ensures s == front + TrimLeft(s) && AllSpace(front)
    ensures TrimLeft(s) != "" ==> !IsSpace(TrimLeft(s)[0])
  {
    if s != "" && IsSpace(s[0]) {
      var f := TrimLeftIs(s[1..]);
      front := [s[0]] + f;
    } else {
      front := "";
    }
  }

  lemma {:induction false} TrimRightIs(s: string) returns (back: string)
    ensures s == TrimRight(s) + back && AllSpace(back)
    ensures TrimRight(s) != "" ==> !IsSpace(TrimRight(s)[|TrimRight(s)| - 1])
    ensures TrimRight(s) != "" ==> TrimRight(s)[0] == s[0]
  {
    if s != "" && IsSpace(s[|s| - 1]) {
      var b := TrimRightIs(s[..|s| - 1]);
      back := b + [s[|s| - 1]];
    } else {
      back := "";
    }
  }

  // Trimming cuts spaces off both ends until there are none left there.
  lemma TrimSpaceIs(s: string) returns (front: string, back: string)
    ensures s == front + TrimSpace(s) + back && AllSpace(front) && AllSpace(back)
    ensures Trimmed(TrimSpace(s))
  {
    front := TrimLeftIs(s);
    back := TrimRightIs(TrimLeft(s));
  }

  lemma TrimOfTrimmed(s: string)
    requires Trimmed(s)
    ensures TrimSpace(s) == s
  {
  }

  predicate IsBody(line: string) {
    line != "" && !("-----BEGIN" <= line) && !("-----END" <= line)
  }

  // The trimmed lines that are neither empty nor a header or footer, in order.
  function BodyLines(lines: seq<string>): seq<string> {
    if lines == [] then [] else
      var n := |lines| - 1;
      BodyLines(lines[..n]) + (if IsBody(TrimSpace(lines[n])) then [TrimSpace(lines[n])] else [])
  }

  function Stripped(pem: string): string {
    Join(BodyLines(Split(pem, '\n')), '\n')
  }

  method StripPEMHeaders(pemString: string) returns (r: string)
    ensures r == Stripped(pemString)
  {
    var lines := Split(pemString, '\n');
    var cleanLines: seq<string> := [];
    for i := 0 to |lines|
      invariant cleanLines == BodyLines(lines[..i])
    {
      var line := TrimSpace(lines[i]);
      assert lines[..i + 1][..i] == lines[..i];
      if line == "" || "-----BEGIN" <= line || "-----END" <= line {
        continue;
      }
      cleanLines := cleanLines + [line];
    }
    assert lines[..|lines|] == lines;
    r := Join(cleanLines, '\n');
  }

  ghost predicate Clean(lines: seq<string>) {
    forall k :: 0 <= k < |lines| ==> IsBody(lines[k]) && Trimmed(lines[k]) && '\n' !in lines[k]
  }

  lemma {:induction false} BodyLinesAreClean(lines: seq<string>)
    requires Separates(lines, '\n')
    ensures Clean(BodyLines(lines))
  {
    if lines != [] {
      var n := |lines| - 1;
      BodyLinesAreClean(lines[..n]);
      var front, back := TrimSpaceIs(lines[n]);
      var t := TrimSpace(lines[n]);
      assert forall c :: c in t ==> c in front + t + back;
    }
  }

  lemma {:induction false} CleanLinesStay(lines: seq<string>)
    requires Clean(lines)
    ensures BodyLines(lines) == lines
  {
    if lines != [] {
      var n := |lines| - 1;
      CleanLinesStay(lines[..n]);
      TrimOfTrimmed(lines[n]);
      assert lines == lines[..n] + [lines[n]];
    }
  }

  // The lines of the output are exactly the body lines of the input.
  lemma OutputLines(pem: string)
    ensures var body := BodyLines(Split(pem, '\n'));
            && Clean(body)
            && Split(Stripped(pem), '\n') == if body == [] then [""] else body
  {
    var body := BodyLines(Split(pem, '\n'));
    JoinOfSplit(pem, '\n');
    BodyLinesAreClean(Split(pem, '\n'));
    if body != [] {
      SplitOfJoin(body, '\n');
    }
  }

  lemma StripIsIdempotent(pem: string)
    ensures Stripped(Stripped(pem)) == Stripped(pem)
  {
    var body := BodyLines(Split(pem, '\n'));
    OutputLines(pem);
    if body == [] {
      assert BodyLines([""]) == [];
    } else {
      CleanLinesStay(body);
    }
  }

  // ---------------------------------------------------------------- which lines are kept

  // The white space of ASCII, and no visible character of it.
  lemma SpacesAre(c: char)
    requires c < '\U{80}'
    ensures IsSpace(c) <==> c as int == 32 || 9 <= c as int <= 13
  {
  }

  // No other part of a text is left when white space is cut off both ends.
  lemma {:induction false} TrimLeftSkips(front: string, t: string)
    requires AllSpace(front) && (t != "" ==> !IsSpace(t[0]))
    ensures TrimLeft(front + t) == t
  {
    if front == "" {
      assert front + t == t;
    } else {
      TrimLeftSkips(front[1..], t);
      assert (front + t)[0] == front[0] && (front + t)[1..] == front[1..] + t;
    }
  }

  lemma {:induction false} TrimRightSkips(t: string, back: string)
    requires AllSpace(back) && (t != "" ==> !IsSpace(t[|t| - 1]))
    ensures TrimRight(t + back) == t
  {
    if back == "" {
      assert t + back == t;
    } else {
      var n := |back| - 1;
      TrimRightSkips(t, back[..n]);
      assert (t + back)[|t| + n] == back[n] && (t + back)[..|t| + n] == t + back[..n];
    }
  }

  lemma TrimSpaceOf(front: string, t: string, back: string)
    requires AllSpace(front) && AllSpace(back) && Trimmed(t) && t != ""
    ensures TrimSpace(front + t + back) == t
  {
    assert front + t + back == front + (t + back);
    TrimLeftSkips(front, t + back);
    TrimRightSkips(t, back);
  }

  // The line between some white space, if it is one of the body.
  ghost predicate Carries(line: string, body: string) {
    && body != "" && !("-----BEGIN" <= body) && !("-----END" <= body) && Trimmed(body)
    && exists front, back :: line == front + body + back && AllSpace(front) && AllSpace(back)
  }

  lemma CarriesIff(line: string, body: string)
    ensures Carries(line, body) <==> IsBody(TrimSpace(line)) && TrimSpace(line) == body
  {
    var f, b := TrimSpaceIs(line);
    if front, back :| line == front + body + back && AllSpace(front) && AllSpace(back) {
      if body != "" && Trimmed(body) {
        TrimSpaceOf(front, body, back);
      }
    }
    hide TrimSpace;
  }

  // Position by position: the body lines are what exactly these lines carry, in their order.
  ghost predicate AreBodies(lines: seq<string>, body: seq<string>, pos: seq<nat>) {
    && |pos| == |body|
    && (forall i :: 0 <= i < |pos| ==> pos[i] < |lines| && Carries(lines[pos[i]], body[i]))
    && (forall i, j :: 0 <= i < j < |pos| ==> pos[i] < pos[j])
    && (forall k, b :: 0 <= k < |lines| && Carries(lines[k], b) ==> k in pos)
  }

  lemma OneMoreLine(lines: seq<string>, line: string, body: seq<string>, pos: seq<nat>)
    requires AreBodies(lines, body, pos)
    ensures var t := TrimSpace(line);
            if IsBody(t) then AreBodies(lines + [line], body + [t], pos + [|lines|]) else AreBodies(lines + [line], body, pos)
  {
    var t, all := TrimSpace(line), lines + [line];
    CarriesIff(line, t);
    forall b {
      CarriesIff(line, b);
    }
    hide Carries, TrimSpace, IsBody;
    assert forall k :: 0 <= k < |lines| ==> all[k] == lines[k];
    assert all[|lines|] == line;
    assert |lines| in pos + [|lines|] && forall k :: k in pos ==> k in pos + [|lines|];
  }

  lemma {:induction false} BodyLinesAre(lines: seq<string>) returns (pos: seq<nat>)
    ensures AreBodies(lines, BodyLines(lines), pos)
  {
    if lines == [] {
      pos := [];
    } else {
      var n := |lines| - 1;
      pos := BodyLinesAre(lines[..n]);
      OneMoreLine(lines[..n], lines[n], BodyLines(lines[..n]), pos);
      hide AreBodies, TrimSpace, IsBody;
      assert lines == lines[..n] + [lines[n]];
      if IsBody(TrimSpace(lines[n])) {
        pos := pos + [n];
      }
    }
  }

  // So the output is the bodies of exactly the lines that carry one.
  lemma OutputIs(pem: string) returns (body: seq<string>, pos: seq<nat>)
    ensures AreBodies(Split(pem, '\n'), body, pos)
    ensures Stripped(pem) == Join(body, '\n')
  {
    body := BodyLines(Split(pem, '\n'));
    pos := BodyLinesAre(Split(pem, '\n'));
  }
}
