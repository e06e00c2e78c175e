/** A job's log as its card shows it : escaped, its ANSI colours as spans, each line well formed with the
    colours still open from the lines before. */
module JobLog {
  import opened Wrappers

  const ESC := '\U{001B}'

  // ─── what the two expressions match ──────────────────────────────────────────

  predicate IsCode(c: char) { '0' <= c <= '9' || c == ';' }
  predicate IsParam(c: char) { '0' <= c <= '?' }
  predicate IsInter(c: char) { ' ' <= c <= '/' }
  predicate IsFinal(c: char) { '@' <= c <= '~' }
  predicate IsSpecial(c: char) { c == '&' || c == '<' || c == '>' }

  /** How many of the first characters are of a kind. */
  function Prefix(s: string, kind: char -> bool): (n: nat)
    ensures n <= |s| && (n < |s| ==> !kind(s[n])) && forall i :: 0 <= i < n ==> kind(s[i])
  {
    if s != "" && kind(s[0]) then 1 + Prefix(s[1..], kind) else 0
  }

  predicate All(s: string, kind: char -> bool) {
    forall i :: 0 <= i < |s| ==> kind(s[i])
  }

  lemma {:induction false} PrefixIs(a: string, b: string, kind: char -> bool)
    requires All(a, kind) && (b == "" || !kind(b[0]))
    ensures Prefix(a + b, kind) == |a|
  {
    if a == "" {
      assert a + b == b;
    } else {
      assert (a + b)[1..] == a[1..] + b;
      PrefixIs(a[1..], b, kind);
    }
  }

  predicate StartsControl(s: string) {
    |s| >= 2 && s[0] == ESC && s[1] == '['
  }

  /** A colour sequence at the start : how long its codes are. */
  function SgrAt(s: string): (n: Option<nat>)
    ensures n.Some? ==> n.value + 3 <= |s|
  {
    if !StartsControl(s) then None
    else
      var n := Prefix(s[2..], IsCode);
      if 2 + n < |s| && s[2 + n] == 'm' then Some(n) else None
  }

  /** Any control sequence at the start : how long it is. */
  function ControlAt(s: string): (n: Option<nat>)
    ensures n.Some? ==> 3 <= n.value <= |s|
  {
    if !StartsControl(s) then None
    else
      var params := Prefix(s[2..], IsParam);
      var inter := Prefix(s[2 + params..], IsInter);
      if 2 + params + inter < |s| && IsFinal(s[2 + params + inter]) then Some(3 + params + inter) else None
  }

  // ─── colours as spans ────────────────────────────────────────────────────────

  const BOLD := "has-text-weight-bold"

  function AnsiClass(code: string): Option<string> {
    if code == "30" || code == "90" then Some("has-text-muted")
    else if code == "31" || code == "91" then Some("has-text-danger")
    else if code == "32" || code == "92" then Some("has-text-success")
    else if code == "33" || code == "93" then Some("has-text-warning")
    else if code == "34" || code == "94" || code == "36" || code == "96" then Some("has-text-info")
    else if code == "35" || code == "95" then Some("has-text-purple")
    else None
  }

  /** The class a code opens, if it does. */
  function Opened(code: string): Option<string> {
    if code == "1" then Some(BOLD) else AnsiClass(code)
  }

  predicate IsReset(code: string) {
    code == "0" || code == "" || code == "39"
  }

  const OPEN := "<span class=\""
  const OPENED := "\">"
  const CLOSE := "</span>"

  function OpenTag(class_: string): string {
    OPEN + class_ + OPENED
  }

  function Opens(stack: seq<string>): string {
    if stack == [] then "" else Opens(stack[..|stack| - 1]) + OpenTag(stack[|stack| - 1])
  }

  function Closes(n: nat): string {
    if n == 0 then "" else CLOSE + Closes(n - 1)
  }

  datatype Painted = Painted(html: string, stack: seq<string>)

  function Codes(s: string): seq<string> {
    var n := Prefix(s, c => c != ';');
    if n == |s| then [s] else [s[..n]] + Codes(s[n + 1..])
  }

  /** The codes of one sequence, applied one after the other. */
  function Applied(codes: seq<string>, stack: seq<string>): Painted {
    if codes == [] then Painted("", stack)
    else
      var code := codes[0];
      if IsReset(code) then
        var rest := Applied(codes[1..], []);
        Painted(Closes(|stack|) + rest.html, rest.stack)
      else match Opened(code)
        case None => Applied(codes[1..], stack)
        case Some(class_) =>
          var rest := Applied(codes[1..], stack + [class_]);
          Painted(OpenTag(class_) + rest.html, rest.stack)
  }

  function AllCodes(s: string): seq<string> {
    Codes(if s == "" then "0" else s)
  }

  /** The text with each colour sequence replaced by its spans. */
  function Coloured(s: string, stack: seq<string>): Painted {
    if s == "" then Painted("", stack)
    else match SgrAt(s)
      case Some(n) =>
        var one := Applied(AllCodes(s[2..2 + n]), stack);
        var rest := Coloured(s[n + 3..], one.stack);
        Painted(one.html + rest.html, rest.stack)
      case None =>
        var rest := Coloured(s[1..], stack);
        Painted([s[0]] + rest.html, rest.stack)
  }

  /** The text without its control sequences. */
  function Stripped(s: string): string {
    if s == "" then ""
    else match ControlAt(s)
      case Some(n) => Stripped(s[n..])
      case None => [s[0]] + Stripped(s[1..])
  }

  /** A line with the colours open before it, and those open after it. */
  function Line(html: string, open: seq<string>): Painted {
    var coloured := Coloured(html, open);
    Painted(Stripped(Opens(open) + coloured.html) + Closes(|coloured.stack|), coloured.stack)
  }

  function EscapeChar(c: char): string {
    if c == '&' then "&amp;" else if c == '<' then "&lt;" else if c == '>' then "&gt;" else [c]
  }

  function Escape(s: string): string {
    if s == "" then "" else EscapeChar(s[0]) + Escape(s[1..])
  }

  // ─── the same, as it is written ──────────────────────────────────────────────

  method ApplyCodes(codes: seq<string>, open: seq<string>) returns (html: string, stack: seq<string>)
    ensures Painted(html, stack) == Applied(codes, open)
  {
    hide IsReset, Opened, Closes, OpenTag;
    html, stack := "", open;
    for k := 0 to |codes|
      invariant var rest := Applied(codes[k..], stack); Painted(html + rest.html, rest.stack) == Applied(codes, open)
    {
      var code := codes[k];
      ghost var before := html;
      assert codes[k..][0] == code && codes[k..][1..] == codes[k + 1..];
      ghost var rest := Applied(codes[k..], stack);
      if IsReset(code) {
        html := html + Closes(|stack|);
        stack := [];
      } else if Opened(code).Some? {
        html := html + OpenTag(Opened(code).value);
        stack := stack + [Opened(code).value];
      }
      ghost var next := Applied(codes[k + 1..], stack);
      assert html + next.html == before + rest.html;
    }
    assert codes[|codes|..] == [] && html + "" == html;
  }

  /** The text done and the text to come. */
  function Onward(out: string, s: string, stack: seq<string>): Painted {
    Painted(out + Coloured(s, stack).html, Coloured(s, stack).stack)
  }

  lemma {:induction false} OnwardStep(out: string, s: string, stack: seq<string>)
    ensures s == "" ==> Onward(out, s, stack) == Painted(out, stack)
    ensures s != "" && SgrAt(s).None? ==> Onward(out, s, stack) == Onward(out + [s[0]], s[1..], stack)
    ensures SgrAt(s).Some? ==> var n := SgrAt(s).value;
            var one := Applied(AllCodes(s[2..2 + n]), stack);
            Onward(out, s, stack) == Onward(out + one.html, s[n + 3..], one.stack)
  {
    hide SgrAt, Applied, AllCodes;
    if s == "" {
      assert out + "" == out;
    } else if SgrAt(s).None? {
      assert out + ([s[0]] + Coloured(s[1..], stack).html) == (out + [s[0]]) + Coloured(s[1..], stack).html;
    } else {
      var n := SgrAt(s).value;
      var one := Applied(AllCodes(s[2..2 + n]), stack);
      var rest := Coloured(s[n + 3..], one.stack);
      assert out + (one.html + rest.html) == (out + one.html) + rest.html;
    }
  }

  method Colour(s: string, open: seq<string>) returns (out: string, stack: seq<string>)
    ensures Painted(out, stack) == Coloured(s, open)
  {
    hide SgrAt, Applied, AllCodes, Coloured, Onward;
    out, stack := "", open;
    var i := 0;
    assert s[0..] == s;
    while i < |s|
      invariant i <= |s| && Onward(out, s[i..], stack) == Onward("", s, open)
    {
      OnwardStep(out, s[i..], stack);
      var at := SgrAt(s[i..]);
      if at.Some? {
        assert s[i..][2..2 + at.value] == s[i + 2..i + 2 + at.value] && s[i..][at.value + 3..] == s[i + at.value + 3..];
        var html, after := ApplyCodes(AllCodes(s[i + 2..i + 2 + at.value]), stack);
        out, stack, i := out + html, after, i + at.value + 3;
      } else {
        assert s[i..][1..] == s[i + 1..];
        out, i := out + [s[i]], i + 1;
      }
    }
    OnwardStep(out, s[i..], stack);
    OnwardNone(s, open);
  }

  lemma {:induction false} OnwardNone(s: string, open: seq<string>)
    ensures Onward("", s, open) == Coloured(s, open)
  {
    hide Coloured;
    assert "" + Coloured(s, open).html == Coloured(s, open).html;
  }

  method AnsiLine(html: string, open: seq<string>) returns (out: string, stack: seq<string>)
    ensures Painted(out, stack) == Line(html, open)
  {
    hide Coloured, Stripped, Opens, Closes;
    out, stack := Colour(html, open);
    out := Stripped(Opens(open) + out);
    out := out + Closes(|stack|);
  }

  // ─── a log, as what it is made of ────────────────────────────────────────────

  /** A character of the text, or a control sequence whole. */
  datatype Piece = Text(c: char) | Control(params: string, inter: string, final: char)

  predicate Complete(p: Piece) {
    match p
    case Text(c) => c != ESC
    case Control(params, inter, final) => All(params, IsParam) && All(inter, IsInter) && IsFinal(final)
  }

  predicate IsSgr(p: Piece) {
    p.Control? && All(p.params, IsCode) && p.inter == "" && p.final == 'm'
  }

  function Body(p: Piece): string
    requires p.Control?
  {
    p.params + p.inter + [p.final]
  }

  function Spelled(p: Piece): string {
    if p.Text? then [p.c] else ['\U{001B}', '['] + Body(p)
  }

  function Spelling(ps: seq<Piece>): string {
    if ps == [] then "" else Spelled(ps[0]) + Spelling(ps[1..])
  }

  ghost predicate AllComplete(ps: seq<Piece>) {
    forall i :: 0 <= i < |ps| ==> Complete(ps[i])
  }

  /** The stack of classes after a piece, and after a log. */
  function Step(p: Piece, stack: seq<string>): seq<string> {
    if IsSgr(p) then Applied(AllCodes(p.params), stack).stack else stack
  }

  function After(ps: seq<Piece>, stack: seq<string>): seq<string> {
    if ps == [] then stack else After(ps[1..], Step(ps[0], stack))
  }

  /** A character as it shows, with the classes around it. */
  datatype Styled = Styled(c: char, classes: seq<string>)

  function Plainly(s: string, classes: seq<string>): seq<Styled> {
    if s == "" then [] else [Styled(s[0], classes)] + Plainly(s[1..], classes)
  }

  // ─── what escaping does to a control sequence ────────────────────────────────

  function FirstSpecial(s: string): (n: nat)
    ensures n <= |s|
  {
    Prefix(s, c => !IsSpecial(c))
  }

  /** What is left showing of a control sequence : nothing, unless `&`, `<` or `>` stands in it, which
      escaping has cut short. */
  function Leftover(p: Piece): string
    requires p.Control?
  {
    var n := FirstSpecial(Body(p));
    if n == |Body(p)| then "" else EscapeChar(Body(p)[n])[2..] + Body(p)[n + 1..]
  }

  predicate Clean(p: Piece) {
    p.Control? ==> All(Body(p), c => !IsSpecial(c))
  }

  lemma LeftoverIsNone(p: Piece)
    requires p.Control?
    ensures Leftover(p) == "" <==> Clean(p)
  {
    var n := FirstSpecial(Body(p));
    if n < |Body(p)| { assert |EscapeChar(Body(p)[n])| > 2; }
  }

  function PieceShows(p: Piece, stack: seq<string>): seq<Styled> {
    if p.Text? then [Styled(p.c, stack)] else Plainly(Leftover(p), stack)
  }

  /** What a log shows in one pass. */
  function Shows(ps: seq<Piece>, stack: seq<string>): seq<Styled> {
    if ps == [] then [] else PieceShows(ps[0], stack) + Shows(ps[1..], Step(ps[0], stack))
  }

  /** The characters, each with the stack of classes that applying the sequences before it leaves. */
  function Stepped(ps: seq<Piece>, stack: seq<string>): seq<Styled> {
    if ps == [] then []
    else (if ps[0].Text? then [Styled(ps[0].c, stack)] else []) + Stepped(ps[1..], Step(ps[0], stack))
  }

  lemma {:induction false} PlainlyIsAsLong(s: string, classes: seq<string>)
    ensures |Plainly(s, classes)| == |s|
  {
    if s != "" { PlainlyIsAsLong(s[1..], classes); }
  }

  predicate AllClean(ps: seq<Piece>) {
    ps == [] || (Clean(ps[0]) && AllClean(ps[1..]))
  }

  /** It shows those alone exactly when no control sequence has `&`, `<` or `>` in it. */
  lemma {:induction false} ShowsAsSteppedExactly(ps: seq<Piece>, stack: seq<string>)
    ensures Shows(ps, stack) == Stepped(ps, stack) <==> AllClean(ps)
    ensures |Shows(ps, stack)| >= |Stepped(ps, stack)|
  {
    if ps != [] {
      hide Leftover, Clean, Step, Plainly;
      var shows, meant := Shows(ps[1..], Step(ps[0], stack)), Stepped(ps[1..], Step(ps[0], stack));
      ShowsAsSteppedExactly(ps[1..], Step(ps[0], stack));
      if ps[0].Text? {
        assert ([Styled(ps[0].c, stack)] + shows)[1..] == shows && ([Styled(ps[0].c, stack)] + meant)[1..] == meant;
        TextIsClean(ps[0]);
      } else {
        LeftoverIsNone(ps[0]);
        PlainlyIsAsLong(Leftover(ps[0]), stack);
        assert [] + meant == meant;
      }
    }
  }

  lemma TextIsClean(p: Piece)
    ensures p.Text? ==> Clean(p)
  {
  }

  // ─── the html, as it reads ───────────────────────────────────────────────────

  predicate StartsWith(s: string, t: string) {
    |s| >= |t| && s[..|t|] == t
  }

  /** What html shows, each character with the classes of the spans around it ; `open` : those left open. */
  datatype Reading = Malformed | Read(chars: seq<Styled>, open: seq<string>)

  function Then(chars: seq<Styled>, r: Reading): Reading {
    if r.Read? then Read(chars + r.chars, r.open) else r
  }

  function ReadTag(s: string, open: seq<string>): Reading
    requires StartsWith(s, "<")
    decreases |s|, 0
  {
    if StartsWith(s, "</span>") then
      if open == [] then Malformed else ReadHtml(s[7..], open[..|open| - 1])
    else if StartsWith(s, "<span class=\"") then
      var n := Prefix(s[13..], c => c != '"');
      if !StartsWith(s[13 + n..], "\">") then Malformed
      else ReadHtml(s[13 + n + 2..], open + [s[13..13 + n]])
    else Malformed
  }

  function ReadHtml(s: string, open: seq<string>): Reading
    decreases |s|, 1
  {
    if s == "" then Read([], open)
    else if s[0] == '<' then ReadTag(s, open)
    else if s[0] == '>' then Malformed
    else if s[0] == '&' then
      if StartsWith(s, "&amp;") then Then([Styled('&', open)], ReadHtml(s[5..], open))
      else if StartsWith(s, "&lt;") then Then([Styled('<', open)], ReadHtml(s[4..], open))
      else if StartsWith(s, "&gt;") then Then([Styled('>', open)], ReadHtml(s[4..], open))
      else Malformed
    else Then([Styled(s[0], open)], ReadHtml(s[1..], open))
  }

  lemma {:induction false} ReadsChar(c: char, s: string, open: seq<string>)
    ensures ReadHtml(EscapeChar(c) + s, open) == Then([Styled(c, open)], ReadHtml(s, open))
  {
    var t := EscapeChar(c) + s;
    assert t[|EscapeChar(c)|..] == s && t[..|EscapeChar(c)|] == EscapeChar(c);
    if c == '&' {
      assert t[..5] == "&amp;";
    } else if IsSpecial(c) {
      assert t[..4] == EscapeChar(c);
      assert |t| >= 5 ==> t[..5][1] != 'a';
    }
  }

  predicate NoQuote(c: char) { c != '"' && c != ESC }

  predicate PlainStack(stack: seq<string>) {
    forall i :: 0 <= i < |stack| ==> All(stack[i], NoQuote)
  }

  lemma StartsHere(a: string, b: string)
    ensures StartsWith(a + b, a) && (a + b)[|a|..] == b
  {
  }

  lemma OpensNotCloses(rest: string)
    ensures !StartsWith(OPEN + rest, CLOSE) && StartsWith(OPEN + rest, "<") && (OPEN + rest)[0] == '<'
  {
    assert (OPEN + rest)[1] == 's' && CLOSE[1] == '/';
  }

  lemma {:induction false} ReadsOpenTag(rest: string, n: nat, s: string, open: seq<string>)
    requires n == Prefix(rest, c => c != '"') && n <= |rest| && rest[n..] == OPENED + s
    ensures ReadHtml(OPEN + rest, open) == ReadHtml(s, open + [rest[..n]])
  {
    hide StartsWith, Prefix;
    var t := OPEN + rest;
    StartsHere(OPEN, rest);
    StartsHere(OPENED, s);
    OpensNotCloses(rest);
    assert t[|OPEN| + n..] == rest[n..] && t[|OPEN|..|OPEN| + n] == rest[..n];
    assert t[|OPEN| + n + |OPENED|..] == rest[n..][|OPENED|..];
  }

  lemma {:induction false} ReadsOpen(class_: string, s: string, open: seq<string>)
    requires All(class_, NoQuote)
    ensures ReadHtml(OpenTag(class_) + s, open) == ReadHtml(s, open + [class_])
  {
    hide ReadHtml, Prefix;
    var rest := class_ + (OPENED + s);
    assert OpenTag(class_) + s == OPEN + rest;
    assert (OPENED + s)[0] == '"';
    PrefixIs(class_, OPENED + s, c => c != '"');
    assert rest[..|class_|] == class_ && rest[|class_|..] == OPENED + s;
    ReadsOpenTag(rest, |class_|, s, open);
  }

  lemma {:induction false} ReadsClose(s: string, open: seq<string>)
    requires open != []
    ensures ReadHtml(CLOSE + s, open) == ReadHtml(s, open[..|open| - 1])
  {
    var t := CLOSE + s;
    assert t[..|CLOSE|] == CLOSE && t[|CLOSE|..] == s;
  }

  lemma {:induction false} ReadsCloses(s: string, open: seq<string>)
    ensures ReadHtml(Closes(|open|) + s, open) == ReadHtml(s, [])
  {
    if open == [] {
      assert Closes(0) + s == s;
    } else {
      var front := open[..|open| - 1];
      assert Closes(|open|) + s == CLOSE + (Closes(|front|) + s);
      ReadsClose(Closes(|front|) + s, open);
      ReadsCloses(s, front);
    }
  }

  lemma {:induction false} ReadsOpens(stack: seq<string>, s: string)
    requires PlainStack(stack)
    ensures ReadHtml(Opens(stack) + s, []) == ReadHtml(s, stack)
  {
    if stack == [] {
      assert Opens(stack) + s == s;
    } else {
      var front, class_ := stack[..|stack| - 1], stack[|stack| - 1];
      assert Opens(stack) + s == Opens(front) + (OpenTag(class_) + s);
      ReadsOpens(front, OpenTag(class_) + s);
      ReadsOpen(class_, s, front);
      assert front + [class_] == stack;
    }
  }

  lemma ClassesArePlain(code: string)
    ensures Opened(code).Some? ==> All(Opened(code).value, NoQuote)
  {
  }

  /** The spans of one sequence read as the stack they leave. */
  lemma {:induction false} ReadsApplied(codes: seq<string>, stack: seq<string>, s: string)
    requires PlainStack(stack)
    ensures ReadHtml(Applied(codes, stack).html + s, stack) == ReadHtml(s, Applied(codes, stack).stack)
    ensures PlainStack(Applied(codes, stack).stack)
    decreases |codes|
  {
    if codes == [] {
      assert "" + s == s;
    } else {
      hide IsReset, Opened, AnsiClass, ReadHtml, Closes, OpenTag;
      var code := codes[0];
      if IsReset(code) {
        var rest := Applied(codes[1..], []);
        assert (Closes(|stack|) + rest.html) + s == Closes(|stack|) + (rest.html + s);
        ReadsCloses(rest.html + s, stack);
        ReadsApplied(codes[1..], [], s);
      } else if Opened(code).Some? {
        var class_ := Opened(code).value;
        ClassesArePlain(code);
        var rest := Applied(codes[1..], stack + [class_]);
        assert (OpenTag(class_) + rest.html) + s == OpenTag(class_) + (rest.html + s);
        ReadsOpen(class_, rest.html + s, stack);
        ReadsApplied(codes[1..], stack + [class_], s);
      } else {
        ReadsApplied(codes[1..], stack, s);
      }
    }
  }

  lemma {:induction false} ReadsPlainly(text: string, s: string, open: seq<string>)
    ensures ReadHtml(Escape(text) + s, open) == Then(Plainly(text, open), ReadHtml(s, open))
  {
    if text == "" {
      assert "" + s == s;
      assert ReadHtml(s, open).Read? ==> [] + ReadHtml(s, open).chars == ReadHtml(s, open).chars;
    } else {
      hide ReadHtml, EscapeChar;
      assert Escape(text) + s == EscapeChar(text[0]) + (Escape(text[1..]) + s);
      ReadsChar(text[0], Escape(text[1..]) + s, open);
      ReadsPlainly(text[1..], s, open);
      ThenThen([Styled(text[0], open)], Plainly(text[1..], open), ReadHtml(s, open));
    }
  }

  lemma ThenThen(a: seq<Styled>, b: seq<Styled>, r: Reading)
    ensures Then(a, Then(b, r)) == Then(a + b, r)
  {
    if r.Read? { assert a + (b + r.chars) == (a + b) + r.chars; }
  }

  /** The html of the pieces, sequences replaced or dropped. */
  function PieceHtml(p: Piece, stack: seq<string>): string {
    if p.Text? then EscapeChar(p.c)
    else if IsSgr(p) then Applied(AllCodes(p.params), stack).html
    else Escape(Leftover(p))
  }

  function Html(ps: seq<Piece>, stack: seq<string>): string {
    if ps == [] then "" else PieceHtml(ps[0], stack) + Html(ps[1..], Step(ps[0], stack))
  }

  lemma SgrIsClean(p: Piece)
    requires IsSgr(p)
    ensures Leftover(p) == ""
  {
    LeftoverIsNone(p);
  }

  lemma {:induction false} ReadsPiece(p: Piece, stack: seq<string>, s: string)
    requires PlainStack(stack)
    ensures ReadHtml(PieceHtml(p, stack) + s, stack) == Then(PieceShows(p, stack), ReadHtml(s, Step(p, stack)))
    ensures PlainStack(Step(p, stack))
  {
    hide ReadHtml, Leftover, EscapeChar, Applied, AllCodes;
    if p.Text? {
      ReadsChar(p.c, s, stack);
    } else if IsSgr(p) {
      SgrIsClean(p);
      ReadsApplied(AllCodes(p.params), stack, s);
      assert ReadHtml(s, Step(p, stack)).Read? ==>
        [] + ReadHtml(s, Step(p, stack)).chars == ReadHtml(s, Step(p, stack)).chars;
    } else {
      ReadsPlainly(Leftover(p), s, stack);
    }
  }

  lemma {:induction false} ReadsPieces(ps: seq<Piece>, stack: seq<string>, s: string)
    requires PlainStack(stack)
    ensures ReadHtml(Html(ps, stack) + s, stack) == Then(Shows(ps, stack), ReadHtml(s, After(ps, stack)))
    ensures PlainStack(After(ps, stack))
    decreases |ps|
  {
    hide ReadHtml, PieceHtml, PieceShows, Step;
    if ps == [] {
      assert "" + s == s;
      assert ReadHtml(s, stack).Read? ==> [] + ReadHtml(s, stack).chars == ReadHtml(s, stack).chars;
    } else {
      var next := Step(ps[0], stack);
      var rest := Html(ps[1..], next) + s;
      assert Html(ps, stack) + s == PieceHtml(ps[0], stack) + rest;
      ReadsPiece(ps[0], stack, rest);
      ReadsPieces(ps[1..], next, s);
      ThenThen(PieceShows(ps[0], stack), Shows(ps[1..], next), ReadHtml(s, After(ps, stack)));
    }
  }

  // ─── the two expressions on a log's pieces ───────────────────────────────────

  predicate NotEsc(c: char) { c != ESC }

  lemma AllJoins(a: string, b: string, kind: char -> bool)
    ensures All(a + b, kind) <==> All(a, kind) && All(b, kind)
  {
    assert forall i :: 0 <= i < |a| ==> (a + b)[i] == a[i];
    assert forall i :: 0 <= i < |b| ==> (a + b)[|a| + i] == b[i];
  }

  lemma {:induction false} EscapeJoins(a: string, b: string)
    ensures Escape(a + b) == Escape(a) + Escape(b)
  {
    if a == "" {
      assert a + b == b;
    } else {
      assert (a + b)[1..] == a[1..] + b;
      EscapeJoins(a[1..], b);
    }
  }

  lemma {:induction false} EscapeKeeps(s: string)
    ensures All(s, NotEsc) ==> All(Escape(s), NotEsc)
    ensures All(s, c => !IsSpecial(c)) ==> Escape(s) == s
  {
    if s != "" {
      EscapeKeeps(s[1..]);
      AllJoins(EscapeChar(s[0]), Escape(s[1..]), NotEsc);
      assert s == [s[0]] + s[1..];
      AllJoins([s[0]], s[1..], NotEsc);
      AllJoins([s[0]], s[1..], c => !IsSpecial(c));
    }
  }

  lemma NoControl(c: char, s: string)
    requires c != ESC
    ensures SgrAt([c] + s).None? && ControlAt([c] + s).None?
  {
  }

  lemma {:induction false} ColouredOne(c: char, s: string, stack: seq<string>)
    requires SgrAt([c] + s).None?
    ensures Coloured([c] + s, stack) == Painted([c] + Coloured(s, stack).html, Coloured(s, stack).stack)
  {
    hide SgrAt;
    assert ([c] + s)[1..] == s;
  }

  lemma {:induction false} StrippedOne(c: char, s: string)
    requires ControlAt([c] + s).None?
    ensures Stripped([c] + s) == [c] + Stripped(s)
  {
    hide ControlAt;
    assert ([c] + s)[1..] == s;
  }

  lemma {:induction false} ColouredPlain(x: string, s: string, stack: seq<string>)
    requires All(x, NotEsc)
    ensures Coloured(x + s, stack) == Painted(x + Coloured(s, stack).html, Coloured(s, stack).stack)
  {
    hide SgrAt, ControlAt, Coloured;
    if x == "" {
      assert x + s == s;
      assert "" + Coloured(s, stack).html == Coloured(s, stack).html;
    } else {
      assert x + s == [x[0]] + (x[1..] + s);
      NoControl(x[0], x[1..] + s);
      ColouredOne(x[0], x[1..] + s, stack);
      ColouredPlain(x[1..], s, stack);
      assert [x[0]] + (x[1..] + Coloured(s, stack).html) == x + Coloured(s, stack).html;
    }
  }

  lemma {:induction false} StrippedPlain(x: string, s: string)
    requires All(x, NotEsc)
    ensures Stripped(x + s) == x + Stripped(s)
  {
    hide SgrAt, ControlAt, Stripped;
    if x == "" {
      assert x + s == s;
      assert "" + Stripped(s) == Stripped(s);
    } else {
      assert x + s == [x[0]] + (x[1..] + s);
      NoControl(x[0], x[1..] + s);
      StrippedOne(x[0], x[1..] + s);
      StrippedPlain(x[1..], s);
      assert [x[0]] + (x[1..] + Stripped(s)) == x + Stripped(s);
    }
  }

  /** After its codes comes no `m` : not a colour sequence. */
  predicate NoColour(b: string) {
    b != "" && if IsCode(b[0]) then NoColour(b[1..]) else b[0] != 'm'
  }

  lemma {:induction false} NoColourHere(params: string, inter: string, final: char)
    requires All(params, IsParam) && All(inter, IsInter) && IsFinal(final)
    requires !(All(params, IsCode) && inter == "" && final == 'm')
    ensures NoColour(params + inter + [final])
  {
    var b := params + inter + [final];
    if params != "" {
      assert b[1..] == params[1..] + inter + [final];
      if IsCode(params[0]) {
        assert params == [params[0]] + params[1..];
        AllJoins([params[0]], params[1..], IsCode);
        NoColourHere(params[1..], inter, final);
      }
    } else if inter != "" {
      assert b[0] == inter[0];
    } else {
      assert b == [final];
    }
  }

  lemma {:induction false} FirstEscaped(c: char, rest: string)
    ensures var t := EscapeChar(c) + rest;
            && t[0] == (if IsSpecial(c) then '&' else c)
            && (IsCode(c) ==> t[1..] == rest && Prefix(t, IsCode) == 1 + Prefix(rest, IsCode))
  {
    if IsCode(c) { assert ([c] + rest)[1..] == rest; }
  }

  lemma {:induction false} NoColourEscaped(b: string, s: string)
    requires NoColour(b)
    ensures var t := Escape(b) + s; var n := Prefix(t, IsCode); n < |t| && t[n] != 'm'
  {
    var rest := Escape(b[1..]) + s;
    assert Escape(b) + s == EscapeChar(b[0]) + rest;
    FirstEscaped(b[0], rest);
    hide Escape, EscapeChar;
    if IsCode(b[0]) { NoColourEscaped(b[1..], s); }
  }

  /** What a piece is after the first expression : a sequence that is no colour is still there. */
  function PieceColoured(p: Piece, stack: seq<string>): string {
    if IsSgr(p) then Applied(AllCodes(p.params), stack).html else Escape(Spelled(p))
  }

  function HtmlColoured(ps: seq<Piece>, stack: seq<string>): string {
    if ps == [] then "" else PieceColoured(ps[0], stack) + HtmlColoured(ps[1..], Step(ps[0], stack))
  }

  lemma BodyIsText(p: Piece)
    requires p.Control? && Complete(p)
    ensures All(Body(p), NotEsc)
  {
    AllJoins(p.params + p.inter, [p.final], NotEsc);
    AllJoins(p.params, p.inter, NotEsc);
  }

  lemma SgrAtIs(codes: string, s: string)
    requires All(codes, IsCode)
    ensures var t := [ESC, '['] + (codes + ("m" + s));
            SgrAt(t) == Some(|codes|) && t[2..2 + |codes|] == codes && t[|codes| + 3..] == s
  {
    var t := [ESC, '['] + (codes + ("m" + s));
    assert t[2..] == codes + ("m" + s);
    PrefixIs(codes, "m" + s, IsCode);
  }

  lemma SgrSpelled(p: Piece)
    requires IsSgr(p)
    ensures Escape(Spelled(p)) == Spelled(p) == [ESC, '['] + (p.params + "m")
  {
    assert Spelled(p) == [ESC, '['] + (p.params + "m");
    AllJoins([ESC, '['], p.params + "m", c => !IsSpecial(c));
    AllJoins(p.params, "m", c => !IsSpecial(c));
    EscapeKeeps(Spelled(p));
  }

  lemma {:induction false} ColouredSgr(p: Piece, stack: seq<string>, s: string)
    requires IsSgr(p)
    ensures var one := Applied(AllCodes(p.params), stack);
            Coloured(Escape(Spelled(p)) + s, stack) ==
            Painted(one.html + Coloured(s, one.stack).html, Coloured(s, one.stack).stack)
  {
    hide Applied, AllCodes, SgrAt, Escape;
    SgrSpelled(p);
    SgrAtIs(p.params, s);
    assert Escape(Spelled(p)) + s == [ESC, '['] + (p.params + ("m" + s));
  }

  lemma {:induction false} ColouredPiece(p: Piece, stack: seq<string>, s: string)
    requires Complete(p)
    ensures var rest := Coloured(s, Step(p, stack));
            Coloured(Escape(Spelled(p)) + s, stack) == Painted(PieceColoured(p, stack) + rest.html, rest.stack)
  {
    if p.Text? {
      EscapeKeeps([p.c]);
      ColouredPlain(Escape([p.c]), s, stack);
    } else if IsSgr(p) {
      ColouredSgr(p, stack, s);
    } else {
      ColouredOther(p, stack, s);
    }
  }

  /** A control sequence escaped : its first two characters, and a text without another. */
  lemma OtherEscaped(p: Piece)
    requires Complete(p) && p.Control?
    ensures Escape(Spelled(p)) == [ESC] + ("[" + Escape(Body(p))) && All("[" + Escape(Body(p)), NotEsc)
  {
    hide Escape, Complete, Body;
    EscapeJoins([ESC, '['], Body(p));
    EscapeKeeps([ESC, '[']);
    BodyIsText(p);
    EscapeKeeps(Body(p));
    AllJoins("[", Escape(Body(p)), NotEsc);
    assert [ESC, '['] + Escape(Body(p)) == [ESC] + ("[" + Escape(Body(p)));
  }

  lemma NotSgrAt(p: Piece, s: string)
    requires Complete(p) && p.Control? && !IsSgr(p)
    ensures SgrAt([ESC] + (("[" + Escape(Body(p))) + s)).None?
  {
    var t := [ESC] + (("[" + Escape(Body(p))) + s);
    NoColourHere(p.params, p.inter, p.final);
    NoColourEscaped(Body(p), s);
    assert t[2..] == Escape(Body(p)) + s;
  }

  lemma {:induction false} ColouredOther(p: Piece, stack: seq<string>, s: string)
    requires Complete(p) && p.Control? && !IsSgr(p)
    ensures var rest := Coloured(s, stack);
            Coloured(Escape(Spelled(p)) + s, stack) == Painted(Escape(Spelled(p)) + rest.html, rest.stack)
  {
    hide SgrAt, Coloured, Escape, Complete, Spelled, Body;
    var x := "[" + Escape(Body(p));
    OtherEscaped(p);
    NotSgrAt(p, s);
    assert Escape(Spelled(p)) + s == [ESC] + (x + s);
    ColouredOne(ESC, x + s, stack);
    ColouredPlain(x, s, stack);
    assert [ESC] + (x + Coloured(s, stack).html) == Escape(Spelled(p)) + Coloured(s, stack).html;
  }

  lemma {:induction false} ColouredPieces(ps: seq<Piece>, stack: seq<string>)
    requires AllComplete(ps)
    ensures Coloured(Escape(Spelling(ps)), stack) == Painted(HtmlColoured(ps, stack), After(ps, stack))
    decreases |ps|
  {
    hide Complete, Step, Spelled, PieceColoured;
    if ps != [] {
      EscapeJoins(Spelled(ps[0]), Spelling(ps[1..]));
      ColouredPieces(ps[1..], Step(ps[0], stack));
      ColouredPiece(ps[0], stack, Escape(Spelling(ps[1..])));
    }
  }

  lemma ControlAtIs(params: string, inter: string, final: char, s: string)
    requires All(params, IsParam) && All(inter, IsInter) && IsFinal(final)
    ensures var x := [ESC, '['] + (params + inter + [final]);
            ControlAt(x + s) == Some(|x|) && (x + s)[|x|..] == s
  {
    var t := [ESC, '['] + (params + inter + [final]) + s;
    var after := inter + ([final] + s);
    assert t[2..] == params + after;
    assert after != "" && !IsParam(after[0]);
    PrefixIs(params, after, IsParam);
    assert t[2 + |params|..] == after;
    PrefixIs(inter, [final] + s, IsInter);
    assert t[2 + |params| + |inter|] == final;
  }

  lemma {:induction false} StrippedControl(params: string, inter: string, final: char, s: string)
    requires All(params, IsParam) && All(inter, IsInter) && IsFinal(final)
    ensures Stripped([ESC, '['] + (params + inter + [final]) + s) == Stripped(s)
  {
    hide ControlAt;
    ControlAtIs(params, inter, final, s);
  }

  lemma {:induction false} CleanStripped(p: Piece, s: string)
    requires Complete(p) && p.Control? && Clean(p)
    ensures Stripped(Escape(Spelled(p)) + s) == Stripped(s) && Leftover(p) == ""
  {
    hide Stripped, Leftover;
    LeftoverIsNone(p);
    AllJoins([ESC, '['], Body(p), c => !IsSpecial(c));
    EscapeKeeps(Spelled(p));
    StrippedControl(p.params, p.inter, p.final, s);
  }

  /** Where the first special character stands : among the parameters, or among what comes after them. */
  lemma CutAt(p: Piece) returns (params: string, inter: string)
    requires Complete(p) && p.Control? && FirstSpecial(Body(p)) < |Body(p)|
    ensures All(params, IsParam) && All(inter, IsInter) && Body(p)[..FirstSpecial(Body(p))] == params + inter
    ensures IsSpecial(Body(p)[FirstSpecial(Body(p))])
  {
    var b := Body(p);
    var k := FirstSpecial(b);
    assert b[|p.params| + |p.inter|] == p.final;
    if k < |p.params| {
      params, inter := p.params[..k], "";
      assert b[..k] == params + inter;
    } else {
      params, inter := p.params, p.inter[..k - |p.params|];
      assert b[..k] == params + inter;
    }
  }

  lemma BodyEscaped(p: Piece)
    requires p.Control? && FirstSpecial(Body(p)) < |Body(p)|
    ensures var k := FirstSpecial(Body(p));
            Escape(Body(p)) == Body(p)[..k] + (EscapeChar(Body(p)[k]) + Escape(Body(p)[k + 1..]))
  {
    var b := Body(p);
    var k := FirstSpecial(b);
    EscapeKeeps(b[..k]);
    assert b[..k] + b[k..] == b;
    EscapeJoins(b[..k], b[k..]);
    assert b[k..][1..] == b[k + 1..];
  }

  lemma LeftoverEscaped(p: Piece)
    requires Complete(p) && p.Control? && FirstSpecial(Body(p)) < |Body(p)| && IsSpecial(Body(p)[FirstSpecial(Body(p))])
    ensures var k := FirstSpecial(Body(p));
            && Escape(Leftover(p)) == EscapeChar(Body(p)[k])[2..] + Escape(Body(p)[k + 1..])
            && All(Escape(Leftover(p)), NotEsc)
  {
    var b := Body(p);
    var k := FirstSpecial(b);
    var cut := EscapeChar(b[k])[2..];
    BodyIsText(p);
    assert All(b[k + 1..], NotEsc);
    CutIsPlain(b[k]);
    hide Escape, EscapeChar, Complete, Body, FirstSpecial, IsSpecial;
    EscapeJoins(cut, b[k + 1..]);
    EscapeKeeps(cut);
    EscapeKeeps(b[k + 1..]);
    AllJoins(cut, Escape(b[k + 1..]), NotEsc);
  }

  lemma CutIsPlain(c: char)
    requires IsSpecial(c)
    ensures var cut := EscapeChar(c)[2..]; All(cut, NotEsc) && All(cut, x => !IsSpecial(x))
  {
  }

  lemma Glued(params: string, inter: string, e: string, tail: string, s: string)
    requires |e| >= 2 && e[0] == '&'
    ensures [ESC] + ("[" + (params + inter + (e + tail))) + s ==
            [ESC, '['] + (params + (inter + "&") + [e[1]]) + ((e[2..] + tail) + s)
  {
    assert e == "&" + [e[1]] + e[2..];
    assert params + inter + (e + tail) == (params + (inter + "&") + [e[1]]) + (e[2..] + tail);
  }

  lemma SpecialEscaped(c: char)
    requires IsSpecial(c)
    ensures |EscapeChar(c)| >= 2 && EscapeChar(c)[0] == '&' && IsFinal(EscapeChar(c)[1])
  {
  }

  /** A sequence escaping cut short : up to the cut it is taken for one, the rest shows. */
  lemma {:induction false} CutStripped(p: Piece, s: string)
    requires Complete(p) && p.Control? && FirstSpecial(Body(p)) < |Body(p)|
    ensures Stripped(Escape(Spelled(p)) + s) == Escape(Leftover(p)) + Stripped(s)
  {
    hide Stripped, Leftover, Complete, FirstSpecial, Escape, EscapeChar, Body, Spelled, IsSpecial, IsFinal;
    var params, inter := CutAt(p);
    var c, tail := Body(p)[FirstSpecial(Body(p))], Escape(Body(p)[FirstSpecial(Body(p)) + 1..]);
    var e := EscapeChar(c);
    SpecialEscaped(c);
    BodyEscaped(p);
    LeftoverEscaped(p);
    OtherEscaped(p);
    AllJoins(inter, "&", IsInter);
    Glued(params, inter, e, tail, s);
    StrippedControl(params, inter + "&", e[1], Escape(Leftover(p)) + s);
    StrippedPlain(Escape(Leftover(p)), s);
  }

  lemma {:induction false} ClosesAreText(n: nat)
    ensures All(Closes(n), NotEsc)
  {
    if n > 0 {
      ClosesAreText(n - 1);
      AllJoins(CLOSE, Closes(n - 1), NotEsc);
    }
  }

  lemma TagIsText(class_: string)
    requires All(class_, NoQuote)
    ensures All(OpenTag(class_), NotEsc)
  {
    AllJoins(OPEN + class_, OPENED, NotEsc);
    AllJoins(OPEN, class_, NotEsc);
  }

  lemma {:induction false} OpensAreText(stack: seq<string>)
    requires PlainStack(stack)
    ensures All(Opens(stack), NotEsc)
  {
    if stack != [] {
      OpensAreText(stack[..|stack| - 1]);
      TagIsText(stack[|stack| - 1]);
      AllJoins(Opens(stack[..|stack| - 1]), OpenTag(stack[|stack| - 1]), NotEsc);
    }
  }

  lemma {:induction false} AppliedIsText(codes: seq<string>, stack: seq<string>)
    ensures All(Applied(codes, stack).html, NotEsc)
    decreases |codes|
  {
    if codes != [] {
      hide IsReset, Opened, AnsiClass, Closes, OpenTag;
      var code := codes[0];
      if IsReset(code) {
        AppliedIsText(codes[1..], []);
        ClosesAreText(|stack|);
        AllJoins(Closes(|stack|), Applied(codes[1..], []).html, NotEsc);
      } else if Opened(code).Some? {
        ClassesArePlain(code);
        TagIsText(Opened(code).value);
        AppliedIsText(codes[1..], stack + [Opened(code).value]);
        AllJoins(OpenTag(Opened(code).value), Applied(codes[1..], stack + [Opened(code).value]).html, NotEsc);
      } else {
        AppliedIsText(codes[1..], stack);
      }
    }
  }

  lemma EscapeOne(c: char)
    ensures Escape([c]) == EscapeChar(c)
  {
    assert EscapeChar(c) + "" == EscapeChar(c);
  }

  lemma {:induction false} StrippedPiece(p: Piece, stack: seq<string>, s: string)
    requires Complete(p)
    ensures Stripped(PieceColoured(p, stack) + s) == PieceHtml(p, stack) + Stripped(s)
  {
    hide Stripped, Applied, AllCodes, Leftover, FirstSpecial, Body;
    if p.Text? {
      EscapeOne(p.c);
      EscapeKeeps([p.c]);
      StrippedPlain(Escape([p.c]), s);
    } else if IsSgr(p) {
      AppliedIsText(AllCodes(p.params), stack);
      StrippedPlain(Applied(AllCodes(p.params), stack).html, s);
    } else if FirstSpecial(Body(p)) < |Body(p)| {
      CutStripped(p, s);
    } else {
      WholeIsClean(p);
      CleanStripped(p, s);
      assert "" + Stripped(s) == Stripped(s);
    }
  }

  lemma WholeIsClean(p: Piece)
    requires p.Control? && FirstSpecial(Body(p)) == |Body(p)|
    ensures Clean(p)
  {
  }

  lemma {:induction false} StrippedPieces(ps: seq<Piece>, stack: seq<string>)
    requires AllComplete(ps)
    ensures Stripped(HtmlColoured(ps, stack)) == Html(ps, stack)
    decreases |ps|
  {
    hide Complete, Step, PieceColoured, PieceHtml;
    if ps != [] {
      StrippedPieces(ps[1..], Step(ps[0], stack));
      StrippedPiece(ps[0], stack, HtmlColoured(ps[1..], Step(ps[0], stack)));
    }
  }

  /** A line of text and complete control sequences : its html is well formed on its own, leaves nothing
      open, and shows each character with the classes one pass gives it. */
  lemma {:induction false} LineReadsAsShown(ps: seq<Piece>, open: seq<string>)
    requires AllComplete(ps) && PlainStack(open)
    ensures var line := Line(Escape(Spelling(ps)), open);
            && ReadHtml(line.html, []) == Read(Shows(ps, open), [])
            && line.stack == After(ps, open) && PlainStack(line.stack)
  {
    hide AllComplete, PlainStack, Coloured, Stripped, Opens, Closes, Escape, Spelling, Html, HtmlColoured, Shows, After,
         ReadHtml;
    ColouredPieces(ps, open);
    StrippedPieces(ps, open);
    OpensAreText(open);
    StrippedPlain(Opens(open), HtmlColoured(ps, open));
    var after := After(ps, open);
    var line := Line(Escape(Spelling(ps)), open);
    assert line.html == Opens(open) + (Html(ps, open) + Closes(|after|));
    ReadsOpens(open, Html(ps, open) + Closes(|after|));
    ReadsPieces(ps, open, Closes(|after|));
    ReadsCloses("", after);
    assert Closes(|after|) + "" == Closes(|after|);
    ReadsNone();
    assert Shows(ps, open) + [] == Shows(ps, open);
  }

  lemma ReadsNone()
    ensures ReadHtml("", []) == Read([], [])
  {
  }
}
