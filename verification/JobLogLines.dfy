/** A job's log line by line : the colours open at a line's end carried into the next. */
module JobLogLines {
  import opened JobLog
  import opened JobLogClasses
  import Texts

  // ─── the lines ───────────────────────────────────────────────────────────────

  /** The lines of a text, cut at each line feed, with or without a carriage return before it. */
  function SplitLines(s: string): (lines: seq<string>)
    ensures lines != []
    decreases |s|
  {
    if s == "" then [""]
    else if |s| > 1 && s[0] == '\r' && s[1] == '\n' then [""] + SplitLines(s[2..])
    else if s[0] == '\n' then [""] + SplitLines(s[1..])
    else var rest := SplitLines(s[1..]); [[s[0]] + rest[0]] + rest[1..]
  }

  /** Without the blank lines at the end. */
  function Dropped(raw: seq<string>): seq<string> {
    if raw == [] || Texts.Trim(raw[|raw| - 1]) != "" then raw else Dropped(raw[..|raw| - 1])
  }

  function HtmlLines(raw: seq<string>, open: seq<string>): seq<string> {
    if raw == [] then []
    else
      var line := Line(Escape(raw[0]), open);
      [line.html] + HtmlLines(raw[1..], line.stack)
  }

  function LinesOf(text: string): seq<string> {
    HtmlLines(if text == "" then [] else Dropped(SplitLines(text)), [])
  }

  /** The lines of the html, those from the `k`th on after those before. */
  ghost predicate SoFar(lines: seq<string>, raw: seq<string>, k: nat, open: seq<string>) {
    k <= |raw| && lines + HtmlLines(raw[k..], open) == HtmlLines(raw, [])
  }

  lemma OneMoreLine(lines: seq<string>, raw: seq<string>, k: nat, open: seq<string>)
    requires SoFar(lines, raw, k, open) && k < |raw|
    ensures var line := Line(Escape(raw[k]), open); SoFar(lines + [line.html], raw, k + 1, line.stack)
  {
    hide Line, Escape;
    var line := Line(Escape(raw[k]), open);
    assert raw[k..][1..] == raw[k + 1..];
    var rest := HtmlLines(raw[k + 1..], line.stack);
    assert (lines + [line.html]) + rest == lines + ([line.html] + rest);
  }

  lemma NoLineYet(raw: seq<string>)
    ensures SoFar([], raw, 0, [])
  {
    assert raw[0..] == raw && [] + HtmlLines(raw, []) == HtmlLines(raw, []);
  }

  lemma {:induction false} EveryLine(lines: seq<string>, raw: seq<string>, open: seq<string>)
    requires SoFar(lines, raw, |raw|, open)
    ensures lines == HtmlLines(raw, [])
  {
    assert raw[|raw|..] == [] && lines + [] == lines;
  }

  method JobLogLines(text: string) returns (lines: seq<string>)
    ensures lines == LinesOf(text)
  {
    hide Line, Escape, SplitLines, Texts.Trim, HtmlLines, SoFar;
    if text == "" {
      NoLineYet([]);
      EveryLine([], [], []);
      return [];
    }
    var raw := SplitLines(text);
    while |raw| > 0 && Texts.Trim(raw[|raw| - 1]) == ""
      invariant Dropped(raw) == Dropped(SplitLines(text))
    {
      raw := raw[..|raw| - 1];
    }
    var open: seq<string> := [];
    lines := [];
    NoLineYet(raw);
    for k := 0 to |raw|
      invariant SoFar(lines, raw, k, open)
    {
      OneMoreLine(lines, raw, k, open);
      var html, after := AnsiLine(Escape(raw[k]), open);
      lines := lines + [html];
      open := after;
    }
    EveryLine(lines, raw, open);
  }

  // ─── the lines of a log, as what they are made of ────────────────────────────

  function PieceLines(ps: seq<Piece>): (lines: seq<seq<Piece>>)
    ensures lines != []
    decreases |ps|
  {
    if ps == [] then [[]]
    else if |ps| > 1 && ps[0] == Text('\r') && ps[1] == Text('\n') then [[]] + PieceLines(ps[2..])
    else if ps[0] == Text('\n') then [[]] + PieceLines(ps[1..])
    else var rest := PieceLines(ps[1..]); [[ps[0]] + rest[0]] + rest[1..]
  }

  /** The log without its line breaks. */
  function NoBreaks(ps: seq<Piece>): seq<Piece>
    decreases |ps|
  {
    if ps == [] then []
    else if |ps| > 1 && ps[0] == Text('\r') && ps[1] == Text('\n') then NoBreaks(ps[2..])
    else if ps[0] == Text('\n') then NoBreaks(ps[1..])
    else [ps[0]] + NoBreaks(ps[1..])
  }

  function Joined(lines: seq<seq<Piece>>): seq<Piece> {
    if lines == [] then [] else lines[0] + Joined(lines[1..])
  }

  function Spellings(lines: seq<seq<Piece>>): seq<string> {
    if lines == [] then [] else [Spelling(lines[0])] + Spellings(lines[1..])
  }

  lemma {:induction false} LinesJoin(ps: seq<Piece>)
    ensures Joined(PieceLines(ps)) == NoBreaks(ps)
    decreases |ps|
  {
    if ps != [] {
      if |ps| > 1 && ps[0] == Text('\r') && ps[1] == Text('\n') {
        LinesJoin(ps[2..]);
        assert ([[]] + PieceLines(ps[2..]))[1..] == PieceLines(ps[2..]);
        assert [] + Joined(PieceLines(ps[2..])) == Joined(PieceLines(ps[2..]));
      } else if ps[0] == Text('\n') {
        LinesJoin(ps[1..]);
        assert ([[]] + PieceLines(ps[1..]))[1..] == PieceLines(ps[1..]);
        assert [] + Joined(PieceLines(ps[1..])) == Joined(PieceLines(ps[1..]));
      } else {
        LinesJoin(ps[1..]);
        var rest := PieceLines(ps[1..]);
        assert ([[ps[0]] + rest[0]] + rest[1..])[1..] == rest[1..];
        assert ([ps[0]] + rest[0]) + Joined(rest[1..]) == [ps[0]] + (rest[0] + Joined(rest[1..]));
      }
    }
  }

  predicate NoBreak(c: char) { c != '\r' && c != '\n' }

  lemma {:induction false} SplitOne(c: char, s: string)
    requires NoBreak(c)
    ensures var rest := SplitLines(s); SplitLines([c] + s) == [[c] + rest[0]] + rest[1..]
  {
    assert ([c] + s)[1..] == s;
  }

  lemma {:induction false} SplitPrefix(x: string, s: string)
    requires All(x, NoBreak)
    ensures var rest := SplitLines(s); SplitLines(x + s) == [x + rest[0]] + rest[1..]
  {
    hide SplitLines;
    var rest := SplitLines(s);
    if x == "" {
      assert x + s == s && "" + rest[0] == rest[0];
    } else {
      var tail := x[1..] + s;
      SplitPrefix(x[1..], s);
      SplitOne(x[0], tail);
      assert x + s == [x[0]] + tail;
      assert ([x[1..] + rest[0]] + rest[1..])[1..] == rest[1..];
      assert [x[0]] + (x[1..] + rest[0]) == x + rest[0];
    }
  }

  lemma ControlHasNoBreak(p: Piece)
    requires Complete(p) && p.Control?
    ensures All(Spelled(p), NoBreak)
  {
    AllJoins([ESC, '['], Body(p), NoBreak);
    AllJoins(p.params + p.inter, [p.final], NoBreak);
    AllJoins(p.params, p.inter, NoBreak);
  }

  lemma {:induction false} SpellingStarts(ps: seq<Piece>)
    requires AllComplete(ps)
    ensures Spelling(ps) != "" && Spelling(ps)[0] == '\n' ==> ps != [] && ps[0] == Text('\n')
  {
  }

  lemma {:induction false} SpellingText(ps: seq<Piece>)
    requires ps != [] && ps[0].Text?
    ensures Spelling(ps) == [ps[0].c] + Spelling(ps[1..])
  {
  }

  lemma {:induction false} CutAtReturn(s: string)
    ensures SplitLines(['\r', '\n'] + s) == [""] + SplitLines(s)
  {
    assert (['\r', '\n'] + s)[2..] == s;
  }

  lemma {:induction false} CutAtFeed(s: string)
    ensures SplitLines(['\n'] + s) == [""] + SplitLines(s)
  {
    assert (['\n'] + s)[1..] == s;
  }

  lemma {:induction false} SplitReturn(ps: seq<Piece>)
    requires |ps| > 1 && ps[0] == Text('\r') && ps[1] == Text('\n')
    ensures SplitLines(Spelling(ps)) == [""] + SplitLines(Spelling(ps[2..]))
  {
    hide SplitLines, Spelling;
    SpellingText(ps);
    SpellingText(ps[1..]);
    assert ps[1..][1..] == ps[2..];
    var s := Spelling(ps[2..]);
    assert ['\r'] + (['\n'] + s) == ['\r', '\n'] + s;
    CutAtReturn(s);
  }

  lemma {:induction false} SplitFeed(ps: seq<Piece>)
    requires ps != [] && ps[0] == Text('\n')
    ensures SplitLines(Spelling(ps)) == [""] + SplitLines(Spelling(ps[1..]))
  {
    hide SplitLines, Spelling;
    SpellingText(ps);
    CutAtFeed(Spelling(ps[1..]));
  }

  lemma {:induction false} SpellingsOf(first: seq<Piece>, rest: seq<seq<Piece>>)
    ensures Spellings([first] + rest) == [Spelling(first)] + Spellings(rest)
  {
    hide Spelling;
    assert ([first] + rest)[1..] == rest;
  }

  lemma {:induction false} SpellingOf(p: Piece, rest: seq<Piece>)
    ensures Spelling([p] + rest) == Spelled(p) + Spelling(rest)
  {
    hide Spelled;
    assert ([p] + rest)[1..] == rest;
  }

  /** The lines of a log are those of its pieces. */
  lemma {:induction false} SplitIsPieceLines(ps: seq<Piece>)
    requires AllComplete(ps)
    ensures SplitLines(Spelling(ps)) == Spellings(PieceLines(ps))
    decreases |ps|
  {
    hide Complete, Spelling, Spellings, SplitLines, Spelled;
    if ps == [] {
      SplitNothing();
    } else if |ps| > 1 && ps[0] == Text('\r') && ps[1] == Text('\n') {
      SplitIsPieceLines(ps[2..]);
      SplitReturn(ps);
      SpellingsOf([], PieceLines(ps[2..]));
      SpellingNothing();
    } else if ps[0] == Text('\n') {
      SplitIsPieceLines(ps[1..]);
      SplitFeed(ps);
      SpellingsOf([], PieceLines(ps[1..]));
      SpellingNothing();
    } else {
      SplitIsPieceLines(ps[1..]);
      SplitOther(ps);
      var rest := PieceLines(ps[1..]);
      assert [rest[0]] + rest[1..] == rest;
      SpellingsOf(rest[0], rest[1..]);
      SpellingsOf([ps[0]] + rest[0], rest[1..]);
      SpellingOf(ps[0], rest[0]);
    }
  }

  lemma SpellingNothing()
    ensures Spelling([]) == ""
  {
  }

  lemma SplitNothing()
    ensures SplitLines(Spelling([])) == Spellings(PieceLines([]))
  {
    assert Spellings([[]]) == [Spelling([])] + Spellings([]);
  }

  lemma {:induction false} SplitOther(ps: seq<Piece>)
    requires AllComplete(ps) && ps != [] && ps[0] != Text('\n')
    requires !(|ps| > 1 && ps[0] == Text('\r') && ps[1] == Text('\n'))
    ensures var rest := SplitLines(Spelling(ps[1..]));
            SplitLines(Spelling(ps)) == [Spelled(ps[0]) + rest[0]] + rest[1..]
  {
    var s := Spelling(ps[1..]);
    assert Complete(ps[0]);
    if ps[0] == Text('\r') {
      SpellingText(ps);
      SpellingStarts(ps[1..]);
      assert (['\r'] + s)[1..] == s;
    } else {
      if ps[0].Control? { ControlHasNoBreak(ps[0]); }
      SplitPrefix(Spelled(ps[0]), s);
    }
  }

  // ─── line by line is one pass ────────────────────────────────────────────────

  /** Each line well formed on its own, no span left open. */
  ghost predicate AllBalanced(lines: seq<string>) {
    lines == [] || (ReadHtml(lines[0], []).Read? && ReadHtml(lines[0], []).open == [] && AllBalanced(lines[1..]))
  }

  /** What the lines show, one after the other. */
  function Shown(lines: seq<string>): seq<Styled> {
    if lines == [] then []
    else (match ReadHtml(lines[0], []) case Malformed => [] case Read(chars, _) => chars) + Shown(lines[1..])
  }

  ghost predicate AllLinesComplete(lines: seq<seq<Piece>>) {
    lines == [] || (AllComplete(lines[0]) && AllLinesComplete(lines[1..]))
  }

  lemma {:induction false} LinesAreComplete(ps: seq<Piece>)
    requires AllComplete(ps)
    ensures AllLinesComplete(PieceLines(ps)) && AllComplete(NoBreaks(ps)) && (AllClean(NoBreaks(ps)) <==> AllClean(ps))
    decreases |ps|
  {
    hide Complete, Clean;
    if ps != [] {
      if |ps| > 1 && ps[0] == Text('\r') && ps[1] == Text('\n') {
        LinesAreComplete(ps[2..]);
        TextIsClean(ps[0]);
        TextIsClean(ps[1]);
        assert ps[1..][1..] == ps[2..];
        assert ([[]] + PieceLines(ps[2..]))[1..] == PieceLines(ps[2..]);
      } else {
        LinesAreComplete(ps[1..]);
        TextIsClean(ps[0]);
        var rest := PieceLines(ps[1..]);
        assert ([[]] + rest)[1..] == rest;
        assert ([[ps[0]] + rest[0]] + rest[1..])[1..] == rest[1..];
        assert ([ps[0]] + NoBreaks(ps[1..]))[1..] == NoBreaks(ps[1..]);
      }
    }
  }

  lemma {:induction false} ShowsJoin(a: seq<Piece>, b: seq<Piece>, stack: seq<string>)
    ensures Shows(a + b, stack) == Shows(a, stack) + Shows(b, After(a, stack))
    decreases |a|
  {
    hide Step, PieceShows;
    if a == [] {
      assert a + b == b && [] + Shows(b, stack) == Shows(b, stack);
    } else {
      assert (a + b)[1..] == a[1..] + b;
      ShowsJoin(a[1..], b, Step(a[0], stack));
      var x, y, z := PieceShows(a[0], stack), Shows(a[1..], Step(a[0], stack)), Shows(b, After(a, stack));
      assert x + (y + z) == (x + y) + z;
    }
  }

  lemma {:induction false} LinesShow(lines: seq<seq<Piece>>, open: seq<string>)
    requires AllLinesComplete(lines) && PlainStack(open)
    ensures AllBalanced(HtmlLines(Spellings(lines), open))
    ensures Shown(HtmlLines(Spellings(lines), open)) == Shows(Joined(lines), open)
    decreases |lines|
  {
    hide AllComplete, PlainStack, Line, Escape, Spelling, ReadHtml, After, Shows;
    if lines == [] {
      assert Spellings(lines) == [];
      ShowsNone(open);
    } else {
      var raw := Spellings(lines);
      assert raw[1..] == Spellings(lines[1..]);
      LineReadsAsShown(lines[0], open);
      LinesShow(lines[1..], After(lines[0], open));
      ShowsJoin(lines[0], Joined(lines[1..]), open);
      var line := Line(Escape(raw[0]), open);
      assert HtmlLines(raw, open)[1..] == HtmlLines(raw[1..], line.stack);
    }
  }

  lemma {:induction false} ShowsNone(open: seq<string>)
    ensures Shows([], open) == []
  {
  }

  /** The lines shown are the first ones of the log, up to the last one that is not blank. */
  lemma {:induction false} DroppedAreBlank(raw: seq<string>, open: seq<string>, k: nat)
    ensures Dropped(raw) <= raw
    ensures |Dropped(raw)| <= k < |raw| ==> Texts.Trim(raw[k]) == ""
    ensures Dropped(raw) != [] ==> Texts.Trim(Dropped(raw)[|Dropped(raw)| - 1]) != ""
    ensures HtmlLines(Dropped(raw), open) <= HtmlLines(raw, open)
  {
    hide Texts.Trim, Line, Escape;
    if raw != [] && Texts.Trim(raw[|raw| - 1]) == "" {
      var front := raw[..|raw| - 1];
      DroppedAreBlank(front, open, k);
      FirstLines(front, [raw[|raw| - 1]], open);
      assert front + [raw[|raw| - 1]] == raw;
    }
  }

  lemma {:induction false} FirstLines(a: seq<string>, b: seq<string>, open: seq<string>)
    ensures HtmlLines(a, open) <= HtmlLines(a + b, open)
    decreases |a|
  {
    hide Line, Escape;
    if a != [] {
      assert (a + b)[1..] == a[1..] + b;
      FirstLines(a[1..], b, Line(Escape(a[0]), open).stack);
    }
  }

  lemma NoClassIsPlain()
    ensures PlainStack([])
  {
  }

  // ─── the lines returned ──────────────────────────────────────────────────────

  ghost predicate Blank(chars: seq<Styled>) {
    forall i :: 0 <= i < |chars| ==> Texts.IsSpace(chars[i].c)
  }

  /** `whole` is what is shown, then spaces alone. */
  ghost predicate OnlyBlankAfter(shown: seq<Styled>, whole: seq<Styled>) {
    shown <= whole && Blank(whole[|shown|..])
  }

  lemma TrimmedAwayIsSpaces(s: string)
    requires Texts.Trim(s) == ""
    ensures Texts.AllSpace(s)
  {
    var a, b := Texts.TrimCuts(s);
    assert s == a + b;
  }

  /** A blank line of a log is text alone, and shows spaces. */
  lemma {:induction false} SpacesShowBlank(ps: seq<Piece>, stack: seq<string>)
    requires Texts.AllSpace(Spelling(ps))
    ensures Blank(Shows(ps, stack))
  {
    if ps != [] {
      var s := Spelling(ps);
      assert s[0] == Spelled(ps[0])[0] && Texts.IsSpace(s[0]);
      assert ps[0].Text?;
      SpellingText(ps);
      forall i | 0 <= i < |s[1..]| ensures Texts.IsSpace(s[1..][i]) {
        assert s[1..][i] == s[i + 1];
      }
      assert s[1..] == Spelling(ps[1..]);
      SpacesShowBlank(ps[1..], stack);
    }
  }

  lemma BlankJoins(a: seq<Styled>, b: seq<Styled>)
    requires Blank(a) && Blank(b)
    ensures Blank(a + b)
  {
  }

  ghost predicate SpaceLines(lines: seq<seq<Piece>>) {
    forall k :: 0 <= k < |lines| ==> Texts.AllSpace(Spelling(lines[k]))
  }

  lemma {:induction false} SpaceLinesShowBlank(lines: seq<seq<Piece>>, stack: seq<string>)
    requires SpaceLines(lines)
    ensures Blank(Shows(Joined(lines), stack))
    decreases |lines|
  {
    hide Texts.AllSpace, Blank, Shows, After, Spelling;
    if lines == [] {
      ShowsNone(stack);
      NothingIsBlank();
    } else {
      SpacesShowBlank(lines[0], stack);
      SpaceLinesShowBlank(lines[1..], After(lines[0], stack));
      ShowsJoin(lines[0], Joined(lines[1..]), stack);
      BlankJoins(Shows(lines[0], stack), Shows(Joined(lines[1..]), After(lines[0], stack)));
    }
  }

  lemma NothingIsBlank()
    ensures Blank([])
  {
  }

  lemma {:induction false} SpellingsAre(lines: seq<seq<Piece>>, n: nat)
    requires n <= |lines|
    ensures |Spellings(lines)| == |lines| && Spellings(lines)[..n] == Spellings(lines[..n])
    ensures forall k :: 0 <= k < |lines| ==> Spellings(lines)[k] == Spelling(lines[k])
    decreases |lines|
  {
    hide Spelling;
    if lines != [] {
      SpellingsAre(lines[1..], if n == 0 then 0 else n - 1);
      if n > 0 {
        assert lines[..n][1..] == lines[1..][..n - 1];
      }
    }
  }

  lemma {:induction false} JoinedJoins(a: seq<seq<Piece>>, b: seq<seq<Piece>>)
    ensures Joined(a + b) == Joined(a) + Joined(b)
    ensures AllLinesComplete(a + b) ==> AllLinesComplete(a)
    decreases |a|
  {
    hide AllComplete;
    if a == [] {
      assert a + b == b;
    } else {
      assert (a + b)[1..] == a[1..] + b;
      JoinedJoins(a[1..], b);
    }
  }

  /** Without the blank lines at its end a log shows all it did, but for spaces at its end. */
  lemma {:induction false} DroppedShow(lines: seq<seq<Piece>>, n: nat)
    requires AllLinesComplete(lines) && n <= |lines| && SpaceLines(lines[n..])
    ensures AllBalanced(HtmlLines(Spellings(lines[..n]), []))
    ensures OnlyBlankAfter(Shown(HtmlLines(Spellings(lines[..n]), [])), Shows(Joined(lines), []))
  {
    hide AllLinesComplete, AllBalanced, HtmlLines, Spellings, Shown, Shows, Joined, Blank, SpaceLines, PlainStack;
    var kept, rest := lines[..n], lines[n..];
    assert lines == kept + rest;
    JoinedJoins(kept, rest);
    NoClassIsPlain();
    LinesShow(kept, []);
    ShowsJoin(Joined(kept), Joined(rest), []);
    SpaceLinesShowBlank(rest, After(Joined(kept), []));
    var shown, tail := Shows(Joined(kept), []), Shows(Joined(rest), After(Joined(kept), []));
    assert (shown + tail)[|shown|..] == tail;
  }

  lemma {:induction false} DroppedAreSpaces(lines: seq<seq<Piece>>, n: nat)
    requires n == |Dropped(Spellings(lines))|
    ensures n <= |lines| && SpaceLines(lines[n..]) && Dropped(Spellings(lines)) == Spellings(lines[..n])
  {
    hide Dropped, Spelling, Spellings, Texts.AllSpace, Texts.Trim, Line, HtmlLines;
    var raw := Spellings(lines);
    SpellingsAre(lines, 0);
    DroppedAreBlank(raw, [], 0);
    SpellingsAre(lines, n);
    forall k | 0 <= k < |lines[n..]| ensures Texts.AllSpace(Spelling(lines[n..][k])) {
      DroppedAreBlank(raw, [], n + k);
      assert raw[n + k] == Spelling(lines[n + k]);
      TrimmedAwayIsSpaces(raw[n + k]);
    }
  }

  /** The lines of a log, blank or not, show what one pass over it shows. */
  lemma {:induction false} LinesShowLog(ps: seq<Piece>)
    requires AllComplete(ps)
    ensures AllBalanced(LinesOf(Spelling(ps)))
    ensures OnlyBlankAfter(Shown(LinesOf(Spelling(ps))), Shows(NoBreaks(ps), []))
  {
    hide AllComplete, AllLinesComplete, AllBalanced, HtmlLines, SplitLines, Spelling, Spellings, Shown, Shows, Joined,
         SpaceLines, NoBreaks, OnlyBlankAfter, PieceLines;
    var lines := PieceLines(ps);
    var n := |Dropped(Spellings(lines))|;
    SplitIsPieceLines(ps);
    LinesAreComplete(ps);
    LinesJoin(ps);
    DroppedAreSpaces(lines, n);
    DroppedShow(lines, n);
    LinesOfIs(Spelling(ps));
  }

  lemma {:induction false} LinesOfIs(text: string)
    ensures LinesOf(text) == HtmlLines(Dropped(SplitLines(text)), [])
  {
    if text == "" {
      assert SplitLines(text) == [""] && Texts.Trim("") == "" && Dropped([""]) == Dropped([""][..0]);
    }
  }

  /** Line by line is one pass : each line of a log of text and complete sequences is well formed on its
      own, and each character has the classes that one pass over the whole log gives it. Only spaces at the
      end of the log are left out. */
  lemma {:induction false} LinesAreOnePass(ps: seq<Piece>)
    requires AllWellFormed(ps)
    ensures var lines, onePass := LinesOf(Spelling(ps)), ReadHtml(Line(Escape(Spelling(NoBreaks(ps))), []).html, []);
            && AllBalanced(lines)
            && onePass.Read? && onePass.open == [] && OnlyBlankAfter(Shown(lines), onePass.chars)
  {
    hide AllComplete, AllWellFormed, PlainStack, Line, Escape, Spelling, ReadHtml, Shows, Shown, AllBalanced, LinesOf,
         NoBreaks, AllClean, OnlyBlankAfter;
    AllAreComplete(ps);
    LinesShowLog(ps);
    LinesAreComplete(ps);
    NoClassIsPlain();
    LineReadsAsShown(NoBreaks(ps), []);
  }

  // ─── and what was meant ──────────────────────────────────────────────────────

  /** How many characters are no space. */
  function Ink(chars: seq<Styled>): nat {
    if chars == [] then 0 else (if Texts.IsSpace(chars[0].c) then 0 else 1) + Ink(chars[1..])
  }

  lemma {:induction false} InkJoins(a: seq<Styled>, b: seq<Styled>)
    ensures Ink(a + b) == Ink(a) + Ink(b)
    decreases |a|
  {
    if a == [] {
      assert a + b == b;
    } else {
      assert (a + b)[1..] == a[1..] + b;
      InkJoins(a[1..], b);
    }
  }

  lemma {:induction false} BlankHasNoInk(chars: seq<Styled>)
    requires Blank(chars)
    ensures Ink(chars) == 0
  {
    if chars != [] { BlankHasNoInk(chars[1..]); }
  }

  lemma {:induction false} SameInk(shown: seq<Styled>, whole: seq<Styled>)
    requires OnlyBlankAfter(shown, whole)
    ensures Ink(shown) == Ink(whole)
  {
    InkJoins(shown, whole[|shown|..]);
    BlankHasNoInk(whole[|shown|..]);
    assert whole == shown + whole[|shown|..];
  }

  /** What is left of a sequence cut short starts with a letter. */
  lemma {:induction false} LeftoverHasInk(p: Piece, stack: seq<string>)
    requires p.Control?
    ensures Clean(p) <==> Ink(Plainly(Leftover(p), stack)) == 0
  {
    LeftoverIsNone(p);
    if !Clean(p) {
      LeftoverStarts(p);
    }
  }

  lemma LeftoverStarts(p: Piece)
    requires p.Control? && Leftover(p) != ""
    ensures !Texts.IsSpace(Leftover(p)[0])
  {
    hide Body, EscapeChar;
    var n := FirstSpecial(Body(p));
    EscapedStarts(Body(p)[n]);
  }

  lemma EscapedStarts(c: char)
    requires IsSpecial(c)
    ensures |EscapeChar(c)| > 2 && (EscapeChar(c)[2] == 'm' || EscapeChar(c)[2] == 't')
  {
  }

  /** A log shows each character meant, and more exactly when it has a sequence that is cut short. */
  lemma {:induction false} ShowsInk(ps: seq<Piece>, stack: seq<string>)
    ensures Ink(Shows(ps, stack)) >= Ink(Stepped(ps, stack))
    ensures Ink(Shows(ps, stack)) == Ink(Stepped(ps, stack)) <==> AllClean(ps)
  {
    if ps != [] {
      hide Leftover, Clean, Step, Plainly, Ink;
      var shows, meant := Shows(ps[1..], Step(ps[0], stack)), Stepped(ps[1..], Step(ps[0], stack));
      ShowsInk(ps[1..], Step(ps[0], stack));
      if ps[0].Text? {
        TextIsClean(ps[0]);
        InkJoins([Styled(ps[0].c, stack)], shows);
        InkJoins([Styled(ps[0].c, stack)], meant);
      } else {
        LeftoverHasInk(ps[0], stack);
        InkJoins(Plainly(Leftover(ps[0]), stack), shows);
        assert [] + meant == meant;
      }
    }
  }

  /** And those are the characters of the log, each with the classes of the codes that stand before it since
      the last that closes all, but for spaces at its end, exactly when no sequence has `&`, `<` or `>` in it. */
  lemma {:induction false} LinesAreMeantExactly(ps: seq<Piece>)
    requires AllWellFormed(ps)
    ensures OnlyBlankAfter(Shown(LinesOf(Spelling(ps))), Meant(NoBreaks(ps), [])) <==> NoneToEscape(ps)
  {
    hide AllComplete, AllWellFormed, Spelling, Shows, Shown, LinesOf, NoBreaks, AllClean, Stepped, Meant, Ink,
         OnlyBlankAfter, NoneToEscape;
    AllAreComplete(ps);
    AllCleanIff(ps);
    var shown, shows, meant := Shown(LinesOf(Spelling(ps))), Shows(NoBreaks(ps), []), Stepped(NoBreaks(ps), []);
    LinesShowLog(ps);
    LinesAreComplete(ps);
    SameInk(shown, shows);
    ShowsInk(NoBreaks(ps), []);
    ShowsAsSteppedExactly(NoBreaks(ps), []);
    SteppedIsMeant(NoBreaks(ps), []);
    if OnlyBlankAfter(shown, meant) {
      SameInk(shown, meant);
    }
  }

  /** One such log : the sequence by which a program asks a terminal for its modified keys shows as text. */
  lemma SequenceShowsAsText()
    ensures var ps := [Control(">4;2", "", 'm')];
            && AllWellFormed(ps) && !NoneToEscape(ps) && Meant(NoBreaks(ps), []) == []
            && Shown(LinesOf(Spelling(ps))) == Plainly("t;4;2m", [])
  {
    hide Shown, LinesOf, Spelling, Plainly;
    var p := Control(">4;2", "", 'm');
    var ps := [p];
    assert AllComplete(ps);
    AllAreComplete(ps);
    AllCleanIff(ps);
    LinesShowLog(ps);
    OneControl(p);
    SteppedIsMeant(NoBreaks(ps), []);
    LeftoverOfKeys();
    ShowsToItsEnd(Shown(LinesOf(Spelling(ps))));
  }

  lemma OneControl(p: Piece)
    requires p.Control?
    ensures NoBreaks([p]) == [p] && Stepped([p], []) == [] && Shows([p], []) == Plainly(Leftover(p), [])
    ensures AllClean([p]) <==> Clean(p)
  {
    hide Leftover, Clean, Plainly;
    assert [p][1..] == [] && NoBreaks([]) == [] && Shows([], Step(p, [])) == [] && Stepped([], Step(p, [])) == [];
    assert Plainly(Leftover(p), []) + [] == Plainly(Leftover(p), []);
  }

  lemma LeftoverOfKeys()
    ensures Leftover(Control(">4;2", "", 'm')) == "t;4;2m" && !Clean(Control(">4;2", "", 'm'))
  {
    var p := Control(">4;2", "", 'm');
    assert Body(p) == ">4;2m" && Body(p)[0] == '>';
    assert EscapeChar('>') == "&gt;";
    LeftoverIsNone(p);
  }

  lemma ShowsToItsEnd(shown: seq<Styled>)
    requires OnlyBlankAfter(shown, Plainly("t;4;2m", []))
    ensures shown == Plainly("t;4;2m", [])
  {
    hide Plainly, Blank;
    var whole := Plainly("t;4;2m", []);
    PlainlyIs("t;4;2m", [], 5);
    if shown != whole {
      EndIsNotBlank(shown, whole);
    }
  }

  lemma EndIsNotBlank(shown: seq<Styled>, whole: seq<Styled>)
    requires shown <= whole && shown != whole && !Texts.IsSpace(whole[|whole| - 1].c)
    ensures !Blank(whole[|shown|..])
  {
    var rest := whole[|shown|..];
    assert rest[|rest| - 1] == whole[|whole| - 1];
  }

  lemma {:induction false} PlainlyIs(s: string, classes: seq<string>, k: nat)
    requires k < |s|
    ensures |Plainly(s, classes)| == |s| && Plainly(s, classes)[k] == Styled(s[k], classes)
  {
    PlainlyIsAsLong(s, classes);
    if k > 0 { PlainlyIs(s[1..], classes, k - 1); }
  }
}
