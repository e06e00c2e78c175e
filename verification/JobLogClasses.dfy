/** What a job's log should show : the classes of each character, said of the codes that stand before it. */
module JobLogClasses {
  import opened Wrappers
  import opened JobLog

  // ─── a log of complete sequences ─────────────────────────────────────────────

  ghost predicate Between(s: string, low: int, high: int) {
    forall i :: 0 <= i < |s| ==> low <= s[i] as int <= high
  }

  /** A character other than escape, or a control sequence as section 5.4 of ECMA-48 has it : parameter
      bytes, intermediate bytes and a final byte. */
  ghost predicate WellFormed(p: Piece) {
    match p
    case Text(c) => c as int != 0x1B
    case Control(params, inter, final) =>
      Between(params, 0x30, 0x3F) && Between(inter, 0x20, 0x2F) && 0x40 <= final as int <= 0x7E
  }

  ghost predicate AllWellFormed(ps: seq<Piece>) {
    forall i :: 0 <= i < |ps| ==> WellFormed(ps[i])
  }

  /** No sequence has a character in it that html must have escaped. */
  ghost predicate NoneToEscape(ps: seq<Piece>) {
    forall i :: 0 <= i < |ps| && ps[i].Control? ==>
      forall c :: c in ps[i].params + ps[i].inter + [ps[i].final] ==> c !in "&<>"
  }

  lemma WellFormedIsComplete(p: Piece)
    ensures WellFormed(p) <==> Complete(p)
  {
  }

  lemma AllAreComplete(ps: seq<Piece>)
    ensures AllWellFormed(ps) <==> AllComplete(ps)
  {
    hide WellFormed, Complete;
    forall i | 0 <= i < |ps| ensures WellFormed(ps[i]) <==> Complete(ps[i]) {
      WellFormedIsComplete(ps[i]);
    }
  }

  lemma CleanIff(p: Piece)
    requires p.Control?
    ensures Clean(p) <==> forall c :: c in p.params + p.inter + [p.final] ==> c !in "&<>"
  {
    var body := Body(p);
    if Clean(p) {
      forall c | c in body ensures c !in "&<>" {
        var i :| 0 <= i < |body| && body[i] == c;
        assert !IsSpecial(body[i]);
      }
    } else {
      var i :| 0 <= i < |body| && IsSpecial(body[i]);
      assert body[i] in body && body[i] in "&<>";
    }
  }

  lemma {:induction false} AllCleanIff(ps: seq<Piece>)
    ensures AllClean(ps) <==> NoneToEscape(ps)
  {
    hide Clean;
    if ps != [] {
      AllCleanIff(ps[1..]);
      if ps[0].Control? { CleanIff(ps[0]); } else { TextIsClean(ps[0]); }
      assert forall i :: 0 <= i < |ps[1..]| ==> ps[1..][i] == ps[i + 1];
      assert forall i :: 0 < i < |ps| ==> ps[i] == ps[1..][i - 1];
    }
  }

  // ─── the codes of a sequence ─────────────────────────────────────────────────

  /** Texts with a semicolon between each two. */
  function Separated(codes: seq<string>): string {
    if codes == [] then "" else if |codes| == 1 then codes[0] else codes[0] + ";" + Separated(codes[1..])
  }

  ghost predicate AreCodes(codes: seq<string>, params: string) {
    codes != [] && Separated(codes) == params && forall i :: 0 <= i < |codes| ==> ';' !in codes[i]
  }

  /** A colour sequence : digits and semicolons, and the final byte m. */
  ghost predicate IsColour(p: Piece) {
    p.Control? && p.inter == "" && p.final == 'm' && forall c :: c in p.params ==> c in "0123456789;"
  }

  lemma ColourIff(p: Piece)
    ensures IsColour(p) <==> IsSgr(p)
  {
    if p.Control? {
      assert forall c :: IsCode(c) <==> c in "0123456789;";
      assert forall i :: 0 <= i < |p.params| ==> p.params[i] in p.params;
    }
  }

  lemma {:induction false} CodesAre(s: string)
    ensures AreCodes(Codes(s), s)
    decreases |s|
  {
    var n := Prefix(s, c => c != ';');
    assert forall i :: 0 <= i < n ==> s[i] != ';';
    if n == |s| {
      assert [s][0] == s;
    } else {
      var rest := Codes(s[n + 1..]);
      CodesAre(s[n + 1..]);
      assert ([s[..n]] + rest)[1..] == rest;
      assert s == s[..n] + ";" + s[n + 1..];
    }
  }

  /** A text without semicolons, up to the first one or the end. */
  lemma FirstCode(codes: seq<string>, params: string)
    requires AreCodes(codes, params)
    ensures codes[0] <= params
    ensures if |codes| == 1 then codes[0] == params
            else |codes[0]| < |params| && params[|codes[0]|] == ';' && AreCodes(codes[1..], params[|codes[0]| + 1..])
  {
    if |codes| > 1 {
      assert params[|codes[0]| + 1..] == Separated(codes[1..]);
    }
  }

  lemma {:induction false} CodesAreOne(a: seq<string>, b: seq<string>, params: string)
    requires AreCodes(a, params) && AreCodes(b, params)
    ensures a == b
    decreases |a|
  {
    FirstCode(a, params);
    FirstCode(b, params);
    assert a == [a[0]] + a[1..] && b == [b[0]] + b[1..];
    SameFirst(a[0], b[0], params, |a| > 1, |b| > 1);
    if |a| > 1 {
      CodesAreOne(a[1..], b[1..], params[|a[0]| + 1..]);
    }
  }

  lemma SameFirst(x: string, y: string, params: string, xMore: bool, yMore: bool)
    requires x <= params && y <= params && ';' !in x && ';' !in y
    requires if xMore then |x| < |params| && params[|x|] == ';' else x == params
    requires if yMore then |y| < |params| && params[|y|] == ';' else y == params
    ensures x == y && xMore == yMore
  {
  }

  ghost function CodesIn(params: string): (codes: seq<string>)
    ensures AreCodes(codes, params)
  {
    CodesAre(params);
    var codes :| AreCodes(codes, params);
    codes
  }

  /** The codes of the colour sequences of a log, in order. */
  ghost function LogCodes(ps: seq<Piece>): seq<string> {
    if ps == [] then []
    else LogCodes(ps[..|ps| - 1]) + if IsColour(ps[|ps| - 1]) then CodesIn(ps[|ps| - 1].params) else []
  }

  // ─── the classes they come to ────────────────────────────────────────────────

  /** The codes that close every colour open : 0 or none, and 39. */
  predicate Closing(code: string) {
    code == "0" || code == "" || code == "39"
  }

  /** The class of each code that opens one. */
  const CLASS_OF: map<string, string> := map[
    "1" := "has-text-weight-bold",
    "30" := "has-text-muted", "90" := "has-text-muted",
    "31" := "has-text-danger", "91" := "has-text-danger",
    "32" := "has-text-success", "92" := "has-text-success",
    "33" := "has-text-warning", "93" := "has-text-warning",
    "34" := "has-text-info", "94" := "has-text-info",
    "35" := "has-text-purple", "95" := "has-text-purple",
    "36" := "has-text-info", "96" := "has-text-info"]

  /** The classes of the codes that open one, in order. */
  function ClassesIn(codes: seq<string>): seq<string> {
    if codes == [] then []
    else
      var last := codes[|codes| - 1];
      ClassesIn(codes[..|codes| - 1]) + if last in CLASS_OF then [CLASS_OF[last]] else []
  }

  /** The codes after the last one that closes. */
  function SinceClosed(codes: seq<string>): seq<string> {
    if codes == [] || Closing(codes[|codes| - 1]) then []
    else SinceClosed(codes[..|codes| - 1]) + [codes[|codes| - 1]]
  }

  /** The classes open after some codes : those of the codes after the last closing one, on top of what
      was open before when none closes. */
  ghost function ClassesAfter(codes: seq<string>, open: seq<string>): seq<string> {
    (if exists i :: 0 <= i < |codes| && Closing(codes[i]) then [] else open) + ClassesIn(SinceClosed(codes))
  }

  /** What a log should show : each character with the classes open after the codes before it. */
  ghost function Meant(ps: seq<Piece>, open: seq<string>): seq<Styled> {
    if ps == [] then []
    else
      var front, last := ps[..|ps| - 1], ps[|ps| - 1];
      Meant(front, open) + if last.Text? then [Styled(last.c, ClassesAfter(LogCodes(front), open))] else []
  }

  lemma OpenedIs(code: string)
    ensures Opened(code) == if code in CLASS_OF then Some(CLASS_OF[code]) else None
  {
  }

  lemma ClosingIff(code: string)
    ensures Closing(code) <==> IsReset(code)
  {
  }

  lemma ClosingOpensNone(code: string)
    requires Closing(code)
    ensures code !in CLASS_OF
  {
    assert |code| <= 1 || code[1] == '9';
  }

  lemma OneMoreCode(codes: seq<string>, code: string, open: seq<string>)
    ensures var classes := ClassesAfter(codes, open);
            ClassesAfter(codes + [code], open) ==
            if Closing(code) then [] else if code in CLASS_OF then classes + [CLASS_OF[code]] else classes
  {
    hide CLASS_OF, Closing;
    var all := codes + [code];
    assert all[..|all| - 1] == codes && all[|all| - 1] == code;
    if Closing(code) {
      assert SinceClosed(all) == [] && ClassesIn([]) == [];
      assert all[|codes|] == code;
    } else {
      var since := SinceClosed(codes);
      assert SinceClosed(all) == since + [code];
      assert (since + [code])[..|since|] == since;
      assert (exists i :: 0 <= i < |all| && Closing(all[i])) <==> exists i :: 0 <= i < |codes| && Closing(codes[i]) by {
        if i :| 0 <= i < |codes| && Closing(codes[i]) {
          assert all[i] == codes[i];
        }
      }
    }
  }

  lemma {:induction false} AfterBoth(a: seq<string>, b: seq<string>, open: seq<string>)
    ensures ClassesAfter(a + b, open) == ClassesAfter(b, ClassesAfter(a, open))
  {
    hide ClassesAfter, CLASS_OF, Closing;
    if b == [] {
      assert a + b == a;
      NoCodes(ClassesAfter(a, open));
    } else {
      var front, last := b[..|b| - 1], b[|b| - 1];
      AfterBoth(a, front, open);
      assert a + b == (a + front) + [last] && b == front + [last];
      OneMoreCode(a + front, last, open);
      OneMoreCode(front, last, ClassesAfter(a, open));
    }
  }

  lemma NoCodes(open: seq<string>)
    ensures ClassesAfter([], open) == open
  {
    assert open + [] == open;
  }

  /** Applied one after the other, the codes come to those classes. */
  lemma {:induction false} AppliedIs(codes: seq<string>, stack: seq<string>)
    ensures Applied(codes, stack).stack == ClassesAfter(codes, stack)
    decreases |codes|
  {
    hide ClassesAfter, CLASS_OF, Opened, IsReset, Closing;
    if codes == [] {
      NoCodes(stack);
    } else {
      var code := codes[0];
      assert codes == [code] + codes[1..] && [] + [code] == [code];
      AfterBoth([code], codes[1..], stack);
      OneMoreCode([], code, stack);
      NoCodes(stack);
      OpenedIs(code);
      ClosingIff(code);
      AppliedIs(codes[1..], ClassesAfter([code], stack));
    }
  }

  lemma StepIs(p: Piece, stack: seq<string>)
    ensures Step(p, stack) == if IsColour(p) then ClassesAfter(CodesIn(p.params), stack) else stack
  {
    ColourIff(p);
    if IsSgr(p) {
      CodesAre(p.params);
      CodesAreOne(Codes(p.params), CodesIn(p.params), p.params);
      AppliedIs(AllCodes(p.params), stack);
      if p.params == "" {
        NoneCloses(stack);
      }
    }
  }

  lemma NoneCloses(stack: seq<string>)
    ensures ClassesAfter(CodesIn(""), stack) == [] == ClassesAfter(Codes("0"), stack)
  {
    CodesAre("");
    CodesAreOne([""], CodesIn(""), "");
    assert Codes("0") == ["0"];
    OneMoreCode([], "", stack);
    OneMoreCode([], "0", stack);
    assert [] + [""] == [""] && [] + ["0"] == ["0"];
  }

  lemma {:induction false} AfterLast(ps: seq<Piece>, p: Piece, stack: seq<string>)
    ensures After(ps + [p], stack) == Step(p, After(ps, stack))
    decreases |ps|
  {
    hide Step;
    if ps == [] {
      assert ([] + [p])[1..] == [] && ([] + [p])[0] == p;
    } else {
      assert (ps + [p])[1..] == ps[1..] + [p];
      AfterLast(ps[1..], p, Step(ps[0], stack));
    }
  }

  lemma {:induction false} AfterIs(ps: seq<Piece>, stack: seq<string>)
    ensures After(ps, stack) == ClassesAfter(LogCodes(ps), stack)
  {
    hide ClassesAfter, Step;
    if ps == [] {
      NoCodes(stack);
    } else {
      var front, last := ps[..|ps| - 1], ps[|ps| - 1];
      assert ps == front + [last];
      AfterIs(front, stack);
      AfterLast(front, last, stack);
      StepIs(last, After(front, stack));
      if IsColour(last) {
        AfterBoth(LogCodes(front), CodesIn(last.params), stack);
      } else {
        assert LogCodes(front) + [] == LogCodes(front);
      }
    }
  }

  lemma {:induction false} SteppedLast(ps: seq<Piece>, p: Piece, stack: seq<string>)
    ensures Stepped(ps + [p], stack) ==
            Stepped(ps, stack) + if p.Text? then [Styled(p.c, After(ps, stack))] else []
    decreases |ps|
  {
    hide Step;
    if ps == [] {
      assert ([] + [p])[1..] == [] && ([] + [p])[0] == p && Stepped([], Step(p, stack)) == [];
    } else {
      assert (ps + [p])[1..] == ps[1..] + [p];
      SteppedLast(ps[1..], p, Step(ps[0], stack));
    }
  }

  lemma {:induction false} SteppedIsMeant(ps: seq<Piece>, stack: seq<string>)
    ensures Stepped(ps, stack) == Meant(ps, stack)
  {
    hide ClassesAfter, Step;
    if ps != [] {
      var front, last := ps[..|ps| - 1], ps[|ps| - 1];
      assert ps == front + [last];
      SteppedIsMeant(front, stack);
      SteppedLast(front, last, stack);
      AfterIs(front, stack);
    }
  }

  /** One pass over a log shows what it should exactly when no sequence has `&`, `<` or `>` in it. */
  lemma {:induction false} ShowsAsMeantExactly(ps: seq<Piece>, stack: seq<string>)
    ensures Shows(ps, stack) == Meant(ps, stack) <==> NoneToEscape(ps)
  {
    hide Shows, Stepped, Meant, AllClean, NoneToEscape;
    SteppedIsMeant(ps, stack);
    ShowsAsSteppedExactly(ps, stack);
    AllCleanIff(ps);
  }
}
