/** Values spliced inside string literals : what the literal decodes to. */
module SplicedLiterals {
  import opened Wrappers
  import opened Json
  import opened ExpressionSplice

  // ─── the text spliced ────────────────────────────────────────────────────────

  lemma {:induction false} SingleReadsBack(s: Text, n: int, t: Text)
    requires 0 <= n <= |s|
    ensures Decode(QuotesEscaped(Body(s, n)) + t) == Json.Joined(s[..n], Decode(t))
    decreases n
  {
    hide Decode, Escaped, QuotesEscaped, Json.Joined;
    if n == 0 {
      NoQuoteToEscape([]);
      assert [] + t == t;
      assert s[..0] == [];
      JoinedNothing(Decode(t));
    } else {
      var unit := QuotesEscaped(Escaped(s, n - 1));
      QuotesEscapedJoins(Body(s, n - 1), Escaped(s, n - 1));
      UnitQuoteEscaped(s, n - 1);
      assert QuotesEscaped(Body(s, n)) + t == QuotesEscaped(Body(s, n - 1)) + (unit + t);
      SingleReadsBack(s, n - 1, unit + t);
      if s[n - 1] == QUOTE {
        EscapedQuoteReadsBack(t);
      } else {
        EscapedReadsBack(s, n - 1, t);
      }
      JoinedTwice(s[..n - 1], [s[n - 1]], Decode(t));
      assert s[..n] == s[..n - 1] + [s[n - 1]];
    }
  }

  lemma {:induction false} EscapedQuoteReadsBack(t: Text)
    ensures Decode([BACKSLASH, QUOTE] + t) == Json.Joined([QUOTE], Decode(t))
  {
    assert ([BACKSLASH, QUOTE] + t)[2..] == t;
  }

  /** The text spliced decodes to the value, and what follows it in the string to what it did. */
  lemma {:induction false} TextReadsBack(value: Given, quote: int, t: Text)
    ensures Decode(InString(value, quote) + t) == Json.Joined(value.text, Decode(t))
  {
    var s := value.text;
    assert s[..|s|] == s;
    if quote == QUOTE {
      SingleReadsBack(s, |s|, t);
    } else {
      BodyReadsBack(s, |s|, t);
    }
  }

  /** What is put inside a longer string reads back as the value's text, and leaves the reader in the string. */
  lemma PutReadsBack(expression: Text, at: int, end: int, value: Given, r: Text)
    requires 0 <= at <= end <= |expression| && PutAt(expression, at, end, value, r)
    requires After(Outside, expression[..at]).In?
    requires !Between(expression, at, end, After(Outside, expression[..at]).quote)
    ensures at <= |r| - (|expression| - end) && r[..at] == expression[..at]
    ensures r[|r| - (|expression| - end)..] == expression[end..]
    ensures Decode(r[at..|r| - (|expression| - end)]) == Some(value.text)
    ensures After(Outside, r[..|r| - (|expression| - end)]) == After(Outside, expression[..at])
  {
    var quote := After(Outside, expression[..at]).quote;
    var text := InString(value, quote);
    assert r == expression[..at] + text + expression[end..];
    assert r[at..|r| - (|expression| - end)] == text && r[..at + |text|] == expression[..at] + text;
    TextReadsBack(value, quote, []);
    assert text + [] == text && value.text + [] == value.text;
    QuotesAre(expression[..at]);
    InStringStaysIn(value, quote);
    AfterJoins(Outside, expression[..at], text);
  }

  /** Spliced inside a longer string, after a text that cuts no escape short. */
  lemma {:induction false} SplicedReadsBack(before: Text, value: Given, quote: int, t: Text)
    requires Decode(before).Some?
    ensures Decode(before + (InString(value, quote) + t)) == Json.Joined(Decode(before).value + value.text, Decode(t))
  {
    hide Decode, InString, Json.Joined;
    DecodeJoins(before, InString(value, quote) + t);
    TextReadsBack(value, quote, t);
    JoinedTwice(Decode(before).value, value.text, Decode(t));
  }

  /** The literal reads as what stood before and then the string spliced, whatever the string. */
  ghost predicate ReadsAs(before: Text, quote: int, b: Text) {
    forall s: Text :: Decode(before + InString(OfString(s), quote)) == Some(b + s)
  }

  /** It does for some text before exactly when that text cuts no escape short. */
  lemma {:induction false} SplicedReadsBackExactly(before: Text, quote: int)
    ensures Decode(before).Some? <==> exists b: Text :: ReadsAs(before, quote, b)
  {
    if Decode(before).Some? {
      forall s: Text ensures Decode(before + InString(OfString(s), quote)) == Some(Decode(before).value + s) {
        SplicedReadsBack(before, OfString(s), quote, []);
        assert InString(OfString(s), quote) + [] == InString(OfString(s), quote);
        assert (Decode(before).value + s) + [] == Decode(before).value + s;
      }
      assert ReadsAs(before, quote, Decode(before).value);
    }
    forall b: Text | ReadsAs(before, quote, b) ensures Decode(before).Some? {
      NothingReadsBack(before, quote, b);
    }
  }

  lemma {:induction false} NothingReadsBack(before: Text, quote: int, b: Text)
    requires ReadsAs(before, quote, b)
    ensures Decode(before) == Some(b)
  {
    NoQuoteToEscape([]);
    assert InString(OfString([]), quote) == [] && before + [] == before && b + [] == b;
  }

  /** '\u00$(n)' : the digits spliced end an escape begun before them. */
  lemma EscapeCutShort()
    ensures var before := [BACKSLASH, 0x75, 0x30, 0x30];
            && Decode(before).None? && After(In(QUOTE), before) == In(QUOTE)
            && Decode(before + InString(OfString([0x34, 0x31]), QUOTE)) == Some([0x41])
  {
    AfterJoins(In(QUOTE), [BACKSLASH, 0x75], [0x30, 0x30]);
    AfterTwo(In(QUOTE), BACKSLASH, 0x75);
    AfterTwo(In(QUOTE), 0x30, 0x30);
    assert [BACKSLASH, 0x75] + [0x30, 0x30] == [BACKSLASH, 0x75, 0x30, 0x30];
    PlainDigits();
    WholeEscape();
  }

  lemma PlainDigits()
    ensures InString(OfString([0x34, 0x31]), QUOTE) == [0x34, 0x31]
  {
    var digits := [0x34, 0x31];
    assert Body(digits, 0) == [] && Body(digits, 1) == [0x34] && Body(digits, 2) == digits;
    NoQuoteToEscape(digits);
  }

  lemma WholeEscape()
    ensures Decode([BACKSLASH, 0x75, 0x30, 0x30] + [0x34, 0x31]) == Some([0x41])
    ensures Decode([BACKSLASH, 0x75, 0x30, 0x30]).None?
  {
    var whole := [BACKSLASH, 0x75, 0x30, 0x30] + [0x34, 0x31];
    assert Unescaped(whole) == Some((0x41, 6)) && whole[6..] == [];
    assert Decode(whole[6..]) == Some([]) && [0x41] + [] == [0x41];
  }

  // ─── the literal a value is spliced in ───────────────────────────────────────

  /** A reader in a string is still in it at every place of the text. */
  ghost predicate Inside(q: int, t: Text) {
    After(In(q), t) == In(q) && forall k :: 0 <= k <= |t| ==> After(In(q), t[..k]) != Outside
  }

  lemma InsideNothing(q: int)
    ensures Inside(q, [])
  {
  }

  lemma InsideJoins(q: int, a: Text, b: Text)
    requires Inside(q, a) && Inside(q, b)
    ensures Inside(q, a + b)
  {
    AfterJoins(In(q), a, b);
    forall k | 0 <= k <= |a + b| ensures After(In(q), (a + b)[..k]) != Outside {
      if k <= |a| {
        assert (a + b)[..k] == a[..k];
      } else {
        assert (a + b)[..k] == a + b[..k - |a|];
        AfterJoins(In(q), a, b[..k - |a|]);
      }
    }
  }

  lemma InsidePlain(q: int, t: Text)
    requires NoQuoteIn(t, q)
    ensures Inside(q, t)
  {
    forall k | 0 <= k <= |t| ensures After(In(q), t[..k]) != Outside {
      StaysIn(q, t[..k]);
    }
    StaysIn(q, t);
  }

  lemma InsidePair(q: int, c: int)
    ensures Inside(q, [BACKSLASH, c])
  {
    var t := [BACKSLASH, c];
    AfterTwo(In(q), BACKSLASH, c);
    assert t[..0] == [] && t[..1] == [BACKSLASH] && t[..2] == t;
    AfterOne(In(q), BACKSLASH);
  }

  lemma InsideEscaped(q: int, s: Text, i: int)
    requires 0 <= i < |s| && (q == DOUBLE_QUOTE || (q == QUOTE && s[i] != QUOTE))
    ensures Inside(q, Escaped(s, i))
  {
    var e := Escaped(s, i);
    if |e| == 1 {
      InsidePlain(q, e);
    } else {
      InsidePair(q, e[1]);
      if |e| == 6 {
        InsidePlain(q, e[2..]);
        InsideJoins(q, [BACKSLASH, e[1]], e[2..]);
      }
      assert e == [BACKSLASH, e[1]] + e[2..];
      if |e| == 2 { assert e[2..] == []; InsideNothing(q); InsideJoins(q, [BACKSLASH, e[1]], []); }
    }
  }

  lemma {:induction false} InsideBody(q: int, s: Text, n: int)
    requires 0 <= n <= |s| && (q == QUOTE || q == DOUBLE_QUOTE)
    ensures Inside(q, if q == QUOTE then QuotesEscaped(Body(s, n)) else Body(s, n))
    decreases n
  {
    hide Escaped, QuotesEscaped, Inside;
    if n == 0 {
      NoQuoteToEscape([]);
      InsideNothing(q);
    } else {
      InsideBody(q, s, n - 1);
      if q == DOUBLE_QUOTE || s[n - 1] != QUOTE { InsideEscaped(q, s, n - 1); } else { InsidePair(q, QUOTE); }
      QuotesEscapedJoins(Body(s, n - 1), Escaped(s, n - 1));
      UnitQuoteEscaped(s, n - 1);
      if q == QUOTE {
        InsideJoins(q, QuotesEscaped(Body(s, n - 1)), QuotesEscaped(Escaped(s, n - 1)));
      } else {
        InsideJoins(q, Body(s, n - 1), Escaped(s, n - 1));
      }
    }
  }

  lemma InStringIs(value: Given, q: int)
    ensures InString(value, q) ==
            if q == QUOTE then QuotesEscaped(Body(value.text, |value.text|)) else Body(value.text, |value.text|)
  {
  }

  /** A literal that a placeholder stands in : what stands before it, its quote, its text up to the
      placeholder and after it, and what stands after it. */
  datatype Literal = Literal(head: Text, quote: int, before: Text, after: Text, tail: Text)

  function Around(l: Literal, inside: Text): Text {
    (l.head + [l.quote] + l.before) + inside + (l.after + [l.quote] + l.tail)
  }

  function Start(l: Literal): int {
    |l.head| + 1 + |l.before|
  }

  /** It is one literal : the reader enters it at its quote and is in it up to its last. */
  ghost predicate IsLiteral(l: Literal) {
    && After(Outside, l.head) == Outside && (l.quote == QUOTE || l.quote == DOUBLE_QUOTE)
    && Inside(l.quote, l.before) && Inside(l.quote, l.after)
  }

  lemma InLiteral(l: Literal, inside: Text)
    requires IsLiteral(l)
    ensures var e := Around(l, inside); var at := Start(l);
            && 0 <= at && at + |inside| <= |e| && e[..at] == l.head + [l.quote] + l.before
            && e[at..at + |inside|] == inside && e[at + |inside|..] == l.after + [l.quote] + l.tail
    ensures After(Outside, l.head + [l.quote] + l.before) == In(l.quote)
  {
    AfterThree(Outside, l.head, [l.quote], l.before);
    AfterOne(Outside, l.quote);
  }

  /** A value spliced into a literal that it does not fill : it is still one literal, whose text is what
      stood before, the text spliced, and what stood after, and decodes to them. */
  lemma LiteralReadsBack(l: Literal, placeholder: Text, value: Given)
    requires IsLiteral(l) && !Wrapped(Around(l, placeholder), Start(l), Start(l) + |placeholder|, l.quote)
    requires Decode(l.before).Some?
    ensures 0 <= Start(l) && Start(l) + |placeholder| <= |Around(l, placeholder)|
    ensures Spliced(SpliceAt(Around(l, placeholder), Start(l), Start(l) + |placeholder|, value)) ==
      Around(l, InString(value, l.quote))
    ensures Inside(l.quote, l.before + (InString(value, l.quote) + l.after))
    ensures Decode(l.before + (InString(value, l.quote) + l.after)) ==
      Json.Joined(Decode(l.before).value + value.text, Decode(l.after))
  {
    InLiteral(l, placeholder);
    InsideBody(l.quote, value.text, |value.text|);
    InStringIs(value, l.quote);
    hide Decode, InString, Body, QuotesEscaped, Inside, After;
    InsideJoins(l.quote, InString(value, l.quote), l.after);
    InsideJoins(l.quote, l.before, InString(value, l.quote) + l.after);
    SplicedReadsBack(l.before, value, l.quote, l.after);
  }
}
