/** Splicing a value into an expression at its placeholder, and which quote encloses a place in it. */
module ExpressionSplice {
  import opened Wrappers
  import opened Texts
  import opened Json

  // ─── reading an expression's quotes ──────────────────────────────────────────

  /** Where a reader of the expression is : outside strings, in one, or after a backslash in one. */
  datatype Place = Outside | In(quote: int) | Escaping(quote: int)

  function Next(p: Place, c: int): Place {
    match p
    case Outside => if c == 0x27 || c == 0x22 then In(c) else Outside // ' and "
    case In(q) => if c == 0x5C then Escaping(q) else if c == q then Outside else In(q)
    case Escaping(q) => In(q)
  }

  function After(p: Place, t: Text): Place {
    if t == [] then p else Next(After(p, t[..|t| - 1]), t[|t| - 1])
  }

  function QuoteOf(p: Place): Option<int> {
    match p
    case Outside => None
    case In(q) => Some(q)
    case Escaping(q) => Some(q)
  }

  lemma {:induction false} AfterJoins(p: Place, a: Text, b: Text)
    ensures After(p, a + b) == After(After(p, a), b)
  {
    if b == [] {
      assert a + b == a;
    } else {
      assert (a + b)[..|a + b| - 1] == a + b[..|b| - 1];
      AfterJoins(p, a, b[..|b| - 1]);
    }
  }

  /** The quote character that encloses a place of an expression, none outside any string. */
  method QuoteContextAt(expression: Text, index: int) returns (quote: Option<int>)
    requires 0 <= index <= |expression|
    ensures quote == QuoteOf(After(Outside, expression[..index]))
  {
    quote := None;
    var i := 0;
    while i < index
      invariant 0 <= i <= index + 1
      invariant i <= index ==> After(Outside, expression[..i]) == if quote.Some? then In(quote.value) else Outside
      invariant i == index + 1 ==> quote.Some? && After(Outside, expression[..index]) == Escaping(quote.value)
    {
      var c := expression[i];
      assert expression[..i + 1][..i] == expression[..i];
      if quote.Some? {
        if c == BACKSLASH {
          if i + 1 < index {
            assert expression[..i + 2][..i + 1] == expression[..i + 1];
          }
          i := i + 2;
          continue;
        }
        if c == quote.value {
          quote := None;
        }
      } else if c == QUOTE || c == DOUBLE_QUOTE {
        quote := Some(c);
      }
      i := i + 1;
    }
  }

  // ─── splicing ────────────────────────────────────────────────────────────────

  /** Every ' of a text written \' */
  function QuotesEscaped(t: Text): Text {
    if t == [] then []
    else QuotesEscaped(t[..|t| - 1]) + if t[|t| - 1] == QUOTE then [BACKSLASH, QUOTE] else [t[|t| - 1]]
  }

  /** A value to splice : how it is written outside strings (JSON.stringify's, or its own source), and
      its text inside one (String's ; of a source that is a JSON string, that string). */
  datatype Given = Given(literal: Text, text: Text)

  /** A string value. */
  function OfString(s: Text): Given {
    Given(Quoted(s), s)
  }

  /** A value as its JSON source : inside a string, a string without its quotes, anything else as it is. */
  function OfJson(v: Value): Given {
    Given(Stringify(v), match v case Str(s) => s case _ => Stringify(v))
  }

  /** The text spliced inside a longer string of that quote. */
  function InString(value: Given, quote: int): Text {
    var body := StringBody(value.text);
    if quote == QUOTE then QuotesEscaped(body) else body
  }

  /** The quotes of a string wrap the placeholder exactly. */
  predicate Wrapped(expression: Text, at: int, end: int, quote: int) {
    0 < at <= end < |expression| && expression[at - 1] == quote && expression[end] == quote
  }

  /** The expression with what stands between two places replaced. */
  datatype Splice = Splice(before: Text, text: Text, after: Text)

  function Spliced(s: Splice): Text {
    s.before + s.text + s.after
  }

  /** What is put where, for a placeholder found at `at` up to `end`. */
  function SpliceAt(expression: Text, at: int, end: int, value: Given): Splice
    requires 0 <= at <= end <= |expression|
  {
    match QuoteOf(After(Outside, expression[..at]))
    case None => Splice(expression[..at], value.literal, expression[end..])
    case Some(quote) =>
      if Wrapped(expression, at, end, quote) then Splice(expression[..at - 1], value.literal, expression[end + 1..])
      else Splice(expression[..at], InString(value, quote), expression[end..])
  }

  /** The quotes of a string stand right before one place and right after another. */
  predicate Between(expression: Text, at: int, end: int, quote: int) {
    1 <= at <= end < |expression| && expression[at - 1] == quote == expression[end]
  }

  /** The expression with the value put where the placeholder at `at` was : outside strings as its literal, for
      the quotes around it too when they are right around it, inside a longer string as the escaped text. */
  predicate PutAt(expression: Text, at: int, end: int, value: Given, r: Text)
    requires 0 <= at <= end <= |expression|
  {
    match After(Outside, expression[..at])
    case Outside => r == expression[..at] + value.literal + expression[end..]
    case _ =>
      var quote := After(Outside, expression[..at]).quote;
      r == if Between(expression, at, end, quote) then expression[..at - 1] + value.literal + expression[end + 1..]
           else expression[..at] + InString(value, quote) + expression[end..]
  }

  /** The value spliced into the expression at the first place its placeholder stands. */
  method Substitute(expression: Text, placeholder: Text, value: Given) returns (r: Text)
    ensures match IndexOf(expression, placeholder)
            case None => r == expression
            case Some(at) => PutAt(expression, at, at + |placeholder|, value, r)
    ensures r == match IndexOf(expression, placeholder)
                 case None => expression
                 case Some(at) => Spliced(SpliceAt(expression, at, at + |placeholder|, value))
  {
    hide After, StringBody, QuotesEscaped, IndexOf;
    var at := IndexOf(expression, placeholder);
    if at.None? {
      return expression;
    }
    var end := at.value + |placeholder|;
    var quote := QuoteContextAt(expression, at.value);
    if quote.None? {
      return expression[..at.value] + value.literal + expression[end..];
    }
    if Wrapped(expression, at.value, end, quote.value) {
      return expression[..at.value - 1] + value.literal + expression[end + 1..];
    }
    var body := StringBody(value.text);
    var text := if quote.value == QUOTE then QuotesEscaped(body) else body;
    return expression[..at.value] + text + expression[end..];
  }

  // ─── what JSON text does to the reader ───────────────────────────────────────

  predicate NoQuoteIn(t: Text, q: int) {
    forall i :: 0 <= i < |t| ==> t[i] != q && t[i] != BACKSLASH
  }

  lemma {:induction false} StaysIn(q: int, t: Text)
    requires NoQuoteIn(t, q)
    ensures After(In(q), t) == In(q)
  {
    if t != [] {
      StaysIn(q, t[..|t| - 1]);
    }
  }

  lemma {:induction false} StaysOutside(t: Text)
    requires Plain(t)
    ensures After(Outside, t) == Outside
  {
    if t != [] {
      StaysOutside(t[..|t| - 1]);
    }
  }

  lemma {:induction false} AfterTwo(p: Place, a: int, b: int)
    ensures After(p, [a, b]) == Next(Next(p, a), b)
  {
    AfterJoins(p, [a], [b]);
    AfterOne(p, a);
    AfterOne(Next(p, a), b);
    assert [a] + [b] == [a, b];
  }

  lemma {:induction false} AfterOne(p: Place, a: int)
    ensures After(p, [a]) == Next(p, a)
  {
    assert [a][..0] == [];
  }

  /** An escaped code unit keeps the reader in the string, unless it is the quote itself. */
  lemma EscapedStaysIn(q: int, s: Text, i: int)
    requires 0 <= i < |s| && (q == DOUBLE_QUOTE || (q == QUOTE && s[i] != QUOTE))
    ensures After(In(q), Escaped(s, i)) == In(q)
  {
    var e := Escaped(s, i);
    if |e| == 6 {
      var hex := e[2..];
      assert e == [BACKSLASH, 0x75] + hex;
      AfterJoins(In(q), [BACKSLASH, 0x75], hex);
      AfterTwo(In(q), BACKSLASH, 0x75);
      StaysIn(q, hex);
    } else if |e| == 2 {
      AfterTwo(In(q), e[0], e[1]);
    } else {
      AfterOne(In(q), e[0]);
    }
  }

  lemma {:induction false} BodyStaysInDouble(s: Text, n: int)
    requires 0 <= n <= |s|
    ensures After(In(DOUBLE_QUOTE), Body(s, n)) == In(DOUBLE_QUOTE)
    decreases n
  {
    hide Escaped, Next;
    if n > 0 {
      BodyStaysInDouble(s, n - 1);
      EscapedStaysIn(DOUBLE_QUOTE, s, n - 1);
      AfterJoins(In(DOUBLE_QUOTE), Body(s, n - 1), Escaped(s, n - 1));
    }
  }

  /** A JSON string read from outside strings, or after a backslash in a "-string, ends outside. */
  lemma {:induction false} QuotedEndsOutside(s: Text, p: Place)
    requires p == Outside || p == Escaping(DOUBLE_QUOTE)
    ensures After(p, Quoted(s)) == Outside
  {
    AfterOne(p, DOUBLE_QUOTE);
    AfterJoins(p, [DOUBLE_QUOTE], StringBody(s));
    BodyStaysInDouble(s, |s|);
    AfterJoins(p, [DOUBLE_QUOTE] + StringBody(s), [DOUBLE_QUOTE]);
    AfterOne(In(DOUBLE_QUOTE), DOUBLE_QUOTE);
  }

  lemma {:induction false} AfterThree(p: Place, a: Text, b: Text, c: Text)
    ensures After(p, a + b + c) == After(After(After(p, a), b), c)
  {
    AfterJoins(p, a, b);
    AfterJoins(p, a + b, c);
  }

  lemma PlainOne(c: int)
    requires c != QUOTE && c != DOUBLE_QUOTE && c != BACKSLASH
    ensures After(Outside, [c]) == Outside
  {
    AfterOne(Outside, c);
  }

  /** Any JSON text leaves the reader outside strings, as it found it. */
  lemma {:induction false} JsonStaysOutside(v: Value)
    requires Proper(v)
    ensures After(Outside, Stringify(v)) == Outside
  {
    hide After;
    match v
    case Atom(text) => StaysOutside(text);
    case Str(s) => QuotedEndsOutside(s, Outside);
    case Arr(items) =>
      ItemsStayOutside(items);
      PlainOne(0x5B);
      PlainOne(0x5D);
      AfterThree(Outside, [0x5B], StringifyItems(items), [0x5D]);
    case Obj(members) =>
      MembersStayOutside(members);
      PlainOne(0x7B);
      PlainOne(0x7D);
      AfterThree(Outside, [0x7B], StringifyMembers(members), [0x7D]);
  }

  lemma {:induction false} ItemsStayOutside(items: Items)
    requires ProperItems(items)
    ensures After(Outside, StringifyItems(items)) == Outside
  {
    match items
    case NoItem =>
    case Item(head, tail) =>
      JsonStaysOutside(head);
      ItemsStayOutside(tail);
      PlainOne(COMMA);
      AfterThree(Outside, Stringify(head), [COMMA], StringifyItems(tail));
  }

  lemma {:induction false} MembersStayOutside(members: Members)
    requires ProperMembers(members)
    ensures After(Outside, StringifyMembers(members)) == Outside
  {
    match members
    case NoMember =>
    case Member(key, value, rest) =>
      QuotedEndsOutside(key, Outside);
      JsonStaysOutside(value);
      MembersStayOutside(rest);
      PlainOne(COLON);
      PlainOne(COMMA);
      AfterThree(Outside, Quoted(key), [COLON], Stringify(value));
      AfterThree(Outside, Quoted(key) + [COLON] + Stringify(value), [COMMA], StringifyMembers(rest));
  }

  // ─── text inside a longer string ─────────────────────────────────────────────

  lemma {:induction false} QuotesEscapedJoins(a: Text, b: Text)
    ensures QuotesEscaped(a + b) == QuotesEscaped(a) + QuotesEscaped(b)
  {
    if b == [] {
      assert a + b == a;
    } else {
      assert (a + b)[..|a + b| - 1] == a + b[..|b| - 1];
      QuotesEscapedJoins(a, b[..|b| - 1]);
    }
  }

  lemma {:induction false} NoQuoteToEscape(t: Text)
    requires forall i :: 0 <= i < |t| ==> t[i] != QUOTE
    ensures QuotesEscaped(t) == t
  {
    if t != [] {
      NoQuoteToEscape(t[..|t| - 1]);
      assert t == t[..|t| - 1] + [t[|t| - 1]];
    }
  }

  lemma UnitQuoteEscaped(s: Text, i: int)
    requires 0 <= i < |s|
    ensures QuotesEscaped(Escaped(s, i)) == if s[i] == QUOTE then [BACKSLASH, QUOTE] else Escaped(s, i)
  {
    if s[i] != QUOTE {
      NoQuoteToEscape(Escaped(s, i));
    } else {
      assert [QUOTE][..0] == [];
    }
  }

  lemma {:induction false} BodyStaysInSingle(s: Text, n: int)
    requires 0 <= n <= |s|
    ensures After(In(QUOTE), QuotesEscaped(Body(s, n))) == In(QUOTE)
    decreases n
  {
    hide Escaped, QuotesEscaped;
    if n == 0 {
      NoQuoteToEscape([]);
    } else {
      BodyStaysInSingle(s, n - 1);
      QuotesEscapedJoins(Body(s, n - 1), Escaped(s, n - 1));
      UnitQuoteEscaped(s, n - 1);
      AfterJoins(In(QUOTE), QuotesEscaped(Body(s, n - 1)), QuotesEscaped(Escaped(s, n - 1)));
      if s[n - 1] == QUOTE {
        AfterTwo(In(QUOTE), BACKSLASH, QUOTE);
      } else {
        EscapedStaysIn(QUOTE, s, n - 1);
      }
    }
  }

  /** Whatever the value, its text inside a string keeps the reader in that string. */
  lemma InStringStaysIn(value: Given, quote: int)
    requires quote == QUOTE || quote == DOUBLE_QUOTE
    ensures After(In(quote), InString(value, quote)) == In(quote)
  {
    var s := value.text;
    if quote == QUOTE {
      BodyStaysInSingle(s, |s|);
    } else {
      BodyStaysInDouble(s, |s|);
    }
  }

  /** It never breaks the line : no control character is spliced. */
  lemma {:induction false} BodyIsOnOneLine(s: Text, n: int)
    requires 0 <= n <= |s| && forall i :: 0 <= i < |s| ==> 0 <= s[i]
    ensures forall i :: 0 <= i < |Body(s, n)| ==> 0x20 <= Body(s, n)[i]
    decreases n
  {
    if n > 0 {
      BodyIsOnOneLine(s, n - 1);
      var e := Escaped(s, n - 1);
      assert forall i :: 0 <= i < |e| ==> 0x20 <= e[i];
    }
  }

  // ─── the rest of the expression is read as it was ────────────────────────────

  function ContextAt(expression: Text, index: int): Option<int>
    requires 0 <= index <= |expression|
  {
    QuoteOf(After(Outside, expression[..index]))
  }

  /** The `k`th place after the value spliced has the quote context it had. */
  predicate SameContextAt(expression: Text, s: Splice, k: int)
    requires 0 <= k <= |s.after| <= |expression|
  {
    ContextAt(Spliced(s), |s.before| + |s.text| + k) == ContextAt(expression, |expression| - |s.after| + k)
  }

  /** Every place after the value spliced has the quote context it had. */
  ghost predicate SameContexts(expression: Text, at: int, end: int, value: Given)
    requires 0 <= at <= end <= |expression|
  {
    var s := SpliceAt(expression, at, end, value);
    forall k :: 0 <= k <= |s.after| ==> SameContextAt(expression, s, k)
  }

  /** Read the same right after the splice, the rest is read the same. */
  lemma SameFromThere(expression: Text, at: int, end: int, value: Given)
    requires 0 <= at <= end <= |expression|
    requires var s := SpliceAt(expression, at, end, value);
             After(Outside, s.before + s.text) == After(Outside, expression[..|expression| - |s.after|])
    ensures SameContexts(expression, at, end, value)
  {
    var s := SpliceAt(expression, at, end, value);
    forall k | 0 <= k <= |s.after| ensures SameContextAt(expression, s, k) {
      ReadOn(expression, s, k);
    }
  }

  lemma ReadOn(expression: Text, s: Splice, k: int)
    requires 0 <= k <= |s.after| <= |expression| && s.after == expression[|expression| - |s.after|..]
    requires After(Outside, s.before + s.text) == After(Outside, expression[..|expression| - |s.after|])
    ensures SameContextAt(expression, s, k)
  {
    hide After;
    var e := |expression| - |s.after|;
    assert Spliced(s)[..|s.before| + |s.text| + k] == (s.before + s.text) + s.after[..k];
    assert expression[..e + k] == expression[..e] + s.after[..k];
    AfterJoins(Outside, s.before + s.text, s.after[..k]);
    AfterJoins(Outside, expression[..e], s.after[..k]);
  }

  lemma PlaceholderIsPassed(expression: Text, at: int, end: int)
    requires 0 <= at <= end <= |expression| && Plain(expression[at..end]) && !After(Outside, expression[..at]).Escaping?
    ensures After(Outside, expression[..end]) == After(Outside, expression[..at])
  {
    assert expression[..end] == expression[..at] + expression[at..end];
    AfterJoins(Outside, expression[..at], expression[at..end]);
    QuotesAre(expression[..at]);
    match After(Outside, expression[..at])
    case Outside => StaysOutside(expression[at..end]);
    case In(q) => StaysIn(q, expression[at..end]);
  }

  lemma {:induction false} QuotesAre(t: Text)
    ensures var p := After(Outside, t); p.Outside? || p.quote == QUOTE || p.quote == DOUBLE_QUOTE
  {
    if t != [] {
      QuotesAre(t[..|t| - 1]);
    }
  }

  lemma OneMoreRead(expression: Text, i: int)
    requires 0 <= i < |expression|
    ensures After(Outside, expression[..i + 1]) == Next(After(Outside, expression[..i]), expression[i])
  {
    assert expression[..i + 1][..i] == expression[..i];
  }

  /** Outside any string. */
  lemma OutsideIsSame(expression: Text, at: int, end: int, value: Given)
    requires 0 <= at <= end <= |expression| && Plain(expression[at..end]) && After(Outside, value.literal) == Outside
    requires After(Outside, expression[..at]) == Outside
    ensures SameContexts(expression, at, end, value)
  {
    PlaceholderIsPassed(expression, at, end);
    AfterJoins(Outside, expression[..at], value.literal);
    SameFromThere(expression, at, end, value);
  }

  /** Inside a longer string. */
  lemma InsideIsSame(expression: Text, at: int, end: int, value: Given)
    requires 0 <= at <= end <= |expression| && Plain(expression[at..end])
    requires After(Outside, expression[..at]).In?
    requires !Wrapped(expression, at, end, After(Outside, expression[..at]).quote)
    ensures SameContexts(expression, at, end, value)
  {
    var q := After(Outside, expression[..at]).quote;
    PlaceholderIsPassed(expression, at, end);
    QuotesAre(expression[..at]);
    InStringStaysIn(value, q);
    AfterJoins(Outside, expression[..at], InString(value, q));
    SameFromThere(expression, at, end, value);
  }

  /** Wrapped exactly by its quotes : the one before opens the string, or is escaped in one. */
  lemma WrappedBy(expression: Text, at: int, end: int)
    requires 0 <= at <= end <= |expression| && Plain(expression[at..end])
    requires After(Outside, expression[..at]).In?
    requires Wrapped(expression, at, end, After(Outside, expression[..at]).quote)
    ensures var q := After(Outside, expression[..at]).quote;
            After(Outside, expression[..at - 1]) == Outside || After(Outside, expression[..at - 1]) == Escaping(q)
    ensures After(Outside, expression[..end + 1]) == Outside
  {
    QuotesAre(expression[..at]);
    OneMoreRead(expression, at - 1);
    PlaceholderIsPassed(expression, at, end);
    OneMoreRead(expression, end);
  }

  lemma WrappedIsSame(expression: Text, at: int, end: int, value: Given)
    requires 0 <= at <= end <= |expression| && Plain(expression[at..end])
    requires After(Outside, expression[..at]).In?
    requires Wrapped(expression, at, end, After(Outside, expression[..at]).quote)
    requires After(After(Outside, expression[..at - 1]), value.literal) == Outside
    ensures SameContexts(expression, at, end, value)
  {
    WrappedBy(expression, at, end);
    AfterJoins(Outside, expression[..at - 1], value.literal);
    SameFromThere(expression, at, end, value);
  }

  /** A quote that wraps the placeholder exactly is itself escaped. */
  predicate WrapEscaped(expression: Text, at: int, end: int, q: int)
    requires 0 <= at <= end <= |expression|
  {
    Wrapped(expression, at, end, q) && After(Outside, expression[..at - 1]) == Escaping(q)
  }

  /** The placeholder does not stand right after a backslash of a string, nor exactly between two '
      of which the first is escaped. */
  predicate Safe(expression: Text, at: int, end: int)
    requires 0 <= at <= end <= |expression|
  {
    !After(Outside, expression[..at]).Escaping? && !WrapEscaped(expression, at, end, QUOTE)
  }

  /** Where it is safe, any string can be spliced in : the rest of the expression is read as it was. */
  lemma SafeForStrings(expression: Text, at: int, end: int, s: Text)
    requires 0 <= at <= end <= |expression| && Plain(expression[at..end]) && Safe(expression, at, end)
    ensures SameContexts(expression, at, end, OfString(s))
  {
    QuotedEndsOutside(s, Outside);
    match After(Outside, expression[..at])
    case Outside => OutsideIsSame(expression, at, end, OfString(s));
    case In(q) =>
      if Wrapped(expression, at, end, q) {
        QuotesAre(expression[..at]);
        WrappedBy(expression, at, end);
        QuotedEndsOutside(s, After(Outside, expression[..at - 1]));
        WrappedIsSame(expression, at, end, OfString(s));
      } else {
        InsideIsSame(expression, at, end, OfString(s));
      }
  }

  /** The placeholder does not stand right after a backslash of a string, nor exactly between two quotes
      of which the first is escaped. */
  predicate SafeForAll(expression: Text, at: int, end: int)
    requires 0 <= at <= end <= |expression|
  {
    && !After(Outside, expression[..at]).Escaping?
    && !WrapEscaped(expression, at, end, QUOTE) && !WrapEscaped(expression, at, end, DOUBLE_QUOTE)
  }

  /** There any value can be spliced in whose literal leaves a reader outside strings. */
  lemma SafeForSources(expression: Text, at: int, end: int, value: Given)
    requires 0 <= at <= end <= |expression| && Plain(expression[at..end]) && SafeForAll(expression, at, end)
    requires After(Outside, value.literal) == Outside
    ensures SameContexts(expression, at, end, value)
  {
    QuotesAre(expression[..at]);
    match After(Outside, expression[..at])
    case Outside => OutsideIsSame(expression, at, end, value);
    case In(q) =>
      if Wrapped(expression, at, end, q) {
        WrappedBy(expression, at, end);
        WrappedIsSame(expression, at, end, value);
      } else {
        InsideIsSame(expression, at, end, value);
      }
  }

  /** And so any JSON value. */
  lemma {:induction false} SafeForJson(expression: Text, at: int, end: int, v: Value)
    requires 0 <= at <= end <= |expression| && Plain(expression[at..end]) && SafeForAll(expression, at, end)
    requires Proper(v)
    ensures SameContexts(expression, at, end, OfJson(v))
  {
    JsonStaysOutside(v);
    SafeForSources(expression, at, end, OfJson(v));
  }

  lemma QuoteInString(q: int)
    requires q == QUOTE || q == DOUBLE_QUOTE
    ensures InString(OfString([q]), q) == [BACKSLASH, q]
  {
    assert Body([q], 0) == [];
    assert Body([q], 1) == Escaped([q], 0);
    if q == QUOTE {
      UnitQuoteEscaped([q], 0);
    }
  }

  lemma PassedAfterBackslash(expression: Text, at: int, end: int)
    requires 0 <= at < end <= |expression| && Plain(expression[at..end])
    requires After(Outside, expression[..at]).Escaping?
    ensures After(Outside, expression[..end]) == In(After(Outside, expression[..at]).quote)
  {
    OneMoreRead(expression, at);
    assert expression[at + 1..end] == expression[at..end][1..];
    PlaceholderIsPassed(expression, at + 1, end);
  }

  lemma SpliceAfterBackslash(expression: Text, at: int, end: int, q: int)
    requires 0 <= at <= end <= |expression| && After(Outside, expression[..at]) == Escaping(q)
    requires q == QUOTE || q == DOUBLE_QUOTE
    ensures SpliceAt(expression, at, end, OfString([q])) == Splice(expression[..at], [BACKSLASH, q], expression[end..])
    ensures After(Outside, expression[..at] + [BACKSLASH, q]) == Outside
  {
    hide InString, Wrapped;
    NotWrappedAfterBackslash(expression, at, end, q);
    QuoteInString(q);
    AfterTwo(Escaping(q), BACKSLASH, q);
    AfterJoins(Outside, expression[..at], [BACKSLASH, q]);
  }

  /** After a backslash, a string that is the quote itself ends the string it is spliced in. */
  lemma UnsafeAfterBackslash(expression: Text, at: int, end: int)
    requires 0 <= at < end <= |expression| && Plain(expression[at..end])
    requires After(Outside, expression[..at]).Escaping?
    ensures !SameContexts(expression, at, end, OfString([After(Outside, expression[..at]).quote]))
  {
    hide After, SpliceAt, SameContexts, Plain, OfString, Next;
    var q := After(Outside, expression[..at]).quote;
    QuotesAre(expression[..at]);
    PassedAfterBackslash(expression, at, end);
    SpliceAfterBackslash(expression, at, end, q);
    SpliceDiffers(expression, at, end, OfString([q]), Splice(expression[..at], [BACKSLASH, q], expression[end..]));
  }

  lemma NotWrappedAfterBackslash(expression: Text, at: int, end: int, q: int)
    requires 0 <= at <= end <= |expression| && After(Outside, expression[..at]) == Escaping(q)
    ensures !Wrapped(expression, at, end, q)
  {
    if at > 0 {
      OneMoreRead(expression, at - 1);
      QuotesAre(expression[..at]);
    }
  }

  /** Between two ' of which the first is escaped, the empty string leaves the string open. */
  lemma UnsafeBetweenQuotes(expression: Text, at: int, end: int)
    requires 0 <= at <= end <= |expression| && Plain(expression[at..end])
    requires WrapEscaped(expression, at, end, QUOTE)
    ensures !SameContexts(expression, at, end, OfString([]))
  {
    OneMoreRead(expression, at - 1);
    WrappedBy(expression, at, end);
    assert OfString([]).literal == [DOUBLE_QUOTE, DOUBLE_QUOTE];
    AfterTwo(Escaping(QUOTE), DOUBLE_QUOTE, DOUBLE_QUOTE);
    AfterJoins(Outside, expression[..at - 1], [DOUBLE_QUOTE, DOUBLE_QUOTE]);
    DiffersThere(expression, at, end, OfString([]));
  }

  lemma SpliceDiffers(expression: Text, at: int, end: int, value: Given, s: Splice)
    requires 0 <= at <= end <= |expression| && SpliceAt(expression, at, end, value) == s && s.after == expression[end..]
    requires QuoteOf(After(Outside, s.before + s.text)) != QuoteOf(After(Outside, expression[..end]))
    ensures !SameContexts(expression, at, end, value)
  {
    hide After, SpliceAt, SameContexts;
    DiffersThere(expression, at, end, value);
  }

  lemma DiffersThere(expression: Text, at: int, end: int, value: Given)
    requires 0 <= at <= end <= |expression|
    requires var s := SpliceAt(expression, at, end, value);
             QuoteOf(After(Outside, s.before + s.text)) !=
             QuoteOf(After(Outside, expression[..|expression| - |s.after|]))
    ensures !SameContexts(expression, at, end, value)
  {
    var s := SpliceAt(expression, at, end, value);
    assert Spliced(s)[..|s.before| + |s.text|] == s.before + s.text;
    assert !SameContextAt(expression, s, 0);
  }

  /** Between two quotes of which the first is escaped, a number leaves the string open. */
  lemma UnsafeForNumbers(expression: Text, at: int, end: int, q: int)
    requires 0 <= at <= end <= |expression| && Plain(expression[at..end]) && WrapEscaped(expression, at, end, q)
    ensures !SameContexts(expression, at, end, OfJson(Atom([0x35])))
  {
    OneMoreRead(expression, at - 1);
    WrappedBy(expression, at, end);
    AfterOne(Escaping(q), 0x35);
    AfterJoins(Outside, expression[..at - 1], [0x35]);
    DiffersThere(expression, at, end, OfJson(Atom([0x35])));
  }

  /** Exactly where splicing keeps the rest of the expression as it was read, whatever the string. */
  lemma SplicingIsSafeExactly(expression: Text, at: int, end: int)
    requires 0 <= at < end <= |expression| && Plain(expression[at..end])
    ensures Safe(expression, at, end) <==> forall s: Text :: SameContexts(expression, at, end, OfString(s))
  {
    hide SameContexts;
    if Safe(expression, at, end) {
      forall s: Text ensures SameContexts(expression, at, end, OfString(s)) {
        SafeForStrings(expression, at, end, s);
      }
    } else if After(Outside, expression[..at]).Escaping? {
      UnsafeAfterBackslash(expression, at, end);
    } else {
      UnsafeBetweenQuotes(expression, at, end);
    }
  }

  /** Exactly where splicing keeps it whatever the value : any JSON value, or any source that leaves a
      reader outside strings. */
  lemma SplicingAnyIsSafeExactly(expression: Text, at: int, end: int)
    requires 0 <= at < end <= |expression| && Plain(expression[at..end])
    ensures SafeForAll(expression, at, end) <==>
              forall v: Value :: Proper(v) ==> SameContexts(expression, at, end, OfJson(v))
    ensures SafeForAll(expression, at, end) <==>
            forall g: Given :: After(Outside, g.literal) == Outside ==> SameContexts(expression, at, end, g)
  {
    hide SameContexts, SafeForAll, OfJson, Proper, After;
    if SafeForAll(expression, at, end) {
      forall g: Given | After(Outside, g.literal) == Outside ensures SameContexts(expression, at, end, g) {
        SafeForSources(expression, at, end, g);
      }
      forall v: Value | Proper(v) ensures SameContexts(expression, at, end, OfJson(v)) {
        SafeForJson(expression, at, end, v);
      }
    } else {
      var v := UnsafeForSome(expression, at, end);
      JsonStaysOutside(v);
      assert After(Outside, OfJson(v).literal) == Outside by { LiteralIs(v); }
    }
  }

  lemma {:induction false} LiteralIs(v: Value)
    ensures OfJson(v).literal == Stringify(v)
  {
  }

  lemma UnsafeForSome(expression: Text, at: int, end: int) returns (v: Value)
    requires 0 <= at < end <= |expression| && Plain(expression[at..end]) && !SafeForAll(expression, at, end)
    ensures Proper(v) && !SameContexts(expression, at, end, OfJson(v))
  {
    hide SameContexts;
    if After(Outside, expression[..at]).Escaping? {
      UnsafeAfterBackslash(expression, at, end);
      v := Str([After(Outside, expression[..at]).quote]);
    } else {
      UnsafeForNumbers(expression, at, end, if WrapEscaped(expression, at, end, QUOTE) then QUOTE else DOUBLE_QUOTE);
      v := Atom([0x35]);
    }
  }

  // ─── placeholders where it is not safe ───────────────────────────────────────

  /** $(n) */
  const PLACEHOLDER := [0x24, 0x28, 0x6E, 0x29]

  lemma ThreeRead(a: int, b: int, c: int)
    ensures After(Outside, [a]) == Next(Outside, a)
    ensures After(Outside, [a, b]) == Next(Next(Outside, a), b)
    ensures After(Outside, [a, b, c]) == Next(Next(Next(Outside, a), b), c)
  {
    assert [a][..0] == [] && [a, b][..1] == [a] && [a, b, c][..2] == [a, b];
  }

  /** '\$(n)' : the placeholder stands after a backslash. */
  lemma NotSafeAfterBackslash()
    ensures var expression := [QUOTE, BACKSLASH] + PLACEHOLDER + [QUOTE];
            && expression[2..6] == PLACEHOLDER && Plain(PLACEHOLDER)
            && !Safe(expression, 2, 6) && !SafeForAll(expression, 2, 6)
  {
    var expression := [QUOTE, BACKSLASH] + PLACEHOLDER + [QUOTE];
    assert expression[..2] == [QUOTE, BACKSLASH];
    ThreeRead(QUOTE, BACKSLASH, 0);
  }

  /** A quote twice, the first escaped, around the placeholder : with ' a string may leave it open, with "
      a number may. */
  lemma NotSafeBetweenQuotes(q: int)
    requires q == QUOTE || q == DOUBLE_QUOTE
    ensures var expression := [q, BACKSLASH, q] + PLACEHOLDER + [q];
            && expression[3..7] == PLACEHOLDER && WrapEscaped(expression, 3, 7, q)
            && !SafeForAll(expression, 3, 7) && (Safe(expression, 3, 7) <==> q == DOUBLE_QUOTE)
  {
    var expression := [q, BACKSLASH, q] + PLACEHOLDER + [q];
    assert expression[..2] == [q, BACKSLASH] && expression[..3] == [q, BACKSLASH, q];
    ThreeRead(q, BACKSLASH, q);
  }
}
