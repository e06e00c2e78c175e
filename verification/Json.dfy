/** Texts as their UTF-16 code units, JSON values, and how JSON.stringify writes them : the string
    escapes of section 7 of RFC 8259. */
module Json {
  import opened Wrappers

  /** A text, as its UTF-16 code units. */
  type Text = seq<int>

  const QUOTE := 0x27      // '
  const DOUBLE_QUOTE := 0x22 // "
  const BACKSLASH := 0x5C

  // ─── the escapes ─────────────────────────────────────────────────────────────

  predicate HighSurrogate(u: int) {
    0xD800 <= u <= 0xDBFF
  }

  predicate LowSurrogate(u: int) {
    0xDC00 <= u <= 0xDFFF
  }

  /** Half a pair that stands alone. */
  predicate LoneSurrogate(s: Text, i: int)
    requires 0 <= i < |s|
  {
    (HighSurrogate(s[i]) && !(i + 1 < |s| && LowSurrogate(s[i + 1])))
    || (LowSurrogate(s[i]) && !(0 < i && HighSurrogate(s[i - 1])))
  }

  function HexDigit(d: int): int {
    if d < 10 then 0x30 + d else 0x61 + d - 10
  }

  function HexValue(c: int): Option<int> {
    if 0x30 <= c <= 0x39 then Some(c - 0x30)
    else if 0x61 <= c <= 0x66 then Some(c - 0x61 + 10)
    else if 0x41 <= c <= 0x46 then Some(c - 0x41 + 10)
    else None
  }

  /** \uXXXX */
  function UnicodeEscape(u: int): Text {
    [BACKSLASH, 0x75,
     HexDigit(u / 16 / 16 / 16 % 16), HexDigit(u / 16 / 16 % 16), HexDigit(u / 16 % 16), HexDigit(u % 16)]
  }

  /** How JSON.stringify writes one code unit of a string. */
  function Escaped(s: Text, i: int): Text
    requires 0 <= i < |s|
  {
    var u := s[i];
    if u == DOUBLE_QUOTE || u == BACKSLASH then [BACKSLASH, u]
    else if u == 8 then [BACKSLASH, 0x62]
    else if u == 9 then [BACKSLASH, 0x74]
    else if u == 10 then [BACKSLASH, 0x6E]
    else if u == 12 then [BACKSLASH, 0x66]
    else if u == 13 then [BACKSLASH, 0x72]
    else if 0 <= u < 0x20 || LoneSurrogate(s, i) then UnicodeEscape(u)
    else [u]
  }

  /** What stands between the quotes : the first `n` code units of the string, escaped. */
  function Body(s: Text, n: int): Text
    requires 0 <= n <= |s|
    decreases n
  {
    if n == 0 then [] else Body(s, n - 1) + Escaped(s, n - 1)
  }

  function StringBody(s: Text): Text {
    Body(s, |s|)
  }

  function Quoted(s: Text): Text {
    [DOUBLE_QUOTE] + StringBody(s) + [DOUBLE_QUOTE]
  }

  // ─── reading them back ───────────────────────────────────────────────────────

  /** The code unit an escape stands for, and how much text it takes : RFC 8259's escapes, and \\'. */
  function Unescaped(t: Text): Option<(int, int)>
    requires |t| >= 2 && t[0] == 0x5C
  {
    var c := t[1];
    if c == 0x62 then Some((8, 2))
    else if c == 0x74 then Some((9, 2))
    else if c == 0x6E then Some((10, 2))
    else if c == 0x66 then Some((12, 2))
    else if c == 0x72 then Some((13, 2))
    else if c == 0x75 then
      if |t| < 6 then None
      else match (HexValue(t[2]), HexValue(t[3]), HexValue(t[4]), HexValue(t[5]))
           case (Some(a), Some(b), Some(c), Some(d)) => Some((a * 4096 + b * 256 + c * 16 + d, 6))
           case _ => None
    else if c == 0x5C || c == 0x22 || c == 0x27 || c == 0x2F then Some((c, 2))
    else None
  }

  /** The string the body of a string literal denotes ; None when an escape is cut short, or is another. */
  function Decode(t: Text): Option<Text>
    decreases |t|
  {
    if t == [] then Some([])
    else if t[0] != 0x5C then
      match Decode(t[1..])
      case None => None
      case Some(rest) => Some([t[0]] + rest)
    else if |t| < 2 then None
    else match Unescaped(t)
         case None => None
         case Some((u, n)) =>
           match Decode(t[n..])
           case None => None
           case Some(rest) => Some([u] + rest)
  }

  function Joined(s: Text, rest: Option<Text>): Option<Text> {
    match rest
    case None => None
    case Some(r) => Some(s + r)
  }

  lemma HexDigitReadsBack(d: int)
    requires 0 <= d < 16
    ensures HexValue(HexDigit(d)) == Some(d)
  {
  }

  lemma HexReadsBack(u: int)
    requires 0 <= u < 0x10000
    ensures Unescaped(UnicodeEscape(u)) == Some((u, 6))
  {
    var x := u / 16;
    var y := x / 16;
    var z := y / 16;
    HexDigitReadsBack(u % 16);
    HexDigitReadsBack(x % 16);
    HexDigitReadsBack(y % 16);
    HexDigitReadsBack(z % 16);
    hide HexDigit, HexValue;
    assert u == 16 * x + u % 16 && x == 16 * y + x % 16 && y == 16 * z + y % 16 && z % 16 == z;
  }

  /** An escape reads the same whatever follows it. */
  lemma UnescapedMore(e: Text, t: Text)
    requires |e| >= 2 && e[0] == BACKSLASH && Unescaped(e).Some?
    ensures 2 <= Unescaped(e).value.1 <= |e| && Unescaped(e + t) == Unescaped(e)
  {
    assert (e + t)[1] == e[1];
    if |e| >= 6 {
      assert (e + t)[2] == e[2] && (e + t)[3] == e[3] && (e + t)[4] == e[4] && (e + t)[5] == e[5];
    }
  }

  lemma EscapedIs(s: Text, i: int)
    requires 0 <= i < |s|
    ensures var e := Escaped(s, i);
            if |e| == 1 then e == [s[i]] && s[i] != BACKSLASH
            else |e| >= 2 && e[0] == BACKSLASH && Unescaped(e) == Some((s[i], |e|))
  {
    if |Escaped(s, i)| == 6 { HexReadsBack(s[i]); }
  }

  /** An escaped code unit reads back as itself, whatever follows. */
  lemma {:induction false} EscapedReadsBack(s: Text, i: int, t: Text)
    requires 0 <= i < |s|
    ensures Decode(Escaped(s, i) + t) == Joined([s[i]], Decode(t))
  {
    var e := Escaped(s, i);
    EscapedIs(s, i);
    hide Escaped, Unescaped;
    assert (e + t)[|e|..] == t;
    if |e| > 1 { UnescapedMore(e, t); }
  }

  /** What is decoded of a text that ends no escape short stays, whatever follows. */
  lemma {:induction false} DecodeJoins(a: Text, b: Text)
    requires Decode(a).Some?
    ensures Decode(a + b) == Joined(Decode(a).value, Decode(b))
    decreases |a|
  {
    hide Unescaped;
    if a == [] {
      assert a + b == b;
      JoinedNothing(Decode(b));
    } else {
      var n := if a[0] == BACKSLASH then Unescaped(a).value.1 else 1;
      var u := if a[0] == BACKSLASH then Unescaped(a).value.0 else a[0];
      if a[0] == BACKSLASH { UnescapedMore(a, b); }
      assert (a + b)[n..] == a[n..] + b;
      DecodeJoins(a[n..], b);
      JoinedTwice([u], Decode(a[n..]).value, Decode(b));
    }
  }

  lemma JoinedTwice(a: Text, b: Text, rest: Option<Text>)
    ensures Joined(a, Joined(b, rest)) == Joined(a + b, rest)
  {
    if rest.Some? {
      assert a + (b + rest.value) == a + b + rest.value;
    }
  }

  lemma {:induction false} BodyReadsBack(s: Text, n: int, t: Text)
    requires 0 <= n <= |s|
    ensures Decode(Body(s, n) + t) == Joined(s[..n], Decode(t))
    decreases n
  {
    hide Decode, Escaped;
    if n == 0 {
      assert [] + t == t;
      JoinedNothing(Decode(t));
      assert s[..0] == [];
    } else {
      assert Body(s, n) + t == Body(s, n - 1) + (Escaped(s, n - 1) + t);
      BodyReadsBack(s, n - 1, Escaped(s, n - 1) + t);
      EscapedReadsBack(s, n - 1, t);
      JoinedTwice(s[..n - 1], [s[n - 1]], Decode(t));
      assert s[..n] == s[..n - 1] + [s[n - 1]];
      hide Joined;
    }
  }

  lemma JoinedNothing(rest: Option<Text>)
    ensures Joined([], rest) == rest
  {
    if rest.Some? {
      assert [] + rest.value == rest.value;
    }
  }

  /** Any string reads back from its JSON. */
  lemma StringReadsBack(s: Text)
    ensures Decode(StringBody(s)) == Some(s)
  {
    BodyReadsBack(s, |s|, []);
    assert StringBody(s) + [] == StringBody(s);
    assert s[..|s|] + [] == s;
  }

  // ─── JSON values ─────────────────────────────────────────────────────────────

  /** A number, true, false or null, by its text ; a string ; an array ; an object. */
  datatype Value =
    | Atom(text: Text)
    | Str(s: Text)
    | Arr(items: Items)
    | Obj(members: Members)

  datatype Items = NoItem | Item(head: Value, tail: Items)

  datatype Members = NoMember | Member(key: Text, value: Value, rest: Members)

  const COMMA := 0x2C
  const COLON := 0x3A

  /** JSON.stringify */
  function Stringify(v: Value): Text {
    match v
    case Atom(text) => text
    case Str(s) => Quoted(s)
    case Arr(items) => [0x5B] + StringifyItems(items) + [0x5D]
    case Obj(members) => [0x7B] + StringifyMembers(members) + [0x7D]
  }

  function StringifyItems(items: Items): Text {
    match items
    case NoItem => []
    case Item(head, NoItem) => Stringify(head)
    case Item(head, tail) => Stringify(head) + [COMMA] + StringifyItems(tail)
  }

  function StringifyMembers(members: Members): Text {
    match members
    case NoMember => []
    case Member(key, value, NoMember) => Quoted(key) + [COLON] + Stringify(value)
    case Member(key, value, rest) => Quoted(key) + [COLON] + Stringify(value) + [COMMA] + StringifyMembers(rest)
  }

  /** Text without a quote or a backslash. */
  predicate Plain(t: Text) {
    forall i :: 0 <= i < |t| ==> t[i] != QUOTE && t[i] != DOUBLE_QUOTE && t[i] != BACKSLASH
  }

  /** Its numbers, true, false and null are written plainly, as JSON writes them. */
  predicate Proper(v: Value) {
    match v
    case Atom(text) => Plain(text)
    case Str(_) => true
    case Arr(items) => ProperItems(items)
    case Obj(members) => ProperMembers(members)
  }

  predicate ProperItems(items: Items) {
    match items
    case NoItem => true
    case Item(head, tail) => Proper(head) && ProperItems(tail)
  }

  predicate ProperMembers(members: Members) {
    match members
    case NoMember => true
    case Member(_, value, rest) => Proper(value) && ProperMembers(rest)
  }
}
