/** Constants : a map of values, edited as rows and stored back. */
module Constants {
  import opened Wrappers
  import opened Texts
  import opened RowTree
  import opened RowMoves
  import opened RowLists

  /** A value : a map, or anything else, kept as it is (a text, a number, a list, null). */
  datatype Value<P> = Plain(p: P) | Map(fields: Fields<P>)

  /** The keys of a map with their values, in the order they were first set. */
  datatype Fields<P> = NoField | Field(key: string, value: Value<P>, rest: Fields<P>)

  predicate HasKey<P>(m: Fields<P>, k: string) {
    m.Field? && (m.key == k || HasKey(m.rest, k))
  }

  function Set<P>(m: Fields<P>, k: string, v: Value<P>): Fields<P> {
    match m
    case NoField => Field(k, v, NoField)
    case Field(key, value, rest) => if key == k then Field(key, v, rest) else Field(key, value, Set(rest, k, v))
  }

  /** What a row says : its key, the value as typed, the value it was read from and how that one was shown. */
  datatype Constant<P> = Constant(key: string, value: string, orig: Option<Value<P>>, display: string)

  /** How a value that is no map is shown, and how a text typed is read : the yaml library's part. */
  datatype Notation<!P> = Notation(show: P -> string, read: string -> Value<P>)

  // ─── rows from a map, and back ───────────────────────────────────────────────

  function RowsOf<P>(m: Fields<P>, n: Notation<P>): Forest<(), Constant<P>> {
    match m
    case NoField => End
    case Field(key, value, rest) =>
      match value
      case Map(fields) => Row((), Constant(key, "", Some(value), ""), true, RowsOf(fields, n), RowsOf(rest, n))
      case Plain(p) => Row((), Constant(key, n.show(p), Some(value), n.show(p)), true, End, RowsOf(rest, n))
  }

  /** What a row without subkeys stores : an untouched value as it was, an emptied map as an empty one. */
  function Leaf<P>(c: Constant<P>, n: Notation<P>): Value<P> {
    if c.orig.Some? && c.orig.value.Plain? && c.value == c.display then c.orig.value
    else if c.orig.Some? && c.orig.value.Map? && c.value == "" then Map(NoField)
    else n.read(c.value)
  }

  /** The map once the rows are set in it, one after the other ; a keyless row is dropped. */
  function Filled<R, P>(m: Fields<P>, f: Forest<R, Constant<P>>, n: Notation<P>): Fields<P>
    decreases f
  {
    match f
    case End => m
    case Row(_, data, _, kids, next) =>
      if Trim(data.key) == "" then Filled(m, next, n)
      else
        var value := if kids.Row? then Map(Filled(NoField, kids, n)) else Leaf(data, n);
        Filled(Set(m, Trim(data.key), value), next, n)
  }

  /** The constants, from the rows in memory. */
  method ArrayToConstants<P>(list: seq<Entry<Constant<P>>>, n: Notation<P>,
                             ghost f: Forest<Entry<Constant<P>>, Constant<P>>,
                             ghost h: map<Entry<Constant<P>>, State<Entry<Constant<P>>, Constant<P>>>)
    returns (obj: Fields<P>)
    requires Shows(h, list, f)
    requires forall r :: r in h ==> r.data == h[r].data && r.items == h[r].items
    ensures obj == Filled(NoField, f, n)
    decreases Size(f)
  {
    hide Trim, Leaf;
    obj := NoField;
    ghost var g := f;
    for k := 0 to |list|
      invariant Shows(h, list[k..], g) && Size(g) <= Size(f) && Filled(obj, g, n) == Filled(NoField, f, n)
    {
      var row := list[k];
      assert row == g.id && list[k..][1..] == list[k + 1..];
      ghost var kids := g.kids;
      g := g.next;
      var key := Trim(row.data.key);
      if key == "" {
        continue;
      }
      if row.items.Some? && |row.items.value| > 0 {
        var inside := ArrayToConstants(row.items.value, n, kids, h);
        obj := Set(obj, key, Map(inside));
        continue;
      }
      obj := Set(obj, key, Leaf(row.data, n));
    }
  }

  // ─── the round trip ──────────────────────────────────────────────────────────

  /** A map has each key once, at every level. */
  predicate KeysOnce<P>(m: Fields<P>) {
    m.NoField? || (!HasKey(m.rest, m.key) && (m.value.Map? ==> KeysOnce(m.value.fields)) && KeysOnce(m.rest))
  }

  /** No key is empty, none has spaces at its ends, at every level. */
  predicate CleanKeys<P>(m: Fields<P>) {
    m.NoField? || (m.key != "" && Trimmed(m.key) && (m.value.Map? ==> CleanKeys(m.value.fields)) && CleanKeys(m.rest))
  }

  function Joined<P>(a: Fields<P>, b: Fields<P>): Fields<P> {
    if a.NoField? then b else a.(rest := Joined(a.rest, b))
  }

  predicate Apart<P>(a: Fields<P>, b: Fields<P>) {
    b.NoField? || (!HasKey(a, b.key) && Apart(a, b.rest))
  }

  lemma {:induction false} SetNew<P>(m: Fields<P>, k: string, v: Value<P>)
    requires !HasKey(m, k)
    ensures Set(m, k, v) == Joined(m, Field(k, v, NoField))
  {
    if m.Field? { SetNew(m.rest, k, v); }
  }

  lemma {:induction false} JoinedHasKey<P>(a: Fields<P>, b: Fields<P>, k: string)
    ensures HasKey(Joined(a, b), k) <==> HasKey(a, k) || HasKey(b, k)
  {
    if a.Field? { JoinedHasKey(a.rest, b, k); }
  }

  lemma {:induction false} JoinedTwice<P>(a: Fields<P>, b: Fields<P>, c: Fields<P>)
    ensures Joined(Joined(a, b), c) == Joined(a, Joined(b, c))
  {
    if a.Field? { JoinedTwice(a.rest, b, c); }
  }

  lemma {:induction false} ApartWithOne<P>(a: Fields<P>, k: string, v: Value<P>, b: Fields<P>)
    requires Apart(a, b) && !HasKey(b, k)
    ensures Apart(Joined(a, Field(k, v, NoField)), b)
  {
    if b.Field? {
      JoinedHasKey(a, Field(k, v, NoField), b.key);
      ApartWithOne(a, k, v, b.rest);
    }
  }

  lemma {:induction false} ApartFromNone<P>(b: Fields<P>)
    ensures Apart(NoField, b)
  {
    if b.Field? { ApartFromNone(b.rest); }
  }

  /** What the row read from a value stores. */
  function Again<P>(v: Value<P>, n: Notation<P>): Value<P> {
    if v.Map? then Map(Filled(NoField, RowsOf(v.fields, n), n)) else v
  }

  lemma FilledStep<P>(m: Fields<P>, fields: Fields<P>, n: Notation<P>)
    requires fields.Field?
    ensures Filled(m, RowsOf(fields, n), n) ==
            var key := Trim(fields.key);
            Filled(if key == "" then m else Set(m, key, Again(fields.value, n)), RowsOf(fields.rest, n), n)
  {
    hide Trim, Set;
    if fields.value.Map? && fields.value.fields.NoField? {
      assert RowsOf(fields.value.fields, n) == End;
    }
  }

  lemma {:induction false} JoinedWithNone<P>(m: Fields<P>)
    ensures Joined(m, NoField) == m
  {
    if m.Field? { JoinedWithNone(m.rest); }
  }

  lemma {:induction false} SetKeepsClean<P>(m: Fields<P>, k: string, v: Value<P>)
    requires CleanKeys(m) && k != "" && Trimmed(k) && (v.Map? ==> CleanKeys(v.fields))
    ensures CleanKeys(Set(m, k, v))
  {
    if m.Field? { SetKeepsClean(m.rest, k, v); }
  }

  lemma {:induction false} FilledAgain<P>(m: Fields<P>, fields: Fields<P>, n: Notation<P>)
    requires KeysOnce(fields) && CleanKeys(fields) && Apart(m, fields)
    ensures Filled(m, RowsOf(fields, n), n) == Joined(m, fields)
    decreases fields
  {
    if fields.Field? {
      hide Filled, RowsOf, Trim, Set;
      var one := Field(fields.key, fields.value, NoField);
      TrimIsTrimmed(fields.key);
      FilledStep(m, fields, n);
      if fields.value.Map? {
        ApartFromNone(fields.value.fields);
        FilledAgain(NoField, fields.value.fields, n);
      }
      SetNew(m, fields.key, fields.value);
      ApartWithOne(m, fields.key, fields.value, fields.rest);
      FilledAgain(Joined(m, one), fields.rest, n);
      JoinedTwice(m, one, fields.rest);
    } else {
      JoinedWithNone(m);
    }
  }

  lemma {:induction false} FilledIsClean<P>(m: Fields<P>, fields: Fields<P>, n: Notation<P>)
    requires CleanKeys(m)
    ensures CleanKeys(Filled(m, RowsOf(fields, n), n))
    decreases fields
  {
    if fields.Field? {
      hide Filled, RowsOf, Trim, Set, Trimmed;
      var key := Trim(fields.key);
      TrimIsTrimmed(fields.key);
      FilledStep(m, fields, n);
      if fields.value.Map? { FilledIsClean(NoField, fields.value.fields, n); }
      if key != "" { SetKeepsClean(m, key, Again(fields.value, n)); }
      FilledIsClean(if key == "" then m else Set(m, key, Again(fields.value, n)), fields.rest, n);
    }
  }

  /** The rows read from a map store that map again, empty maps, lists and nulls as they were, exactly when
      no key of it is empty or has spaces at its ends. */
  lemma {:induction false} RowsStoreTheMapExactly<P>(m: Fields<P>, n: Notation<P>)
    requires KeysOnce(m)
    ensures Filled(NoField, RowsOf(m, n), n) == m <==> CleanKeys(m)
  {
    ApartFromNone(m);
    if CleanKeys(m) { FilledAgain(NoField, m, n); }
    FilledIsClean(NoField, m, n);
  }

  /** One such map : a key with a space before it comes back without, an empty one not at all. */
  lemma {:induction false} SpacedKeyComesBackTrimmed<P>(p: P, n: Notation<P>)
    ensures var m := Field(" a", Plain(p), Field("", Plain(p), NoField));
            KeysOnce(m) && !CleanKeys(m) && Filled(NoField, RowsOf(m, n), n) == Field("a", Plain(p), NoField)
  {
    var last := Field("", Plain(p), NoField);
    var m := Field(" a", Plain(p), last);
    SpacedTrims();
    hide Trim, Trimmed;
    assert KeysOnce(last) && !HasKey(last, " a");
    FilledStep(NoField, m, n);
    FilledStep(Set(NoField, "a", Plain(p)), last, n);
  }

  lemma SpacedTrims()
    ensures Trim(" a") == "a" && Trim("") == "" && !Trimmed(" a")
  {
    assert " a"[1..] == "a" && TrimStart("a") == "a" && TrimStart(" a") == "a" && TrimEnd("a") == "a";
  }

  // ─── what is shown, and what is stored ───────────────────────────────────────

  /** The value at the end of some keys, each in the map of the one before. */
  function ValueAt<P>(m: Fields<P>, keys: seq<string>): Option<Value<P>>
    requires keys != []
    decreases m
  {
    match m
    case NoField => None
    case Field(key, value, rest) =>
      if key != keys[0] then ValueAt(rest, keys)
      else if |keys| == 1 then Some(value)
      else if value.Map? then ValueAt(value.fields, keys[1..])
      else None
  }

  /** The row at the end of some keys. */
  function RowAt<R, P>(f: Forest<R, Constant<P>>, keys: seq<string>): Option<Constant<P>>
    requires keys != []
    decreases f
  {
    match f
    case End => None
    case Row(_, data, _, kids, next) =>
      if data.key != keys[0] then RowAt(next, keys)
      else if |keys| == 1 then Some(data)
      else RowAt(kids, keys[1..])
  }

  /** The rows of a map : one for each value of it at every level, which shows that value as it is shown ; the
      row of a map shows nothing. */
  lemma {:induction false} RowsShowTheMap<P>(m: Fields<P>, n: Notation<P>, keys: seq<string>)
    requires keys != []
    ensures match ValueAt(m, keys)
            case None => RowAt(RowsOf(m, n), keys) == None
            case Some(Plain(p)) =>
              RowAt(RowsOf(m, n), keys) == Some(Constant(keys[|keys| - 1], n.show(p), Some(Plain(p)), n.show(p)))
            case Some(Map(fields)) =>
              RowAt(RowsOf(m, n), keys) == Some(Constant(keys[|keys| - 1], "", Some(Map(fields)), ""))
    decreases m
  {
    if m.Field? {
      RowsShowTheMap(m.rest, n, keys);
      if |keys| > 1 && m.value.Map? {
        RowsShowTheMap(m.value.fields, n, keys[1..]);
      }
    }
  }

  /** The last row of a list with that key, once its spaces are trimmed. */
  function LastNamed<R, P>(f: Forest<R, Constant<P>>, k: string): Option<(Constant<P>, Forest<R, Constant<P>>)> {
    match f
    case End => None
    case Row(_, data, _, kids, next) =>
      var later := LastNamed(next, k);
      if later.Some? then later else if Trim(data.key) == k then Some((data, kids)) else None
  }

  /** What a row without subkeys stores : what it was read from when it was not edited, an empty map for one
      emptied, and else what its text is read as. */
  ghost predicate Stores<P>(c: Constant<P>, n: Notation<P>, v: Value<P>) {
    match c.orig
    case None => v == n.read(c.value)
    case Some(Plain(p)) => v == if c.value == c.display then Plain(p) else n.read(c.value)
    case Some(Map(_)) => v == if c.value == "" then Map(NoField) else n.read(c.value)
  }

  lemma {:induction false} SetAt<P>(m: Fields<P>, k: string, v: Value<P>, q: string)
    ensures ValueAt(Set(m, k, v), [q]) == if q == k then Some(v) else ValueAt(m, [q])
  {
    if m.Field? { SetAt(m.rest, k, v, q); }
  }

  /** What a key holds once rows are stored : what the last row of that key does, the map of its subkeys when it
      has some ; a key without a row keeps what it held. */
  lemma {:induction false} FilledAt<R, P>(m: Fields<P>, f: Forest<R, Constant<P>>, n: Notation<P>, k: string)
    ensures var stored := ValueAt(Filled(m, f, n), [k]);
            match LastNamed(f, k)
            case None => stored == ValueAt(m, [k])
            case Some((c, kids)) =>
              if k == "" then stored == ValueAt(m, [k])
              else stored.Some? && if kids.Row? then stored.value == Map(Filled(NoField, kids, n))
                                   else Stores(c, n, stored.value)
    decreases f
  {
    hide Trim, Set;
    if f.Row? {
      var key := Trim(f.data.key);
      if key == "" {
        FilledAt(m, f.next, n, k);
      } else {
        var value := if f.kids.Row? then Map(Filled(NoField, f.kids, n)) else Leaf(f.data, n);
        FilledAt(Set(m, key, value), f.next, n, k);
        SetAt(m, key, value, k);
      }
    }
  }

  // ─── the moves ───────────────────────────────────────────────────────────────

  datatype Move<R> = Step(t: R, step: int) | In(t: R) | Out(t: R)

  function Cleared<P>(c: Constant<P>): Constant<P> {
    c.(value := "")
  }

  /** There is a row above, with subkeys or with no value. */
  predicate MayIndent<R(==), P>(f: Forest<R, Constant<P>>, t: R) {
    match Above(f, t)
    case None => false
    case Some(n) => n.holds || Trim(n.above.value) == ""
  }

  function Moved<R(==), P>(f: Forest<R, Constant<P>>, m: Move<R>): Forest<R, Constant<P>> {
    match m
    case Step(t, step) => if step < 0 then Up(f, t) else Down(f, t)
    case In(t) => if MayIndent(f, t) then Indent(f, t, Cleared) else f
    case Out(t) => Outdent(f, t, false)
  }

  /** A key may go under another exactly when it is not the first of its list and the one before it has subkeys
      or, spaces aside, no value. */
  lemma {:induction false} MayIndentIff<R(!new), P(!new)>(f: Forest<R, Constant<P>>, t: R)
    requires Distinct(f)
    ensures MayIndent(f, t) <==>
            exists p, i ::
              0 < i < |ListIn(f, p)| && ListIn(f, p)[i] == t
              && var above := ListIn(f, p)[i - 1];
                 HeldBy(f, above) != [] || (ToldBy(f, above).Some? && Trim(ToldBy(f, above).value.data.value) == "")
  {
    hide Trim;
    if Above(f, t).Some? {
      PlaceIs(f, t);
      AboveSays(f, t);
      var (p, i) := PlaceOf(f, t);
      assert RowAbove(f, t) == ListIn(f, p)[i - 1];
    }
    forall p, i: nat | 0 < i < |ListIn(f, p)| && ListIn(f, p)[i] == t
      ensures Above(f, t).Some? && PlaceOf(f, t) == (p, i)
    {
      PlaceIsAbove(f, t, p, i);
    }
  }

  /** What each move does to every list of the tree, and to what its rows say. */
  lemma {:induction false} MoveIs<R(!new), P(!new)>(f: Forest<R, Constant<P>>, m: Move<R>)
    requires Distinct(f) && (m.Step? ==> m.step == -1 || m.step == 1)
    ensures var g, t := Moved(f, m), m.t;
            match m
            case Step(_, step) =>
              && (forall r :: ToldBy(g, r) == ToldBy(f, r))
              && if step == -1 then forall p :: OneUp(ListIn(f, p), ListIn(g, p), t)
                 else forall p :: OneDown(ListIn(f, p), ListIn(g, p), t)
            case In(_) =>
              if MayIndent(f, t) then
                exists p, i ::
                  && 0 < i < |ListIn(f, p)| && ListIn(f, p)[i] == t
                  && PutUnderAbove(f, g, p, i, (c: Constant<P>) => Constant(c.key, "", c.orig, c.display))
              else g == f
            case Out(_) =>
              if t in Ids(f) && t !in Heads(f) then
                exists u, q :: t in HeldBy(f, u) && u in ListIn(f, q) && PutAfterParent(f, g, t, u, q, false)
              else g == f
  {
    hide OneUp, OneDown, Up, Down, Indent, Outdent, ListIn, HeldBy, ToldBy, Heads, PutAfterParent;
    match m {
      case Step(t, step) =>
        forall p
          ensures OneUp(ListIn(f, p), ListIn(Up(f, t), p), t) && OneDown(ListIn(f, p), ListIn(Down(f, t), p), t)
        {
          UpLists(f, t, p, t);
          DownLists(f, t, p, t);
        }
        forall r ensures ToldBy(Up(f, t), r) == ToldBy(f, r) == ToldBy(Down(f, t), r) {
          UpLists(f, t, None, r);
          DownLists(f, t, None, r);
        }
      case In(t) =>
        if MayIndent(f, t) {
          var p, i := IndentLists(f, t, Cleared);
          assert PutUnderAbove(f, Indent(f, t, Cleared), p, i,
                               (c: Constant<P>) => Constant(c.key, "", c.orig, c.display));
        }
      case Out(t) =>
        HeadsAreIn(f, t);
        if t in Ids(f) && !AtLevel(f, t) {
          var u, q := OutdentLists(f, t, false);
        } else if AtLevel(f, t) {
          TopStays(f, t, false);
        } else {
          Elsewhere(f, t, Cleared, false);
        }
    }
  }

  method MoveConstant<P>(tree: Tree<Constant<P>>, target: Entry<Constant<P>>, step: int) returns (moved: bool)
    requires tree.Valid() && (step == -1 || step == 1)
    modifies tree, tree.members
    ensures tree.Valid() && tree.members == old(tree.members)
    ensures tree.forest == Moved(old(tree.forest), Step(target, step)) && (moved <==> tree.forest != old(tree.forest))
  {
    if step < 0 {
      moved := tree.MoveUp(target);
    } else {
      moved := tree.MoveDown(target);
    }
  }

  method CanIndentConstant<P>(tree: Tree<Constant<P>>, target: Entry<Constant<P>>) returns (can: bool)
    requires tree.Valid()
    ensures can <==> MayIndent(tree.forest, target)
  {
    var above, _ := tree.AboveOf(target);
    if above.None? {
      return false;
    }
    var holdsKeys := above.value.items.Some? && |above.value.items.value| > 0;
    return holdsKeys || Trim(above.value.data.value) == "";
  }

  method IndentConstant<P>(tree: Tree<Constant<P>>, target: Entry<Constant<P>>) returns (moved: bool)
    requires tree.Valid()
    modifies tree, tree.members
    ensures tree.Valid() && tree.members == old(tree.members)
    ensures tree.forest == Moved(old(tree.forest), In(target)) && (moved <==> MayIndent(old(tree.forest), target))
  {
    moved := CanIndentConstant(tree, target);
    if moved {
      tree.PutUnder(target, Cleared);
    }
  }

  method OutdentConstant<P>(tree: Tree<Constant<P>>, target: Entry<Constant<P>>) returns (moved: bool)
    requires tree.Valid()
    modifies tree, tree.members
    ensures tree.Valid() && tree.members == old(tree.members)
    ensures tree.forest == Moved(old(tree.forest), Out(target))
    ensures moved <==> target in old(tree.members) && !AtLevel(old(tree.forest), target)
  {
    moved := tree.TakeOut(target, false);
  }

  // ─── a value is never lost ───────────────────────────────────────────────────

  /** The row says this and has no subkeys. */
  predicate Says<R(==), P(==)>(f: Forest<R, Constant<P>>, r: R, c: Constant<P>) {
    f.Row? && ((f.id == r && f.data == c && f.kids.End?) || Says(f.kids, r, c) || Says(f.next, r, c))
  }

  lemma {:induction false} JoinSays<R, P>(a: Forest<R, Constant<P>>, b: Forest<R, Constant<P>>, r: R, c: Constant<P>)
    ensures Says(Join(a, b), r, c) <==> Says(a, r, c) || Says(b, r, c)
  {
    if a.Row? { JoinSays(a.next, b, r, c); }
  }

  lemma {:induction false} WithoutSays<R, P>(f: Forest<R, Constant<P>>, t: R, r: R, c: Constant<P>)
    requires AtLevel(f, t)
    ensures Says(f, r, c) <==> Says(Without(f, t), r, c) || Says(Only(f, t), r, c)
  {
    if f.id != t { WithoutSays(f.next, t, r, c); }
  }

  lemma {:induction false} UpSays<R, P>(f: Forest<R, Constant<P>>, t: R, r: R, c: Constant<P>)
    ensures Says(Up(f, t), r, c) <==> Says(f, r, c)
  {
    if f.Row? {
      UpSays(f.kids, t, r, c);
      UpSays(f.next, t, r, c);
    }
  }

  lemma {:induction false} DownSays<R, P>(f: Forest<R, Constant<P>>, t: R, r: R, c: Constant<P>)
    ensures Says(Down(f, t), r, c) <==> Says(f, r, c)
  {
    if f.Row? {
      DownSays(f.kids, t, r, c);
      DownSays(f.next, t, r, c);
    }
  }

  lemma {:induction false} IndentSays<R, P>(f: Forest<R, Constant<P>>, t: R, r: R, c: Constant<P>)
    requires Distinct(f) && MayIndent(f, t) && Trim(c.value) != "" && Says(f, r, c)
    ensures Says(Indent(f, t, Cleared), r, c)
  {
    AboveIsIn(f, t);
    if IsFirst(f.next, t) {
      JoinSays(f.kids, f.next.(next := End), r, c);
    } else if Above(f.kids, t).Some? {
      AboveIsIn(f.kids, t);
      Elsewhere(f.next, t, Cleared, false);
      if Says(f.kids, r, c) { IndentSays(f.kids, t, r, c); }
    } else {
      AboveIsIn(f.next, t);
      Elsewhere(f.kids, t, Cleared, false);
      if Says(f.next, r, c) { IndentSays(f.next, t, r, c); }
    }
  }

  lemma {:induction false} OutdentSays<R, P>(f: Forest<R, Constant<P>>, t: R, r: R, c: Constant<P>)
    requires Says(f, r, c)
    ensures Says(Outdent(f, t, false), r, c)
  {
    if AtLevel(f.kids, t) {
      WithoutSays(f.kids, t, r, c);
    } else {
      if Says(f.kids, r, c) { OutdentSays(f.kids, t, r, c); }
      if Says(f.next, r, c) { OutdentSays(f.next, t, r, c); }
    }
  }

  function Run<R(==), P>(f: Forest<R, Constant<P>>, moves: seq<Move<R>>): Forest<R, Constant<P>> {
    if moves == [] then f else Moved(Run(f, moves[..|moves| - 1]), moves[|moves| - 1])
  }

  lemma {:induction false} MoveKeepsRows<R, P>(f: Forest<R, Constant<P>>, m: Move<R>)
    requires Distinct(f)
    ensures SameRows(f, Moved(f, m))
  {
    UpKeepsRows(f, m.t);
    DownKeepsRows(f, m.t);
    IndentKeepsRows(f, m.t, Cleared);
    OutdentKeepsRows(f, m.t, false);
  }

  /** Over every run of moves each row stays in the tree once, and one with a value and no subkeys keeps
      its value, its key, and has no subkeys. */
  lemma {:induction false} RunKeepsValues<R, P>(f: Forest<R, Constant<P>>, moves: seq<Move<R>>, r: R, c: Constant<P>)
    requires Distinct(f) && Says(f, r, c) && Trim(c.value) != ""
    ensures SameRows(f, Run(f, moves)) && Says(Run(f, moves), r, c)
  {
    if moves != [] {
      var before, m := Run(f, moves[..|moves| - 1]), moves[|moves| - 1];
      RunKeepsValues(f, moves[..|moves| - 1], r, c);
      MoveKeepsRows(before, m);
      match m
      case Step(t, step) => if step < 0 { UpSays(before, t, r, c); } else { DownSays(before, t, r, c); }
      case In(t) => if MayIndent(before, t) { IndentSays(before, t, r, c); }
      case Out(t) => OutdentSays(before, t, r, c);
    }
  }
}
