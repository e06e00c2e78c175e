/** The rows as they are in memory : each move splices the lists in place. What a move does to the
    tree is in RowTree ; here it is shown to be what the splices do. */
module RowMoves {
  import opened Wrappers
  import opened RowTree

  /** One row of an editor : a category with its `items`, a constant with its `children`. */
  class Entry<D> {
    var data: D
    var items: Option<seq<Entry<D>>>

    constructor (data: D)
      ensures this.data == data && items == None
    {
      this.data := data;
      items := None;
    }
  }

  // ─── what the memory holds ───────────────────────────────────────────────────

  datatype State<R, D> = State(data: D, items: Option<seq<R>>)

  ghost function Snapshot<D>(rows: set<Entry<D>>): map<Entry<D>, State<Entry<D>, D>>
    reads rows
  {
    map r | r in rows :: State(r.data, r.items)
  }

  /** The list in memory is the tree. */
  ghost predicate Shows<R, D>(h: map<R, State<R, D>>, list: seq<R>, f: Forest<R, D>)
    decreases f
  {
    || (f.End? && list == [])
    || (f.Row? && list != [] && list[0] == f.id && f.id in h && Holds(h[f.id], f)
        && (f.listed ==> Shows(h, h[f.id].items.value, f.kids)) && Shows(h, list[1..], f.next))
  }

  /** The row in memory says what the tree has it say. */
  ghost predicate Holds<R, D>(state: State<R, D>, f: Forest<R, D>)
    requires f.Row?
  {
    state.data == f.data && state.items.Some? == f.listed && (f.listed || f.kids.End?)
  }

  lemma {:induction false} Framed<R, D>(h: map<R, State<R, D>>, h': map<R, State<R, D>>, list: seq<R>, f: Forest<R, D>)
    requires Shows(h, list, f)
    requires forall r :: r in Ids(f) && r in h ==> r in h' && h'[r] == h[r]
    ensures Shows(h', list, f)
    decreases f
  {
    if f.Row? {
      if f.listed { Framed(h, h', h[f.id].items.value, f.kids); }
      Framed(h, h', list[1..], f.next);
    }
  }

  /** Where a row is : the row holding it and the row holding that one, none at the top. */
  datatype Place<R> = Place(index: nat, parent: Option<R>, upper: Option<R>)

  function PositionOf<R(==)>(list: seq<R>, t: R): (at: Option<nat>)
    ensures at.Some? ==> at.value < |list| && list[at.value] == t && t !in list[..at.value]
    ensures at.None? ==> t !in list
  {
    if list == [] then None
    else if list[0] == t then Some(0)
    else match PositionOf(list[1..], t)
      case None => None
      case Some(i) => Some(i + 1)
  }

  /** What a row holds. */
  function KidsOf<R(==), D>(f: Forest<R, D>, p: R): Forest<R, D> {
    match f
    case End => End
    case Row(id, _, _, kids, next) =>
      if id == p then kids else var inside := KidsOf(kids, p); if inside.Row? then inside else KidsOf(next, p)
  }

  /** The tree with another list under a row. */
  function SetKids<R(==), D>(f: Forest<R, D>, p: R, g: Forest<R, D>): Forest<R, D> {
    match f
    case End => End
    case Row(id, data, listed, kids, next) =>
      if id == p then Row(id, data, listed, g, next)
      else Row(id, data, listed, SetKids(kids, p, g), SetKids(next, p, g))
  }

  lemma {:induction false} KidsAreIn<R, D>(f: Forest<R, D>, p: R)
    ensures Ids(KidsOf(f, p)) <= Ids(f)
    ensures KidsOf(f, p).Row? ==> p in Ids(f)
    ensures Distinct(f) ==> Distinct(KidsOf(f, p)) && p !in Ids(KidsOf(f, p))
  {
    if f.Row? {
      KidsAreIn(f.kids, p);
      KidsAreIn(f.next, p);
    }
  }

  lemma {:induction false} SetKidsElsewhere<R, D>(f: Forest<R, D>, p: R, g: Forest<R, D>)
    requires p !in Ids(f)
    ensures SetKids(f, p, g) == f && KidsOf(f, p).End?
  {
    if f.Row? {
      SetKidsElsewhere(f.kids, p, g);
      SetKidsElsewhere(f.next, p, g);
    }
  }

  // ─── where a row is ──────────────────────────────────────────────────────────

  /** The list found is the one the row is in, and the two rows above it are the ones named. */
  predicate IsAt<R(==), D>(f: Forest<R, D>, t: R, parent: Option<R>, upper: Option<R>, at: Place<R>) {
    || (at.parent == parent && at.upper == upper && AtLevel(f, t))
    || (at.parent.Some? && AtLevel(KidsOf(f, at.parent.value), t)
        && ((at.upper == parent && AtLevel(f, at.parent.value))
            || (at.upper.Some? && AtLevel(KidsOf(f, at.upper.value), at.parent.value))))
  }

  /** The list a row's place is in. */
  ghost predicate OnList<R, D>(h: map<R, State<R, D>>, list: seq<R>, t: R, parent: Option<R>, at: Place<R>) {
    if at.parent == parent then at.index < |list| && list[at.index] == t
    else
      at.parent.Some? && at.parent.value in h && h[at.parent.value].items.Some?
      && at.index < |h[at.parent.value].items.value| && h[at.parent.value].items.value[at.index] == t
  }

  ghost function Size<R, D>(f: Forest<R, D>): nat {
    if f.End? then 0 else 1 + Size(f.kids) + Size(f.next)
  }

  ghost predicate Tail<R, D>(f: Forest<R, D>, g: Forest<R, D>) {
    f == g || (f.Row? && Tail(f.next, g))
  }

  lemma {:induction false} TailIsIn<R, D>(f: Forest<R, D>, g: Forest<R, D>, p: R)
    requires Distinct(f) && Tail(f, g)
    ensures Distinct(g) && Ids(g) <= Ids(f) && Size(g) <= Size(f)
    ensures AtLevel(g, p) ==> AtLevel(f, p)
    ensures KidsOf(g, p).Row? ==> KidsOf(f, p) == KidsOf(g, p)
  {
    if f != g {
      TailIsIn(f.next, g, p);
      if KidsOf(g, p).Row? {
        KidsAreIn(g, p);
        SetKidsElsewhere(f.kids, p, End);
      }
    }
  }

  lemma {:induction false} TailNext<R, D>(f: Forest<R, D>, g: Forest<R, D>)
    requires Tail(f, g) && g.Row?
    ensures Tail(f, g.next)
  {
    if f != g { TailNext(f.next, g); } else { assert Tail(f.next, g.next); }
  }

  lemma {:induction false} KidsInside<R, D>(f: Forest<R, D>, g: Forest<R, D>, p: R)
    requires Distinct(f) && Tail(f, g) && g.Row?
    ensures KidsOf(g.kids, p).Row? ==> KidsOf(f, p) == KidsOf(g.kids, p)
    ensures g.kids.Row? ==> KidsOf(f, g.id) == g.kids
    ensures AtLevel(f, g.id)
  {
    TailIsIn(f, g, p);
    TailIsIn(f, g, g.id);
    KidsAreIn(g.kids, p);
  }

  /** A place in a row's list is a place in the tree. */
  lemma {:induction false} StepIn<R, D>(
    f: Forest<R, D>, g: Forest<R, D>, t: R, parent: Option<R>, upper: Option<R>, at: Place<R>)
    requires Distinct(f) && Tail(f, g) && g.Row? && IsAt(g.kids, t, Some(g.id), parent, at)
    requires parent.Some? ==> parent.value !in Ids(f)
    ensures IsAt(f, t, parent, upper, at) && at.parent != parent
  {
    TailIsIn(f, g, t);
    KidsAreIn(g.kids, at.parent.value);
    hide KidsOf, Tail;
    if at.parent == Some(g.id) && at.upper == parent && AtLevel(g.kids, t) {
      KidsInside(f, g, t);
    } else {
      KidsInside(f, g, at.parent.value);
      if at.upper.Some? { KidsInside(f, g, at.upper.value); }
    }
  }

  /** Where a row is, searched list by list : by which row it is, never by what it says. */
  method Locate<D>(list: seq<Entry<D>>, target: Entry<D>, parent: Option<Entry<D>>, upper: Option<Entry<D>>,
                   ghost f: Forest<Entry<D>, D>, ghost h: map<Entry<D>, State<Entry<D>, D>>)
    returns (at: Option<Place<Entry<D>>>)
    requires Shows(h, list, f) && Distinct(f) && (parent.Some? ==> parent.value !in Ids(f))
    requires forall r :: r in h ==> r.data == h[r].data && r.items == h[r].items
    ensures at.None? <==> target !in Ids(f)
    ensures at.Some? ==> IsAt(f, target, parent, upper, at.value) && OnList(h, list, target, parent, at.value)
    decreases Size(f)
  {
    var here := PositionOf(list, target);
    if here.Some? {
      LevelOf(h, list, f, here.value);
      AtLevelIsIn(f, target);
      return Some(Place(here.value, parent, upper));
    }
    ghost var g := f;
    var k := 0;
    NotOnList(h, list, f, target);
    while k < |list|
      invariant 0 <= k <= |list| && Tail(f, g) && Shows(h, list[k..], g) && Distinct(g) && Ids(g) <= Ids(f)
      invariant Size(g) <= Size(f) && !AtLevel(g, target)
      invariant target in Ids(f) <==> target in Ids(g)
    {
      var row := list[k];
      assert row == g.id && list[k..][1..] == list[k + 1..];
      if row.items.Some? && |row.items.value| > 0 {
        var hit := Locate(row.items.value, target, Some(row), parent, g.kids, h);
        if hit.Some? {
          StepIn(f, g, target, parent, upper, hit.value);
          return hit;
        }
      }
      TailNext(f, g);
      g := g.next;
      k := k + 1;
    }
    return None;
  }

  lemma {:induction false} LevelOf<R, D>(h: map<R, State<R, D>>, list: seq<R>, f: Forest<R, D>, i: nat)
    requires Shows(h, list, f) && i < |list|
    ensures AtLevel(f, list[i])
    decreases f
  {
    if i > 0 { LevelOf(h, list[1..], f.next, i - 1); }
  }

  lemma {:induction false} NotOnList<R, D>(h: map<R, State<R, D>>, list: seq<R>, f: Forest<R, D>, t: R)
    requires Shows(h, list, f) && t !in list
    ensures !AtLevel(f, t)
    decreases f
  {
    if f.Row? { NotOnList(h, list[1..], f.next, t); }
  }

  lemma ListStep<R, D>(lines: seq<Line<R>>, g: Forest<R, D>, depth: int)
    ensures g.Row? ==>
              lines + Listing(g, depth) ==
              lines + [Line(g.id, depth)] + Listing(g.kids, depth + 1) + Listing(g.next, depth)
    ensures g.End? ==> lines + Listing(g, depth) == lines
  {
  }

  /** The rows listed, each before those it holds, with how deep it is. */
  method Flatten<D>(list: seq<Entry<D>>, depth: int, ghost f: Forest<Entry<D>, D>,
                    ghost h: map<Entry<D>, State<Entry<D>, D>>)
    returns (lines: seq<Line<Entry<D>>>)
    requires Shows(h, list, f)
    requires forall r :: r in h ==> r.data == h[r].data && r.items == h[r].items
    ensures lines == Listing(f, depth)
    decreases Size(f)
  {
    hide Listing;
    lines := [];
    ghost var g := f;
    for k := 0 to |list|
      invariant Shows(h, list[k..], g) && Size(g) <= Size(f) && lines + Listing(g, depth) == Listing(f, depth)
    {
      var row := list[k];
      assert row == g.id && list[k..][1..] == list[k + 1..];
      ListStep(lines, g, depth);
      ListStep([], g.kids, depth + 1);
      lines := lines + [Line(row, depth)];
      if row.items.Some? && |row.items.value| > 0 {
        var inside := Flatten(row.items.value, depth + 1, g.kids, h);
        lines := lines + inside;
      }
      g := g.next;
    }
    ListStep(lines, g, depth);
  }

  // ─── a splice in a list is the move in that list ─────────────────────────────

  /** The list with the row at i taken out, then put back at j. */
  function Spliced<R>(list: seq<R>, i: nat, j: nat): seq<R>
    requires i < |list| && j < |list|
  {
    var rest := list[..i] + list[i + 1..];
    rest[..j] + [list[i]] + rest[j..]
  }

  lemma SplicedTail<R>(list: seq<R>, i: nat, j: nat)
    requires 0 < i < |list| && 0 < j < |list|
    ensures Spliced(list, i, j) == [list[0]] + Spliced(list[1..], i - 1, j - 1)
  {
    var rest, rest' := list[..i] + list[i + 1..], list[1..][..i - 1] + list[1..][i..];
    assert rest == [list[0]] + rest';
    assert rest[..j] == [list[0]] + rest'[..j - 1] && rest[j..] == rest'[j - 1..];
  }

  lemma {:induction false} ShownIds<R, D>(h: map<R, State<R, D>>, list: seq<R>, f: Forest<R, D>, i: nat)
    requires Shows(h, list, f) && i < |list|
    ensures list[i] in Ids(f)
    decreases f
  {
    if i > 0 { ShownIds(h, list[1..], f.next, i - 1); }
  }

  lemma {:induction false} UpShown<R, D>(h: map<R, State<R, D>>, list: seq<R>, f: Forest<R, D>, i: nat)
    requires Shows(h, list, f) && Distinct(f) && 0 < i < |list|
    ensures Shows(h, Spliced(list, i, i - 1), Up(f, list[i])) && Up(f, list[i]) != f
    decreases f
  {
    var t := list[i];
    ShownIds(h, list[1..], f.next, i - 1);
    if i == 1 {
      var moved := Up(f, t);
      assert f.next.id == t;
      assert Spliced(list, 1, 0) == [t, f.id] + list[1..][1..];
      assert [t, f.id] + list[1..][1..] == [t] + ([f.id] + list[1..][1..]);
      assert Shows(h, [f.id] + list[1..][1..], moved.next);
    } else {
      UpShown(h, list[1..], f.next, i - 1);
      Elsewhere(f.kids, t, d => d, false);
      ShownIds(h, list[1..][1..], f.next.next, i - 2);
      SplicedTail(list, i, i - 1);
    }
  }

  /** The first of a list has none above, the last none below : the move does nothing. */
  lemma {:induction false} FirstStays<R, D>(h: map<R, State<R, D>>, list: seq<R>, f: Forest<R, D>)
    requires Shows(h, list, f) && Distinct(f) && |list| > 0
    ensures Up(f, list[0]) == f && Above(f, list[0]).None?
  {
    Elsewhere(f.kids, f.id, d => d, false);
    Elsewhere(f.next, f.id, d => d, false);
    if IsFirst(f.next, f.id) { AtLevelIsIn(f.next, f.id); }
  }

  lemma {:induction false} DownHeadShown<R, D>(h: map<R, State<R, D>>, list: seq<R>, f: Forest<R, D>)
    requires Shows(h, list, f) && Distinct(f) && 0 < |list|
    ensures 1 < |list| ==> Shows(h, Spliced(list, 0, 1), Down(f, list[0])) && Down(f, list[0]) != f
    ensures 1 == |list| ==> Down(f, list[0]) == f
  {
    var t := list[0];
    if |list| == 1 {
      Elsewhere(f.kids, t, d => d, false);
    } else {
      var moved := Down(f, t);
      assert f.next.Row? && moved.id == f.next.id && moved.next == f.(next := f.next.next);
      assert Spliced(list, 0, 1) == [list[1]] + ([t] + list[1..][1..]);
      assert ([t] + list[1..][1..])[1..] == list[1..][1..];
      assert Shows(h, [t] + list[1..][1..], moved.next);
      assert f.next.id in Ids(f.next);
    }
  }

  lemma {:induction false} DownShown<R, D>(h: map<R, State<R, D>>, list: seq<R>, f: Forest<R, D>, i: nat)
    requires Shows(h, list, f) && Distinct(f) && i < |list|
    ensures i + 1 < |list| ==> Shows(h, Spliced(list, i, i + 1), Down(f, list[i])) && Down(f, list[i]) != f
    ensures i + 1 == |list| ==> Down(f, list[i]) == f
    decreases f
  {
    var t := list[i];
    if i == 0 {
      DownHeadShown(h, list, f);
    } else {
      DownShown(h, list[1..], f.next, i - 1);
      ShownIds(h, list[1..], f.next, i - 1);
      Elsewhere(f.kids, t, d => d, false);
      if i + 1 < |list| {
        SplicedTail(list, i, i + 1);
      }
    }
  }

  lemma {:induction false} JoinShown<R, D>(h: map<R, State<R, D>>, a: seq<R>, f: Forest<R, D>, b: seq<R>,
                                           g: Forest<R, D>)
    requires Shows(h, a, f) && Shows(h, b, g)
    ensures Shows(h, a + b, Join(f, g))
    decreases f
  {
    if f.End? {
      assert a + b == b;
    } else {
      JoinShown(h, a[1..], f.next, b, g);
      assert (a + b)[1..] == a[1..] + b;
    }
  }

  lemma RestOf<R>(list: seq<R>, i: nat)
    requires 0 < i < |list|
    ensures (list[..i] + list[i + 1..])[1..] == list[1..][..i - 1] + list[1..][i..]
  {
    assert list[..i][1..] == list[1..][..i - 1] && list[i + 1..] == list[1..][i..];
  }

  lemma {:induction false} WithoutShown<R, D>(h: map<R, State<R, D>>, list: seq<R>, f: Forest<R, D>, i: nat)
    requires Shows(h, list, f) && Distinct(f) && i < |list|
    ensures AtLevel(f, list[i])
    ensures Shows(h, list[..i] + list[i + 1..], Without(f, list[i])) && Shows(h, [list[i]], Only(f, list[i]))
    decreases f
  {
    if i == 0 {
      assert list[..0] + list[1..] == list[1..];
      assert [list[0]][1..] == [];
    } else {
      WithoutShown(h, list[1..], f.next, i - 1);
      ShownIds(h, list[1..], f.next, i - 1);
      RestOf(list, i);
    }
  }

  /** What the row above is in memory once a row is under it. */
  function Under<R, D>(state: State<R, D>, t: R, under: D -> D): State<R, D> {
    State(under(state.data), Some((match state.items case None => [] case Some(items) => items) + [t]))
  }

  lemma {:induction false} IndentShown<R, D>(h: map<R, State<R, D>>, list: seq<R>, f: Forest<R, D>, i: nat,
                                             under: D -> D)
    requires Shows(h, list, f) && Distinct(f) && 0 < i < |list|
    ensures list[i - 1] in h && Above(f, list[i]).Some?
    ensures var above := list[i - 1];
            Shows(h[above := Under(h[above], list[i], under)], list[..i] + list[i + 1..], Indent(f, list[i], under))
    decreases f
  {
    var t, above := list[i], list[i - 1];
    ShownIds(h, list[1..], f.next, i - 1);
    if i == 1 {
      IndentHeadShown(h, list, f, under);
    } else {
      IndentShown(h, list[1..], f.next, i - 1, under);
      ShownIds(h, list[1..], f.next, i - 2);
      ShownIds(h, list[1..][1..], f.next.next, i - 2);
      Elsewhere(f.kids, t, under, false);
      var h' := h[above := Under(h[above], t, under)];
      if f.listed { Framed(h, h', h[f.id].items.value, f.kids); }
      RestOf(list, i);
    }
  }

  lemma IndentHeadShown<R, D>(h: map<R, State<R, D>>, list: seq<R>, f: Forest<R, D>, under: D -> D)
    requires Shows(h, list, f) && Distinct(f) && 1 < |list|
    ensures Above(f, list[1]).Some?
    ensures Shows(h[list[0] := Under(h[list[0]], list[1], under)], list[..1] + list[2..], Indent(f, list[1], under))
  {
    var above, t, row := list[0], list[1], f.next;
    var h' := h[above := Under(h[above], t, under)];
    var items := match h[above].items case None => [] case Some(items) => items;
    assert row.id == t && Shows(h, list[1..][1..], row.next);
    Framed(h, h', list[1..][1..], row.next);
    Framed(h, h', items, f.kids);
    if row.listed { Framed(h, h', h[t].items.value, row.kids); }
    assert [t][1..] == [];
    JoinShown(h', items, f.kids, [t], row.(next := End));
    assert (list[..1] + list[2..])[1..] == list[1..][1..];
  }

  /** What the row it was under is in memory once a row is out of it. */
  function Left<R, D>(state: State<R, D>, i: nat, drop: bool): State<R, D>
    requires state.items.Some? && i < |state.items.value|
  {
    var items := state.items.value[..i] + state.items.value[i + 1..];
    State(state.data, if drop && items == [] then None else Some(items))
  }

  lemma {:induction false} OutdentShown<R, D>(h: map<R, State<R, D>>, list: seq<R>, f: Forest<R, D>, j: nat, i: nat,
                                              drop: bool)
    requires Shows(h, list, f) && Distinct(f) && j < |list|
    requires list[j] in h && h[list[j]].items.Some? && i < |h[list[j]].items.value|
    ensures var p := list[j]; var t := h[p].items.value[i];
            Shows(h[p := Left(h[p], i, drop)], list[..j + 1] + [t] + list[j + 1..], Outdent(f, t, drop))
    decreases f
  {
    var p := list[j];
    var t := h[p].items.value[i];
    var h' := h[p := Left(h[p], i, drop)];
    if j == 0 {
      OutdentHeadShown(h, list, f, i, drop);
    } else {
      OutdentShown(h, list[1..], f.next, j - 1, i, drop);
      ShownIds(h, list[1..], f.next, j - 1);
      HeldByIsIn(h, list[1..], f.next, j - 1, i);
      NotAtLevel(f.kids, t);
      Elsewhere(f.kids, t, d => d, drop);
      if f.listed { Framed(h, h', h[f.id].items.value, f.kids); }
      assert (list[..j + 1] + [t] + list[j + 1..])[1..] == list[1..][..j] + [t] + list[1..][j..];
    }
  }

  lemma {:induction false} HeldByIsIn<R, D>(h: map<R, State<R, D>>, list: seq<R>, f: Forest<R, D>, j: nat, i: nat)
    requires Shows(h, list, f) && j < |list|
    requires list[j] in h && h[list[j]].items.Some? && i < |h[list[j]].items.value|
    ensures h[list[j]].items.value[i] in Ids(f)
    decreases f
  {
    if j == 0 { ShownIds(h, h[f.id].items.value, f.kids, i); } else { HeldByIsIn(h, list[1..], f.next, j - 1, i); }
  }

  lemma OutdentHeadShown<R, D>(h: map<R, State<R, D>>, list: seq<R>, f: Forest<R, D>, i: nat, drop: bool)
    requires Shows(h, list, f) && Distinct(f) && 0 < |list|
    requires h[list[0]].items.Some? && i < |h[list[0]].items.value|
    ensures var p := list[0]; var t := h[p].items.value[i];
            Shows(h[p := Left(h[p], i, drop)], list[..1] + [t] + list[1..], Outdent(f, t, drop))
  {
    var p := list[0];
    var items := h[p].items.value;
    var t := items[i];
    var h' := h[p := Left(h[p], i, drop)];
    Framed(h, h', items, f.kids);
    Framed(h, h', list[1..], f.next);
    WithoutShown(h', items, f.kids, i);
    var row := Only(f.kids, t);
    assert Shows(h', [t] + list[1..], row.(next := f.next)) by {
      assert ([t] + list[1..])[1..] == list[1..];
    }
    assert (list[..1] + [t] + list[1..])[1..] == [t] + list[1..];
    var left := items[..i] + items[i + 1..];
    assert left == [] <==> Without(f.kids, t).End?;
  }

  // ─── a list under a row, or the one at the top ───────────────────────────────

  lemma {:induction false} KidsShown<R, D>(h: map<R, State<R, D>>, list: seq<R>, f: Forest<R, D>, u: R)
    requires Shows(h, list, f) && KidsOf(f, u).Row?
    ensures u in h && h[u].items.Some? && Shows(h, h[u].items.value, KidsOf(f, u))
    decreases f
  {
    if f.id != u {
      if KidsOf(f.kids, u).Row? {
        KidsShown(h, h[f.id].items.value, f.kids, u);
      } else {
        KidsShown(h, list[1..], f.next, u);
      }
    }
  }

  /** A change within what one row holds is that change in the tree. */
  lemma {:induction false} InsideShown<R, D>(h: map<R, State<R, D>>, h': map<R, State<R, D>>, list: seq<R>,
                                             f: Forest<R, D>, u: R, g: Forest<R, D>)
    requires Shows(h, list, f) && Distinct(f) && KidsOf(f, u).Row?
    requires forall r :: r in h && r != u && r !in Ids(KidsOf(f, u)) ==> r in h' && h'[r] == h[r]
    requires u in h && u in h' && h'[u].data == h[u].data && h'[u].items.Some? && Shows(h', h'[u].items.value, g)
    ensures Shows(h', list, SetKids(f, u, g))
    decreases f
  {
    KidsAreIn(f.kids, u);
    KidsAreIn(f.next, u);
    if f.id == u {
      SetKidsElsewhere(f.next, u, g);
      Framed(h, h', list[1..], f.next);
    } else if KidsOf(f.kids, u).Row? {
      SetKidsElsewhere(f.next, u, g);
      Framed(h, h', list[1..], f.next);
      InsideShown(h, h', h[f.id].items.value, f.kids, u, g);
    } else {
      SetKidsElsewhere(f.kids, u, g);
      if f.listed { Framed(h, h', h[f.id].items.value, f.kids); }
      InsideShown(h, h', list[1..], f.next, u, g);
    }
  }

  lemma {:induction false} NotAtHeld<R, D>(f: Forest<R, D>, u: R, t: R)
    requires Distinct(f) && t in Ids(KidsOf(f, u))
    ensures !AtLevel(f, t)
  {
    KidsAreIn(f.kids, u);
    KidsAreIn(f.next, u);
    if f.id == u || KidsOf(f.kids, u).Row? { NotAtLevel(f.next, t); } else { NotAtHeld(f.next, u, t); }
  }

  lemma {:induction false} SetKidsStep<R, D>(f: Forest<R, D>, u: R, g: Forest<R, D>)
    requires Distinct(f) && KidsOf(f, u).Row?
    ensures SetKids(f, u, g) == if f.id == u then f.(kids := g)
                                else if KidsOf(f.kids, u).Row? then f.(kids := SetKids(f.kids, u, g))
                                else f.(next := SetKids(f.next, u, g))
  {
    KidsAreIn(f.kids, u);
    KidsAreIn(f.next, u);
    if f.id == u || KidsOf(f.kids, u).Row? { SetKidsElsewhere(f.next, u, g); } else { SetKidsElsewhere(f.kids, u, g); }
  }

  /** A move of a row within what another holds is that move there. */
  lemma {:induction false} UpInside<R, D>(f: Forest<R, D>, u: R, t: R)
    requires Distinct(f) && t in Ids(KidsOf(f, u))
    ensures Up(f, t) == SetKids(f, u, Up(KidsOf(f, u), t))
  {
    hide SetKids;
    Inside(f, u, t, d => d, false);
    SetKidsStep(f, u, Up(KidsOf(f, u), t));
    if f.id != u {
      if KidsOf(f.kids, u).Row? { UpInside(f.kids, u, t); } else { UpInside(f.next, u, t); }
    }
  }

  lemma {:induction false} DownInside<R, D>(f: Forest<R, D>, u: R, t: R)
    requires Distinct(f) && t in Ids(KidsOf(f, u))
    ensures Down(f, t) == SetKids(f, u, Down(KidsOf(f, u), t))
  {
    hide SetKids;
    Inside(f, u, t, d => d, false);
    SetKidsStep(f, u, Down(KidsOf(f, u), t));
    if f.id != u {
      if KidsOf(f.kids, u).Row? { DownInside(f.kids, u, t); } else { DownInside(f.next, u, t); }
    }
  }

  lemma {:induction false} IndentInside<R, D>(f: Forest<R, D>, u: R, t: R, under: D -> D)
    requires Distinct(f) && t in Ids(KidsOf(f, u))
    ensures Indent(f, t, under) == SetKids(f, u, Indent(KidsOf(f, u), t, under))
    ensures Above(f, t) == Above(KidsOf(f, u), t)
  {
    hide SetKids;
    Inside(f, u, t, under, false);
    SetKidsStep(f, u, Indent(KidsOf(f, u), t, under));
    if f.id != u {
      if KidsOf(f.kids, u).Row? { IndentInside(f.kids, u, t, under); } else { IndentInside(f.next, u, t, under); }
    }
  }

  lemma {:induction false} OutdentInside<R, D>(f: Forest<R, D>, u: R, t: R, drop: bool)
    requires Distinct(f) && t in Ids(KidsOf(f, u)) && !AtLevel(KidsOf(f, u), t)
    ensures Outdent(f, t, drop) == SetKids(f, u, Outdent(KidsOf(f, u), t, drop))
  {
    hide SetKids;
    Inside(f, u, t, d => d, drop);
    SetKidsStep(f, u, Outdent(KidsOf(f, u), t, drop));
    if f.id != u {
      if KidsOf(f.kids, u).Row? {
        OutdentInside(f.kids, u, t, drop);
        NotAtHeld(f.kids, u, t);
      } else {
        OutdentInside(f.next, u, t, drop);
        NotAtLevel(f.kids, t);
      }
    }
  }

  /** Where the row is not, no move of it does anything. */
  lemma {:induction false} Inside<R, D>(f: Forest<R, D>, u: R, t: R, under: D -> D, drop: bool)
    requires Distinct(f) && t in Ids(KidsOf(f, u))
    ensures f.id != t && !IsFirst(f.next, t)
    ensures f.id == u || KidsOf(f.kids, u).Row? ==>
      t in Ids(f.kids) && Up(f.next, t) == f.next && Down(f.next, t) == f.next && Indent(f.next, t, under) == f.next
      && Outdent(f.next, t, drop) == f.next && Above(f.next, t).None?
    ensures f.id != u && KidsOf(f.kids, u).End? ==>
      t in Ids(KidsOf(f.next, u)) && t !in Ids(f.kids) && Up(f.kids, t) == f.kids && Down(f.kids, t) == f.kids
        && Indent(f.kids, t, under) == f.kids
      && Outdent(f.kids, t, drop) == f.kids && Above(f.kids, t).None?
  {
    KidsAreIn(f.kids, u);
    KidsAreIn(f.next, u);
    NotAtHeld(f, u, t);
    if f.id == u || KidsOf(f.kids, u).Row? {
      Elsewhere(f.next, t, under, drop);
    } else {
      Elsewhere(f.kids, t, under, drop);
    }
  }

  // ─── the moves, in memory ────────────────────────────────────────────────────

  /** The list at a place, and the memory and the top list once it is another. */
  ghost function ListAt<R, D>(h: map<R, State<R, D>>, list: seq<R>, parent: Option<R>): seq<R>
    requires parent.Some? ==> parent.value in h && h[parent.value].items.Some?
  {
    if parent.None? then list else h[parent.value].items.value
  }

  ghost function Put<R, D>(h: map<R, State<R, D>>, parent: Option<R>, l: seq<R>): map<R, State<R, D>>
    requires parent.Some? ==> parent.value in h
  {
    if parent.None? then h else h[parent.value := State(h[parent.value].data, Some(l))]
  }

  /** A list put under one row, and another row changed : in either order. */
  lemma PutApart<R, D>(h: map<R, State<R, D>>, parent: Option<R>, l: seq<R>, r: R, state: State<R, D>)
    requires (parent.Some? ==> parent.value in h) && parent != Some(r) && r in h
    ensures Put(h, parent, l)[r := state] == Put(h[r := state], parent, l) && r in Put(h, parent, l)
    ensures Put(h, parent, l)[r] == h[r]
  {
  }

  ghost predicate Found<R, D>(h: map<R, State<R, D>>, list: seq<R>, f: Forest<R, D>, t: R, at: Place<R>) {
    && Shows(h, list, f) && Distinct(f) && IsAt(f, t, None, None, at)
    && (at.parent.Some? ==> at.parent.value in h && h[at.parent.value].items.Some?)
    && at.index < |ListAt(h, list, at.parent)| && ListAt(h, list, at.parent)[at.index] == t
  }

  /** The level a row was found at. */
  ghost function LevelAt<R, D>(f: Forest<R, D>, parent: Option<R>): Forest<R, D> {
    if parent.None? then f else KidsOf(f, parent.value)
  }

  lemma {:induction false} FoundAt<R, D>(h: map<R, State<R, D>>, list: seq<R>, f: Forest<R, D>, t: R, at: Place<R>)
    requires Found(h, list, f, t, at)
    ensures at.parent.Some? ==> KidsOf(f, at.parent.value).Row?
    ensures Shows(h, ListAt(h, list, at.parent), LevelAt(f, at.parent)) && Distinct(LevelAt(f, at.parent))
    ensures AtLevel(LevelAt(f, at.parent), t) && t in Ids(LevelAt(f, at.parent))
    ensures at.parent.Some? ==> at.parent.value !in Ids(LevelAt(f, at.parent))
  {
    AtLevelIsIn(LevelAt(f, at.parent), t);
    if at.parent.Some? {
      KidsShown(h, list, f, at.parent.value);
      KidsAreIn(f, at.parent.value);
    }
  }

  /** What is put in the list of a row shows as that in the tree. */
  lemma {:induction false} PutShown<R, D>(
    h: map<R, State<R, D>>, h': map<R, State<R, D>>, list: seq<R>, f: Forest<R, D>, u: R, l: seq<R>,
    g: Forest<R, D>)
    requires Shows(h, list, f) && Distinct(f) && KidsOf(f, u).Row?
    requires forall r :: r in h && r !in Ids(KidsOf(f, u)) ==> r in h' && h'[r] == h[r]
    requires u !in Ids(g) && Shows(h', l, g)
    ensures u in h' && Shows(Put(h', Some(u), l), list, SetKids(f, u, g))
  {
    KidsShown(h, list, f, u);
    KidsAreIn(f, u);
    Framed(h', Put(h', Some(u), l), l, g);
    InsideShown(h, Put(h', Some(u), l), list, f, u, g);
  }

  lemma {:induction false} UpAt<R, D>(h: map<R, State<R, D>>, list: seq<R>, f: Forest<R, D>, t: R, at: Place<R>)
    requires Found(h, list, f, t, at)
    ensures at.index == 0 <==> Up(f, t) == f
    ensures at.index > 0 ==>
      var l := Spliced(ListAt(h, list, at.parent), at.index, at.index - 1);
      Shows(Put(h, at.parent, l), if at.parent.None? then l else list, Up(f, t))
  {
    FoundAt(h, list, f, t, at);
    var level, l := LevelAt(f, at.parent), ListAt(h, list, at.parent);
    if at.index == 0 { FirstStays(h, l, level); } else { UpShown(h, l, level, at.index); }
    if at.parent.Some? {
      UpInside(f, at.parent.value, t);
      UpKeepsRows(level, t);
      SetSame(f, at.parent.value, Up(level, t));
      if at.index > 0 { PutShown(h, h, list, f, at.parent.value, Spliced(l, at.index, at.index - 1), Up(level, t)); }
    }
  }

  lemma {:induction false} DownAt<R, D>(h: map<R, State<R, D>>, list: seq<R>, f: Forest<R, D>, t: R, at: Place<R>)
    requires Found(h, list, f, t, at)
    ensures at.index + 1 == |ListAt(h, list, at.parent)| <==> Down(f, t) == f
    ensures at.index + 1 < |ListAt(h, list, at.parent)| ==>
      var l := Spliced(ListAt(h, list, at.parent), at.index, at.index + 1);
      Shows(Put(h, at.parent, l), if at.parent.None? then l else list, Down(f, t))
  {
    FoundAt(h, list, f, t, at);
    var level, l := LevelAt(f, at.parent), ListAt(h, list, at.parent);
    DownShown(h, l, level, at.index);
    if at.parent.Some? {
      DownInside(f, at.parent.value, t);
      DownKeepsRows(level, t);
      SetSame(f, at.parent.value, Down(level, t));
      if at.index + 1 < |l| {
        PutShown(h, h, list, f, at.parent.value, Spliced(l, at.index, at.index + 1), Down(level, t));
      }
    }
  }

  lemma {:induction false} SetSame<R, D>(f: Forest<R, D>, u: R, g: Forest<R, D>)
    requires Distinct(f) && KidsOf(f, u).Row?
    ensures SetKids(f, u, g) == f <==> g == KidsOf(f, u)
  {
    SetKidsStep(f, u, g);
    if f.id != u {
      if KidsOf(f.kids, u).Row? { SetSame(f.kids, u, g); } else { SetSame(f.next, u, g); }
    }
  }

  lemma {:induction false} IndentAt<R, D>(
    h: map<R, State<R, D>>, list: seq<R>, f: Forest<R, D>, t: R, at: Place<R>, under: D -> D)
    requires Found(h, list, f, t, at)
    ensures at.index == 0 <==> Above(f, t).None?
    ensures at.index > 0 ==>
      var from := ListAt(h, list, at.parent);
      var l, above := from[..at.index] + from[at.index + 1..], from[at.index - 1];
      && above in h && at.parent != Some(above)
      && var h' := h[above := Under(h[above], t, under)];
         Shows(Put(h', at.parent, l), if at.parent.None? then l else list, Indent(f, t, under))
  {
    FoundAt(h, list, f, t, at);
    var level, from := LevelAt(f, at.parent), ListAt(h, list, at.parent);
    if at.index == 0 { FirstStays(h, from, level); } else { IndentShown(h, from, level, at.index, under); }
    if at.index > 0 { ShownIds(h, from, level, at.index - 1); }
    if at.parent.Some? {
      IndentInside(f, at.parent.value, t, under);
      IndentKeepsRows(level, t, under);
      if at.index > 0 {
        var above := from[at.index - 1];
        PutShown(h, h[above := Under(h[above], t, under)], list, f, at.parent.value,
          from[..at.index] + from[at.index + 1..], Indent(level, t, under));
      }
    }
  }

  lemma {:induction false} AboveShown<R, D>(h: map<R, State<R, D>>, list: seq<R>, f: Forest<R, D>, i: nat)
    requires Shows(h, list, f) && Distinct(f) && 0 < i < |list|
    ensures list[i - 1] in h && list[i] in h
    ensures Above(f, list[i]) == Some(Neighbour(h[list[i - 1]].data,
                                                h[list[i - 1]].items.Some? && |h[list[i - 1]].items.value| > 0,
                                                h[list[i]].data))
    decreases f
  {
    ShownIds(h, list[1..], f.next, i - 1);
    if i > 1 {
      AboveShown(h, list[1..], f.next, i - 1);
      Elsewhere(f.kids, list[i], d => d, false);
      ShownIds(h, list[1..][1..], f.next.next, i - 2);
    }
  }

  lemma {:induction false} AboveAt<R, D>(h: map<R, State<R, D>>, list: seq<R>, f: Forest<R, D>, t: R, at: Place<R>)
    requires Found(h, list, f, t, at)
    ensures AtLevel(f, t) <==> at.parent.None?
    ensures at.index == 0 <==> Above(f, t).None?
    ensures at.index > 0 ==>
      var above := ListAt(h, list, at.parent)[at.index - 1];
      && above in h && t in h
      && Above(f, t) == Some(Neighbour(h[above].data, h[above].items.Some? && |h[above].items.value| > 0, h[t].data))
  {
    FoundAt(h, list, f, t, at);
    var level, from := LevelAt(f, at.parent), ListAt(h, list, at.parent);
    if at.index == 0 { FirstStays(h, from, level); } else { AboveShown(h, from, level, at.index); }
    if at.parent.Some? {
      IndentInside(f, at.parent.value, t, d => d);
      NotAtHeld(f, at.parent.value, t);
    }
  }

  lemma {:induction false} KidsWithin<R, D>(f: Forest<R, D>, u: R, p: R)
    requires Distinct(f) && p in Ids(KidsOf(f, u))
    ensures KidsOf(f, p) == KidsOf(KidsOf(f, u), p)
  {
    KidsAreIn(f.kids, u);
    KidsAreIn(f.next, u);
    if f.id == u {
      SetKidsElsewhere(f.next, p, End);
    } else if KidsOf(f.kids, u).Row? {
      SetKidsElsewhere(f.next, p, End);
      KidsWithin(f.kids, u, p);
    } else {
      SetKidsElsewhere(f.kids, p, End);
      KidsWithin(f.next, u, p);
    }
  }

  /** A row under none stays where it is. */
  lemma {:induction false} TopStays<R, D>(f: Forest<R, D>, t: R, drop: bool)
    requires Distinct(f) && AtLevel(f, t)
    ensures Outdent(f, t, drop) == f
  {
    if f.id == t {
      NotAtLevel(f.kids, t);
      Elsewhere(f.kids, t, d => d, drop);
      Elsewhere(f.next, t, d => d, drop);
    } else {
      AtLevelIsIn(f.next, t);
      NotAtLevel(f.kids, t);
      Elsewhere(f.kids, t, d => d, drop);
      TopStays(f.next, t, drop);
    }
  }

  /** The row a row is under, in the list it is itself in. */
  lemma {:induction false} ParentAt<R, D>(h: map<R, State<R, D>>, list: seq<R>, f: Forest<R, D>, t: R, at: Place<R>)
    requires Found(h, list, f, t, at) && at.parent.Some?
    ensures !AtLevel(f, t)
    ensures at.upper.Some? ==> at.upper.value in h && h[at.upper.value].items.Some? && KidsOf(f, at.upper.value).Row?
    ensures var level := LevelAt(f, at.upper);
            && Shows(h, ListAt(h, list, at.upper), level) && Distinct(level) && AtLevel(level, at.parent.value)
            && at.parent.value in Ids(level) && KidsOf(level, at.parent.value) == KidsOf(f, at.parent.value)
            && (at.upper.Some? ==> at.upper.value !in Ids(level))
    ensures at.parent.value in ListAt(h, list, at.upper)
  {
    var p := at.parent.value;
    var level := LevelAt(f, at.upper);
    FoundAt(h, list, f, t, at);
    NotAtHeld(f, p, t);
    AtLevelIsIn(level, p);
    if at.upper.Some? {
      KidsShown(h, list, f, at.upper.value);
      KidsAreIn(f, at.upper.value);
      KidsWithin(f, at.upper.value, p);
    }
    if p !in ListAt(h, list, at.upper) { NotOnList(h, ListAt(h, list, at.upper), level, p); }
  }

  lemma {:induction false} OutdentAt<R, D>(
    h: map<R, State<R, D>>, list: seq<R>, f: Forest<R, D>, t: R, at: Place<R>, j: nat, drop: bool)
    requires Found(h, list, f, t, at) && at.parent.Some?
    requires at.upper.Some? ==> at.upper.value in h && h[at.upper.value].items.Some?
    requires j < |ListAt(h, list, at.upper)| && ListAt(h, list, at.upper)[j] == at.parent.value
    ensures var p, from := at.parent.value, ListAt(h, list, at.upper);
            && p in h && h[p].items.Some? && at.index < |h[p].items.value| && at.upper != Some(p)
            && var l := from[..j + 1] + [t] + from[j + 1..];
               var h' := h[p := Left(h[p], at.index, drop)];
               Shows(Put(h', at.upper, l), if at.upper.None? then l else list, Outdent(f, t, drop))
  {
    var p, from, level := at.parent.value, ListAt(h, list, at.upper), LevelAt(f, at.upper);
    FoundAt(h, list, f, t, at);
    ParentAt(h, list, f, t, at);
    OutdentShown(h, from, level, j, at.index, drop);
    if at.upper.Some? {
      KidsAreIn(level, p);
      NotAtHeld(level, p, t);
      OutdentInside(f, at.upper.value, t, drop);
      OutdentKeepsRows(level, t, drop);
      PutShown(h, h[p := Left(h[p], at.index, drop)], list, f, at.upper.value, from[..j + 1] + [t] + from[j + 1..],
        Outdent(level, t, drop));
    }
  }

  /** A tree of rows being edited. */
  class Tree<D> {
    var rows: seq<Entry<D>>
    ghost var forest: Forest<Entry<D>, D>
    ghost var members: set<Entry<D>>

    ghost predicate Valid()
      reads this, members
    {
      members == Ids(forest) && Distinct(forest) && Shows(Snapshot(members), rows, forest)
    }

    constructor (rows: seq<Entry<D>>, ghost forest: Forest<Entry<D>, D>)
      requires Distinct(forest) && Shows(Snapshot(Ids(forest)), rows, forest)
      ensures Valid() && this.rows == rows && this.forest == forest
    {
      this.rows := rows;
      this.forest := forest;
      members := Ids(forest);
    }

    method Where(target: Entry<D>) returns (at: Option<Place<Entry<D>>>)
      requires Valid()
      ensures at.None? <==> target !in Ids(forest)
      ensures at.Some? ==> Found(Snapshot(members), rows, forest, target, at.value)
    {
      at := Locate(rows, target, None, None, forest, Snapshot(members));
    }

    method CanMoveUp(target: Entry<D>) returns (can: bool)
      requires Valid()
      ensures can <==> Up(forest, target) != forest
    {
      var at := Where(target);
      if at.None? {
        Elsewhere(forest, target, d => d, false);
        return false;
      }
      UpAt(Snapshot(members), rows, forest, target, at.value);
      return at.value.index > 0;
    }

    /** One list spliced in place : the one at the top, or a row's. */
    method PutList(parent: Option<Entry<D>>, list: seq<Entry<D>>)
      requires parent.Some? ==> parent.value in members
      modifies this, members
      ensures forest == old(forest) && members == old(members)
      ensures Snapshot(members) == Put(old(Snapshot(members)), parent, list)
      ensures rows == if parent.None? then list else old(rows)
    {
      if parent.None? {
        rows := list;
      } else {
        parent.value.items := Some(list);
      }
    }

    method ListOf(parent: Option<Entry<D>>) returns (list: seq<Entry<D>>)
      requires parent.Some? ==> parent.value in members && parent.value.items.Some?
      ensures list == ListAt(Snapshot(members), rows, parent)
    {
      list := if parent.None? then rows else parent.value.items.value;
    }

    method MoveUp(target: Entry<D>) returns (moved: bool)
      requires Valid()
      modifies this, members
      ensures Valid() && members == old(members) && forest == Up(old(forest), target)
      ensures (moved <==> forest != old(forest))
    {
      hide Shows, Distinct, IsAt, OnList, Up, Spliced;
      var can := CanMoveUp(target);
      if !can {
        return false;
      }
      var at := Where(target);
      if at.None? { Elsewhere(forest, target, d => d, false); }
      UpAt(Snapshot(members), rows, forest, target, at.value);
      UpKeepsRows(forest, target);
      var list := ListOf(at.value.parent);
      PutList(at.value.parent, Spliced(list, at.value.index, at.value.index - 1));
      forest := Up(forest, target);
      return true;
    }

    method CanMoveDown(target: Entry<D>) returns (can: bool)
      requires Valid()
      ensures can <==> Down(forest, target) != forest
    {
      var at := Where(target);
      if at.None? {
        Elsewhere(forest, target, d => d, false);
        return false;
      }
      DownAt(Snapshot(members), rows, forest, target, at.value);
      var list := ListOf(at.value.parent);
      return at.value.index < |list| - 1;
    }

    method MoveDown(target: Entry<D>) returns (moved: bool)
      requires Valid()
      modifies this, members
      ensures Valid() && members == old(members) && forest == Down(old(forest), target)
      ensures (moved <==> forest != old(forest))
    {
      hide Shows, Distinct, IsAt, OnList, Down, Spliced;
      var can := CanMoveDown(target);
      if !can {
        return false;
      }
      var at := Where(target);
      if at.None? { Elsewhere(forest, target, d => d, false); }
      DownAt(Snapshot(members), rows, forest, target, at.value);
      DownKeepsRows(forest, target);
      var list := ListOf(at.value.parent);
      PutList(at.value.parent, Spliced(list, at.value.index, at.value.index + 1));
      forest := Down(forest, target);
      return true;
    }

    /** The row above in the same list, none for the first. */
    method AboveOf(target: Entry<D>) returns (above: Option<Entry<D>>, top: bool)
      requires Valid()
      ensures above.Some? <==> RowTree.Above(forest, target).Some?
      ensures above.Some? ==> var n := RowTree.Above(forest, target).value;
              above.value in members && target in members && above.value.data == n.above && target.data == n.own
              && (n.holds <==> above.value.items.Some? && |above.value.items.value| > 0)
      ensures target in members ==> (top <==> AtLevel(forest, target))
    {
      var at := Where(target);
      if at.None? {
        Elsewhere(forest, target, d => d, false);
        return None, false;
      }
      top := at.value.parent.None?;
      AboveAt(Snapshot(members), rows, forest, target, at.value);
      if at.value.index == 0 {
        return None, top;
      }
      var list := ListOf(at.value.parent);
      above := Some(list[at.value.index - 1]);
    }

    /** A row takes another as the last of its own. */
    method Adopt(above: Entry<D>, target: Entry<D>, under: D -> D)
      requires above in members
      modifies above
      ensures Snapshot(members) == (var h := old(Snapshot(members)); h[above := Under(h[above], target, under)])
    {
      above.items := Some((match above.items case None => [] case Some(items) => items) + [target]);
      above.data := under(above.data);
    }

    /** Under the row above, which then says `under` of what it said. */
    method PutUnder(target: Entry<D>, under: D -> D)
      requires Valid() && RowTree.Above(forest, target).Some?
      modifies this, members
      ensures Valid() && members == old(members) && forest == Indent(old(forest), target, under)
    {
      hide Shows, Distinct, IsAt, OnList, Indent, RowTree.Above, Under, Put, Found;
      var at := Where(target);
      if at.None? { Elsewhere(forest, target, under, false); }
      ghost var h := Snapshot(members);
      IndentAt(h, rows, forest, target, at.value, under);
      IndentKeepsRows(forest, target, under);
      var list := ListOf(at.value.parent);
      var above := list[at.value.index - 1];
      var left := list[..at.value.index] + list[at.value.index + 1..];
      PutList(at.value.parent, left);
      Adopt(above, target, under);
      PutApart(h, at.value.parent, left, above, Under(h[above], target, under));
      forest := Indent(forest, target, under);
    }

    method CanOutdent(target: Entry<D>) returns (can: bool)
      requires Valid()
      ensures can <==> target in members && !AtLevel(forest, target)
    {
      var at := Where(target);
      if at.None? {
        return false;
      }
      AboveAt(Snapshot(members), rows, forest, target, at.value);
      return at.value.parent.Some?;
    }

    /** A row gives up one of its own ; a list left empty goes, when it is dropped. */
    method Release(parent: Entry<D>, i: nat, drop: bool)
      requires parent in members && parent.items.Some? && i < |parent.items.value|
      modifies parent
      ensures Snapshot(members) == (var h := old(Snapshot(members)); h[parent := Left(h[parent], i, drop)])
    {
      parent.items := Some(parent.items.value[..i] + parent.items.value[i + 1..]);
      if drop && |parent.items.value| == 0 {
        parent.items := None;
      }
    }

    /** Both splices, the list the row leaves and the one it goes to. */
    method SpliceOut(target: Entry<D>, at: Place<Entry<D>>, drop: bool)
      requires Valid() && Found(Snapshot(members), rows, forest, target, at) && at.parent.Some?
      modifies this, members
      ensures Valid() && members == old(members) && forest == Outdent(old(forest), target, drop)
    {
      hide Shows, Distinct, IsAt, OnList, Outdent, Left, AtLevel, Put;
      ghost var h := Snapshot(members);
      ParentAt(h, rows, forest, target, at);
      OutdentKeepsRows(forest, target, drop);
      var parent := at.parent.value;
      var list := ListOf(at.upper);
      var j := PositionOf(list, parent).value;
      OutdentAt(h, rows, forest, target, at, j, drop);
      var next := list[..j + 1] + [target] + list[j + 1..];
      PutApart(h, at.upper, next, parent, Left(h[parent], at.index, drop));
      PutList(at.upper, next);
      Release(parent, at.index, drop);
      forest := Outdent(forest, target, drop);
    }

    /** Out of the row it is under, right after that row. */
    method TakeOut(target: Entry<D>, drop: bool) returns (moved: bool)
      requires Valid()
      modifies this, members
      ensures Valid() && members == old(members) && forest == Outdent(old(forest), target, drop)
      ensures moved <==> target in members && !AtLevel(old(forest), target)
    {
      var can := CanOutdent(target);
      if !can {
        if target in members { TopStays(forest, target, drop); } else { Elsewhere(forest, target, d => d, drop); }
        return false;
      }
      var at := Where(target);
      AboveAt(Snapshot(members), rows, forest, target, at.value);
      SpliceOut(target, at.value, drop);
      return true;
    }
  }
}
