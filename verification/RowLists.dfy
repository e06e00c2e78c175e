/** What a move does to each list of rows : the tree as its lists, one under each row and one at the top. */
module RowLists {
  import opened Wrappers
  import opened RowTree
  import RowMoves

  // ─── a tree as its lists ─────────────────────────────────────────────────────

  /** The rows of this very list. */
  ghost function Heads<R, D>(f: Forest<R, D>): seq<R> {
    if f.End? then [] else [f.id] + Heads(f.next)
  }

  /** The rows a row holds, none when it is not in the tree. */
  ghost function HeldBy<R, D>(f: Forest<R, D>, p: R): seq<R> {
    if f.End? then []
    else if f.id == p then Heads(f.kids)
    else if p in Ids(f.kids) then HeldBy(f.kids, p)
    else HeldBy(f.next, p)
  }

  /** The list under a row, or the one at the top. */
  ghost function ListIn<R, D>(f: Forest<R, D>, p: Option<R>): seq<R> {
    match p
    case None => Heads(f)
    case Some(r) => HeldBy(f, r)
  }

  /** What a row says, and whether it has a list, maybe empty. */
  datatype Told<D> = Told(data: D, listed: bool)

  ghost function ToldBy<R, D>(f: Forest<R, D>, r: R): Option<Told<D>> {
    if f.End? then None
    else if f.id == r then Some(Told(f.data, f.listed))
    else if r in Ids(f.kids) then ToldBy(f.kids, r)
    else ToldBy(f.next, r)
  }

  lemma {:induction false} HeadsAreIn<R, D>(f: Forest<R, D>, t: R)
    ensures t in Heads(f) ==> t in Ids(f)
    ensures t in Heads(f) <==> AtLevel(f, t)
  {
    if f.Row? { HeadsAreIn(f.next, t); }
  }

  lemma {:induction false} HeldAreIn<R, D>(f: Forest<R, D>, p: R, t: R)
    ensures t in HeldBy(f, p) ==> t in Ids(f)
    ensures p !in Ids(f) ==> HeldBy(f, p) == [] && ToldBy(f, p) == None
    ensures p in Ids(f) ==> ToldBy(f, p).Some?
  {
    if f.Row? {
      HeadsAreIn(f.kids, t);
      HeldAreIn(f.kids, p, t);
      HeldAreIn(f.next, p, t);
    }
  }

  lemma {:induction false} ListIsIn<R, D>(f: Forest<R, D>, p: Option<R>, t: R)
    ensures t in ListIn(f, p) ==> t in Ids(f)
  {
    match p
    case None => HeadsAreIn(f, t);
    case Some(r) => HeldAreIn(f, r, t);
  }

  // ─── one place up, one place down ────────────────────────────────────────────

  /** The row goes before the one that was before it, if there was one. */
  ghost predicate OneUp<R(!new)>(before: seq<R>, after: seq<R>, t: R) {
    if exists i :: 0 < i < |before| && before[i] == t
    then exists i :: 0 < i < |before| && before[i] == t
                     && after == before[..i - 1] + [t, before[i - 1]] + before[i + 1..]
    else after == before
  }

  ghost predicate OneDown<R(!new)>(before: seq<R>, after: seq<R>, t: R) {
    if exists i :: 0 <= i < |before| - 1 && before[i] == t
    then exists i :: 0 <= i < |before| - 1 && before[i] == t
                     && after == before[..i] + [before[i + 1], t] + before[i + 2..]
    else after == before
  }

  lemma Shifted<R>(a: R, list: seq<R>, i: nat, j: nat, two: seq<R>)
    requires i <= j <= |list|
    ensures var all := [a] + list; [a] + (list[..i] + two + list[j..]) == all[..i + 1] + two + all[j + 1..]
  {
    var all := [a] + list;
    assert all[..i + 1] == [a] + list[..i] && all[j + 1..] == list[j..];
  }

  lemma IsOneUp<R(!new)>(before: seq<R>, after: seq<R>, t: R, i: nat)
    requires 0 < i < |before| && before[i] == t
    requires after == before[..i - 1] + [t, before[i - 1]] + before[i + 1..]
    ensures OneUp(before, after, t)
  {
  }

  lemma IsOneDown<R(!new)>(before: seq<R>, after: seq<R>, t: R, i: nat)
    requires i < |before| - 1 && before[i] == t && after == before[..i] + [before[i + 1], t] + before[i + 2..]
    ensures OneDown(before, after, t)
  {
  }

  lemma OneUpBehind<R(!new)>(a: R, before: seq<R>, after: seq<R>, t: R)
    requires OneUp(before, after, t) && (before != [] ==> before[0] != t)
    ensures OneUp([a] + before, [a] + after, t)
  {
    var all := [a] + before;
    if i :| 0 < i < |before| && before[i] == t && after == before[..i - 1] + [t, before[i - 1]] + before[i + 1..] {
      Shifted(a, before, i - 1, i + 1, [t, before[i - 1]]);
      IsOneUp(all, [a] + after, t, i + 1);
    } else {
      forall i | 0 < i < |all| ensures all[i] != t {
        assert all[i] == before[i - 1];
      }
    }
  }

  lemma OneDownBehind<R(!new)>(a: R, before: seq<R>, after: seq<R>, t: R)
    requires OneDown(before, after, t) && (a == t ==> before == [])
    ensures OneDown([a] + before, [a] + after, t)
  {
    var all := [a] + before;
    if i :| 0 <= i < |before| - 1 && before[i] == t && after == before[..i] + [before[i + 1], t] + before[i + 2..] {
      Shifted(a, before, i, i + 2, [before[i + 1], t]);
      IsOneDown(all, [a] + after, t, i + 1);
    } else {
      forall i | 0 <= i < |all| - 1 ensures all[i] != t {
        assert i > 0 ==> all[i] == before[i - 1];
      }
    }
  }

  lemma {:induction false} UpHeads<R(!new), D>(f: Forest<R, D>, t: R)
    requires Distinct(f)
    ensures OneUp(Heads(f), Heads(Up(f, t)), t)
  {
    if f.Row? {
      if IsFirst(f.next, t) {
        var l := Heads(f);
        assert Heads(f.next) == [t] + Heads(f.next.next);
        assert l[1] == t && l == [f.id, t] + Heads(f.next.next);
        assert Heads(Up(f, t)) == l[..0] + [t, l[0]] + l[2..];
      } else {
        UpHeads(f.next, t);
        OneUpBehind(f.id, Heads(f.next), Heads(Up(f.next, t)), t);
      }
    }
  }

  lemma {:induction false} DownHeads<R(!new), D>(f: Forest<R, D>, t: R)
    requires Distinct(f)
    ensures OneDown(Heads(f), Heads(Down(f, t)), t)
  {
    if f.Row? {
      if f.id == t && f.next.Row? {
        var l := Heads(f);
        assert Heads(f.next) == [f.next.id] + Heads(f.next.next);
        assert l[0] == t && l == [t, f.next.id] + Heads(f.next.next);
        assert Heads(Down(f, t)) == l[..0] + [l[1], t] + l[2..];
      } else {
        DownHeads(f.next, t);
        OneDownBehind(f.id, Heads(f.next), Heads(Down(f.next, t)), t);
      }
    }
  }

  lemma NotIn<R(!new)>(list: seq<R>, t: R)
    requires t !in list
    ensures OneUp(list, list, t) && OneDown(list, list, t)
  {
  }

  lemma {:induction false} UpHeld<R(!new), D>(f: Forest<R, D>, t: R, p: R)
    requires Distinct(f)
    ensures OneUp(HeldBy(f, p), HeldBy(Up(f, t), p), t) && ToldBy(Up(f, t), p) == ToldBy(f, p)
  {
    hide OneUp;
    HeldAreIn(f, p, t);
    UpKeepsRows(f, t);
    HeldAreIn(Up(f, t), p, t);
    if p !in Ids(f) {
      NotIn([], t);
    } else if IsFirst(f.next, t) {
      HeadsAreIn(f.kids, t);
      HeadsAreIn(f.next.kids, t);
      HeldAreIn(f.kids, p, t);
      HeldAreIn(f.next.kids, p, t);
      HeldAreIn(f.next.next, p, t);
      assert t !in HeldBy(f.next, p) by {
        if p == f.next.id { } else if p in Ids(f.next.kids) { } else { }
      }
      NotIn(HeldBy(f, p), t);
    } else {
      UpKeepsRows(f.kids, t);
      UpKeepsRows(f.next, t);
      UpHeads(f.kids, t);
      UpHeld(f.kids, t, p);
      UpHeld(f.next, t, p);
    }
  }

  lemma {:induction false} DownHeld<R(!new), D>(f: Forest<R, D>, t: R, p: R)
    requires Distinct(f)
    ensures OneDown(HeldBy(f, p), HeldBy(Down(f, t), p), t) && ToldBy(Down(f, t), p) == ToldBy(f, p)
  {
    hide OneDown;
    HeldAreIn(f, p, t);
    DownKeepsRows(f, t);
    HeldAreIn(Down(f, t), p, t);
    if p !in Ids(f) {
      NotIn([], t);
    } else if f.id == t && f.next.Row? {
      HeadsAreIn(f.kids, t);
      HeadsAreIn(f.next.kids, t);
      HeldAreIn(f.kids, p, t);
      HeldAreIn(f.next.kids, p, t);
      HeldAreIn(f.next.next, p, t);
      assert t !in HeldBy(f.next, p) by {
        if p == f.next.id { } else if p in Ids(f.next.kids) { } else { }
      }
      NotIn(HeldBy(f, p), t);
    } else {
      DownKeepsRows(f.kids, t);
      DownKeepsRows(f.next, t);
      DownHeads(f.kids, t);
      DownHeld(f.kids, t, p);
      DownHeld(f.next, t, p);
    }
  }

  /** One place up : in the list the row is in it goes before the one before it ; every other list stays. */
  lemma {:induction false} UpLists<R(!new), D>(f: Forest<R, D>, t: R, p: Option<R>, r: R)
    requires Distinct(f)
    ensures OneUp(ListIn(f, p), ListIn(Up(f, t), p), t) && ToldBy(Up(f, t), r) == ToldBy(f, r)
  {
    UpHeads(f, t);
    UpHeld(f, t, r);
    if p.Some? { UpHeld(f, t, p.value); }
  }

  lemma {:induction false} DownLists<R(!new), D>(f: Forest<R, D>, t: R, p: Option<R>, r: R)
    requires Distinct(f)
    ensures OneDown(ListIn(f, p), ListIn(Down(f, t), p), t) && ToldBy(Down(f, t), r) == ToldBy(f, r)
  {
    DownHeads(f, t);
    DownHeld(f, t, r);
    if p.Some? { DownHeld(f, t, p.value); }
  }

  // ─── under the row above ─────────────────────────────────────────────────────

  lemma {:induction false} JoinHeads<R(!new), D>(f: Forest<R, D>, g: Forest<R, D>)
    ensures Heads(Join(f, g)) == Heads(f) + Heads(g)
  {
    if f.Row? { JoinHeads(f.next, g); }
  }

  lemma {:induction false} JoinHeld<R(!new), D>(f: Forest<R, D>, g: Forest<R, D>, p: R)
    requires Distinct(f) && Distinct(g) && Ids(f) !! Ids(g)
    ensures HeldBy(Join(f, g), p) == if p in Ids(f) then HeldBy(f, p) else HeldBy(g, p)
    ensures ToldBy(Join(f, g), p) == if p in Ids(f) then ToldBy(f, p) else ToldBy(g, p)
  {
    if f.Row? {
      JoinIds(f.next, g);
      JoinHeld(f.next, g, p);
    }
  }

  lemma {:induction false} OwnRow<R(!new), D>(row: Forest<R, D>, q: R)
    requires row.Row? && Distinct(row)
    ensures var own := row.(next := End);
            && Distinct(own) && Ids(row) == Ids(own) + Ids(row.next) && Ids(own) !! Ids(row.next)
            && HeldBy(row, q) == (if q in Ids(own) then HeldBy(own, q) else HeldBy(row.next, q))
            && ToldBy(row, q) == (if q in Ids(own) then ToldBy(own, q) else ToldBy(row.next, q))
  {
    var own := row.(next := End);
    assert Ids(own) == {row.id} + Ids(row.kids) + Ids<R, D>(End);
    HeldAreIn(row.kids, q, q);
  }

  /** The list and the place there of a row that has one above it. */
  ghost function PlaceOf<R(!new), D>(f: Forest<R, D>, t: R): (Option<R>, nat)
    requires Above(f, t).Some?
  {
    if IsFirst(f.next, t) then (None, 1)
    else if Above(f.kids, t).Some? then
      var (p, i) := PlaceOf(f.kids, t);
      (if p == None then Some(f.id) else p, i)
    else
      var (p, i) := PlaceOf(f.next, t);
      (p, if p == None then i + 1 else i)
  }

  lemma {:induction false} PlaceIs<R(!new), D>(f: Forest<R, D>, t: R)
    requires Distinct(f) && Above(f, t).Some?
    ensures var (p, i) := PlaceOf(f, t);
            && 0 < i < |ListIn(f, p)| && ListIn(f, p)[i] == t && (p.Some? ==> p.value in Ids(f) && p.value != t)
            && ListIn(f, p)[i - 1] in Ids(f) && t in Ids(f) && p != Some(ListIn(f, p)[i - 1])
  {
    AboveIsIn(f, t);
    var (p, i) := PlaceOf(f, t);
    if IsFirst(f.next, t) {
      assert Heads(f.next) == [t] + Heads(f.next.next) && Heads(f)[0] == f.id;
    } else if Above(f.kids, t).Some? {
      PlaceIs(f.kids, t);
    } else {
      AboveIsIn(f.next, t);
      PlaceIs(f.next, t);
    }
  }

  /** The row above. */
  ghost function RowAbove<R(!new), D>(f: Forest<R, D>, t: R): (u: R)
    requires Distinct(f) && Above(f, t).Some?
    ensures u in Ids(f)
  {
    PlaceIs(f, t);
    var (p, i) := PlaceOf(f, t);
    ListIn(f, p)[i - 1]
  }

  lemma {:induction false} RowAboveIs<R(!new), D>(f: Forest<R, D>, t: R)
    requires Distinct(f) && Above(f, t).Some?
    ensures IsFirst(f.next, t) ==> RowAbove(f, t) == f.id
    ensures !IsFirst(f.next, t) && Above(f.kids, t).Some? ==> RowAbove(f, t) == RowAbove(f.kids, t)
    ensures !IsFirst(f.next, t) && !Above(f.kids, t).Some? ==>
      Above(f.next, t).Some? && RowAbove(f, t) == RowAbove(f.next, t)
  {
    PlaceIs(f, t);
    if IsFirst(f.next, t) {
    } else if Above(f.kids, t).Some? {
      PlaceIs(f.kids, t);
    } else {
      PlaceIs(f.next, t);
    }
  }

  /** The list without the row at a place. */
  function Cut<R>(list: seq<R>, i: nat): seq<R> {
    if i < |list| then list[..i] + list[i + 1..] else list
  }

  lemma {:induction false} IndentHeads<R(!new), D>(f: Forest<R, D>, t: R, under: D -> D)
    requires Distinct(f) && Above(f, t).Some?
    ensures Heads(Indent(f, t, under)) ==
            if PlaceOf(f, t).0 == None then Cut(Heads(f), PlaceOf(f, t).1) else Heads(f)
    decreases f, 1
  {
    AboveIsIn(f, t);
    if IsFirst(f.next, t) {
      assert Heads(f.next) == [t] + Heads(f.next.next) && Heads(f) == [f.id, t] + Heads(f.next.next);
    } else if Above(f.kids, t).Some? {
      AboveIsIn(f.kids, t);
      Elsewhere(f.next, t, under, false);
    } else {
      IndentHeadsAfter(f, t, under);
    }
  }

  lemma CutBehind<R>(a: R, list: seq<R>, i: nat)
    ensures Cut([a] + list, i + 1) == [a] + Cut(list, i)
  {
    var all := [a] + list;
    assert i < |list| ==> all[..i + 1] == [a] + list[..i] && all[i + 2..] == list[i + 1..];
  }

  lemma {:induction false} IndentHeadsAfter<R(!new), D>(f: Forest<R, D>, t: R, under: D -> D)
    requires Distinct(f) && f.Row? && !IsFirst(f.next, t) && Above(f.kids, t).None? && Above(f.next, t).Some?
    ensures Heads(Indent(f, t, under)) ==
            if PlaceOf(f, t).0 == None then Cut(Heads(f), PlaceOf(f, t).1) else Heads(f)
    decreases f, 0
  {
    hide Cut;
    AboveIsIn(f.next, t);
    Elsewhere(f.kids, t, under, false);
    IndentHeads(f.next, t, under);
    CutBehind(f.id, Heads(f.next), PlaceOf(f.next, t).1);
  }

  lemma {:induction false} IndentHereHeld<R(!new), D>(f: Forest<R, D>, t: R, under: D -> D, q: R)
    requires Distinct(f) && f.Row? && IsFirst(f.next, t)
    ensures var g := Indent(f, t, under);
            && HeldBy(g, q) == HeldBy(f, q) + (if q == f.id then [t] else [])
            && ToldBy(g, q) == (if q == f.id then Some(Told(under(f.data), true)) else ToldBy(f, q))
  {
    var own := f.next.(next := End);
    OwnRow(f.next, q);
    JoinIds(f.kids, own);
    JoinHeads(f.kids, own);
    JoinHeld(f.kids, own, q);
    assert Heads(own) == [t];
    assert HeldBy(f, q) + [] == HeldBy(f, q);
  }

  lemma {:induction false} IndentHeld<R(!new), D>(f: Forest<R, D>, t: R, under: D -> D, q: R)
    requires Distinct(f) && Above(f, t).Some?
    ensures HeldBy(Indent(f, t, under), q) ==
            if PlaceOf(f, t).0 == Some(q) then Cut(HeldBy(f, q), PlaceOf(f, t).1)
            else HeldBy(f, q) + if q == RowAbove(f, t) then [t] else []
    ensures ToldBy(f, RowAbove(f, t)).Some?
    ensures ToldBy(Indent(f, t, under), q) ==
            if q == RowAbove(f, t) then Some(Told(under(ToldBy(f, q).value.data), true)) else ToldBy(f, q)
    decreases f, 1
  {
    AboveIsIn(f, t);
    RowAboveIs(f, t);
    if IsFirst(f.next, t) {
      IndentHereHeld(f, t, under, q);
    } else if Above(f.kids, t).Some? {
      IndentHeldInside(f, t, under, q);
    } else {
      IndentHeldAfter(f, t, under, q);
    }
  }

  lemma {:induction false} IndentHeldInside<R(!new), D>(f: Forest<R, D>, t: R, under: D -> D, q: R)
    requires Distinct(f) && f.Row? && !IsFirst(f.next, t) && Above(f.kids, t).Some?
    ensures HeldBy(Indent(f, t, under), q) ==
            if PlaceOf(f, t).0 == Some(q) then Cut(HeldBy(f, q), PlaceOf(f, t).1)
            else HeldBy(f, q) + if q == RowAbove(f, t) then [t] else []
    ensures ToldBy(f, RowAbove(f, t)).Some?
    ensures ToldBy(Indent(f, t, under), q) ==
            if q == RowAbove(f, t) then Some(Told(under(ToldBy(f, q).value.data), true)) else ToldBy(f, q)
    decreases f, 0
  {
    hide Heads, RowAbove, Cut;
    AboveIsIn(f.kids, t);
    RowAboveIs(f, t);
    Elsewhere(f.next, t, under, false);
    IndentKeepsRows(f.kids, t, under);
    IndentHeads(f.kids, t, under);
    IndentHeld(f.kids, t, under, q);
    PlaceIs(f.kids, t);
    assert HeldBy(f, q) + [] == HeldBy(f, q);
    assert Indent(f, t, under) == f.(kids := Indent(f.kids, t, under));
  }

  lemma {:induction false} IndentHeldAfter<R(!new), D>(f: Forest<R, D>, t: R, under: D -> D, q: R)
    requires Distinct(f) && f.Row? && !IsFirst(f.next, t) && Above(f.kids, t).None? && Above(f.next, t).Some?
    ensures HeldBy(Indent(f, t, under), q) ==
            if PlaceOf(f, t).0 == Some(q) then Cut(HeldBy(f, q), PlaceOf(f, t).1)
            else HeldBy(f, q) + if q == RowAbove(f, t) then [t] else []
    ensures ToldBy(f, RowAbove(f, t)).Some?
    ensures ToldBy(Indent(f, t, under), q) ==
            if q == RowAbove(f, t) then Some(Told(under(ToldBy(f, q).value.data), true)) else ToldBy(f, q)
    decreases f, 0
  {
    hide Heads, RowAbove, Cut;
    AboveIsIn(f.next, t);
    RowAboveIs(f, t);
    Elsewhere(f.kids, t, under, false);
    IndentKeepsRows(f.next, t, under);
    IndentHeld(f.next, t, under, q);
    PlaceIs(f.next, t);
    assert HeldBy(f, q) + [] == HeldBy(f, q);
    assert Indent(f, t, under) == f.(next := Indent(f.next, t, under));
  }

  /** The row at place `i` of the list under `p` is now the last the row above it holds ; that one says what
      `under` makes of what it said, and every other list and row is as it was. */
  ghost predicate PutUnderAbove<R(!new), D(!new)>(f: Forest<R, D>, g: Forest<R, D>, p: Option<R>, i: nat, under: D -> D)
    requires 0 < i < |ListIn(f, p)|
  {
    var list := ListIn(f, p);
    var above := list[i - 1];
    && ListIn(g, p) == list[..i] + list[i + 1..] && HeldBy(g, above) == HeldBy(f, above) + [list[i]]
    && ToldBy(f, above).Some? && ToldBy(g, above) == Some(Told(under(ToldBy(f, above).value.data), true))
    && (forall q :: q != p && q != Some(above) ==> ListIn(g, q) == ListIn(f, q))
    && (forall r :: r != above ==> ToldBy(g, r) == ToldBy(f, r))
  }

  /** Under the row above : the row leaves its list for the end of the one that row holds. */
  lemma IndentLists<R(!new), D(!new)>(f: Forest<R, D>, t: R, under: D -> D) returns (p: Option<R>, i: nat)
    requires Distinct(f) && Above(f, t).Some?
    ensures 0 < i < |ListIn(f, p)| && ListIn(f, p)[i] == t && PutUnderAbove(f, Indent(f, t, under), p, i, under)
  {
    PlaceIs(f, t);
    var place := PlaceOf(f, t);
    p, i := place.0, place.1;
    var g, above := Indent(f, t, under), RowAbove(f, t);
    hide Indent, Heads, HeldBy, ToldBy, PlaceOf;
    IndentHeads(f, t, under);
    IndentHeld(f, t, under, above);
    if p.Some? { IndentHeld(f, t, under, p.value); }
    forall q | q != p && q != Some(above) ensures ListIn(g, q) == ListIn(f, q) {
      if q.Some? {
        IndentHeld(f, t, under, q.value);
        assert HeldBy(f, q.value) + [] == HeldBy(f, q.value);
      }
    }
    forall r | r != above ensures ToldBy(g, r) == ToldBy(f, r) {
      IndentHeld(f, t, under, r);
    }
  }

  /** What the row above is, and what it says and holds. */
  lemma {:induction false} AboveSays<R(!new), D>(f: Forest<R, D>, t: R)
    requires Distinct(f) && Above(f, t).Some?
    ensures var u := RowAbove(f, t);
            && ToldBy(f, u).Some? && ToldBy(f, t).Some?
            && Above(f, t).value == Neighbour(ToldBy(f, u).value.data, HeldBy(f, u) != [], ToldBy(f, t).value.data)
  {
    AboveIsIn(f, t);
    RowAboveIs(f, t);
    if IsFirst(f.next, t) {
      assert f.kids.Row? ==> Heads(f.kids) != [];
    } else if Above(f.kids, t).Some? {
      AboveIsIn(f.kids, t);
      AboveSays(f.kids, t);
    } else {
      AboveIsIn(f.next, t);
      AboveSays(f.next, t);
    }
  }

  /** A row that has one before it in its list has one above it. */
  lemma {:induction false} PlaceIsAbove<R(!new), D>(f: Forest<R, D>, t: R, p: Option<R>, i: nat)
    requires Distinct(f) && 0 < i < |ListIn(f, p)| && ListIn(f, p)[i] == t
    ensures Above(f, t).Some? && PlaceOf(f, t) == (p, i)
  {
    assert t in ListIn(f, p);
    if p == None {
      PlaceAtTop(f, t, i);
    } else if p.value == f.id {
      PlaceAtTop(f.kids, t, i);
      PlaceInside(f, t);
    } else if p.value in Ids(f.kids) {
      PlaceIsAbove(f.kids, t, p, i);
      PlaceInside(f, t);
    } else {
      PlaceIsAbove(f.next, t, p, i);
      PlaceAfter(f, t);
      if IsFirst(f.next, t) { PlaceIs(f.next, t); }
    }
  }

  lemma {:induction false} PlaceAtTop<R(!new), D>(f: Forest<R, D>, t: R, i: nat)
    requires Distinct(f) && 0 < i < |Heads(f)| && Heads(f)[i] == t
    ensures Above(f, t).Some? && PlaceOf(f, t) == (None, i)
  {
    var n := f.next;
    assert Heads(n)[i - 1] == t;
    if i == 1 {
      assert IsFirst(n, t);
    } else {
      PlaceAtTop(n, t, i - 1);
      AboveIsIn(n, t);
      PlaceAfter(f, t);
    }
  }

  lemma {:induction false} PlaceInside<R(!new), D>(f: Forest<R, D>, t: R)
    requires Distinct(f) && f.Row? && Above(f.kids, t).Some?
    ensures Above(f, t).Some? && PlaceOf(f, t) ==
            (if PlaceOf(f.kids, t).0 == None then Some(f.id) else PlaceOf(f.kids, t).0, PlaceOf(f.kids, t).1)
  {
    AboveIsIn(f.kids, t);
  }

  lemma {:induction false} PlaceAfter<R(!new), D>(f: Forest<R, D>, t: R)
    requires Distinct(f) && f.Row? && Above(f.next, t).Some?
    ensures Above(f, t).Some? && PlaceOf(f, t) ==
            var (p, i) := PlaceOf(f.next, t);
            (p, if p == None then i + 1 else i)
  {
    AboveIsIn(f.next, t);
    if Above(f.kids, t).Some? { AboveIsIn(f.kids, t); }
  }

  // ─── out of the row it is under ──────────────────────────────────────────────

  function Minus<R(==)>(list: seq<R>, t: R): seq<R> {
    if list == [] then [] else if list[0] == t then list[1..] else [list[0]] + Minus(list[1..], t)
  }

  function InsertAfter<R(==)>(list: seq<R>, u: R, t: R): seq<R> {
    if list == [] then [] else if list[0] == u then [u, t] + list[1..] else [list[0]] + InsertAfter(list[1..], u, t)
  }

  /** The row that holds it, and the list that one is in. */
  ghost function ParentOf<R(!new), D>(f: Forest<R, D>, t: R): (R, Option<R>)
    requires t in Ids(f) && !AtLevel(f, t)
  {
    if AtLevel(f.kids, t) then (f.id, None)
    else if t in Ids(f.kids) then
      var (u, q) := ParentOf(f.kids, t);
      (u, if q == None then Some(f.id) else q)
    else ParentOf(f.next, t)
  }

  lemma {:induction false} ParentIs<R(!new), D>(f: Forest<R, D>, t: R)
    requires Distinct(f) && t in Ids(f) && !AtLevel(f, t)
    ensures var (u, q) := ParentOf(f, t);
            u in Ids(f) && t in HeldBy(f, u) && u in ListIn(f, q) && q != Some(u) && (q.Some? ==> q.value in Ids(f))
  {
    if AtLevel(f.kids, t) {
      HeadsAreIn(f.kids, t);
      assert Heads(f)[0] == f.id;
    } else if t in Ids(f.kids) {
      ParentIs(f.kids, t);
    } else {
      ParentIs(f.next, t);
      var (u, q) := ParentOf(f.next, t);
      assert q == None ==> u in Heads(f);
    }
  }

  lemma {:induction false} WithoutHeads<R(!new), D>(f: Forest<R, D>, t: R)
    ensures Heads(Without(f, t)) == Minus(Heads(f), t)
  {
    if f.Row? { WithoutHeads(f.next, t); }
  }

  lemma {:induction false} WithoutHeld<R(!new), D>(f: Forest<R, D>, t: R, q: R)
    requires Distinct(f) && AtLevel(f, t)
    ensures HeldBy(f, q) == if q in Ids(Only(f, t)) then HeldBy(Only(f, t), q) else HeldBy(Without(f, t), q)
    ensures ToldBy(f, q) == if q in Ids(Only(f, t)) then ToldBy(Only(f, t), q) else ToldBy(Without(f, t), q)
  {
    if f.id == t {
      OwnRow(f, q);
    } else {
      WithoutHeld(f.next, t, q);
      WithoutIds(f.next, t);
    }
  }

  lemma {:induction false} OutdentHeads<R(!new), D>(f: Forest<R, D>, t: R, drop: bool)
    requires Distinct(f) && t in Ids(f) && !AtLevel(f, t)
    ensures Heads(Outdent(f, t, drop)) ==
            if ParentOf(f, t).1 == None then InsertAfter(Heads(f), ParentOf(f, t).0, t) else Heads(f)
  {
    if AtLevel(f.kids, t) {
    } else if t in Ids(f.kids) {
      Elsewhere(f.next, t, d => d, drop);
    } else {
      OutdentHeads(f.next, t, drop);
      ParentIs(f.next, t);
    }
  }

  lemma {:induction false} OutdentHereHeld<R(!new), D>(f: Forest<R, D>, t: R, drop: bool, q: R)
    requires Distinct(f) && f.Row? && AtLevel(f.kids, t)
    ensures var g := Outdent(f, t, drop);
            && HeldBy(g, q) == (if q == f.id then Minus(HeldBy(f, q), t) else HeldBy(f, q))
            && ToldBy(g, q) ==
               if q != f.id then ToldBy(f, q)
               else Some(Told(f.data, f.listed && !(drop && Minus(HeldBy(f, q), t) == [])))
  {
    var only := Only(f.kids, t);
    var row := only.(next := f.next);
    WithoutIds(f.kids, t);
    WithoutHeads(f.kids, t);
    WithoutHeld(f.kids, t, q);
    assert Distinct(row) && row.(next := End) == Only(f.kids, t);
    OwnRow(row, q);
    assert Without(f.kids, t).End? <==> Heads(Without(f.kids, t)) == [];
  }

  /** What each list and each row is once the row is out. */
  lemma {:induction false} OutdentHeld<R(!new), D>(f: Forest<R, D>, t: R, drop: bool, q: R)
    requires Distinct(f) && t in Ids(f) && !AtLevel(f, t)
    ensures HeldBy(Outdent(f, t, drop), q) ==
            if q == ParentOf(f, t).0 then Minus(HeldBy(f, q), t)
            else if ParentOf(f, t).1 == Some(q) then InsertAfter(HeldBy(f, q), ParentOf(f, t).0, t)
            else HeldBy(f, q)
    ensures ToldBy(f, ParentOf(f, t).0).Some?
    ensures ToldBy(Outdent(f, t, drop), q) ==
            if q != ParentOf(f, t).0 then ToldBy(f, q)
            else
              var told := ToldBy(f, q).value;
              Some(Told(told.data, told.listed && !(drop && Minus(HeldBy(f, q), t) == [])))
  {
    if AtLevel(f.kids, t) {
      OutdentHereHeld(f, t, drop, q);
    } else if t in Ids(f.kids) {
      Elsewhere(f.next, t, d => d, drop);
      OutdentKeepsRows(f.kids, t, drop);
      OutdentHeads(f.kids, t, drop);
      OutdentHeld(f.kids, t, drop, q);
      ParentIs(f.kids, t);
    } else {
      Elsewhere(f.kids, t, d => d, drop);
      OutdentKeepsRows(f.next, t, drop);
      OutdentHeld(f.next, t, drop, q);
      ParentIs(f.next, t);
    }
  }

  /** The row left the list of `u` for the place right after `u` in the list under `q` ; the list left is gone
      when it is empty and to be dropped, and every other list and row is as it was. */
  ghost predicate PutAfterParent<R(!new), D(!new)>(f: Forest<R, D>, g: Forest<R, D>, t: R, u: R, q: Option<R>,
                                                   drop: bool)
  {
    && HeldBy(g, u) == Minus(HeldBy(f, u), t) && ListIn(g, q) == InsertAfter(ListIn(f, q), u, t)
    && ToldBy(f, u).Some?
    && ToldBy(g, u) == Some(Told(ToldBy(f, u).value.data, ToldBy(f, u).value.listed && !(drop && HeldBy(g, u) == [])))
    && (forall p :: p != q && p != Some(u) ==> ListIn(g, p) == ListIn(f, p))
    && (forall r :: r != u ==> ToldBy(g, r) == ToldBy(f, r))
  }

  /** Out of the row it is under. */
  lemma OutdentLists<R(!new), D(!new)>(f: Forest<R, D>, t: R, drop: bool) returns (u: R, q: Option<R>)
    requires Distinct(f) && t in Ids(f) && !AtLevel(f, t)
    ensures t in HeldBy(f, u) && u in ListIn(f, q) && PutAfterParent(f, Outdent(f, t, drop), t, u, q, drop)
  {
    ParentIs(f, t);
    var at := ParentOf(f, t);
    u, q := at.0, at.1;
    var g := Outdent(f, t, drop);
    hide Outdent, Heads, HeldBy, ToldBy, ParentOf, Minus, InsertAfter;
    OutdentHeads(f, t, drop);
    OutdentHeld(f, t, drop, u);
    if q.Some? { OutdentHeld(f, t, drop, q.value); }
    forall p | p != q && p != Some(u) ensures ListIn(g, p) == ListIn(f, p) {
      if p.Some? { OutdentHeld(f, t, drop, p.value); }
    }
    forall r | r != u ensures ToldBy(g, r) == ToldBy(f, r) {
      OutdentHeld(f, t, drop, r);
    }
  }

  /** A row held by another is not at the top. */
  lemma {:induction false} HeldIsNotHead<R(!new), D>(f: Forest<R, D>, p: R, t: R)
    requires Distinct(f) && t in HeldBy(f, p)
    ensures t !in Heads(f)
  {
    HeadsAreIn(f.next, t);
    HeadsAreIn(f.kids, t);
    HeldAreIn(f.kids, p, t);
    HeldAreIn(f.next, p, t);
    if f.id != p && p !in Ids(f.kids) { HeldIsNotHead(f.next, p, t); }
  }

  // ─── the lists in memory ─────────────────────────────────────────────────────

  /** The lists of the tree that is shown are those in memory, and its rows say what those in memory say. */
  lemma {:induction false} ShownLists<R(!new), D>(h: map<R, RowMoves.State<R, D>>, list: seq<R>, f: Forest<R, D>, r: R)
    requires RowMoves.Shows(h, list, f) && Distinct(f)
    ensures Heads(f) == list
    ensures r in Ids(f) ==>
              && r in h && ToldBy(f, r) == Some(Told(h[r].data, h[r].items.Some?))
              && HeldBy(f, r) == match h[r].items case None => [] case Some(items) => items
    decreases f
  {
    if f.Row? {
      ShownLists(h, list[1..], f.next, r);
      assert list == [list[0]] + list[1..];
      if f.listed {
        ShownLists(h, h[f.id].items.value, f.kids, r);
      }
    }
  }
}
