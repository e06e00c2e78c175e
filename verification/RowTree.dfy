/** Rows in a tree, as the editors of categories and of constants move them : one place up or down
    among their own, under the row above, out of the row they are under. */
module RowTree {
  import opened Wrappers

  /** A list of rows : the first, with the list it holds (`listed` : it has one, maybe empty), and the
      rows after it. `id` : which row it is, whatever it says. */
  datatype Forest<R, D> = End | Row(id: R, data: D, listed: bool, kids: Forest<R, D>, next: Forest<R, D>)

  ghost function Ids<R, D>(f: Forest<R, D>): set<R> {
    match f
    case End => {}
    case Row(id, _, _, kids, next) => {id} + Ids(kids) + Ids(next)
  }

  /** No row is in the tree twice. */
  ghost predicate Distinct<R, D>(f: Forest<R, D>) {
    f.End?
    || (f.id !in Ids(f.kids) && f.id !in Ids(f.next) && Ids(f.kids) !! Ids(f.next)
        && Distinct(f.kids) && Distinct(f.next))
  }

  predicate IsFirst<R(==), D>(f: Forest<R, D>, t: R) {
    f.Row? && f.id == t
  }

  /** The row is in this very list, not in a list of one of its rows. */
  predicate AtLevel<R(==), D>(f: Forest<R, D>, t: R) {
    f.Row? && (f.id == t || AtLevel(f.next, t))
  }

  function Join<R, D>(f: Forest<R, D>, g: Forest<R, D>): Forest<R, D> {
    if f.End? then g else f.(next := Join(f.next, g))
  }

  function Without<R(==), D>(f: Forest<R, D>, t: R): Forest<R, D> {
    if f.End? then End else if f.id == t then f.next else f.(next := Without(f.next, t))
  }

  /** The row alone, with all it holds. */
  function Only<R(==), D>(f: Forest<R, D>, t: R): (row: Forest<R, D>)
    requires AtLevel(f, t)
    ensures row.Row? && row.id == t && row.next.End?
  {
    if f.id == t then f.(next := End) else Only(f.next, t)
  }

  // ─── the four moves ──────────────────────────────────────────────────────────

  function Up<R(==), D>(f: Forest<R, D>, t: R): Forest<R, D> {
    match f
    case End => End
    case Row(id, data, listed, kids, next) =>
      if IsFirst(next, t) then next.(next := f.(next := next.next)) else Row(id, data, listed, Up(kids, t), Up(next, t))
  }

  function Down<R(==), D>(f: Forest<R, D>, t: R): Forest<R, D> {
    match f
    case End => End
    case Row(id, data, listed, kids, next) =>
      if id == t && next.Row? then next.(next := f.(next := next.next))
      else Row(id, data, listed, Down(kids, t), Down(next, t))
  }

  /** Under the row above, last ; `under` : what that row then says. */
  function Indent<R(==), D>(f: Forest<R, D>, t: R, under: D -> D): Forest<R, D> {
    match f
    case End => End
    case Row(id, data, listed, kids, next) =>
      if IsFirst(next, t) then Row(id, under(data), true, Join(kids, next.(next := End)), next.next)
      else Row(id, data, listed, Indent(kids, t, under), Indent(next, t, under))
  }

  /** Right after the row it was under ; `drop` : a list left empty goes. */
  function Outdent<R(==), D>(f: Forest<R, D>, t: R, drop: bool): Forest<R, D> {
    match f
    case End => End
    case Row(id, data, listed, kids, next) =>
      if AtLevel(kids, t) then
        var left := Without(kids, t);
        Row(id, data, listed && !(drop && left.End?), left, Only(kids, t).(next := next))
      else Row(id, data, listed, Outdent(kids, t, drop), Outdent(next, t, drop))
  }

  /** The row above, and whether it holds any. */
  datatype Neighbour<D> = Neighbour(above: D, holds: bool, own: D)

  function Above<R(==), D>(f: Forest<R, D>, t: R): Option<Neighbour<D>> {
    match f
    case End => None
    case Row(_, data, _, kids, next) =>
      if IsFirst(next, t) then Some(Neighbour(data, kids.Row?, next.data))
      else var inside := Above(kids, t); if inside.Some? then inside else Above(next, t)
  }

  // ─── rows the move does not name ─────────────────────────────────────────────

  lemma {:induction false} AtLevelIsIn<R, D>(f: Forest<R, D>, t: R)
    requires AtLevel(f, t)
    ensures t in Ids(f)
  {
    if f.id != t { AtLevelIsIn(f.next, t); }
  }

  lemma {:induction false} Elsewhere<R, D>(f: Forest<R, D>, t: R, under: D -> D, drop: bool)
    requires t !in Ids(f)
    ensures Up(f, t) == f && Down(f, t) == f && Indent(f, t, under) == f && Outdent(f, t, drop) == f
    ensures Above(f, t).None?
  {
    if f.Row? {
      Elsewhere(f.kids, t, under, drop);
      Elsewhere(f.next, t, under, drop);
      if AtLevel(f.kids, t) { AtLevelIsIn(f.kids, t); }
    }
  }

  lemma {:induction false} JoinIds<R, D>(f: Forest<R, D>, g: Forest<R, D>)
    ensures Ids(Join(f, g)) == Ids(f) + Ids(g)
    ensures Distinct(f) && Distinct(g) && Ids(f) !! Ids(g) ==> Distinct(Join(f, g))
  {
    if f.Row? { JoinIds(f.next, g); }
  }

  lemma {:induction false} WithoutIds<R, D>(f: Forest<R, D>, t: R)
    requires Distinct(f) && AtLevel(f, t)
    ensures Ids(f) == Ids(Without(f, t)) + Ids(Only(f, t)) && Ids(Without(f, t)) !! Ids(Only(f, t))
    ensures Distinct(Without(f, t)) && Distinct(Only(f, t))
  {
    if f.id != t { WithoutIds(f.next, t); }
  }

  // ─── every move keeps every row, once ────────────────────────────────────────

  ghost predicate SameRows<R, D>(f: Forest<R, D>, g: Forest<R, D>) {
    Ids(f) == Ids(g) && Distinct(g)
  }

  lemma {:induction false} RowsOf<R, D>(f: Forest<R, D>, kids: Forest<R, D>, next: Forest<R, D>, g: Forest<R, D>)
    requires Distinct(f) && f.Row? && SameRows(f.kids, kids) && SameRows(f.next, next)
    requires g.Row? && g.id == f.id && g.kids == kids && g.next == next
    ensures SameRows(f, g)
  {
  }

  lemma {:induction false} UpKeepsRows<R, D>(f: Forest<R, D>, t: R)
    requires Distinct(f)
    ensures SameRows(f, Up(f, t))
  {
    if f.Row? && !IsFirst(f.next, t) {
      UpKeepsRows(f.kids, t);
      UpKeepsRows(f.next, t);
      RowsOf(f, Up(f.kids, t), Up(f.next, t), Up(f, t));
    }
  }

  lemma {:induction false} DownKeepsRows<R, D>(f: Forest<R, D>, t: R)
    requires Distinct(f)
    ensures SameRows(f, Down(f, t))
  {
    if f.Row? && !(f.id == t && f.next.Row?) {
      DownKeepsRows(f.kids, t);
      DownKeepsRows(f.next, t);
      RowsOf(f, Down(f.kids, t), Down(f.next, t), Down(f, t));
    }
  }

  lemma {:induction false} IndentKeepsRows<R, D>(f: Forest<R, D>, t: R, under: D -> D)
    requires Distinct(f)
    ensures SameRows(f, Indent(f, t, under))
  {
    if f.Row? {
      if IsFirst(f.next, t) {
        var row := f.next;
        var own := row.(next := End);
        assert Ids(own) == {t} + Ids(row.kids) && Ids(row) == Ids(own) + Ids(row.next);
        assert Distinct(row) && Distinct(own);
        JoinIds(f.kids, own);
      } else {
        IndentKeepsRows(f.kids, t, under);
        IndentKeepsRows(f.next, t, under);
        RowsOf(f, Indent(f.kids, t, under), Indent(f.next, t, under), Indent(f, t, under));
      }
    }
  }

  lemma {:induction false} OutdentKeepsRows<R, D>(f: Forest<R, D>, t: R, drop: bool)
    requires Distinct(f)
    ensures SameRows(f, Outdent(f, t, drop))
  {
    if f.Row? {
      if AtLevel(f.kids, t) {
        WithoutIds(f.kids, t);
      } else {
        OutdentKeepsRows(f.kids, t, drop);
        OutdentKeepsRows(f.next, t, drop);
        RowsOf(f, Outdent(f.kids, t, drop), Outdent(f.next, t, drop), Outdent(f, t, drop));
      }
    }
  }

  // ─── the listing ─────────────────────────────────────────────────────────────

  datatype Line<R> = Line(id: R, depth: int)

  /** The rows as the editor lists them, each before those it holds, with how deep it is. */
  function Listing<R, D>(f: Forest<R, D>, depth: int): seq<Line<R>> {
    match f
    case End => []
    case Row(id, _, _, kids, next) => [Line(id, depth)] + Listing(kids, depth + 1) + Listing(next, depth)
  }

  /** The row and all it holds, however deep. */
  ghost function Subtree<R, D>(f: Forest<R, D>, t: R): set<R> {
    match f
    case End => {}
    case Row(id, _, _, kids, next) => if id == t then {t} + Ids(kids) else Subtree(kids, t) + Subtree(next, t)
  }

  /** The same listing with some rows one deeper. */
  ghost function Deeper<R>(lines: seq<Line<R>>, rows: set<R>): seq<Line<R>> {
    seq(|lines|, i requires 0 <= i < |lines| =>
      if lines[i].id in rows then Line(lines[i].id, lines[i].depth + 1) else lines[i])
  }

  lemma DeeperJoins<R>(a: seq<Line<R>>, b: seq<Line<R>>, rows: set<R>)
    ensures Deeper(a + b, rows) == Deeper(a, rows) + Deeper(b, rows)
  {
  }

  lemma DeeperList<R, D>(f: Forest<R, D>, depth: int, rows: set<R>)
    requires f.Row?
    ensures Deeper(Listing(f, depth), rows) ==
            Deeper([Line(f.id, depth)], rows) + Deeper(Listing(f.kids, depth + 1), rows)
              + Deeper(Listing(f.next, depth), rows)
  {
    DeeperJoins([Line(f.id, depth)] + Listing(f.kids, depth + 1), Listing(f.next, depth), rows);
    DeeperJoins([Line(f.id, depth)], Listing(f.kids, depth + 1), rows);
  }

  lemma DeeperOne<R>(id: R, depth: int, rows: set<R>)
    requires id !in rows
    ensures Deeper([Line(id, depth)], rows) == [Line(id, depth)]
  {
  }

  lemma DeeperOwn<R>(id: R, depth: int, rows: set<R>)
    requires id in rows
    ensures Deeper([Line(id, depth)], rows) == [Line(id, depth + 1)]
  {
  }

  lemma {:induction false} ListedIds<R, D>(f: Forest<R, D>, depth: int, rows: set<R>)
    ensures Ids(f) !! rows ==> Deeper(Listing(f, depth), rows) == Listing(f, depth)
    ensures Ids(f) <= rows ==> Deeper(Listing(f, depth), rows) == Listing(f, depth + 1)
  {
    if f.Row? {
      ListedIds(f.kids, depth + 1, rows);
      ListedIds(f.next, depth, rows);
      hide Deeper;
      DeeperList(f, depth, rows);
      if f.id in rows { DeeperOwn(f.id, depth, rows); } else { DeeperOne(f.id, depth, rows); }
    }
  }

  lemma {:induction false} JoinListing<R, D>(f: Forest<R, D>, g: Forest<R, D>, depth: int)
    ensures Listing(Join(f, g), depth) == Listing(f, depth) + Listing(g, depth)
  {
    if f.Row? { JoinListing(f.next, g, depth); }
  }

  lemma {:induction false} SubtreeIsIn<R, D>(f: Forest<R, D>, t: R)
    ensures Subtree(f, t) <= Ids(f)
    ensures t !in Ids(f) ==> Subtree(f, t) == {}
  {
    if f.Row? {
      SubtreeIsIn(f.kids, t);
      SubtreeIsIn(f.next, t);
    }
  }

  /** Indenting keeps the listing's order and puts exactly the row and all it holds one deeper. */
  lemma {:induction false} IndentListing<R, D>(f: Forest<R, D>, t: R, under: D -> D, depth: int)
    requires Distinct(f) && Above(f, t).Some?
    ensures Listing(Indent(f, t, under), depth) == Deeper(Listing(f, depth), Subtree(f, t))
  {
    hide Deeper;
    SubtreeIsIn(f.kids, t);
    SubtreeIsIn(f.next, t);
    DeeperList(f, depth, Subtree(f, t));
    AboveIsIn(f, t);
    if IsFirst(f.next, t) {
      IndentHere(f, t, under, depth);
    } else if Above(f.kids, t).Some? {
      AboveIsIn(f.kids, t);
      assert Subtree(f, t) == Subtree(f.kids, t);
      Elsewhere(f.next, t, under, false);
      IndentListing(f.kids, t, under, depth + 1);
      ListedIds(f.next, depth, Subtree(f, t));
      DeeperOne(f.id, depth, Subtree(f, t));
    } else {
      AboveIsIn(f.next, t);
      assert Subtree(f, t) == Subtree(f.next, t);
      Elsewhere(f.kids, t, under, false);
      IndentListing(f.next, t, under, depth);
      ListedIds(f.kids, depth + 1, Subtree(f, t));
      DeeperOne(f.id, depth, Subtree(f, t));
    }
  }

  lemma {:induction false} AboveIsIn<R, D>(f: Forest<R, D>, t: R)
    requires Distinct(f) && Above(f, t).Some?
    ensures t in Ids(f) && f.id != t
  {
    if !IsFirst(f.next, t) {
      if Above(f.kids, t).Some? { AboveIsIn(f.kids, t); } else { AboveIsIn(f.next, t); }
    }
  }

  lemma {:induction false} IndentHere<R, D>(f: Forest<R, D>, t: R, under: D -> D, depth: int)
    requires Distinct(f) && f.Row? && IsFirst(f.next, t)
    ensures Listing(Indent(f, t, under), depth) == Deeper(Listing(f, depth), Subtree(f, t))
  {
    hide Deeper;
    var moved := Subtree(f, t);
    var row := f.next;
    SubtreeIsIn(f.kids, t);
    assert t in Ids(row) && t !in Ids(f.kids) && f.id != t && Subtree(row, t) == {t} + Ids(row.kids);
    assert moved == {t} + Ids(row.kids);
    DeeperList(f, depth, moved);
    DeeperOne(f.id, depth, moved);
    ListedIds(f.kids, depth + 1, moved);
    DeeperList(row, depth, moved);
    ListedIds(row.kids, depth + 1, moved);
    ListedIds(row.next, depth, moved);
    DeeperOwn(t, depth, moved);
    JoinListing(f.kids, row.(next := End), depth + 1);
  }

  // ─── one move undoes another ─────────────────────────────────────────────────

  /** A row holding none keeps no list : what the editors show of it is the same. */
  function Tidy<R, D>(f: Forest<R, D>): Forest<R, D> {
    match f
    case End => End
    case Row(id, data, _, kids, next) => Row(id, data, kids.Row?, Tidy(kids), Tidy(next))
  }

  lemma {:induction false} DownUndoesUp<R, D>(f: Forest<R, D>, t: R)
    requires Distinct(f) && Above(f, t).Some?
    ensures Down(Up(f, t), t) == f
  {
    AboveIsIn(f, t);
    if !IsFirst(f.next, t) {
      UpKeepsRows(f.next, t);
      if Above(f.kids, t).Some? {
        AboveIsIn(f.kids, t);
        DownUndoesUp(f.kids, t);
        Elsewhere(f.next, t, d => d, false);
      } else {
        AboveIsIn(f.next, t);
        DownUndoesUp(f.next, t);
        Elsewhere(f.kids, t, d => d, false);
      }
    }
  }

  lemma {:induction false} JoinedThenWithout<R, D>(f: Forest<R, D>, row: Forest<R, D>)
    requires row.Row? && row.next.End? && row.id !in Ids(f)
    ensures AtLevel(Join(f, row), row.id) && Without(Join(f, row), row.id) == f && Only(Join(f, row), row.id) == row
  {
    if f.Row? { JoinedThenWithout(f.next, row); }
  }

  /** Outdent undoes indent, but for a list left empty. */
  lemma {:induction false} OutdentUndoesIndent<R, D>(f: Forest<R, D>, t: R, under: D -> D, drop: bool)
    requires Distinct(f) && Above(f, t).Some? && under(Above(f, t).value.above) == Above(f, t).value.above
    ensures Tidy(Outdent(Indent(f, t, under), t, drop)) == Tidy(f)
  {
    AboveIsIn(f, t);
    if IsFirst(f.next, t) {
      JoinedThenWithout(f.kids, f.next.(next := End));
    } else if Above(f.kids, t).Some? {
      AboveIsIn(f.kids, t);
      Elsewhere(f.next, t, under, drop);
      OutdentUndoesIndent(f.kids, t, under, drop);
      IndentedIsNotAtLevel(f.kids, t, under);
    } else {
      AboveIsIn(f.next, t);
      Elsewhere(f.kids, t, under, drop);
      OutdentUndoesIndent(f.next, t, under, drop);
      NotAtLevel(f.kids, t);
    }
  }

  lemma {:induction false} NotAtLevel<R, D>(f: Forest<R, D>, t: R)
    requires t !in Ids(f)
    ensures !AtLevel(f, t)
  {
    if AtLevel(f, t) { AtLevelIsIn(f, t); }
  }

  lemma {:induction false} IndentedIsNotAtLevel<R, D>(f: Forest<R, D>, t: R, under: D -> D)
    requires Distinct(f) && Above(f, t).Some?
    ensures !AtLevel(Indent(f, t, under), t)
  {
    AboveIsIn(f, t);
    if IsFirst(f.next, t) {
      NotAtLevel(f.next.next, t);
    } else if Above(f.kids, t).Some? {
      AboveIsIn(f.kids, t);
      Elsewhere(f.next, t, under, false);
      NotAtLevel(f.next, t);
    } else {
      IndentedIsNotAtLevel(f.next, t, under);
    }
  }

  // ─── a move takes the row with all it holds, and leaves the others as they are ──

  /** The tree without the row and all it holds, wherever it is. */
  function Removed<R(==), D>(f: Forest<R, D>, t: R): Forest<R, D> {
    match f
    case End => End
    case Row(id, data, listed, kids, next) =>
      if id == t then Removed(next, t) else Row(id, data, listed, Removed(kids, t), Removed(next, t))
  }

  /** The row with all it holds. */
  function Held<R(==), D>(f: Forest<R, D>, t: R): Forest<R, D> {
    match f
    case End => End
    case Row(id, _, _, kids, next) =>
      if id == t then f.(next := End)
      else var inside := Held(kids, t); if inside.Row? then inside else Held(next, t)
  }

  lemma {:induction false} HeldElsewhere<R, D>(f: Forest<R, D>, t: R)
    requires t !in Ids(f)
    ensures Held(f, t).End? && Removed(f, t) == f
  {
    if f.Row? {
      HeldElsewhere(f.kids, t);
      HeldElsewhere(f.next, t);
    }
  }

  lemma {:induction false} UpTakesTheRow<R, D>(f: Forest<R, D>, t: R)
    requires Distinct(f)
    ensures Held(Up(f, t), t) == Held(f, t) && Removed(Up(f, t), t) == Removed(f, t)
  {
    if f.Row? {
      if IsFirst(f.next, t) {
        assert t in Ids(f.next) && t !in Ids(f.kids);
        HeldElsewhere(f.kids, t);
      } else {
        if f.id == t {
          Elsewhere(f.kids, t, d => d, false);
          Elsewhere(f.next, t, d => d, false);
        }
        UpTakesTheRow(f.kids, t);
        UpTakesTheRow(f.next, t);
      }
    }
  }

  lemma {:induction false} DownTakesTheRow<R, D>(f: Forest<R, D>, t: R)
    requires Distinct(f)
    ensures Held(Down(f, t), t) == Held(f, t) && Removed(Down(f, t), t) == Removed(f, t)
  {
    if f.Row? {
      if f.id == t && f.next.Row? {
        HeldElsewhere(f.next.kids, t);
      } else {
        if f.id == t {
          Elsewhere(f.kids, t, d => d, false);
          Elsewhere(f.next, t, d => d, false);
        }
        DownTakesTheRow(f.kids, t);
        DownTakesTheRow(f.next, t);
      }
    }
  }

  lemma {:induction false} JoinRemoves<R, D>(f: Forest<R, D>, row: Forest<R, D>)
    requires row.Row? && row.next.End? && row.id !in Ids(f)
    ensures Removed(Join(f, row), row.id) == f && Held(Join(f, row), row.id) == row
  {
    HeldElsewhere(f, row.id);
    if f.Row? { JoinRemoves(f.next, row); }
  }

  lemma {:induction false} WithoutRemoves<R, D>(f: Forest<R, D>, t: R)
    requires Distinct(f) && AtLevel(f, t)
    ensures Removed(f, t) == Without(f, t) && Held(f, t) == Only(f, t)
  {
    if f.id == t {
      HeldElsewhere(f.next, t);
    } else {
      AtLevelIsIn(f.next, t);
      HeldElsewhere(f.kids, t);
      WithoutRemoves(f.next, t);
    }
  }

  lemma {:induction false} IndentTakesTheRow<R, D>(f: Forest<R, D>, t: R, under: D -> D)
    requires Distinct(f) && (Above(f, t).Some? ==> under(Above(f, t).value.above) == Above(f, t).value.above)
    ensures Held(Indent(f, t, under), t) == Held(f, t)
    ensures Tidy(Removed(Indent(f, t, under), t)) == Tidy(Removed(f, t))
  {
    if f.Row? {
      if IsFirst(f.next, t) {
        assert t in Ids(f.next) && t !in Ids(f.kids);
        HeldElsewhere(f.kids, t);
        HeldElsewhere(f.next.next, t);
        JoinRemoves(f.kids, f.next.(next := End));
      } else {
        if f.id == t {
          Elsewhere(f.kids, t, under, false);
          Elsewhere(f.next, t, under, false);
        }
        if Above(f.next, t).Some? {
          AboveIsIn(f.next, t);
          Elsewhere(f.kids, t, under, false);
        }
        IndentTakesTheRow(f.kids, t, under);
        IndentTakesTheRow(f.next, t, under);
      }
    }
  }

  lemma {:induction false} OutdentTakesTheRow<R, D>(f: Forest<R, D>, t: R, drop: bool)
    requires Distinct(f)
    ensures Held(Outdent(f, t, drop), t) == Held(f, t)
    ensures Tidy(Removed(Outdent(f, t, drop), t)) == Tidy(Removed(f, t))
  {
    if f.Row? {
      if AtLevel(f.kids, t) {
        AtLevelIsIn(f.kids, t);
        WithoutIds(f.kids, t);
        WithoutRemoves(f.kids, t);
        HeldElsewhere(f.next, t);
        WithoutGone(f.kids, t);
        HeldElsewhere(Without(f.kids, t), t);
      } else {
        if f.id == t {
          Elsewhere(f.kids, t, d => d, drop);
          Elsewhere(f.next, t, d => d, drop);
        }
        OutdentTakesTheRow(f.kids, t, drop);
        OutdentTakesTheRow(f.next, t, drop);
      }
    }
  }

  lemma {:induction false} WithoutGone<R, D>(f: Forest<R, D>, t: R)
    requires Distinct(f) && AtLevel(f, t)
    ensures t !in Ids(Without(f, t))
  {
    WithoutIds(f, t);
    assert t in Ids(Only(f, t));
  }
}
