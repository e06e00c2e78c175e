/** Categories : a tree the editors move rows in, each addressed by its path. */
module Categories {
  import opened Wrappers
  import opened Texts
  import opened RowTree
  import opened RowMoves
  import opened RowLists

  /** What a category says ; a missing name is an empty one. */
  datatype Category = Category(name: string, icon: string)

  const DEFAULT := Category("Default", "bars")

  predicate IsDefault(c: Category, top: bool) {
    top && c == DEFAULT
  }

  // ─── the moves ───────────────────────────────────────────────────────────────

  datatype Move<R> = GoUp(t: R) | GoDown(t: R) | GoIn(t: R) | GoOut(t: R)

  function Same(c: Category): Category {
    c
  }

  /** There is a row above, and at the top neither is the Default one. */
  predicate MayIndent<R(==)>(f: Forest<R, Category>, t: R) {
    match Above(f, t)
    case None => false
    case Some(n) => !IsDefault(n.own, AtLevel(f, t)) && !IsDefault(n.above, AtLevel(f, t))
  }

  function Moved<R(==)>(f: Forest<R, Category>, m: Move<R>): Forest<R, Category> {
    match m
    case GoUp(t) => Up(f, t)
    case GoDown(t) => Down(f, t)
    case GoIn(t) => if MayIndent(f, t) then Indent(f, t, Same) else f
    case GoOut(t) => Outdent(f, t, true)
  }

  /** The row says Default, with the icon that goes with it. */
  ghost predicate SaysDefault<R(!new)>(f: Forest<R, Category>, r: R) {
    ToldBy(f, r).Some? && ToldBy(f, r).value.data == Category("Default", "bars")
  }

  /** A row may go under another exactly when it is not the first of its list and, at the top, neither it nor
      the one before it says Default. */
  lemma {:induction false} MayIndentIff<R(!new)>(f: Forest<R, Category>, t: R)
    requires Distinct(f)
    ensures MayIndent(f, t) <==>
            exists p, i ::
              0 < i < |ListIn(f, p)| && ListIn(f, p)[i] == t
              && (p == None ==> !SaysDefault(f, t) && !SaysDefault(f, ListIn(f, p)[i - 1]))
  {
    if Above(f, t).Some? {
      PlaceIs(f, t);
      AboveSays(f, t);
      var (p, i) := PlaceOf(f, t);
      assert t in ListIn(f, p);
      HeadsAreIn(f, t);
      if p.Some? { HeldIsNotHead(f, p.value, t); }
    }
    forall p, i: nat | 0 < i < |ListIn(f, p)| && ListIn(f, p)[i] == t
      ensures Above(f, t).Some? && PlaceOf(f, t) == (p, i)
    {
      PlaceIsAbove(f, t, p, i);
    }
  }

  /** What each move does to every list of the tree, and to what its rows say. */
  lemma {:induction false} MoveIs<R(!new)>(f: Forest<R, Category>, m: Move<R>)
    requires Distinct(f)
    ensures var g, t := Moved(f, m), m.t;
            match m
            case GoUp(_) =>
              (forall p :: OneUp(ListIn(f, p), ListIn(g, p), t)) && (forall r :: ToldBy(g, r) == ToldBy(f, r))
            case GoDown(_) =>
              (forall p :: OneDown(ListIn(f, p), ListIn(g, p), t)) && (forall r :: ToldBy(g, r) == ToldBy(f, r))
            case GoIn(_) =>
              if MayIndent(f, t) then
                exists p, i ::
                  0 < i < |ListIn(f, p)| && ListIn(f, p)[i] == t && PutUnderAbove(f, g, p, i, (c: Category) => c)
              else g == f
            case GoOut(_) =>
              if t in Ids(f) && t !in Heads(f) then
                exists u, q :: t in HeldBy(f, u) && u in ListIn(f, q) && PutAfterParent(f, g, t, u, q, true)
              else g == f
  {
    hide OneUp, OneDown, Up, Down, Indent, Outdent, ListIn, HeldBy, ToldBy, Heads, PutAfterParent;
    match m {
      case GoUp(t) =>
        forall p ensures OneUp(ListIn(f, p), ListIn(Up(f, t), p), t) {
          UpLists(f, t, p, t);
        }
        forall r ensures ToldBy(Up(f, t), r) == ToldBy(f, r) {
          UpLists(f, t, None, r);
        }
      case GoDown(t) =>
        forall p ensures OneDown(ListIn(f, p), ListIn(Down(f, t), p), t) {
          DownLists(f, t, p, t);
        }
        forall r ensures ToldBy(Down(f, t), r) == ToldBy(f, r) {
          DownLists(f, t, None, r);
        }
      case GoIn(t) =>
        if MayIndent(f, t) {
          var p, i := IndentLists(f, t, Same);
          assert PutUnderAbove(f, Indent(f, t, Same), p, i, (c: Category) => c);
        }
      case GoOut(t) =>
        HeadsAreIn(f, t);
        if t in Ids(f) && !AtLevel(f, t) {
          var u, q := OutdentLists(f, t, true);
        } else if AtLevel(f, t) {
          TopStays(f, t, true);
        } else {
          Elsewhere(f, t, Same, true);
        }
    }
  }

  method CanIndent(tree: Tree<Category>, target: Entry<Category>) returns (can: bool)
    requires tree.Valid()
    ensures can <==> MayIndent(tree.forest, target)
  {
    var previous, top := tree.AboveOf(target);
    if previous.None? {
      return false;
    }
    if IsDefault(target.data, top) {
      return false;
    }
    if IsDefault(previous.value.data, top) {
      return false;
    }
    return true;
  }

  method IndentCategory(tree: Tree<Category>, target: Entry<Category>) returns (moved: bool)
    requires tree.Valid()
    modifies tree, tree.members
    ensures tree.Valid() && tree.members == old(tree.members)
    ensures tree.forest == Moved(old(tree.forest), GoIn(target)) && (moved <==> MayIndent(old(tree.forest), target))
  {
    moved := CanIndent(tree, target);
    if moved {
      tree.PutUnder(target, Same);
    }
  }

  method OutdentCategory(tree: Tree<Category>, target: Entry<Category>) returns (moved: bool)
    requires tree.Valid()
    modifies tree, tree.members
    ensures tree.Valid() && tree.members == old(tree.members)
    ensures tree.forest == Moved(old(tree.forest), GoOut(target))
    ensures moved <==> target in old(tree.members) && !AtLevel(old(tree.forest), target)
  {
    moved := tree.TakeOut(target, true);
  }

  // ─── the Default row ─────────────────────────────────────────────────────────

  /** The row is at the top, says Default, and holds no list at all. */
  predicate OnTop<R(==)>(f: Forest<R, Category>, d: R) {
    && f.Row?
    && if f.id == d then f.data == Category("Default", "bars") && !f.listed && f.kids.End? else OnTop(f.next, d)
  }

  lemma {:induction false} UpKeepsDefault<R>(f: Forest<R, Category>, t: R, d: R)
    requires Distinct(f) && OnTop(f, d)
    ensures OnTop(Up(f, t), d)
  {
    if f.id != d && !IsFirst(f.next, t) { UpKeepsDefault(f.next, t, d); }
  }

  lemma {:induction false} DownKeepsDefault<R>(f: Forest<R, Category>, t: R, d: R)
    requires Distinct(f) && OnTop(f, d)
    ensures OnTop(Down(f, t), d)
  {
    if f.id != d && !(f.id == t && f.next.Row?) { DownKeepsDefault(f.next, t, d); }
  }

  lemma {:induction false} IndentKeepsDefault<R>(f: Forest<R, Category>, t: R, d: R)
    requires Distinct(f) && OnTop(f, d) && MayIndent(f, t)
    ensures OnTop(Indent(f, t, Same), d)
  {
    AboveIsIn(f, t);
    assert AtLevel(f, t) <==> AtLevel(f.next, t);
    if !IsFirst(f.next, t) && f.id != d {
      if Above(f.kids, t).Some? {
        AboveIsIn(f.kids, t);
        Elsewhere(f.next, t, Same, true);
      } else {
        AboveIsIn(f.next, t);
        IndentKeepsDefault(f.next, t, d);
      }
    }
  }

  lemma {:induction false} OutdentKeepsDefault<R>(f: Forest<R, Category>, t: R, d: R)
    requires Distinct(f) && OnTop(f, d)
    ensures OnTop(Outdent(f, t, true), d)
  {
    if AtLevel(f.kids, t) {
      AtLevelIsIn(f.kids, t);
      OnTopIsIn(f.next, d);
    } else if f.id != d {
      OutdentKeepsDefault(f.next, t, d);
    }
  }

  lemma {:induction false} OnTopIsIn<R>(f: Forest<R, Category>, d: R)
    requires OnTop(f, d)
    ensures d in Ids(f)
  {
    if f.id != d { OnTopIsIn(f.next, d); }
  }

  function Run<R(==)>(f: Forest<R, Category>, moves: seq<Move<R>>): Forest<R, Category> {
    if moves == [] then f else Moved(Run(f, moves[..|moves| - 1]), moves[|moves| - 1])
  }

  lemma {:induction false} MoveKeepsRows<R>(f: Forest<R, Category>, m: Move<R>)
    requires Distinct(f)
    ensures SameRows(f, Moved(f, m))
  {
    UpKeepsRows(f, m.t);
    DownKeepsRows(f, m.t);
    IndentKeepsRows(f, m.t, Same);
    OutdentKeepsRows(f, m.t, true);
  }

  /** Over every run of moves each row stays in the tree once, and the Default row at the top, holding none. */
  lemma {:induction false} RunKeepsDefault<R>(f: Forest<R, Category>, moves: seq<Move<R>>, d: R)
    requires Distinct(f) && OnTop(f, d)
    ensures SameRows(f, Run(f, moves)) && OnTop(Run(f, moves), d)
  {
    if moves != [] {
      var before, m := Run(f, moves[..|moves| - 1]), moves[|moves| - 1];
      RunKeepsDefault(f, moves[..|moves| - 1], d);
      MoveKeepsRows(before, m);
      match m
      case GoUp(t) => UpKeepsDefault(before, t, d);
      case GoDown(t) => DownKeepsDefault(before, t, d);
      case GoIn(t) => if MayIndent(before, t) { IndentKeepsDefault(before, t, d); }
      case GoOut(t) => OutdentKeepsDefault(before, t, d);
    }
  }

  // ─── the paths ───────────────────────────────────────────────────────────────

  function PathOf(c: Category, prefix: string): string {
    if prefix == "" then Trim(c.name) else prefix + "/" + Trim(c.name)
  }

  /** Every path in the tree, in tree order ; a nameless category has none, nor what it holds. */
  function Paths<R>(f: Forest<R, Category>, prefix: string): seq<string> {
    match f
    case End => []
    case Row(_, data, _, kids, next) =>
      if Trim(data.name) == "" then Paths(next, prefix)
      else [PathOf(data, prefix)] + Paths(kids, PathOf(data, prefix)) + Paths(next, prefix)
  }

  // ─── the names on the way to a row ───────────────────────────────────────────

  /** Names with a slash between each two. */
  function Slashed(names: seq<string>): string {
    if names == [] then ""
    else if |names| == 1 then names[0]
    else Slashed(names[..|names| - 1]) + "/" + names[|names| - 1]
  }

  /** For each row, each before those it holds, the trimmed names of the rows it is under and its own ; a
      nameless one has none, nor what it holds. */
  function Chains<R>(f: Forest<R, Category>, above: seq<string>): seq<seq<string>> {
    if f.End? then []
    else
      var chain := above + [Trim(f.data.name)];
      (if Trim(f.data.name) == "" then [] else [chain] + Chains(f.kids, chain)) + Chains(f.next, above)
  }

  function AllSlashed(chains: seq<seq<string>>): seq<string> {
    seq(|chains|, i requires 0 <= i < |chains| => Slashed(chains[i]))
  }

  lemma {:induction false} SlashedIsSome(names: seq<string>)
    requires names != [] && names[0] != ""
    ensures Slashed(names) != ""
  {
    if |names| > 1 { SlashedIsSome(names[..|names| - 1]); }
  }

  lemma {:induction false} PathIsSlashed(c: Category, above: seq<string>)
    requires above == [] || above[0] != ""
    ensures PathOf(c, Slashed(above)) == Slashed(above + [Trim(c.name)])
  {
    hide Trim;
    var names := above + [Trim(c.name)];
    assert names[..|names| - 1] == above;
    if above != [] { SlashedIsSome(above); }
  }

  lemma AllSlashedJoins(a: seq<seq<string>>, b: seq<seq<string>>)
    ensures AllSlashed(a + b) == AllSlashed(a) + AllSlashed(b)
  {
    hide Slashed;
  }

  /** The paths are those names joined by slashes, in tree order. */
  lemma {:induction false} PathsAreSlashed<R>(f: Forest<R, Category>, above: seq<string>)
    requires above == [] || above[0] != ""
    ensures Paths(f, Slashed(above)) == AllSlashed(Chains(f, above))
  {
    hide Trim, Slashed, PathOf;
    if f.Row? {
      var chain := above + [Trim(f.data.name)];
      PathsAreSlashed(f.next, above);
      if Trim(f.data.name) != "" {
        PathIsSlashed(f.data, above);
        PathsAreSlashed(f.kids, chain);
        AllSlashedJoins([chain], Chains(f.kids, chain));
        assert AllSlashed([chain]) == [Slashed(chain)];
        AllSlashedJoins([chain] + Chains(f.kids, chain), Chains(f.next, above));
      } else {
        assert [] + Chains(f.next, above) == Chains(f.next, above);
      }
    }
  }

  lemma {:induction false} PathsStep(before: seq<string>, f: Forest<Entry<Category>, Category>, prefix: string)
    requires f.Row?
    ensures before + Paths(f, prefix) ==
            (if Trim(f.data.name) == "" then before
             else before + [PathOf(f.data, prefix)] + Paths(f.kids, PathOf(f.data, prefix))) + Paths(f.next, prefix)
  {
    hide Trim, PathOf;
  }

  lemma {:induction false} NoPaths(before: seq<string>, f: Forest<Entry<Category>, Category>, prefix: string)
    ensures f.End? ==> before + Paths(f, prefix) == before
  {
  }

  /** The paths, from the rows in memory. */
  method CategoryPaths(list: seq<Entry<Category>>, prefix: string, ghost f: Forest<Entry<Category>, Category>,
                       ghost h: map<Entry<Category>, State<Entry<Category>, Category>>)
    returns (paths: seq<string>)
    requires Shows(h, list, f)
    requires forall r :: r in h ==> r.data == h[r].data && r.items == h[r].items
    ensures paths == Paths(f, prefix)
    decreases Size(f)
  {
    hide Trim, Paths, PathOf;
    paths := [];
    ghost var g := f;
    for k := 0 to |list|
      invariant Shows(h, list[k..], g) && Size(g) <= Size(f) && paths + Paths(g, prefix) == Paths(f, prefix)
    {
      var row := list[k];
      assert row == g.id && list[k..][1..] == list[k + 1..];
      PathsStep(paths, g, prefix);
      ghost var was := g;
      g := g.next;
      if Trim(row.data.name) == "" {
        continue;
      }
      var path := PathOf(row.data, prefix);
      paths := paths + [path];
      if row.items.Some? && |row.items.value| > 0 {
        var inside := CategoryPaths(row.items.value, path, was.kids, h);
        paths := paths + inside;
      } else {
        NoPaths(paths, was.kids, path);
      }
    }
    NoPaths(paths, g, prefix);
  }

  function Missing(paths: seq<string>, now: seq<string>): seq<string> {
    if paths == [] then [] else (if paths[0] in now then [] else [paths[0]]) + Missing(paths[1..], now)
  }

  /** The paths there were and are no more : those a form may still point at. */
  function MovedPaths<R>(before: Forest<R, Category>, after: Forest<R, Category>): seq<string> {
    Missing(Paths(before, ""), Paths(after, ""))
  }

  lemma {:induction false} MissingAre(paths: seq<string>, now: seq<string>, p: string)
    ensures p in Missing(paths, now) <==> p in paths && p !in now
  {
    if paths != [] { MissingAre(paths[1..], now, p); }
  }

  predicate HasPath<R>(f: Forest<R, Category>, prefix: string, p: string) {
    match f
    case End => false
    case Row(_, data, _, kids, next) =>
      (Trim(data.name) != "" && (p == PathOf(data, prefix) || HasPath(kids, PathOf(data, prefix), p)))
        || HasPath(next, prefix, p)
  }

  lemma {:induction false} PathsAre<R>(f: Forest<R, Category>, prefix: string, p: string)
    ensures p in Paths(f, prefix) <==> HasPath(f, prefix, p)
  {
    hide Trim, PathOf;
    if f.Row? {
      PathsAre(f.kids, PathOf(f.data, prefix), p);
      PathsAre(f.next, prefix, p);
    }
  }

  /** A path of the row, or of one it holds. */
  predicate OwnPath<R(==)>(f: Forest<R, Category>, t: R, prefix: string, p: string) {
    match f
    case End => false
    case Row(id, data, _, kids, next) =>
      || (id == t && HasPath(f.(next := End), prefix, p))
      || (id != t && Trim(data.name) != "" && OwnPath(kids, t, PathOf(data, prefix), p))
      || OwnPath(next, t, prefix, p)
  }

  lemma {:induction false} RemovedPaths<R>(f: Forest<R, Category>, t: R, prefix: string, p: string)
    ensures HasPath(f, prefix, p) <==> HasPath(Removed(f, t), prefix, p) || OwnPath(f, t, prefix, p)
  {
    hide Trim, PathOf;
    if f.Row? {
      RemovedPaths(f.kids, t, PathOf(f.data, prefix), p);
      RemovedPaths(f.next, t, prefix, p);
      assert HasPath(f, prefix, p) <==> HasPath(f.(next := End), prefix, p) || HasPath(f.next, prefix, p);
    }
  }

  lemma {:induction false} TidyPaths<R>(f: Forest<R, Category>, prefix: string, p: string)
    ensures HasPath(Tidy(f), prefix, p) <==> HasPath(f, prefix, p)
  {
    hide Trim, PathOf;
    if f.Row? {
      TidyPaths(f.kids, PathOf(f.data, prefix), p);
      TidyPaths(f.next, prefix, p);
    }
  }

  /** Up and down keep every path. */
  lemma {:induction false} UpKeepsPaths<R>(f: Forest<R, Category>, t: R, prefix: string, p: string)
    ensures HasPath(Up(f, t), prefix, p) <==> HasPath(f, prefix, p)
  {
    hide Trim, PathOf;
    if f.Row? {
      UpKeepsPaths(f.kids, t, PathOf(f.data, prefix), p);
      UpKeepsPaths(f.next, t, prefix, p);
    }
  }

  lemma {:induction false} DownKeepsPaths<R>(f: Forest<R, Category>, t: R, prefix: string, p: string)
    ensures HasPath(Down(f, t), prefix, p) <==> HasPath(f, prefix, p)
  {
    hide Trim, PathOf;
    if f.Row? {
      DownKeepsPaths(f.kids, t, PathOf(f.data, prefix), p);
      DownKeepsPaths(f.next, t, prefix, p);
    }
  }

  /** What a move takes is the row with all it holds, and the rest stays as it is. */
  lemma {:induction false} MoveTakesTheRow<R>(f: Forest<R, Category>, m: Move<R>)
    requires Distinct(f)
    ensures Held(Moved(f, m), m.t) == Held(f, m.t) && Tidy(Removed(Moved(f, m), m.t)) == Tidy(Removed(f, m.t))
  {
    UpTakesTheRow(f, m.t);
    DownTakesTheRow(f, m.t);
    IndentTakesTheRow(f, m.t, Same);
    OutdentTakesTheRow(f, m.t, true);
  }

  /** A move reports only paths of the row moved and of what it holds ; up and down report none. */
  lemma {:induction false} MovesReportTheirOwn<R>(f: Forest<R, Category>, m: Move<R>, p: string)
    requires Distinct(f) && p in MovedPaths(f, Moved(f, m))
    ensures OwnPath(f, m.t, "", p) && (m.GoIn? || m.GoOut?)
  {
    hide Moved, HasPath, OwnPath, Tidy, Removed, Paths, Missing;
    var after := Moved(f, m);
    MissingAre(Paths(f, ""), Paths(after, ""), p);
    PathsAre(f, "", p);
    PathsAre(after, "", p);
    MoveTakesTheRow(f, m);
    RemovedPaths(f, m.t, "", p);
    RemovedPaths(after, m.t, "", p);
    TidyPaths(Removed(f, m.t), "", p);
    TidyPaths(Removed(after, m.t), "", p);
    OrderKeepsPaths(f, m, p);
  }

  lemma {:induction false} OrderKeepsPaths<R>(f: Forest<R, Category>, m: Move<R>, p: string)
    ensures m.GoUp? || m.GoDown? ==> (HasPath(Moved(f, m), "", p) <==> HasPath(f, "", p))
  {
    UpKeepsPaths(f, m.t, "", p);
    DownKeepsPaths(f, m.t, "", p);
  }
}
