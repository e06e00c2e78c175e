/** A workflow's file and what is read of it : a link to the empty identifier is none. What the edits,
    which write the file, make of what is read. */
module WorkflowReading {
  import opened Wrappers
  import opened WorkflowModel
  import opened Graphs
  import opened Names
  import opened WorkflowEdits
  import WorkflowLoops

  /** The nodes as they are read of a file : its links to the empty identifier are dropped. */
  function Read(file: seq<Node>): seq<Node> {
    AllUnlinked(file, "")
  }

  /** Nodes read of a file have no link to the empty identifier. */
  lemma ReadIsNamed(file: seq<Node>)
    ensures WorkflowLoops.NamedLinks(Read(file))
  {
    forall n | n in Read(file) ensures "" !in n.AllLinks() {
      var i :| 0 <= i < |file| && Read(file)[i] == n;
      NodeUnlinked(file[i], "");
    }
  }

  lemma ReadIds(file: seq<Node>)
    ensures Ids(Read(file)) == Ids(file) && (UniqueIds(Read(file)) <==> UniqueIds(file))
  {
    SameIds(file, Read(file));
  }

  lemma {:induction false} ReadFind(file: seq<Node>, id: Id)
    ensures Find(Read(file), id) == Find(file, id)
  {
    ReadIds(file);
    hide Ids;
    var i, j := Find(file, id), Find(Read(file), id);
    assert forall k :: 0 <= k < |file| ==> Read(file)[k].id == file[k].id;
    if i.Some? {
      assert !(i.value < j.value) && !(j.value < i.value);
    }
  }

  // ─── links dropped before or after an edit ───────────────────────────────────

  lemma {:induction false} WithoutBoth(list: seq<Id>, a: Id, b: Id)
    ensures Without(Without(list, a), b) == Without(Without(list, b), a)
  {
    if list != [] {
      WithoutBoth(list[..|list| - 1], a, b);
      WithoutLast(Without(list[..|list| - 1], a), list[|list| - 1], b);
      WithoutLast(Without(list[..|list| - 1], b), list[|list| - 1], a);
    }
  }

  lemma {:induction false} WithoutLast(list: seq<Id>, last: Id, id: Id)
    ensures Without(list + [last], id) == if last == id then Without(list, id) else Without(list, id) + [last]
    ensures Without(list + [], id) == Without(list, id)
  {
    assert (list + [last])[..|list|] == list && list + [] == list;
    assert Without(list, id) + [] == Without(list, id);
  }

  lemma ReplacedLast(list: seq<Id>, last: Id, a: Id, b: Id)
    ensures Replaced(list + [last], a, b) == Replaced(list, a, b) + [if last == a then b else last]
  {
  }

  lemma {:induction false} WithoutReplaced(list: seq<Id>, a: Id, b: Id)
    requires a != "" && b != ""
    ensures Without(Replaced(list, a, b), "") == Replaced(Without(list, ""), a, b)
  {
    if list != [] {
      hide Replaced;
      var front, last := list[..|list| - 1], list[|list| - 1];
      assert list == front + [last];
      WithoutReplaced(front, a, b);
      ReplacedLast(front, last, a, b);
      WithoutLast(Replaced(front, a, b), if last == a then b else last, "");
      WithoutLast(front, last, "");
      ReplacedLast(Without(front, ""), last, a, b);
    }
  }

  lemma {:induction false} WithoutCut(list: seq<Id>, a: Id)
    ensures Without(Replaced(list, a, ""), "") == Without(Without(list, ""), a)
  {
    if list != [] {
      hide Replaced;
      var front, last := list[..|list| - 1], list[|list| - 1];
      assert list == front + [last];
      WithoutCut(front, a);
      ReplacedLast(front, last, a, "");
      WithoutLast(Replaced(front, a, ""), if last == a then "" else last, "");
      WithoutLast(front, last, "");
      WithoutLast(Without(front, ""), last, a);
    }
  }

  lemma {:induction false} WithoutIsShorter(list: seq<Id>, id: Id)
    ensures |Without(list, id)| <= |list| && (id in list ==> |Without(list, id)| < |list|)
  {
    if list != [] {
      var front, last := list[..|list| - 1], list[|list| - 1];
      assert list == front + [last];
      WithoutIsShorter(front, id);
    }
  }

  lemma {:induction false} ListCut(list: seq<Id>, a: Id)
    requires a != ""
    ensures Without(Replaced(list, a, ""), "") == Replaced(Without(list, ""), a, "") <==> a !in list
  {
    var read := Without(list, "");
    assert a in read <==> a in list;
    hide Without;
    WithoutCut(list, a);
    WithoutIsShorter(read, a);
    if a !in list {
      WithoutNone(read, a);
      assert Replaced(read, a, "") == read;
    }
  }

  lemma {:induction false} ListFound(list: seq<Id>, b: Id)
    requires b != ""
    ensures Without(Replaced(list, "", b), "") == Replaced(Without(list, ""), "", b) <==> "" !in list
  {
    WithoutNone(Replaced(list, "", b), "");
    WithoutIsShorter(list, "");
    if "" !in list { WithoutNone(list, ""); }
  }

  /** A list of links is read the same, renamed in the file or where it was read. */
  lemma {:induction false} ListRenameIsRead(list: seq<Id>, a: Id, b: Id)
    ensures Without(Replaced(list, a, b), "") == Replaced(Without(list, ""), a, b) <==>
            a == b || ((b == "" ==> a !in list) && (a == "" ==> "" !in list))
  {
    if a == b {
      ReplacedBySame(list, a);
      ReplacedBySame(Without(list, ""), a);
    } else if a != "" && b != "" {
      WithoutReplaced(list, a, b);
    } else if b == "" {
      ListCut(list, a);
    } else {
      ListFound(list, b);
    }
  }

  lemma ReplacedBySame(list: seq<Id>, a: Id)
    ensures Replaced(list, a, a) == list
  {
  }

  // ─── a rename, as it is read ─────────────────────────────────────────────────

  predicate NoLinkTo(file: seq<Node>, id: Id) {
    forall i {:trigger file[i]} :: 0 <= i < |file| ==> id !in file[i].AllLinks()
  }

  /** No link is lost to the empty name, none found from it. */
  predicate LinksKept(file: seq<Node>, a: Id, b: Id) {
    (b == "" ==> NoLinkTo(file, a)) && (a == "" ==> NoLinkTo(file, ""))
  }

  predicate NodeKept(n: Node, a: Id, b: Id) {
    (b == "" ==> a !in n.AllLinks()) && (a == "" ==> "" !in n.AllLinks())
  }

  lemma NodeRenameIsRead(n: Node, a: Id, b: Id)
    ensures Unlinked(Relinked(n, a, b), "") == Relinked(Unlinked(n, ""), a, b) <==> a == b || NodeKept(n, a, b)
  {
    ListRenameIsRead(n.success, a, b);
    ListRenameIsRead(n.failure, a, b);
    ListRenameIsRead(n.always, a, b);
    hide Without, Replaced;
  }

  /** The node at a place of the file after a rename, before its links follow. */
  function Named(file: seq<Node>, a: Id, b: Id): seq<Node>
    requires a in Ids(file)
  {
    var at := Find(file, a).value;
    file[at := file[at].(id := b)]
  }

  lemma RenamedRead(file: seq<Node>, a: Id, b: Id, i: nat)
    requires a in Ids(file) && i < |file|
    ensures a in Ids(Read(file))
    ensures |Read(Renamed(file, a, b))| == |Renamed(Read(file), a, b)| == |Named(file, a, b)| == |file|
    ensures Read(Renamed(file, a, b))[i] == Unlinked(Relinked(Named(file, a, b)[i], a, b), "")
    ensures Renamed(Read(file), a, b)[i] == Relinked(Unlinked(Named(file, a, b)[i], ""), a, b)
    ensures Named(file, a, b)[i].AllLinks() == file[i].AllLinks()
  {
    ReadFind(file, a);
    ReadIds(file);
    hide Ids, Find, Relinked;
  }

  lemma KeptEverywhere(written: seq<Node>, read: seq<Node>, file: seq<Node>, a: Id, b: Id)
    requires |written| == |read| == |file| > 0
    requires forall i :: 0 <= i < |file| ==> (written[i] == read[i] <==> a == b || NodeKept(file[i], a, b))
    ensures written == read <==> a == b || LinksKept(file, a, b)
  {
    if written == read && a != b {
      assert forall i :: 0 <= i < |file| ==> NodeKept(file[i], a, b);
    } else if a == b || LinksKept(file, a, b) {
      assert forall i :: 0 <= i < |file| ==> a == b || NodeKept(file[i], a, b);
    }
  }

  /** A rename in the file is the rename of what is read, exactly when it is to the name it had, or no
      link is lost to the empty name nor found from it. */
  lemma RenameIsRead(file: seq<Node>, a: Id, b: Id)
    requires a in Ids(file)
    ensures a in Ids(Read(file))
    ensures Read(Renamed(file, a, b)) == Renamed(Read(file), a, b) <==> a == b || LinksKept(file, a, b)
  {
    ReadIds(file);
    SameLength(file, a, b);
    hide Ids, Renamed, Read, Named, Relinked, Unlinked, NodeKept, LinksKept;
    var written, read := Read(Renamed(file, a, b)), Renamed(Read(file), a, b);
    forall i | 0 <= i < |file| ensures written[i] == read[i] <==> a == b || NodeKept(file[i], a, b) {
      RenamedRead(file, a, b, i);
      NodeRenameIsRead(Named(file, a, b)[i], a, b);
      SameLinksKept(Named(file, a, b)[i], file[i], a, b);
    }
    KeptEverywhere(written, read, file, a, b);
  }

  lemma SameLinksKept(n: Node, m: Node, a: Id, b: Id)
    requires n.AllLinks() == m.AllLinks()
    ensures NodeKept(n, a, b) <==> NodeKept(m, a, b)
  {
  }

  lemma SameLength(file: seq<Node>, a: Id, b: Id)
    requires a in Ids(file) && a in Ids(Read(file))
    ensures |Read(Renamed(file, a, b))| == |Renamed(Read(file), a, b)| == |file| > 0
  {
  }

  /** Renamed to the empty name, a node loses every link to it, and the others are as they were. */
  lemma NamelessIsCutOff(file: seq<Node>, a: Id)
    requires a in Ids(file)
    ensures a in Ids(Read(file))
    ensures Read(Renamed(file, a, "")) == AllUnlinked(Named(Read(file), a, ""), a)
  {
    ReadIds(file);
    ReadFind(file, a);
    forall i | 0 <= i < |file| ensures Read(Renamed(file, a, ""))[i] == Unlinked(Named(Read(file), a, "")[i], a) {
      var n := Named(file, a, "")[i];
      RenamedRead(file, a, "", i);
      WithoutCut(n.success, a);
      WithoutCut(n.failure, a);
      WithoutCut(n.always, a);
    }
  }

  // ─── the other edits, as they are read ───────────────────────────────────────

  lemma NodeUnlinkedBoth(n: Node, a: Id, b: Id)
    ensures Unlinked(Unlinked(n, a), b) == Unlinked(Unlinked(n, b), a)
  {
    WithoutBoth(n.success, a, b);
    WithoutBoth(n.failure, a, b);
    WithoutBoth(n.always, a, b);
  }

  lemma NodeLinkedRead(n: Node, to: Id, kind: Kind)
    ensures Unlinked(LinkedOn(n, to, kind), "") ==
            if to == "" then Unlinked(n, "") else LinkedOn(Unlinked(n, ""), to, kind)
  {
    WithoutLast(n.Links(kind), to, "");
    hide Without;
  }

  lemma UnlinkIsRead(file: seq<Node>, from: Id, to: Id)
    requires from in Ids(file)
    ensures from in Ids(Read(file)) && Read(UnlinkedFrom(file, from, to)) == UnlinkedFrom(Read(file), from, to)
  {
    ReadIds(file);
    ReadFind(file, from);
    NodeUnlinkedBoth(file[Find(file, from).value], to, "");
    hide Unlinked;
  }

  lemma NodeLinkIsRead(n: Node, to: Id, kind: Kind)
    ensures Unlinked(LinkedOn(Unlinked(n, to), to, kind), "") ==
            if to == "" then Unlinked(n, "") else LinkedOn(Unlinked(Unlinked(n, ""), to), to, kind)
  {
    hide Unlinked, LinkedOn;
    NodeUnlinkedBoth(n, to, "");
    NodeLinkedRead(Unlinked(n, to), to, kind);
    if to == "" { NodeReadAgain(n); }
  }

  /** A link written to the empty name is the removal of the links to it : nothing is read of it. */
  lemma LinkIsRead(file: seq<Node>, from: Id, to: Id, kind: Kind)
    requires from in Ids(file)
    ensures from in Ids(Read(file))
    ensures Read(LinkedTo(file, from, to, kind)) ==
            if to == "" then Read(file) else LinkedTo(Read(file), from, to, kind)
  {
    ReadIds(file);
    hide Unlinked, LinkedOn, Ids, Find;
    ReadFind(file, from);
    NodeLinkIsRead(file[Find(file, from).value], to, kind);
  }

  lemma NodeReadAgain(n: Node)
    ensures Unlinked(Unlinked(n, ""), "") == Unlinked(n, "")
  {
    WithoutAgain(n.success, "");
    WithoutAgain(n.failure, "");
    WithoutAgain(n.always, "");
  }

  lemma LeftIsRead(file: seq<Node>, id: Id)
    ensures Left(Read(file), id) == Read(Left(file, id))
  {
    hide Ids, Find, Unlinked;
    ReadFind(file, id);
    var read, left := Left(Read(file), id), Read(Left(file, id));
    assert |read| == |left|;
    forall i | 0 <= i < |read| ensures read[i] == left[i] {
      assert i < |Left(file, id)|;
    }
  }

  lemma UnlinkedBoth(file: seq<Node>, a: Id, b: Id)
    ensures AllUnlinked(AllUnlinked(file, a), b) == AllUnlinked(AllUnlinked(file, b), a)
  {
    hide Unlinked;
    forall i | 0 <= i < |file| ensures Unlinked(Unlinked(file[i], a), b) == Unlinked(Unlinked(file[i], b), a) {
      NodeUnlinkedBoth(file[i], a, b);
    }
  }

  lemma RemoveIsRead(file: seq<Node>, id: Id)
    ensures Read(Removed(file, id)) == Removed(Read(file), id)
  {
    hide Left, AllUnlinked;
    LeftIsRead(file, id);
    UnlinkedBoth(Left(file, id), id, "");
  }

  lemma AddIsRead(file: seq<Node>, id: Id, from: Option<Link>)
    requires id != "" && (from.Some? ==> from.value.from in Ids(file + [NewNode(id)]))
    ensures from.Some? ==> from.value.from in Ids(Read(file) + [NewNode(id)])
    ensures Read(Added(file, id, from)) == Added(Read(file), id, from)
  {
    var more := file + [NewNode(id)];
    ReadIds(more);
    assert Read(more) == Read(file) + [NewNode(id)];
    if from.Some? {
      ReadFind(more, from.value.from);
      NodeLinkedRead(more[Find(more, from.value.from).value], id, from.value.kind);
      hide Unlinked, LinkedOn;
    }
  }

  // ─── which edits keep what is read consistent ────────────────────────────────

  lemma UnlinkKeepsRead(file: seq<Node>, from: Id, to: Id)
    requires Consistent(Read(file)) && from in Ids(file)
    ensures Consistent(Read(UnlinkedFrom(file, from, to)))
  {
    hide Consistent;
    UnlinkIsRead(file, from, to);
    UnlinkKeeps(Read(file), from, to);
  }

  /** A link keeps the workflow read consistent exactly when it is to a node there is, or to none. */
  lemma LinkKeepsRead(file: seq<Node>, from: Id, to: Id, kind: Kind)
    requires Consistent(Read(file)) && from in Ids(file)
    ensures Consistent(Read(LinkedTo(file, from, to, kind))) <==> to == "" || to in Ids(file)
  {
    hide Consistent;
    LinkIsRead(file, from, to, kind);
    ReadIds(file);
    LinkKeeps(Read(file), from, to, kind);
  }

  lemma RemoveKeepsRead(file: seq<Node>, id: Id)
    requires Consistent(Read(file))
    ensures Consistent(Read(Removed(file, id)))
  {
    hide Consistent;
    RemoveIsRead(file, id);
    RemoveKeeps(Read(file), id);
  }

  lemma AddKeepsRead(file: seq<Node>, id: Id, from: Option<Link>)
    requires Consistent(Read(file)) && id !in Ids(file) && id != ""
    requires from.Some? ==> from.value.from in Ids(file + [NewNode(id)])
    ensures Consistent(Read(Added(file, id, from)))
  {
    hide Consistent;
    AddIsRead(file, id, from);
    ReadIds(file);
    AddKeeps(Read(file), id, from);
  }

  /** A node's links, the empty ones included, hold the empty name once at most. */
  predicate OneEmptyAtMost(file: seq<Node>) {
    forall i {:trigger file[i]} :: 0 <= i < |file| ==> multiset(file[i].AllLinks())[""] <= 1
  }

  /** To the name it had, or to one no node has, unless the node is nameless and two links of one node
      to the empty name become two links to it. */
  predicate RenameAllowed(file: seq<Node>, a: Id, b: Id) {
    b == a || (b !in Ids(file) && (a == "" ==> OneEmptyAtMost(file)))
  }

  lemma NamedIds(file: seq<Node>, a: Id, b: Id)
    requires UniqueIds(file) && a in Ids(file)
    ensures UniqueIds(Read(Renamed(file, a, b))) <==> b == a || b !in Ids(file)
    ensures b !in Ids(file) ==> Ids(Read(Renamed(file, a, b))) == Ids(file) - {a} + {b}
  {
    var after := Renamed(file, a, b);
    ReadIds(after);
    if b == a || b !in Ids(file) {
      RenamedIds(file, a, b);
    } else {
      var at := Find(file, a).value;
      var i := IdAt(file, b);
      assert after[i].id == after[at].id;
    }
  }

  lemma RenameToNoneKeeps(file: seq<Node>, a: Id)
    requires Consistent(Read(file)) && a in Ids(file) && "" !in Ids(file)
    ensures Consistent(Read(Renamed(file, a, "")))
  {
    ReadIds(file);
    NamedIds(file, a, "");
    NamelessIsCutOff(file, a);
    var after := Read(Renamed(file, a, ""));
    forall i | 0 <= i < |after| ensures WellLinked(after[i], Ids(after)) {
      assert WellLinked(Read(file)[i], Ids(file));
      UnlinkedIsWell(Read(file)[i], a, Ids(file));
    }
  }

  // ─── a nameless node named ───────────────────────────────────────────────────

  lemma {:induction false} DistinctCounts(list: seq<Id>)
    ensures Distinct(list) <==> forall x :: multiset(list)[x] <= 1
  {
    if list != [] {
      var front, last := list[..|list| - 1], list[|list| - 1];
      assert list == front + [last];
      DistinctCounts(front);
      assert multiset(list) == multiset(front) + multiset{last};
      assert last in front <==> multiset(front)[last] > 0;
      assert forall i :: 0 <= i < |front| ==> front[i] == list[i];
      if Distinct(list) {
        assert last !in front && Distinct(front);
      } else if Distinct(front) && last !in front {
        assert false;
      } else if last in front {
        assert multiset(list)[last] > 1;
      } else {
        var x :| multiset(front)[x] > 1;
        assert multiset(list)[x] > 1;
      }
    }
  }

  lemma {:induction false} ReplacedCounts(list: seq<Id>, b: Id, x: Id)
    requires b != "" && b !in list
    ensures multiset(Replaced(list, "", b))[x] ==
            if x == "" then 0 else if x == b then multiset(list)[""] else multiset(list)[x]
  {
    if list != [] {
      var front, last := list[..|list| - 1], list[|list| - 1];
      assert list == front + [last];
      ReplacedCounts(front, b, x);
      ReplacedLast(front, last, "", b);
    }
  }

  lemma {:induction false} WithoutCounts(list: seq<Id>, x: Id)
    ensures multiset(Without(list, ""))[x] == if x == "" then 0 else multiset(list)[x]
  {
    if list != [] {
      var front, last := list[..|list| - 1], list[|list| - 1];
      assert list == front + [last];
      WithoutCounts(front, x);
      WithoutLast(front, last, "");
    }
  }

  lemma {:induction false} ReplacedOnce(list: seq<Id>, b: Id)
    requires b != "" && b !in list && Distinct(Without(list, ""))
    ensures Distinct(Replaced(list, "", b)) <==> multiset(list)[""] <= 1
  {
    DistinctCounts(Without(list, ""));
    DistinctCounts(Replaced(list, "", b));
    hide Distinct, Without, Replaced;
    forall x
      ensures multiset(Without(list, ""))[x] == if x == "" then 0 else multiset(list)[x]
      ensures multiset(Replaced(list, "", b))[x] ==
              if x == "" then 0 else if x == b then multiset(list)[""] else multiset(list)[x]
    {
      WithoutCounts(list, x);
      ReplacedCounts(list, b, x);
    }
    assert multiset(Replaced(list, "", b))[b] == multiset(list)[""];
    assert forall x :: x != "" ==> multiset(list)[x] == multiset(Without(list, ""))[x] <= 1;
  }

  /** A nameless node named : its links, as they are read then. */
  lemma FoundLinks(file: seq<Node>, b: Id, i: nat)
    requires "" in Ids(file) && b != "" && i < |file|
    ensures i < |Read(Renamed(file, "", b))|
    ensures Read(Renamed(file, "", b))[i].AllLinks() == Replaced(file[i].AllLinks(), "", b)
  {
    RenamedRead(file, "", b, i);
    var n := Named(file, "", b)[i];
    RelinkedLinks(n, "", b);
    UnlinkedLinks(Relinked(n, "", b), "");
    hide Ids, Renamed, Read, Named, Relinked, Unlinked, Without;
    WithoutNone(Replaced(file[i].AllLinks(), "", b), "");
  }

  lemma FoundIsWell(n: Node, m: Node, ids: set<Id>, b: Id)
    requires Distinct(Without(n.AllLinks(), "")) && (forall x :: x in n.AllLinks() && x != "" ==> x in ids)
    requires b != "" && b !in ids && m.AllLinks() == Replaced(n.AllLinks(), "", b)
    ensures WellLinked(m, ids - {""} + {b}) <==> multiset(n.AllLinks())[""] <= 1
  {
    ReplacedOnce(n.AllLinks(), b);
    hide Distinct, Without;
    assert forall x :: x in m.AllLinks() ==> x == b || (x in n.AllLinks() && x != "");
  }

  lemma ReadLinks(file: seq<Node>, i: nat)
    requires Consistent(Read(file)) && i < |file|
    ensures Distinct(Without(file[i].AllLinks(), ""))
    ensures forall x :: x in file[i].AllLinks() && x != "" ==> x in Ids(file)
  {
    ReadIds(file);
    UnlinkedLinks(file[i], "");
    hide Unlinked, Distinct, Ids, UniqueIds;
    assert WellLinked(Read(file)[i], Ids(file));
    assert forall x :: x in file[i].AllLinks() && x != "" ==> x in Without(file[i].AllLinks(), "");
  }

  lemma NamedIsWell(file: seq<Node>, b: Id, i: nat)
    requires Consistent(Read(file)) && "" in Ids(file) && b != "" && b !in Ids(file) && i < |file|
    ensures i < |Read(Renamed(file, "", b))|
    ensures WellLinked(Read(Renamed(file, "", b))[i], Ids(file) - {""} + {b}) <==> multiset(file[i].AllLinks())[""] <= 1
  {
    hide Consistent, Read, Renamed, WellLinked, Ids, Distinct, Without;
    ReadLinks(file, i);
    FoundLinks(file, b, i);
    FoundIsWell(file[i], Read(Renamed(file, "", b))[i], Ids(file), b);
  }

  lemma WellEverywhere(file: seq<Node>, after: seq<Node>)
    requires |after| == |file| && UniqueIds(after)
    requires forall i :: 0 <= i < |file| ==>
      (WellLinked(after[i], Ids(after)) <==> multiset(file[i].AllLinks())[""] <= 1)
    ensures Consistent(after) <==> OneEmptyAtMost(file)
  {
    hide WellLinked, UniqueIds, Ids;
    if OneEmptyAtMost(file) {
      assert forall i :: 0 <= i < |after| ==> WellLinked(after[i], Ids(after));
    } else {
      var i :| 0 <= i < |file| && !(multiset(file[i].AllLinks())[""] <= 1);
      assert !WellLinked(after[i], Ids(after));
    }
  }

  lemma NamingKeeps(file: seq<Node>, b: Id)
    requires Consistent(Read(file)) && "" in Ids(file) && b != "" && b !in Ids(file)
    ensures Consistent(Read(Renamed(file, "", b))) <==> OneEmptyAtMost(file)
  {
    ConsistentIsUnique(file);
    hide Consistent, OneEmptyAtMost, Ids, Renamed, Read, UniqueIds, WellLinked;
    NamedIds(file, "", b);
    ReadIds(file);
    SameLength(file, "", b);
    var after := Read(Renamed(file, "", b));
    forall i | 0 <= i < |file| ensures WellLinked(after[i], Ids(after)) <==> multiset(file[i].AllLinks())[""] <= 1 {
      NamedIsWell(file, b, i);
    }
    WellEverywhere(file, after);
  }

  lemma ConsistentIsUnique(file: seq<Node>)
    requires Consistent(Read(file))
    ensures UniqueIds(file)
  {
    ReadIds(file);
  }

  lemma RenamedToItself(file: seq<Node>, a: Id)
    requires a in Ids(file)
    ensures Renamed(file, a, a) == file
  {
    forall i | 0 <= i < |file| ensures Relinked(file[i], a, a) == file[i] {
      ReplacedBySame(file[i].success, a);
      ReplacedBySame(file[i].failure, a);
      ReplacedBySame(file[i].always, a);
    }
    hide Relinked;
  }

  /** A rename keeps the workflow read consistent exactly when it is allowed. */
  lemma RenameKeepsRead(file: seq<Node>, a: Id, b: Id)
    requires Consistent(Read(file)) && a in Ids(file)
    ensures Consistent(Read(Renamed(file, a, b))) <==> RenameAllowed(file, a, b)
  {
    ReadIds(file);
    hide Ids, Renamed, WellLinked;
    if b == a {
      RenamedToItself(file, a);
    } else if b in Ids(file) {
      NamedIds(file, a, b);
    } else if b == "" {
      RenameToNoneKeeps(file, a);
    } else if a == "" {
      NamingKeeps(file, b);
    } else {
      RenameIsRead(file, a, b);
      RenameKeeps(Read(file), a, b);
    }
  }

  // ─── any run of edits ────────────────────────────────────────────────────────

  datatype Edit =
    | Add(wanted: Id, link: Option<Link>)
    | Remove(node: Id)
    | Rename(node: Id, name: Id)
    | LinkTo(node: Id, to: Id, kind: Kind)
    | Unlink(node: Id, to: Id)

  /** What an edit makes of the file ; one refused (it names a node there is not) leaves it. */
  ghost predicate Makes(file: seq<Node>, e: Edit, after: seq<Node>) {
    match e
    case Add(wanted, link) =>
      var from := if link.Some? && link.value.from != "" then link else None;
      exists id ::
        IsFreeName(Wanted(wanted), IdentifiersOf(file), id)
        && after == if from.Some? && from.value.from !in Ids(file + [NewNode(id)]) then file else Added(file, id, from)
    case Remove(id) => after == Removed(file, id)
    case Rename(id, to) => after == if id in Ids(file) then Renamed(file, id, to) else file
    case LinkTo(from, to, kind) => after == if from in Ids(file) then LinkedTo(file, from, to, kind) else file
    case Unlink(from, to) => after == if from in Ids(file) then UnlinkedFrom(file, from, to) else file
  }

  /** A rename as said above, a link to a node there is or to the empty name, any other edit. */
  predicate Allowed(file: seq<Node>, e: Edit) {
    match e
    case Add(_, _) => true
    case Remove(_) => true
    case Rename(id, to) => id in Ids(file) ==> RenameAllowed(file, id, to)
    case LinkTo(from, to, _) => from in Ids(file) ==> to == "" || to in Ids(file)
    case Unlink(_, _) => true
  }

  lemma IdentifiersAre(nodes: seq<Node>, id: Id)
    ensures id in IdentifiersOf(nodes) <==> id in Ids(nodes)
  {
    if id in Ids(nodes) {
      var i := IdAt(nodes, id);
      assert IdentifiersOf(nodes)[i] == id;
    }
  }

  lemma FreeNameIsOne(wanted: Id, taken: seq<Id>, id: Id)
    requires IsFreeName(Wanted(wanted), taken, id)
    ensures id != ""
  {
  }

  lemma AddMakesConsistent(file: seq<Node>, wanted: Id, link: Option<Link>, after: seq<Node>)
    requires Consistent(Read(file)) && Makes(file, Add(wanted, link), after)
    ensures Consistent(Read(after))
  {
    var from := if link.Some? && link.value.from != "" then link else None;
    var id :| IsFreeName(Wanted(wanted), IdentifiersOf(file), id)
      && after == if from.Some? && from.value.from !in Ids(file + [NewNode(id)]) then file else Added(file, id, from);
    IdentifiersAre(file, id);
    FreeNameIsOne(wanted, IdentifiersOf(file), id);
    hide Consistent;
    assert id !in IdentifiersOf(file);
    if after != file {
      AddKeepsRead(file, id, from);
    }
  }

  /** An edit of a file that reads consistent leaves it so exactly when it is an allowed one. */
  lemma EditKeeps(file: seq<Node>, e: Edit, after: seq<Node>)
    requires Consistent(Read(file)) && Makes(file, e, after)
    ensures Consistent(Read(after)) <==> Allowed(file, e)
  {
    hide Consistent, Read, RenameAllowed;
    match e
    case Add(wanted, link) =>
      AddMakesConsistent(file, wanted, link, after);
    case Remove(id) =>
      RemoveKeepsRead(file, id);
    case Rename(id, to) =>
      if id in Ids(file) { RenameKeepsRead(file, id, to); }
    case LinkTo(from, to, kind) =>
      if from in Ids(file) { LinkKeepsRead(file, from, to, kind); }
    case Unlink(from, to) =>
      if from in Ids(file) { UnlinkKeepsRead(file, from, to); }
  }

  /** The file after each edit of a run, from the one it starts with. */
  ghost predicate EditRun(files: seq<seq<Node>>, edits: seq<Edit>) {
    |files| == |edits| + 1 && forall i :: 0 <= i < |edits| ==> Makes(files[i], edits[i], files[i + 1])
  }

  /** Any run of allowed edits keeps what is read consistent. */
  lemma {:induction false} EditRunKeeps(files: seq<seq<Node>>, edits: seq<Edit>, k: nat)
    requires EditRun(files, edits) && Consistent(Read(files[0])) && k < |files|
    requires forall i :: 0 <= i < k ==> Allowed(files[i], edits[i])
    ensures Consistent(Read(files[k]))
  {
    hide Consistent, Makes, Allowed, Read;
    if k > 0 {
      EditRunKeeps(files, edits, k - 1);
      EditKeeps(files[k - 1], edits[k - 1], files[k - 1 + 1]);
    }
  }

  // ─── edits that are let through ──────────────────────────────────────────────

  /** a leads to b on success. */
  const NODE_A := Node("a", false, ["b"], [], [])
  const NODE_B := Node("b", false, [], [], [])
  const TWO_NODES := [NODE_A, NODE_B]

  lemma NodeReadSame(n: Node)
    requires "" !in n.AllLinks()
    ensures Unlinked(n, "") == n
  {
    WithoutNone(n.success, "");
    WithoutNone(n.failure, "");
    WithoutNone(n.always, "");
  }

  lemma TwoNodes()
    ensures NODE_A.AllLinks() == ["b"] && NODE_B.AllLinks() == [] && NODE_A.id == "a" && NODE_B.id == "b" && "a" != "b"
    ensures Ids(TWO_NODES) == {"a", "b"}
  {
    assert TWO_NODES[0] == NODE_A && TWO_NODES[1] == NODE_B;
    assert Ids(TWO_NODES) == {NODE_A.id, NODE_B.id};
  }

  lemma TwoNodesAreRead()
    ensures Read(TWO_NODES) == TWO_NODES && Consistent(TWO_NODES)
  {
    TwoNodes();
    NodeReadSame(NODE_A);
    NodeReadSame(NODE_B);
    hide Ids, Unlinked;
    forall i | 0 <= i < |TWO_NODES| ensures WellLinked(TWO_NODES[i], Ids(TWO_NODES)) {
    }
  }

  /** Renaming one node to the other's name, or linking it to a node there is not, is let through. */
  lemma LetThrough()
    ensures Consistent(Read(TWO_NODES))
    ensures !Consistent(Read(Renamed(TWO_NODES, "b", "a"))) && !Consistent(Read(LinkedTo(TWO_NODES, "b", "c", Always)))
  {
    TwoNodes();
    TwoNodesAreRead();
    hide Consistent, Read, Renamed, LinkedTo, Ids;
    RenameKeepsRead(TWO_NODES, "b", "a");
    LinkKeepsRead(TWO_NODES, "b", "c", Always);
  }
}
