/** The widths of a table's flexible columns in the room there is : the narrow ones whole, the wide
    ones sharing what is left equally. */
module ColumnSharing {

  function Sum(s: seq<int>): int {
    if s == [] then 0 else Sum(s[..|s| - 1]) + s[|s| - 1]
  }

  lemma {:induction false} SumIs(a: seq<int>, b: seq<int>, width: int)
    ensures Sum([]) == 0 && Sum([width]) == width && Sum(a + b) == Sum(a) + Sum(b)
  {
    assert [width][..0] == [];
    if b == [] {
      assert a + b == a;
    } else {
      assert (a + b)[..|a + b| - 1] == a + b[..|b| - 1];
      SumIs(a, b[..|b| - 1], width);
    }
  }

  predicate Natural(widths: seq<int>) {
    forall i :: 0 <= i < |widths| ==> 0 <= widths[i]
  }

  function Capped(natural: seq<int>, level: int): (widths: seq<int>)
    ensures |widths| == |natural|
  {
    seq(|natural|, i requires 0 <= i < |natural| => if natural[i] < level then natural[i] else level)
  }

  /** The level all fit under : the widths capped there fit the room, one more does not. */
  ghost predicate BestLevel(natural: seq<int>, room: real, level: int) {
    Sum(Capped(natural, level)) as real <= room < Sum(Capped(natural, level + 1)) as real
  }

  // ─── the columns from the narrowest to the widest ────────────────────────────

  predicate Within(order: seq<int>, n: int) {
    forall i :: 0 <= i < |order| ==> 0 <= order[i] < n
  }

  ghost predicate Holds(order: seq<int>, v: int) {
    exists i :: 0 <= i < |order| && order[i] == v
  }

  ghost predicate Once(order: seq<int>) {
    forall i, j :: 0 <= i < j < |order| ==> order[i] != order[j]
  }

  ghost predicate Onto(order: seq<int>, n: int) {
    forall v :: 0 <= v < n ==> Holds(order, v)
  }

  ghost predicate Permutation(order: seq<int>, n: int) {
    |order| == n && Within(order, n) && Once(order) && Onto(order, n)
  }

  ghost predicate Ascending(natural: seq<int>, order: seq<int>) {
    Within(order, |natural|) && forall i, j :: 0 <= i < j < |order| ==> natural[order[i]] <= natural[order[j]]
  }

  /** The indices sorted by width. */
  method SortedOrder(natural: seq<int>) returns (order: seq<int>)
    ensures Permutation(order, |natural|) && Ascending(natural, order)
  {
    order := [];
    for n := 0 to |natural|
      invariant Permutation(order, n) && Ascending(natural, order)
    {
      var k := n;
      while k > 0 && natural[n] < natural[order[k - 1]]
        invariant 0 <= k <= n
        invariant forall i :: k <= i < n ==> natural[n] < natural[order[i]]
      {
        k := k - 1;
      }
      var more := order[..k] + [n] + order[k..];
      PutInPermutes(order, more, n, k);
      PutInAscends(natural, order, more, n, k);
      order := more;
    }
  }

  /** `more` is `order` with `n` put in at place `k`. */
  ghost predicate PutIn(order: seq<int>, more: seq<int>, n: int, k: int) {
    && 0 <= k <= |order| && |more| == |order| + 1 && more[k] == n
    && (forall i :: 0 <= i < k ==> more[i] == order[i])
    && (forall i :: k < i < |more| ==> more[i] == order[i - 1])
  }

  lemma PutInOnce(order: seq<int>, more: seq<int>, n: nat, k: int)
    requires PutIn(order, more, n, k) && Within(order, n) && Once(order)
    ensures Within(more, n + 1) && Once(more)
  {
  }

  lemma PutInOnto(order: seq<int>, more: seq<int>, n: nat, k: int)
    requires PutIn(order, more, n, k) && Onto(order, n)
    ensures Onto(more, n + 1)
  {
    forall v | 0 <= v < n + 1 ensures Holds(more, v) {
      if v < n {
        assert Holds(order, v);
        var i :| 0 <= i < |order| && order[i] == v;
        assert more[if i < k then i else i + 1] == v;
      }
    }
  }

  lemma PutInPermutes(order: seq<int>, more: seq<int>, n: nat, k: int)
    requires PutIn(order, more, n, k) && Permutation(order, n)
    ensures Permutation(more, n + 1)
  {
    hide Within, Once, Onto;
    PutInOnce(order, more, n, k);
    PutInOnto(order, more, n, k);
  }

  lemma PutInAscends(natural: seq<int>, order: seq<int>, more: seq<int>, n: nat, k: int)
    requires PutIn(order, more, n, k) && n < |natural| && Ascending(natural, order)
    requires k > 0 ==> natural[order[k - 1]] <= natural[n]
    requires forall i :: k <= i < |order| ==> natural[n] < natural[order[i]]
    ensures Ascending(natural, more)
  {
    forall i, j | 0 <= i < j < |more| ensures natural[more[i]] <= natural[more[j]] {
      if j == k {
        assert natural[order[i]] <= natural[order[k - 1]];
      }
    }
  }

  // ─── the sum, in any order ───────────────────────────────────────────────────

  function SumOver(s: seq<int>, order: seq<int>): int
    requires Within(order, |s|)
  {
    if order == [] then 0 else SumOver(s, order[..|order| - 1]) + s[order[|order| - 1]]
  }

  lemma {:induction false} SumOverJoins(s: seq<int>, xs: seq<int>, ys: seq<int>)
    requires Within(xs, |s|) && Within(ys, |s|)
    ensures Within(xs + ys, |s|) && SumOver(s, xs + ys) == SumOver(s, xs) + SumOver(s, ys)
  {
    if ys == [] {
      assert xs + ys == xs;
    } else {
      assert (xs + ys)[..|xs + ys| - 1] == xs + ys[..|ys| - 1];
      SumOverJoins(s, xs, ys[..|ys| - 1]);
    }
  }

  lemma {:induction false} SumOverFront(s: seq<int>, order: seq<int>, n: nat)
    requires n <= |s| && Within(order, n)
    ensures Within(order, |s|) && SumOver(s[..n], order) == SumOver(s, order)
  {
    if order != [] {
      SumOverFront(s, order[..|order| - 1], n);
    }
  }

  lemma JoinedWithin(a: seq<int>, b: seq<int>, n: int)
    requires Within(a + b, n)
    ensures Within(a, n) && Within(b, n) && Within(a, n + 1) && Within(b, n + 1)
  {
    assert forall i :: 0 <= i < |a| ==> a[i] == (a + b)[i];
    assert forall i :: 0 <= i < |b| ==> b[i] == (a + b)[|a| + i];
  }

  lemma {:induction false} SumOverSplits(s: seq<int>, a: seq<int>, b: seq<int>, i: nat)
    requires i < |s| && Within(a, |s|) && Within(b, |s|)
    ensures Within(a + b, |s|) && Within(a + [i] + b, |s|)
    ensures SumOver(s, a + [i] + b) == SumOver(s, a + b) + s[i]
  {
    SumOverJoins(s, a, b);
    SumOverJoins(s, a, [i]);
    SumOverJoins(s, a + [i], b);
    assert [i][..0] == [];
  }

  /** `order` is `rest` with `n - 1` put in : `rest` permutes the others. */
  lemma RestPermutes(order: seq<int>, rest: seq<int>, n: nat, k: int)
    requires n > 0 && Permutation(order, n) && PutIn(rest, order, n - 1, k)
    ensures Permutation(rest, n - 1)
  {
    RestOnce(order, rest, n, k);
    RestOnto(order, rest, n, k);
  }

  lemma RestOnce(order: seq<int>, rest: seq<int>, n: nat, k: int)
    requires n > 0 && Within(order, n) && Once(order) && PutIn(rest, order, n - 1, k)
    ensures Within(rest, n - 1) && Once(rest)
  {
    forall i | 0 <= i < |rest| ensures rest[i] == order[if i < k then i else i + 1] && rest[i] != order[k] {
    }
    forall i, j | 0 <= i < j < |rest| ensures rest[i] != rest[j] {
      assert order[if i < k then i else i + 1] != order[if j < k then j else j + 1];
    }
  }

  lemma RestOnto(order: seq<int>, rest: seq<int>, n: nat, k: int)
    requires n > 0 && Onto(order, n) && PutIn(rest, order, n - 1, k)
    ensures Onto(rest, n - 1)
  {
    forall v | 0 <= v < n - 1 ensures Holds(rest, v) {
      assert Holds(order, v);
      var i :| 0 <= i < |order| && order[i] == v;
      assert rest[if i < k then i else i - 1] == v;
    }
  }

  /** Whatever the order the columns are taken in, they sum up to the same. */
  lemma {:induction false} SumInAnyOrder(s: seq<int>, order: seq<int>)
    requires Permutation(order, |s|)
    ensures SumOver(s, order) == Sum(s)
  {
    hide Permutation, Within;
    if s != [] {
      var a, b := LastOut(order, |s|);
      SumInAnyOrder(s[..|s| - 1], a + b);
      LastApart(s, a, b);
    } else {
      OrderOfNone(order);
    }
  }

  lemma OrderOfNone(order: seq<int>)
    requires Permutation(order, 0)
    ensures order == []
  {
  }

  /** The last index, taken out of the order, leaves an order of the others. */
  lemma LastOut(order: seq<int>, n: int) returns (a: seq<int>, b: seq<int>)
    requires Permutation(order, n) && n > 0
    ensures order == a + [n - 1] + b && Permutation(a + b, n - 1) && Within(a + b, n - 1)
  {
    hide Once, Onto;
    var k := PlaceOf(order, n);
    a, b := order[..k], order[k + 1..];
    RestPermutes(order, a + b, n, k);
  }

  lemma PlaceOf(order: seq<int>, n: int) returns (k: nat)
    requires Onto(order, n) && n > 0
    ensures k < |order| && order[k] == n - 1
  {
    assert Holds(order, n - 1);
    k :| 0 <= k < |order| && order[k] == n - 1;
  }

  lemma {:induction false} LastApart(s: seq<int>, a: seq<int>, b: seq<int>)
    requires s != [] && Within(a + b, |s| - 1)
    ensures Within(a + [|s| - 1] + b, |s|)
    ensures SumOver(s, a + [|s| - 1] + b) == SumOver(s[..|s| - 1], a + b) + s[|s| - 1]
  {
    hide Within, SumOver;
    JoinedWithin(a, b, |s| - 1);
    SumOverFront(s, a + b, |s| - 1);
    SumOverSplits(s, a, b, |s| - 1);
  }

  // ─── sharing the room ────────────────────────────────────────────────────────

  /** The first `k` columns whole, the others at `level` : what the first `m` sum up to. */
  lemma {:induction false} CappedSum(natural: seq<int>, order: seq<int>, level: int, k: nat, m: nat)
    requires Ascending(natural, order) && k <= m <= |order|
    requires forall i :: 0 <= i < k ==> natural[order[i]] <= level
    requires forall i :: k <= i < m ==> level <= natural[order[i]]
    ensures SumOver(Capped(natural, level), order[..m]) == SumOver(natural, order[..k]) + (m - k) * level
    decreases m
  {
    if m > 0 {
      assert order[..m][..m - 1] == order[..m - 1];
      if k < m {
        CappedSum(natural, order, level, k, m - 1);
        assert (m - k) * level == (m - 1 - k) * level + level;
      } else {
        CappedSum(natural, order, level, k - 1, m - 1);
        assert order[..k][..k - 1] == order[..k - 1];
      }
    }
  }

  /** The columns before the `k`th fit whole in the share of each, the `k`th and the wider do not : the
      share, rounded down, is the best level. */
  lemma {:induction false} ShareIsBestLevel(natural: seq<int>, order: seq<int>, k: nat, room: real, share: real)
    requires Permutation(order, |natural|) && Ascending(natural, order) && k < |order|
    requires forall i :: 0 <= i < k ==> natural[order[i]] as real <= share
    requires forall i :: k <= i < |order| ==> share < natural[order[i]] as real
    requires room - SumOver(natural, order[..k]) as real == share * (|order| - k) as real
    ensures BestLevel(natural, room, share.Floor)
  {
    hide Sum, SumOver, Capped, Permutation;
    var level := share.Floor;
    forall i | 0 <= i < k ensures natural[order[i]] <= level {
    }
    forall i | k <= i < |order| ensures level + 1 <= natural[order[i]] {
    }
    LevelSum(natural, order, level, k);
    LevelSum(natural, order, level + 1, k);
    hide Ascending;
    Between(SumOver(natural, order[..k]), level, room, share, |order| - k);
  }

  lemma {:induction false} LevelSum(natural: seq<int>, order: seq<int>, level: int, k: nat)
    requires Permutation(order, |natural|) && Ascending(natural, order) && k <= |order|
    requires forall i :: 0 <= i < k ==> natural[order[i]] <= level
    requires forall i :: k <= i < |order| ==> level <= natural[order[i]]
    ensures Within(order[..k], |natural|)
    ensures Sum(Capped(natural, level)) == SumOver(natural, order[..k]) + (|order| - k) * level
  {
    hide Once, Onto, Sum, SumOver, Capped;
    assert order[..|order|] == order;
    CappedSum(natural, order, level, k, |order|);
    SumInAnyOrder(Capped(natural, level), order);
  }

  lemma Between(taken: int, level: int, room: real, share: real, n: nat)
    requires level as real <= share < (level + 1) as real && n > 0
    requires room - taken as real == share * n as real
    ensures (taken + n * level) as real <= room < (taken + n * (level + 1)) as real
  {
    assert (n * level) as real == (level as real) * (n as real);
    assert (n * (level + 1)) as real == ((level + 1) as real) * (n as real);
    assert (level as real) * (n as real) <= share * n as real < ((level + 1) as real) * (n as real);
  }

  /** A level is best for one room only once : two best levels give the same widths. */
  lemma {:induction false} CappedGrows(natural: seq<int>, level: int, level': int)
    requires level <= level'
    ensures Sum(Capped(natural, level)) <= Sum(Capped(natural, level'))
  {
    if natural != [] {
      var front := natural[..|natural| - 1];
      CappedGrows(front, level, level');
      assert Capped(natural, level)[..|front|] == Capped(front, level);
      assert Capped(natural, level')[..|front|] == Capped(front, level');
    }
  }

  lemma OneBestLevel(natural: seq<int>, room: real, level: int, level': int)
    requires BestLevel(natural, room, level) && BestLevel(natural, room, level')
    ensures level == level'
  {
    if level < level' {
      CappedGrows(natural, level + 1, level');
    } else if level' < level {
      CappedGrows(natural, level' + 1, level);
    }
  }

  /** The first `k` columns whole, the others at `level`. */
  ghost predicate Shared(natural: seq<int>, order: seq<int>, widths: seq<int>, level: int, k: int)
    requires |widths| == |natural| && Within(order, |natural|)
  {
    && (forall i :: 0 <= i < |order| && i < k ==> widths[order[i]] == natural[order[i]])
    && (forall i :: 0 <= i < |order| && k <= i ==> widths[order[i]] == level)
  }

  lemma SharedIsCapped(natural: seq<int>, order: seq<int>, widths: seq<int>, level: int, k: int)
    requires Permutation(order, |natural|) && |widths| == |natural| && Shared(natural, order, widths, level, k)
    requires forall i :: 0 <= i < |order| && i < k ==> natural[order[i]] <= level
    requires forall i :: 0 <= i < |order| && k <= i ==> level <= natural[order[i]]
    ensures widths == Capped(natural, level)
  {
    forall v | 0 <= v < |natural| ensures widths[v] == Capped(natural, level)[v] {
      assert Holds(order, v);
      var i :| 0 <= i < |order| && order[i] == v;
    }
  }

  lemma {:induction false} NoRoomNoWidth(natural: seq<int>)
    requires Natural(natural)
    ensures 0 <= Sum(natural)
    ensures Sum(natural) == 0 ==> forall i :: 0 <= i < |natural| ==> natural[i] == 0
  {
    if natural != [] {
      NoRoomNoWidth(natural[..|natural| - 1]);
      assert natural == natural[..|natural| - 1] + [natural[|natural| - 1]];
    }
  }

  /** Every column fits whole in what is left to share : then so do all together. */
  lemma {:induction false} AllTaken(natural: seq<int>, order: seq<int>, room: real, left: real)
    requires Natural(natural) && Permutation(order, |natural|) && Sum(natural) as real > room
    requires 0.0 <= left == Room(room) - SumOver(natural, order) as real
    ensures room < 0.0 && forall i :: 0 <= i < |natural| ==> natural[i] == 0
  {
    SumInAnyOrder(natural, order);
    NoRoomNoWidth(natural);
  }

  /** The share of the columns left, when the next one is taken whole, is no smaller. */
  lemma ShareGrows(width: int, left: real, count: int)
    requires count > 0 && width as real <= left / count as real
    ensures FitEach(width, count - 1, left - width as real)
    ensures 0 <= width ==> 0.0 <= left - width as real
  {
    var share := left / count as real;
    assert share * count as real == left;
    assert (width as real) * (count as real) <= left;
    assert (width * count) as real == (width as real) * (count as real);
    assert (width * (count - 1)) as real == (width as real) * (count as real) - width as real;
    assert 0 <= width ==> 0 <= width * (count - 1);
  }

  function Room(room: real): real {
    if room > 0.0 then room else 0.0
  }

  /** So many columns of that width fit in what is left. */
  ghost predicate FitEach(width: int, count: int, left: real) {
    (width * count) as real <= left
  }

  /** The first `k` columns have their whole width, and the last of them fits in the share of each left. */
  ghost predicate Taking(natural: seq<int>, order: seq<int>, widths: seq<int>, k: int, room: real, left: real) {
    && |widths| == |natural| && Permutation(order, |natural|) && Ascending(natural, order) && 0 <= k <= |natural|
    && Within(order[..k], |natural|) && left == Room(room) - SumOver(natural, order[..k]) as real && 0.0 <= left
    && (forall i :: 0 <= i < k ==> widths[order[i]] == natural[order[i]])
    && (k > 0 ==> FitEach(natural[order[k - 1]], |natural| - k, left))
  }

  lemma StartTaking(natural: seq<int>, order: seq<int>, widths: seq<int>, room: real)
    requires |widths| == |natural| && Permutation(order, |natural|) && Ascending(natural, order)
    ensures Taking(natural, order, widths, 0, room, Room(room))
  {
  }

  /** When none is left, every column has its whole width, which only no room at all allows. */
  lemma {:induction false} NoneLeft(natural: seq<int>, order: seq<int>, widths: seq<int>, room: real, left: real)
    requires Natural(natural) && Sum(natural) as real > room
    requires Taking(natural, order, widths, |natural|, room, left)
    ensures room < 0.0 && widths == Capped(natural, 0)
  {
    hide Taking, SumOver, Once, Onto, Sum;
    TakenWhole(natural, order, widths, room, left);
    AllTaken(natural, order, room, left);
    SharedIsCapped(natural, order, widths, 0, |natural|);
  }

  lemma {:induction false} TakenWhole(natural: seq<int>, order: seq<int>, widths: seq<int>, room: real, left: real)
    requires Taking(natural, order, widths, |natural|, room, left)
    ensures Permutation(order, |natural|) && |widths| == |natural|
    ensures 0.0 <= left == Room(room) - SumOver(natural, order) as real
    ensures forall i :: 0 <= i < |order| ==> widths[order[i]] == natural[order[i]]
  {
    hide SumOver, FitEach, Room, Once, Onto;
    assert order[..|natural|] == order;
  }

  lemma TakeNext(natural: seq<int>, order: seq<int>, widths: seq<int>, k: int, room: real, left: real)
    requires Natural(natural) && Taking(natural, order, widths, k, room, left) && k < |natural|
    requires natural[order[k]] as real <= left / (|natural| - k) as real
    ensures Taking(natural, order, widths[order[k] := natural[order[k]]], k + 1, room, left - natural[order[k]] as real)
  {
    var w := natural[order[k]];
    ShareGrows(w, left, |natural| - k);
    SumOverNext(natural, order, k);
    OneMoreWhole(natural, order, widths, k);
    hide Permutation, Ascending, SumOver, FitEach;
  }

  lemma {:induction false} SumOverNext(s: seq<int>, order: seq<int>, k: int)
    requires Within(order, |s|) && 0 <= k < |order|
    ensures Within(order[..k], |s|) && Within(order[..k + 1], |s|)
    ensures SumOver(s, order[..k + 1]) == SumOver(s, order[..k]) + s[order[k]]
  {
    assert order[..k + 1][..k] == order[..k];
  }

  lemma OneMoreWhole(natural: seq<int>, order: seq<int>, widths: seq<int>, k: int)
    requires |widths| == |natural| && Within(order, |natural|) && Once(order) && 0 <= k < |order|
    requires forall i :: 0 <= i < k ==> widths[order[i]] == natural[order[i]]
    ensures forall i :: 0 <= i < k + 1 ==> widths[order[k] := natural[order[k]]][order[i]] == natural[order[i]]
  {
  }

  lemma ShareRest(natural: seq<int>, order: seq<int>, widths: seq<int>, k: int, room: real, left: real)
    requires Taking(natural, order, widths, k, room, left) && k < |natural|
    requires left / (|natural| - k) as real < natural[order[k]] as real
    ensures var level := (left / (|natural| - k) as real).Floor;
            && 0 <= level
            && (forall i :: 0 <= i < k ==> natural[order[i]] <= level)
            && (forall i :: k <= i < |order| ==> level <= natural[order[i]])
            && BestLevel(natural, Room(room), level)
  {
    hide Once, Onto, Sum, Capped, SumOver;
    var n := |natural| - k;
    var share := left / n as real;
    Shares(left, n);
    if k > 0 {
      Fits(natural[order[k - 1]], share, n);
    }
    forall i | 0 <= i < k ensures natural[order[i]] as real <= share {
      assert natural[order[i]] <= natural[order[k - 1]];
    }
    forall i | k <= i < |order| ensures share < natural[order[i]] as real {
      assert natural[order[k]] <= natural[order[i]];
    }
    ShareIsBestLevel(natural, order, k, Room(room), share);
  }

  lemma Shares(left: real, n: nat)
    requires n > 0
    ensures (left / n as real) * n as real == left && (0.0 <= left ==> 0.0 <= left / n as real)
  {
  }

  lemma Fits(width: int, share: real, n: nat)
    requires n > 0 && (width * n) as real <= share * n as real
    ensures width as real <= share
  {
    assert (width * n) as real == (width as real) * (n as real);
    assert share < width as real ==> share * n as real < (width as real) * (n as real);
  }

  /** The columns from the `k`th on get the level. */
  method FillRest(widths: array<int>, order: seq<int>, k: int, level: int)
    requires Within(order, widths.Length) && Once(order) && 0 <= k <= |order|
    modifies widths
    ensures forall i :: 0 <= i < k ==> widths[order[i]] == old(widths[order[i]])
    ensures forall i :: k <= i < |order| ==> widths[order[i]] == level
  {
    for m := k to |order|
      invariant forall i :: 0 <= i < k ==> widths[order[i]] == old(widths[order[i]])
      invariant forall i :: k <= i < m ==> widths[order[i]] == level
    {
      widths[order[m]] := level;
    }
  }

  lemma {:induction false} CappedAtNothing(natural: seq<int>, level: int)
    requires Natural(natural) && 0 <= level
    ensures 0 <= Sum(Capped(natural, level)) && (level == 0 ==> Sum(Capped(natural, level)) == 0)
  {
    if natural != [] {
      var front := natural[..|natural| - 1];
      CappedAtNothing(front, level);
      assert Capped(natural, level)[..|front|] == Capped(front, level);
    }
  }

  lemma BestUnderNoRoom(natural: seq<int>, room: real, level: int)
    requires Natural(natural) && 0 <= level && BestLevel(natural, Room(room), level)
    ensures room >= 0.0 ==> BestLevel(natural, room, level)
    ensures room < 0.0 ==> Sum(Capped(natural, level)) == 0
  {
    CappedAtNothing(natural, level);
  }

  /** The columns from the `k`th on do not fit whole : an equal share of what is left for each. */
  method ShareOut(natural: seq<int>, order: seq<int>, widths: array<int>, k: int, room: real, left: real)
    returns (ghost level: int)
    requires Taking(natural, order, widths[..], k, room, left) && k < |natural|
    requires left / (|natural| - k) as real < natural[order[k]] as real
    modifies widths
    ensures 0 <= level && widths[..] == Capped(natural, level) && BestLevel(natural, Room(room), level)
  {
    hide Sum, SumOver, Capped, BestLevel, Room;
    var share := left / (|natural| - k) as real;
    level := share.Floor;
    ShareRest(natural, order, widths[..], k, room, left);
    FillRest(widths, order, k, share.Floor);
    SharedIsCapped(natural, order, widths[..], level, k);
  }

  lemma CappedAt(natural: seq<int>, widths: seq<int>, level: int)
    requires widths == Capped(natural, level)
    ensures |widths| == |natural|
    ensures forall i :: 0 <= i < |natural| ==> widths[i] == if natural[i] < level then natural[i] else level
  {
  }

  /** The widths of the columns ; none when they all fit as they are. */
  method ShareWidths(natural: seq<int>, room: real) returns (widths: array?<int>, ghost level: int)
    requires Natural(natural)
    ensures widths == null <==> Sum(natural) as real <= room
    ensures widths != null ==> fresh(widths) && 0 <= level && widths.Length == |natural|
    ensures widths != null ==>
              forall i :: 0 <= i < |natural| ==> widths[i] == if natural[i] < level then natural[i] else level
    ensures widths != null && room >= 0.0 ==> BestLevel(natural, room, level)
    ensures widths != null && room < 0.0 ==> Sum(widths[..]) == 0
  {
    level := 0;
    if Sum(natural) as real <= room {
      return null, level;
    }
    var n := |natural|;
    widths := new int[n];
    var order := SortedOrder(natural);
    var left := Room(room);
    StartTaking(natural, order, widths[..], room);
    hide Taking, Ascending, Onto, Sum, SumOver, Capped, BestLevel;
    var k := 0;
    while k < n
      invariant 0 <= k <= n && widths.Length == n
      invariant Taking(natural, order, widths[..], k, room, left)
    {
      var i := order[k];
      if natural[i] as real <= left / (n - k) as real {
        TakeNext(natural, order, widths[..], k, room, left);
        widths[i] := natural[i];
        left := left - natural[i] as real;
        k := k + 1;
      } else {
        level := ShareOut(natural, order, widths, k, room, left);
        BestUnderNoRoom(natural, room, level);
        CappedAt(natural, widths[..], level);
        return;
      }
    }
    NoneLeft(natural, order, widths[..], room, left);
    CappedAtNothing(natural, 0);
    CappedAt(natural, widths[..], 0);
  }
}
