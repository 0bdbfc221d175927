/** Branch speculation and the instruction-order shadows: when a cancelled unit blocks the ones that live. */
module SpeculationOrder {
  import opened Gates
  import opened Speculation
  import S = ShadowCell

  /** x comes before y in issue order. */
  ghost predicate Before(age: seq<nat>, x: nat, y: nat) {
    exists i, j :: 0 <= i < j < |age| && age[i] == x && age[j] == y
  }

  /** The units in flight without those gone, in the same order. */
  function Without(age: seq<nat>, gone: set<nat>): seq<nat> {
    if |age| == 0 then []
    else
      var rest := Without(age[..|age| - 1], gone);
      if age[|age| - 1] in gone then rest else rest + [age[|age| - 1]]
  }

  predicate Distinct(age: seq<nat>) { forall i, j :: 0 <= i < j < |age| ==> age[i] != age[j] }

  function Dying(cfg: Config, s: State, i: Input): set<nat>
    requires Shaped(cfg, s)
  {
    set u | 0 <= u < cfg.n && Dies(cfg, s, i, u)
  }

  ghost function Joined(kept: seq<nat>, issue: set<nat>): seq<nat> {
    if issue == {} then kept else var z :| z in issue; kept + [z]
  }

  /** Units in flight in issue order, after a cycle. */
  ghost function NextAge(cfg: Config, s: State, i: Input, age: seq<nat>): seq<nat>
    requires Shaped(cfg, s)
  {
    Joined(Without(age, i.goWr + Dying(cfg, s, i)), i.issue)
  }

  ghost predicate InRange(cfg: Config, s: State, age: seq<nat>)
    requires Shaped(cfg, s)
  {
    Distinct(age) && (forall k :: 0 <= k < |age| ==> age[k] < cfg.n)
    && (forall u: nat, x :: u < cfg.n && x in s.order[u] ==> x < cfg.n)
  }

  ghost predicate InFlight(cfg: Config, s: State, age: seq<nat>)
    requires Shaped(cfg, s)
  {
    forall u: nat :: u in age <==> u < cfg.n && s.units[u].Busy()
  }

  /** The order shadows of a unit are exactly the units in flight issued before it. */
  ghost predicate RowsMatch(cfg: Config, s: State, age: seq<nat>)
    requires Shaped(cfg, s) && InRange(cfg, s, age)
  {
    forall u: nat, x: nat :: u in age ==> (x in s.order[u] <==> Before(age, x, u))
  }

  ghost predicate OrderOk(cfg: Config, s: State, age: seq<nat>) {
    Shaped(cfg, s) && InRange(cfg, s, age) && InFlight(cfg, s, age) && RowsMatch(cfg, s, age)
  }

  lemma {:induction false} BeforeWithout(age: seq<nat>, gone: set<nat>)
    ensures forall x :: x in Without(age, gone) <==> x in age && x !in gone
    ensures forall x, y :: Before(Without(age, gone), x, y) <==> Before(age, x, y) && x !in gone && y !in gone
    ensures Distinct(age) ==> Distinct(Without(age, gone))
  {
    hide Before, Without, Distinct;
    forall x, y {
      PairWithout(age, gone, x, y);
    }
    forall x {
      PairWithout(age, gone, x, x);
    }
    DistinctWithout(age, gone);
  }

  lemma {:induction false} PairWithout(age: seq<nat>, gone: set<nat>, x: nat, y: nat)
    ensures x in Without(age, gone) <==> x in age && x !in gone
    ensures Before(Without(age, gone), x, y) <==> Before(age, x, y) && x !in gone && y !in gone
  {
    if |age| > 0 {
      hide Before;
      var rest, z := age[..|age| - 1], age[|age| - 1];
      PairWithout(rest, gone, x, y);
      assert age == rest + [z];
      PairAppend(rest, z, x, y);
      PairAppend(Without(rest, gone), z, x, y);
    }
  }

  lemma {:induction false} DistinctWithout(age: seq<nat>, gone: set<nat>)
    ensures Distinct(age) ==> Distinct(Without(age, gone))
  {
    if |age| > 0 {
      var rest, z := age[..|age| - 1], age[|age| - 1];
      DistinctWithout(rest, gone);
      PairWithout(rest, gone, z, z);
      hide Before;
    }
  }

  lemma PairAppend(age: seq<nat>, z: nat, x: nat, y: nat)
    ensures Before(age + [z], x, y) <==> Before(age, x, y) || (y == z && x in age)
  {
    var more := age + [z];
    if Before(age, x, y) {
      var i, j :| 0 <= i < j < |age| && age[i] == x && age[j] == y;
      assert more[i] == x && more[j] == y;
    }
    if y == z && x in age {
      var i :| 0 <= i < |age| && age[i] == x;
      assert more[i] == x && more[|age|] == y;
    }
  }

  lemma {:induction false} BeforeAppend(age: seq<nat>, z: nat)
    ensures forall x, y :: Before(age + [z], x, y) <==> Before(age, x, y) || (y == z && x in age)
  {
    forall x, y {
      PairAppend(age, z, x, y);
    }
  }

  /** A unit that stays in flight: its order shadows lose exactly the writers. */
  lemma {:induction false} OrderNext(cfg: Config, s: State, i: Input, u: nat, x: nat)
    requires Shaped(cfg, s) && u < cfg.n && x < cfg.n && Legal(cfg, s, i) && !Dies(cfg, s, i, u)
    ensures u !in i.issue ==> (x in Step(cfg, s, i).order[u] <==> x in s.order[u] && x !in i.goWr)
    ensures u in i.issue ==> (x in Step(cfg, s, i).order[u] <==> x in Busy(s) && x !in i.goWr)
  {
    hide Dies, ShadowCtl;
    var c := OrderCtl(cfg, s, i, u);
    assert Step(cfg, s, i).order[u] == S.Next(cfg.n, s.order[u], c);
    assert u in i.issue ==> u !in Busy(s);
    OneIssue(cfg, s, i);
  }

  lemma OneIssue(cfg: Config, s: State, i: Input)
    requires Shaped(cfg, s) && Legal(cfg, s, i)
    ensures Busy(s) - i.issue == Busy(s)
  {
  }

  /** A unit writes only when nothing in flight is older. */
  lemma {:induction false} WritesInOrder(cfg: Config, s: State, i: Input, age: seq<nat>, u: nat)
    requires OrderOk(cfg, s, age) && Legal(cfg, s, i) && u in i.goWr
    ensures u in age && forall x :: !Before(age, x, u)
  {
    var c := OrderCtl(cfg, s, i, u);
    assert s.order[u] <= Qlq(s.order[u], S.SetIn(cfg.n, c), S.ResetIn(cfg.n, c));
    hide Dies, Shadown, ShadowCtl, Before;
  }

  /** The oldest unit in flight has no order shadow left. */
  lemma {:induction false} OldestOrdered(cfg: Config, s: State, age: seq<nat>)
    requires OrderOk(cfg, s, age) && |age| > 0
    ensures s.order[age[0]] == {}
  {
    forall x: nat
      ensures x !in s.order[age[0]]
    {
      NoneBefore(age, x);
    }
  }

  lemma NoneBefore(age: seq<nat>, x: nat)
    requires Distinct(age) && |age| > 0
    ensures !Before(age, x, age[0])
  {
  }

  /** No unit outlives one that is cancelled before it: whatever is issued in the cycle of the cancellation, or
      in flight and younger than a unit cancelled, is cancelled too. */
  ghost predicate TailDies(cfg: Config, s: State, i: Input, age: seq<nat>)
    requires Shaped(cfg, s)
  {
    forall x, y :: x in Dying(cfg, s, i) && (y in i.issue || Before(age, x, y)) ==> y in Dying(cfg, s, i)
  }

  /** The order after a cycle, seen from a pair of units. */
  lemma {:induction false} AgeNext(cfg: Config, s: State, i: Input, age: seq<nat>)
    requires OrderOk(cfg, s, age) && Legal(cfg, s, i)
    ensures var gone := i.goWr + Dying(cfg, s, i);
      var t := NextAge(cfg, s, i, age);
      && (forall x :: x in t <==> (x in age && x !in gone) || x in i.issue)
      && (forall x, y :: Before(t, x, y) <==>
            (Before(age, x, y) && x !in gone && y !in gone) || (y in i.issue && x in age && x !in gone))
      && Distinct(t) && (forall k :: 0 <= k < |t| ==> t[k] < cfg.n)
  {
    var gone := i.goWr + Dying(cfg, s, i);
    BeforeWithout(age, gone);
    forall z | z in i.issue
      ensures z < cfg.n && z !in age
    {
      InAge(cfg, s, i, age, z);
    }
    AgeInRange(cfg, s, age);
    assert forall x, y :: x in i.issue && y in i.issue ==> x == y;
    hide *;
    JoinedOrder(age, gone, i.issue, cfg.n);
    NextAgeIs(cfg, s, i, age);
  }

  lemma NextAgeIs(cfg: Config, s: State, i: Input, age: seq<nat>)
    requires Shaped(cfg, s)
    ensures NextAge(cfg, s, i, age) == Joined(Without(age, i.goWr + Dying(cfg, s, i)), i.issue)
  {
  }

  lemma AgeInRange(cfg: Config, s: State, age: seq<nat>)
    requires OrderOk(cfg, s, age)
    ensures Distinct(age) && forall x :: x in age ==> x < cfg.n
  {
  }

  lemma {:induction false} JoinedOrder(age: seq<nat>, gone: set<nat>, issue: set<nat>, n: nat)
    requires Distinct(age) && forall x :: x in age ==> x < n
    requires forall z :: z in issue ==> z < n && z !in age
    requires forall x, y :: x in issue && y in issue ==> x == y
    ensures var t := Joined(Without(age, gone), issue);
      && (forall x :: x in t <==> (x in age && x !in gone) || x in issue)
      && (forall x, y :: Before(t, x, y) <==>
            (Before(age, x, y) && x !in gone && y !in gone) || (y in issue && x in age && x !in gone))
      && Distinct(t) && (forall k :: 0 <= k < |t| ==> t[k] < n)
  {
    var kept := Without(age, gone);
    BeforeWithout(age, gone);
    hide Before, Without;
    assert forall k :: 0 <= k < |kept| ==> kept[k] in kept;
    if issue != {} {
      var z :| z in issue && Joined(kept, issue) == kept + [z];
      BeforeAppend(kept, z);
      assert issue == {z};
    }
  }

  lemma {:induction false} InAge(cfg: Config, s: State, i: Input, age: seq<nat>, u: nat)
    requires OrderOk(cfg, s, age) && Legal(cfg, s, i)
    ensures u in i.issue ==> u < cfg.n && u !in age
    ensures forall x :: x in age <==> x in Busy(s)
  {
    hide Before, WriteRequest;
  }

  /** Who is busy after a cycle. */
  lemma {:induction false} BusyNext(cfg: Config, s: State, i: Input, u: nat)
    requires Inv(cfg, s) && Legal(cfg, s, i) && u < cfg.n
    ensures Step(cfg, s, i).units[u].Busy() <==>
      u in i.issue || (s.units[u].Busy() && u !in i.goWr && !Dies(cfg, s, i, u))
  {
    DiesExactly(cfg, s, i, u);
    hide Dies, WriteRequest, ShadowCtl, OrderCtl;
  }

  /** A cancelled unit is in flight, does not write, and was not issued just now. */
  lemma {:induction false} DyingUnit(cfg: Config, s: State, i: Input, age: seq<nat>, x: nat)
    requires OrderOk(cfg, s, age) && Inv(cfg, s) && Legal(cfg, s, i) && x in Dying(cfg, s, i)
    ensures x in age && x !in i.goWr && x !in i.issue
  {
    DiesExactly(cfg, s, i, x);
    NoWriteInShadow(cfg, s, i, x);
    hide Dies, WriteRequest, Before;
  }

  lemma {:induction false} PairNext(cfg: Config, s: State, i: Input, age: seq<nat>, u: nat, x: nat)
    requires OrderOk(cfg, s, age) && Inv(cfg, s) && Legal(cfg, s, i) && u in NextAge(cfg, s, i, age)
    ensures u < cfg.n
    ensures x in Step(cfg, s, i).order[u] <==>
      (Before(NextAge(cfg, s, i, age), x, u) || (x in Dying(cfg, s, i) && (u in i.issue || Before(age, x, u))))
  {
    AgeNext(cfg, s, i, age);
    if x in Dying(cfg, s, i) {
      DyingUnit(cfg, s, i, age, x);
    }
    if u in Dying(cfg, s, i) {
      DyingUnit(cfg, s, i, age, u);
    }
    InAge(cfg, s, i, age, u);
    if x in Step(cfg, s, i).order[u] {
      BitsInRange(cfg, s, i, age, u, x);
    }
    if x < cfg.n {
      OrderNext(cfg, s, i, u, x);
    }
    BeforeIn(age, x, u);
    hide Step, Dies, Inv, Before, NextAge, Legal;
  }

  lemma BeforeIn(age: seq<nat>, x: nat, y: nat)
    ensures Before(age, x, y) ==> x in age && y in age
  {
  }

  lemma {:induction false} BitsInRange(cfg: Config, s: State, i: Input, age: seq<nat>, u: nat, x: nat)
    requires OrderOk(cfg, s, age) && u < cfg.n && x in Step(cfg, s, i).order[u]
    ensures x < cfg.n
  {
    hide Before, Dies;
    var c := OrderCtl(cfg, s, i, u);
    assert Step(cfg, s, i).order[u] == S.Next(cfg.n, s.order[u], c);
    assert c.shadow <= Busy(s);
  }

  /** The order shadows stay right if and only if no unit outlives one that is cancelled before it. */
  lemma {:induction false} StaleExactly(cfg: Config, s: State, i: Input, age: seq<nat>)
    requires OrderOk(cfg, s, age) && Inv(cfg, s) && Legal(cfg, s, i)
    ensures OrderOk(cfg, Step(cfg, s, i), NextAge(cfg, s, i, age)) <==> TailDies(cfg, s, i, age)
  {
    hide Before, Dying, NextAge, Legal, Distinct, RowsMatch, InFlight, InRange, TailDies;
    RowsExactly(cfg, s, i, age);
    InFlightNext(cfg, s, i, age);
  }

  lemma {:induction false} RowsExactly(cfg: Config, s: State, i: Input, age: seq<nat>)
    requires OrderOk(cfg, s, age) && Inv(cfg, s) && Legal(cfg, s, i)
    ensures InRange(cfg, Step(cfg, s, i), NextAge(cfg, s, i, age))
    ensures RowsMatch(cfg, Step(cfg, s, i), NextAge(cfg, s, i, age)) <==> TailDies(cfg, s, i, age)
  {
    hide Step, Before, Dying, NextAge, Legal, RowsMatch, InFlight, TailDies;
    RangeNext(cfg, s, i, age);
    if TailDies(cfg, s, i, age) {
      RowsRight(cfg, s, i, age);
    } else {
      RowsWrong(cfg, s, i, age);
    }
  }

  lemma {:induction false} RangeNext(cfg: Config, s: State, i: Input, age: seq<nat>)
    requires OrderOk(cfg, s, age) && Inv(cfg, s) && Legal(cfg, s, i)
    ensures InRange(cfg, Step(cfg, s, i), NextAge(cfg, s, i, age))
  {
    AgeNext(cfg, s, i, age);
    hide Step, Before, Dying, NextAge, Legal, RowsMatch, InFlight;
    forall u: nat, x | u < cfg.n && x in Step(cfg, s, i).order[u]
      ensures x < cfg.n
    {
      BitsInRange(cfg, s, i, age, u, x);
    }
  }

  lemma {:induction false} RowsRight(cfg: Config, s: State, i: Input, age: seq<nat>)
    requires OrderOk(cfg, s, age) && Inv(cfg, s) && Legal(cfg, s, i) && TailDies(cfg, s, i, age)
    requires InRange(cfg, Step(cfg, s, i), NextAge(cfg, s, i, age))
    ensures RowsMatch(cfg, Step(cfg, s, i), NextAge(cfg, s, i, age))
  {
    hide Step, Before, Dying, NextAge, Legal, InFlight, InRange;
    forall u: nat, x: nat | u in NextAge(cfg, s, i, age)
      ensures u < cfg.n && (x in Step(cfg, s, i).order[u] <==> Before(NextAge(cfg, s, i, age), x, u))
    {
      PairNext(cfg, s, i, age, u, x);
      if x in Dying(cfg, s, i) && (u in i.issue || Before(age, x, u)) {
        OneBehind(cfg, s, i, age, x, u);
        assert false;
      }
    }
  }

  lemma {:induction false} RowsWrong(cfg: Config, s: State, i: Input, age: seq<nat>)
    requires OrderOk(cfg, s, age) && Inv(cfg, s) && Legal(cfg, s, i) && !TailDies(cfg, s, i, age)
    requires InRange(cfg, Step(cfg, s, i), NextAge(cfg, s, i, age))
    ensures !RowsMatch(cfg, Step(cfg, s, i), NextAge(cfg, s, i, age))
  {
    hide Step, Before, Dying, NextAge, Legal, InFlight, InRange;
    var x, y :| x in Dying(cfg, s, i) && (y in i.issue || Before(age, x, y)) && y !in Dying(cfg, s, i);
    OneBehind(cfg, s, i, age, x, y);
    PairNext(cfg, s, i, age, y, x);
    AgeNext(cfg, s, i, age);
    DyingUnit(cfg, s, i, age, x);
    BeforeIn(NextAge(cfg, s, i, age), x, y);
  }

  /** Who is in flight after a cycle. */
  lemma {:induction false} InFlightNext(cfg: Config, s: State, i: Input, age: seq<nat>)
    requires OrderOk(cfg, s, age) && Inv(cfg, s) && Legal(cfg, s, i)
    ensures InFlight(cfg, Step(cfg, s, i), NextAge(cfg, s, i, age))
  {
    AgeNext(cfg, s, i, age);
    hide Step, NextAge, Before, Dies;
    forall u: nat
      ensures u in NextAge(cfg, s, i, age) <==> u < cfg.n && Step(cfg, s, i).units[u].Busy()
    {
      InAge(cfg, s, i, age, u);
      if u < cfg.n {
        BusyNext(cfg, s, i, u);
      }
    }
  }

  lemma {:induction false} OneBehind(cfg: Config, s: State, i: Input, age: seq<nat>, x: nat, y: nat)
    requires OrderOk(cfg, s, age) && Inv(cfg, s) && Legal(cfg, s, i)
    requires x in Dying(cfg, s, i) && (y in i.issue || Before(age, x, y))
    ensures y in Dying(cfg, s, i) <==> y !in NextAge(cfg, s, i, age)
  {
    AgeNext(cfg, s, i, age);
    BeforeIn(age, x, y);
    hide NextAge, Dying, OrderOk, Inv, Legal, Before;
    if y in i.goWr {
      WritesInOrder(cfg, s, i, age, y);
      InAge(cfg, s, i, age, y);
    }
    if y in Dying(cfg, s, i) {
      DyingUnit(cfg, s, i, age, y);
    }
  }

  /** Units that wait for each other, or for one that is idle, or for one that was issued again behind them. */
  ghost predicate Waiting(s: State, u: nat, doomed: set<nat>) {
    u < |s.order| == |s.units| && s.units[u].Busy() &&
    exists x :: x in s.order[u] &&
      (x in doomed || x >= |s.units| || !s.units[x].Busy() || u in s.order[x])
  }

  ghost predicate Doomed(s: State, doomed: set<nat>) { forall u :: u in doomed ==> Waiting(s, u, doomed) }

  /** In a cycle that cancels none of them none of them writes, and all of them still wait. */
  lemma {:induction false} DoomedStay(cfg: Config, s: State, i: Input, doomed: set<nat>)
    requires Inv(cfg, s) && Legal(cfg, s, i) && Doomed(s, doomed)
    requires forall u :: u in doomed ==> u < cfg.n && !Dies(cfg, s, i, u)
    ensures doomed !! i.goWr && Doomed(Step(cfg, s, i), doomed)
  {
    forall u | u in doomed
      ensures u !in i.goWr && Waiting(Step(cfg, s, i), u, doomed)
    {
      DoomedUnit(cfg, s, i, doomed, u);
    }
  }

  /** A unit with an order shadow up does not write. */
  lemma {:induction false} ShadowBlocks(cfg: Config, s: State, i: Input, u: nat, x: nat)
    requires Shaped(cfg, s) && Legal(cfg, s, i) && u < cfg.n && x in s.order[u]
    ensures u !in i.goWr
  {
    var c := OrderCtl(cfg, s, i, u);
    assert x in Qlq(s.order[u], S.SetIn(cfg.n, c), S.ResetIn(cfg.n, c));
    hide Dies, Shadown;
  }

  lemma {:induction false} DoomedUnit(cfg: Config, s: State, i: Input, doomed: set<nat>, u: nat)
    requires Inv(cfg, s) && Legal(cfg, s, i) && Doomed(s, doomed) && u in doomed
    requires forall v :: v in doomed ==> v < cfg.n && !Dies(cfg, s, i, v)
    ensures u !in i.goWr && Waiting(Step(cfg, s, i), u, doomed)
  {
    assert Waiting(s, u, doomed);
    var x :| x in s.order[u] && (x in doomed || x >= cfg.n || !s.units[x].Busy() || u in s.order[x]);
    ShadowBlocks(cfg, s, i, u, x);
    BusyNext(cfg, s, i, u);
    hide Dies, WriteRequest, ShadowCtl;
    var t := Step(cfg, s, i);
    BlockerStays(cfg, s, i, doomed, u, x);
    assert x in t.order[u];
  }

  lemma {:induction false} BlockerStays(cfg: Config, s: State, i: Input, doomed: set<nat>, u: nat, x: nat)
    requires Inv(cfg, s) && Legal(cfg, s, i) && Doomed(s, doomed)
    requires u < cfg.n && s.units[u].Busy() && !Dies(cfg, s, i, u)
    requires x in s.order[u] && (x in doomed || x >= cfg.n || !s.units[x].Busy() || u in s.order[x])
    ensures x in Step(cfg, s, i).order[u]
    ensures x in doomed || x >= cfg.n || !Step(cfg, s, i).units[x].Busy() || u in Step(cfg, s, i).order[x]
  {
    ShadowBlocks(cfg, s, i, u, x);
    if x in doomed {
      assert Waiting(s, x, doomed);
      var y :| y in s.order[x];
      ShadowBlocks(cfg, s, i, x, y);
    }
    if x < cfg.n && u in s.order[x] {
      ShadowBlocks(cfg, s, i, x, u);
    }
    var c := OrderCtl(cfg, s, i, u);
    assert Step(cfg, s, i).order[u] == S.Next(cfg.n, s.order[u], c);
    if x < cfg.n {
      BusyNext(cfg, s, i, x);
      if !Dies(cfg, s, i, x) {
        OrderNext(cfg, s, i, x, u);
      }
    }
    hide ShadowCtl, Dies;
  }

  /** While the order shadows are right nobody is doomed: the oldest of any set waits for nobody in it. */
  lemma {:induction false} NobodyDoomed(cfg: Config, s: State, age: seq<nat>, doomed: set<nat>)
    requires OrderOk(cfg, s, age) && Doomed(s, doomed)
    ensures doomed == {}
  {
    var k := 0;
    while k < |age|
      invariant 0 <= k <= |age| && forall j :: 0 <= j < k ==> age[j] !in doomed
    {
      if age[k] in doomed {
        FirstDoomed(cfg, s, age, doomed, k);
      }
      k := k + 1;
    }
    forall u
      ensures u !in doomed
    {
      if u in doomed {
        InFlightIfDoomed(cfg, s, age, doomed, u);
        assert false;
      }
    }
  }

  lemma {:induction false} InFlightIfDoomed(cfg: Config, s: State, age: seq<nat>, doomed: set<nat>, u: nat)
    requires OrderOk(cfg, s, age) && Doomed(s, doomed) && u in doomed
    ensures u in age
  {
    assert Waiting(s, u, doomed);
    hide Before;
  }

  lemma {:induction false} FirstDoomed(cfg: Config, s: State, age: seq<nat>, doomed: set<nat>, k: nat)
    requires OrderOk(cfg, s, age) && Doomed(s, doomed) && k < |age| && forall j :: 0 <= j < k ==> age[j] !in doomed
    ensures age[k] !in doomed
  {
    var u := age[k];
    forall x | x in s.order[u]
      ensures x !in doomed && x < cfg.n && s.units[x].Busy() && u !in s.order[x]
    {
      BeforeAt(age, x, k);
      BeforeIn(age, x, u);
    }
    assert !Waiting(s, u, doomed);
  }

  lemma {:induction false} BeforeAt(age: seq<nat>, x: nat, k: nat)
    requires Distinct(age) && k < |age| && Before(age, x, age[k])
    ensures (exists i :: 0 <= i < k && age[i] == x) && !Before(age, age[k], x)
  {
  }

  /** And if a unit outlives one cancelled before it, it is doomed at once. */
  lemma {:induction false} OutlivingIsDoom(cfg: Config, s: State, i: Input, age: seq<nat>)
    requires OrderOk(cfg, s, age) && Inv(cfg, s) && Legal(cfg, s, i) && !TailDies(cfg, s, i, age)
    ensures exists u :: Doomed(Step(cfg, s, i), {u})
  {
    var x, y :| x in Dying(cfg, s, i) && (y in i.issue || Before(age, x, y)) && y !in Dying(cfg, s, i);
    OneBehind(cfg, s, i, age, x, y);
    PairNext(cfg, s, i, age, y, x);
    InFlightNext(cfg, s, i, age);
    DyingUnit(cfg, s, i, age, x);
    BusyNext(cfg, s, i, x);
    hide Step, Before, NextAge, Inv, Legal, Dies;
    assert Waiting(Step(cfg, s, i), y, {y});
    assert Doomed(Step(cfg, s, i), {y});
  }

  /** Exactly when a cycle leaves units waiting so: some unit outlives one that is cancelled before it, as when both
      outcomes of a branch are issued for, the wrong one first. That they never write is `NeverWritesExactly`. */
  lemma {:induction false} DoomExactly(cfg: Config, s: State, i: Input, age: seq<nat>)
    requires OrderOk(cfg, s, age) && Inv(cfg, s) && Legal(cfg, s, i)
    ensures (exists doomed: set<nat> :: doomed != {} && Doomed(Step(cfg, s, i), doomed)) <==> !TailDies(cfg, s, i, age)
  {
    hide Step, Inv, Legal, NextAge, TailDies, Doomed, Before;
    if TailDies(cfg, s, i, age) {
      StaleExactly(cfg, s, i, age);
      forall doomed: set<nat> | Doomed(Step(cfg, s, i), doomed)
        ensures doomed == {}
      {
        NobodyDoomed(cfg, Step(cfg, s, i), NextAge(cfg, s, i, age), doomed);
      }
    } else {
      OutlivingIsDoom(cfg, s, i, age);
      var u :| Doomed(Step(cfg, s, i), {u});
      assert {u} != {};
    }
  }

  /** Units in flight, in issue order, after the given cycles. */
  ghost function AgeAfter(cfg: Config, ins: seq<Input>): seq<nat>
    requires cfg.br < cfg.n
  {
    if |ins| == 0 then []
    else
      var pre := ins[..|ins| - 1];
      NextAge(cfg, Steps(cfg, Reset(cfg), pre), ins[|ins| - 1], AgeAfter(cfg, pre))
  }

  /** In no cycle does a unit outlive one cancelled before it. */
  ghost predicate NoneOutlives(cfg: Config, ins: seq<Input>)
    requires cfg.br < cfg.n
  {
    |ins| > 0 ==>
      var pre := ins[..|ins| - 1];
      NoneOutlives(cfg, pre) && TailDies(cfg, Steps(cfg, Reset(cfg), pre), ins[|ins| - 1], AgeAfter(cfg, pre))
  }

  /** Then in every run the order shadows are the issue order, */
  lemma {:induction false} OrderInRuns(cfg: Config, ins: seq<Input>)
    requires cfg.br < cfg.n && LegalRun(cfg, Reset(cfg), ins) && NoneOutlives(cfg, ins)
    ensures OrderOk(cfg, Steps(cfg, Reset(cfg), ins), AgeAfter(cfg, ins))
    decreases |ins|
  {
    if |ins| > 0 {
      hide Step, Legal, NextAge, TailDies, OrderOk, Inv, Reset, LegalRun, Steps;
      var pre, last := ins[..|ins| - 1], ins[|ins| - 1];
      LastLegal(cfg, Reset(cfg), ins);
      OrderInRuns(cfg, pre);
      RecordsAgree(cfg, pre);
      StaleExactly(cfg, Steps(cfg, Reset(cfg), pre), last, AgeAfter(cfg, pre));
    } else {
      StartsOrdered(cfg);
    }
  }

  /** and nobody is ever doomed. */
  lemma {:induction false} NobodyDoomedInRuns(cfg: Config, ins: seq<Input>, doomed: set<nat>)
    requires cfg.br < cfg.n && LegalRun(cfg, Reset(cfg), ins) && NoneOutlives(cfg, ins)
    ensures Doomed(Steps(cfg, Reset(cfg), ins), doomed) ==> doomed == {}
  {
    hide Steps, LegalRun, NoneOutlives, AgeAfter, OrderOk, Doomed;
    OrderInRuns(cfg, ins);
    if Doomed(Steps(cfg, Reset(cfg), ins), doomed) {
      NobodyDoomed(cfg, Steps(cfg, Reset(cfg), ins), AgeAfter(cfg, ins), doomed);
    }
  }

  lemma StartsOrdered(cfg: Config)
    requires cfg.br < cfg.n
    ensures OrderOk(cfg, Reset(cfg), [])
  {
  }
}
