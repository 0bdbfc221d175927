/** What becomes of the units that live: who can never write again, in any run. */
module SpeculationFate {
  import opened Gates
  import opened RegisterSim
  import opened Speculation
  import opened SpeculationOrder
  import S = ShadowCell

  /** In no legal continuation, however long, does u write. */
  ghost predicate NeverWrites(cfg: Config, s: State, u: nat)
    requires Shaped(cfg, s)
  {
    forall ins: seq<Input>, t: nat :: t < |ins| && LegalRun(cfg, s, ins) ==> u !in ins[t].goWr
  }

  /** A busy unit out of the branch shadow stays out of it and is not cancelled. */
  lemma {:induction false} StaysOut(cfg: Config, s: State, i: Input, u: nat)
    requires Inv(cfg, s) && Legal(cfg, s, i) && u < cfg.n && s.units[u].Busy() && u !in s.latch
    ensures !Dies(cfg, s, i, u) && u !in Step(cfg, s, i).latch
  {
    DiesExactly(cfg, s, i, u);
    LatchNext(cfg, s, i, u);
    hide Step, Dies, WriteRequest;
  }

  lemma {:induction false} DoomedNext(cfg: Config, s: State, i: Input, doomed: set<nat>)
    requires Inv(cfg, s) && Legal(cfg, s, i) && Doomed(s, doomed) && doomed !! s.latch
    ensures doomed !! i.goWr && Doomed(Step(cfg, s, i), doomed) && doomed !! Step(cfg, s, i).latch
    ensures forall u :: u in doomed ==> !Dies(cfg, s, i, u)
  {
    hide Step, Dies, WriteRequest, Inv, Legal;
    ShapedInv(cfg, s);
    forall u | u in doomed
      ensures u < cfg.n && !Dies(cfg, s, i, u) && u !in Step(cfg, s, i).latch
    {
      assert Waiting(s, u, doomed);
      StaysOut(cfg, s, i, u);
    }
    DoomedStay(cfg, s, i, doomed);
  }

  lemma ShapedInv(cfg: Config, s: State)
    requires Inv(cfg, s)
    ensures Shaped(cfg, s)
  {
  }

  /** Units out of the branch shadow that wait for each other, for an idle unit or for one issued again behind
      them wait for ever: over any continuation none is cancelled and none writes. */
  lemma {:induction false} DoomedForever(cfg: Config, s: State, ins: seq<Input>, doomed: set<nat>)
    requires Inv(cfg, s) && LegalRun(cfg, s, ins) && Doomed(s, doomed) && doomed !! s.latch
    ensures var e := Steps(cfg, s, ins); Inv(cfg, e) && Doomed(e, doomed) && doomed !! e.latch
    ensures forall t :: 0 <= t < |ins| ==> doomed !! ins[t].goWr
    ensures forall t, u :: 0 <= t < |ins| && u in doomed ==> !Dies(cfg, Steps(cfg, s, ins[..t]), ins[t], u)
  {
    hide Step, Doomed, Inv, Legal, LegalRun, BranchPlain, Dies;
    if |ins| > 0 {
      var pre, last := ins[..|ins| - 1], ins[|ins| - 1];
      ShapedInv(cfg, s);
      LastLegal(cfg, s, ins);
      DoomedForever(cfg, s, pre, doomed);
      var e := Steps(cfg, s, pre);
      StepKeeps(cfg, e, last);
      DoomedNext(cfg, e, last, doomed);
      forall t | 0 <= t < |ins|
        ensures doomed !! ins[t].goWr && forall u :: u in doomed ==> !Dies(cfg, Steps(cfg, s, ins[..t]), ins[t], u)
      {
        assert if t < |pre| then ins[t] == pre[t] && ins[..t] == pre[..t] else ins[..t] == pre;
      }
    }
  }

  lemma {:induction false} DoomedNeverWrite(cfg: Config, s: State, doomed: set<nat>, u: nat)
    requires Inv(cfg, s) && Doomed(s, doomed) && doomed !! s.latch && u in doomed
    ensures NeverWrites(cfg, s, u)
  {
    hide Doomed, Inv, LegalRun;
    ShapedInv(cfg, s);
    forall ins: seq<Input>, t: nat | t < |ins| && LegalRun(cfg, s, ins)
      ensures u !in ins[t].goWr
    {
      DoomedForever(cfg, s, ins, doomed);
    }
  }

  /** Every unit in the branch shadow was issued after the branch. */
  ghost predicate BehindBranch(cfg: Config, s: State, age: seq<nat>) {
    forall u :: u in s.latch ==> Before(age, cfg.br, u)
  }

  lemma {:induction false} BehindNext(cfg: Config, s: State, i: Input, age: seq<nat>)
    requires OrderOk(cfg, s, age) && Inv(cfg, s) && Legal(cfg, s, i) && BranchPlain(cfg, i) && BehindBranch(cfg, s, age)
    ensures BehindBranch(cfg, Step(cfg, s, i), NextAge(cfg, s, i, age))
  {
    forall u | u in Step(cfg, s, i).latch
      ensures Before(NextAge(cfg, s, i, age), cfg.br, u)
    {
      OneBehindBranch(cfg, s, i, age, u);
    }
  }

  lemma {:induction false} OneBehindBranch(cfg: Config, s: State, i: Input, age: seq<nat>, u: nat)
    requires OrderOk(cfg, s, age) && Inv(cfg, s) && Legal(cfg, s, i) && BranchPlain(cfg, i) && BehindBranch(cfg, s, age)
    requires u in Step(cfg, s, i).latch
    ensures Before(NextAge(cfg, s, i, age), cfg.br, u)
  {
    AgeNext(cfg, s, i, age);
    StepKeeps(cfg, s, i);
    assert u < cfg.n;
    LatchNext(cfg, s, i, u);
    DiesExactly(cfg, s, i, u);
    DiesExactly(cfg, s, i, cfg.br);
    hide Step, NextAge, Before, Dies, WriteRequest;
    if u in s.latch {
      NoWriteInShadow(cfg, s, i, u);
    } else {
      InAge(cfg, s, i, age, cfg.br);
    }
  }

  /** A unit in flight still reads, or has read. */
  predicate UnitsOk(s: State) {
    forall u :: 0 <= u < |s.units| && s.units[u].Busy() ==> s.units[u].src.Out() || s.units[u].req.Out()
  }

  lemma {:induction false} UnitsKeep(cfg: Config, s: State, i: Input)
    requires Inv(cfg, s) && Legal(cfg, s, i) && UnitsOk(s)
    ensures UnitsOk(Step(cfg, s, i))
  {
    forall u: nat | u < cfg.n && Step(cfg, s, i).units[u].Busy()
      ensures Step(cfg, s, i).units[u].src.Out() || Step(cfg, s, i).units[u].req.Out()
    {
      BusyNext(cfg, s, i, u);
    }
    hide Dies, WriteRequest, ShadowCtl, OrderCtl;
  }

  /** The oldest units in flight, in issue order: each has order shadows for exactly those before it. */
  ghost predicate FrontOk(cfg: Config, s: State, front: seq<nat>) {
    && Shaped(cfg, s) && Distinct(front)
    && (forall k :: 0 <= k < |front| ==> front[k] < cfg.n && s.units[front[k]].Busy())
    && (forall k, x: nat :: 0 <= k < |front| ==> (x in s.order[front[k]] <==> x in front[..k]))
  }

  lemma {:induction false} FrontOfAge(cfg: Config, s: State, age: seq<nat>, n: nat)
    requires OrderOk(cfg, s, age) && n <= |age|
    ensures FrontOk(cfg, s, age[..n])
  {
    var front := age[..n];
    forall k, x: nat | 0 <= k < |front|
      ensures x in s.order[front[k]] <==> x in front[..k]
    {
      assert front[k] in age && front[..k] == age[..k];
      InPrefix(age, x, k);
    }
    forall k | 0 <= k < |front|
      ensures front[k] < cfg.n && s.units[front[k]].Busy()
    {
      assert front[k] in age;
    }
    hide Before;
  }

  lemma InPrefix(age: seq<nat>, x: nat, k: nat)
    requires Distinct(age) && k < |age|
    ensures Before(age, x, age[k]) <==> x in age[..k]
  {
    if x in age[..k] {
      var i :| 0 <= i < k && age[..k][i] == x;
      assert age[i] == x;
    }
    if Before(age, x, age[k]) {
      var i, j :| 0 <= i < j < |age| && age[i] == x && age[j] == age[k];
      assert age[..k][i] == x;
    }
  }

  /** The oldest unit in flight is held back by nothing: it may read if it has not read, and it asks to write
      exactly once it has read and its ALU is done. */
  lemma {:induction false} FrontAsks(cfg: Config, s: State, i: Input, front: seq<nat>)
    requires FrontOk(cfg, s, front) && UnitsOk(s) && |front| > 0 && front[0] !in s.latch
    ensures front[0] < cfg.n && (s.units[front[0]].RdRel() || s.units[front[0]].req.Out())
    ensures front[0] !in i.issue ==>
      (WriteRequest(cfg, s, i, front[0]) <==> front[0] in i.aluValid && s.units[front[0]].req.Out())
  {
    var u := front[0];
    assert s.order[u] == {} by {
      assert forall x: nat :: x in s.order[front[0]] <==> x in front[..0];
    }
    hide Dies;
    var c := OrderCtl(cfg, s, i, u);
    assert u !in i.issue ==> Qlq(s.order[u], S.SetIn(cfg.n, c), S.ResetIn(cfg.n, c)) == {};
    var d := ShadowCtl(cfg, s, i, u);
    assert u !in i.issue ==> Qlq(Held(s, u), S.SetIn(1, d), S.ResetIn(1, d)) == {};
  }

  lemma {:induction false} OldestAsks(cfg: Config, s: State, i: Input, age: seq<nat>)
    requires OrderOk(cfg, s, age) && Inv(cfg, s) && BehindBranch(cfg, s, age) && UnitsOk(s) && |age| > 0
    ensures age[0] < cfg.n && (s.units[age[0]].RdRel() || s.units[age[0]].req.Out())
    ensures age[0] !in i.issue ==>
      (WriteRequest(cfg, s, i, age[0]) <==> age[0] in i.aluValid && s.units[age[0]].req.Out())
  {
    FrontOfAge(cfg, s, age, |age|);
    assert age[..|age|] == age;
    OldestOrdered(cfg, s, age);
    NoneBefore(age, cfg.br);
    FrontAsks(cfg, s, i, age);
  }

  /** There is a legal continuation in which u writes. */
  ghost predicate MayWrite(cfg: Config, s: State, u: nat)
    requires Shaped(cfg, s)
  {
    exists ins: seq<Input> :: |ins| > 0 && LegalRun(cfg, s, ins) && u in ins[|ins| - 1].goWr
  }

  lemma MayIsNotNever(cfg: Config, s: State, u: nat)
    requires Shaped(cfg, s) && MayWrite(cfg, s, u)
    ensures !NeverWrites(cfg, s, u)
  {
    hide LegalRun;
  }

  lemma {:induction false} MayWriteNow(cfg: Config, s: State, i: Input, u: nat)
    requires Shaped(cfg, s) && Legal(cfg, s, i) && BranchPlain(cfg, i) && u in i.goWr
    ensures MayWrite(cfg, s, u)
  {
    hide Legal, BranchPlain;
    assert [i][..0] == [] && Steps(cfg, s, [i][..0]) == s;
    assert LegalRun(cfg, s, [i]);
    assert u in [i][|[i]| - 1].goWr;
  }

  lemma {:induction false} MayWriteLater(cfg: Config, s: State, i: Input, u: nat)
    requires Shaped(cfg, s) && Legal(cfg, s, i) && BranchPlain(cfg, i) && MayWrite(cfg, Step(cfg, s, i), u)
    ensures MayWrite(cfg, s, u)
  {
    hide Legal, BranchPlain, Step, Steps, LegalRun;
    var rest: seq<Input> :| |rest| > 0 && LegalRun(cfg, Step(cfg, s, i), rest) && u in rest[|rest| - 1].goWr;
    LegalFrom(cfg, s, i, rest);
    var ins := [i] + rest;
    assert ins[|ins| - 1] == rest[|rest| - 1];
  }

  lemma {:induction false} LegalFrom(cfg: Config, s: State, i: Input, rest: seq<Input>)
    requires Shaped(cfg, s) && Legal(cfg, s, i) && BranchPlain(cfg, i) && LegalRun(cfg, Step(cfg, s, i), rest)
    ensures LegalRun(cfg, s, [i] + rest)
  {
    hide Legal, BranchPlain, Step, Steps;
    var ins := [i] + rest;
    forall t | 0 <= t < |ins|
      ensures Legal(cfg, Steps(cfg, s, ins[..t]), ins[t]) && BranchPlain(cfg, ins[t])
    {
      LegalCycle(cfg, s, i, rest, t);
    }
  }

  lemma {:induction false} LegalCycle(cfg: Config, s: State, i: Input, rest: seq<Input>, t: nat)
    requires Shaped(cfg, s) && Legal(cfg, s, i) && BranchPlain(cfg, i) && LegalRun(cfg, Step(cfg, s, i), rest)
    requires t <= |rest|
    ensures Legal(cfg, Steps(cfg, s, ([i] + rest)[..t]), ([i] + rest)[t]) && BranchPlain(cfg, ([i] + rest)[t])
  {
    if t > 0 {
      hide Legal, BranchPlain, Step, Steps;
      var k := t - 1;
      assert ([i] + rest)[..t] == [i] + rest[..k] && ([i] + rest)[t] == rest[k];
      Shift(cfg, s, i, rest[..k]);
      assert Legal(cfg, Steps(cfg, Step(cfg, s, i), rest[..k]), rest[k]);
    } else {
      hide Legal, BranchPlain, Step;
      assert ([i] + rest)[..0] == [];
    }
  }

  /** A cycle in which one unit reads, or writes; the branch goes as it is told. */
  function Reads(u: nat, taken: bool): Input {
    Input({}, Instr(Other, false, 0, 0, 0, 0, 0), false, false, {u}, {}, if taken then 1 else 0, {}, 0, 0)
  }

  function Writes(u: nat, taken: bool): Input {
    Input({}, Instr(Other, false, 0, 0, 0, 0, 0), false, false, {}, {u}, if taken then 1 else 0, {u}, 0, 0)
  }

  /** The front's units in the branch shadow come after the branch, and all expect the same of it. */
  ghost predicate OneWay(cfg: Config, s: State, front: seq<nat>, taken: bool) {
    forall u :: u in s.latch && u in front ==> Before(front, cfg.br, u) && (u in s.failR <==> !taken)
  }

  ghost predicate FrontGoes(cfg: Config, s: State, front: seq<nat>, taken: bool) {
    Inv(cfg, s) && FrontOk(cfg, s, front) && UnitsOk(s) && OneWay(cfg, s, front, taken)
  }

  /** A cycle in which nobody but the front's first unit writes, and the branch as the front expects. */
  predicate Fair(cfg: Config, s: State, i: Input, front: seq<nat>, taken: bool)
    requires Shaped(cfg, s)
  {
    && Legal(cfg, s, i) && BranchPlain(cfg, i) && i.issue == {} && Taken(i) == taken
    && |front| > 0 && (i.goWr == {} || i.goWr == {front[0]})
  }

  /** What is left of the front. */
  function Rest(i: Input, front: seq<nat>): seq<nat>
    requires |front| > 0
  {
    if i.goWr == {} then front else front[1..]
  }

  lemma {:induction false} FrontLives(cfg: Config, s: State, i: Input, front: seq<nat>, taken: bool, u: nat)
    requires FrontGoes(cfg, s, front, taken) && Fair(cfg, s, i, front, taken) && u in front
    ensures u < cfg.n && !Dies(cfg, s, i, u)
    ensures u !in i.goWr ==> Step(cfg, s, i).units[u].Busy()
    ensures forall x: nat :: x in Step(cfg, s, i).order[u] <==> x in s.order[u] && x !in i.goWr
  {
    var k :| 0 <= k < |front| && front[k] == u;
    DiesExactly(cfg, s, i, u);
    BusyNext(cfg, s, i, u);
    hide Dies, ShadowCtl, WriteRequest, Before;
    var c := OrderCtl(cfg, s, i, u);
    assert Step(cfg, s, i).order[u] == S.Next(cfg.n, s.order[u], c);
    assert forall x: nat :: x in s.order[u] ==> x in front[..k];
  }

  lemma {:induction false} OneWayNext(cfg: Config, s: State, i: Input, front: seq<nat>, taken: bool)
    requires FrontGoes(cfg, s, front, taken) && Fair(cfg, s, i, front, taken)
    ensures OneWay(cfg, Step(cfg, s, i), Rest(i, front), taken)
  {
    StepKeeps(cfg, s, i);
    var t, rest := Step(cfg, s, i), Rest(i, front);
    forall u | u in t.latch && u in rest
      ensures Before(rest, cfg.br, u) && (u in t.failR <==> !taken)
    {
      LatchNext(cfg, s, i, u);
      assert Before(front, cfg.br, u);
      hide Step, WriteRequest;
      if i.goWr != {} {
        BeforeTail(front, cfg.br, u);
      }
    }
  }

  lemma BeforeTail(front: seq<nat>, x: nat, y: nat)
    requires |front| > 0 && Before(front, x, y) && x != front[0]
    ensures Before(front[1..], x, y)
  {
    var i, j :| 0 <= i < j < |front| && front[i] == x && front[j] == y;
    assert front[1..][i - 1] == x && front[1..][j - 1] == y;
  }

  lemma {:induction false} FrontNext(cfg: Config, s: State, i: Input, front: seq<nat>, taken: bool)
    requires FrontGoes(cfg, s, front, taken) && Fair(cfg, s, i, front, taken)
    ensures FrontGoes(cfg, Step(cfg, s, i), Rest(i, front), taken)
  {
    StepKeeps(cfg, s, i);
    UnitsKeep(cfg, s, i);
    OneWayNext(cfg, s, i, front, taken);
    hide Step, Before, Dies, WriteRequest, Inv, UnitsOk, OneWay;
    var t, rest, d := Step(cfg, s, i), Rest(i, front), if i.goWr == {} then 0 else 1;
    forall k | 0 <= k < |rest|
      ensures rest[k] < cfg.n && t.units[rest[k]].Busy()
      ensures forall x: nat :: x in t.order[rest[k]] <==> x in rest[..k]
    {
      FrontLives(cfg, s, i, front, taken, front[k + d]);
      forall x: nat
        ensures x in t.order[rest[k]] <==> x in rest[..k]
      {
        RestPrefix(front, i.goWr, d, k, x);
      }
    }
  }

  lemma RestPrefix(front: seq<nat>, gone: set<nat>, d: nat, k: nat, x: nat)
    requires Distinct(front) && d <= 1 && k + d < |front| && gone == (if d == 0 then {} else {front[0]})
    ensures x in front[..k + d] && x !in gone <==> x in front[d..][..k]
  {
    if x in front[d..][..k] {
      var j :| 0 <= j < k && front[d..][..k][j] == x;
      assert front[..k + d][j + d] == x;
    }
    if x in front[..k + d] && x !in gone {
      var j :| 0 <= j < k + d && front[..k + d][j] == x;
      assert j >= d && front[d..][..k][j - d] == x;
    }
  }

  /** Then the last of the front may write: those before it read and write first, and the branch goes its way. */
  lemma {:induction false} FrontMayWrite(cfg: Config, s: State, front: seq<nat>, taken: bool)
    requires FrontGoes(cfg, s, front, taken) && |front| > 0
    ensures MayWrite(cfg, s, front[|front| - 1])
    decreases |front|, 1
  {
    var i, u := Reads(front[0], taken), front[|front| - 1];
    FirstOut(cfg, s, front, taken);
    FrontAsks(cfg, s, i, front);
    if s.units[front[0]].req.Out() {
      ReadMayWrite(cfg, s, front, taken);
    } else {
      ReadOldest(cfg, s, front[0], taken);
      FrontNext(cfg, s, i, front, taken);
      hide Step, FrontGoes, Legal, Before;
      ReadMayWrite(cfg, Step(cfg, s, i), front, taken);
      MayWriteLater(cfg, s, i, u);
    }
  }

  lemma FirstOut(cfg: Config, s: State, front: seq<nat>, taken: bool)
    requires FrontGoes(cfg, s, front, taken) && |front| > 0
    ensures front[0] !in s.latch && front[0] < cfg.n
  {
    NoneBefore(front, cfg.br);
    hide Before;
  }

  lemma {:induction false} ReadOldest(cfg: Config, s: State, u: nat, taken: bool)
    requires Inv(cfg, s) && u < cfg.n && s.units[u].RdRel()
    ensures Legal(cfg, s, Reads(u, taken)) && BranchPlain(cfg, Reads(u, taken))
    ensures Step(cfg, s, Reads(u, taken)).units[u].req.Out()
  {
    hide WriteRequest, Dies;
  }

  lemma {:induction false} ReadMayWrite(cfg: Config, s: State, front: seq<nat>, taken: bool)
    requires FrontGoes(cfg, s, front, taken) && |front| > 0 && front[0] < cfg.n && s.units[front[0]].req.Out()
    ensures MayWrite(cfg, s, front[|front| - 1])
    decreases |front|, 0
  {
    var i, u := Writes(front[0], taken), front[|front| - 1];
    FirstOut(cfg, s, front, taken);
    FrontAsks(cfg, s, i, front);
    assert Legal(cfg, s, i) && BranchPlain(cfg, i);
    if |front| == 1 {
      MayWriteNow(cfg, s, i, u);
    } else {
      FrontNext(cfg, s, i, front, taken);
      hide Step, FrontGoes, Legal, Before;
      assert Rest(i, front) == front[1..] && front[1..][|front| - 2] == u;
      FrontMayWrite(cfg, Step(cfg, s, i), front[1..], taken);
      MayWriteLater(cfg, s, i, u);
    }
  }

  /** Behind an instruction for each outcome: two units in the branch shadow, expecting different things of the branch,
      were issued before u. */
  predicate Torn(s: State, u: nat)
    requires u < |s.order|
  {
    exists x, y :: x in s.order[u] && y in s.order[u] && x in s.latch && y in s.latch && x in s.failR && y !in s.failR
  }

  /** Out of the shadow, and so behind both of these two. */
  predicate TornBy(cfg: Config, s: State, u: nat, x: nat, y: nat)
    requires Shaped(cfg, s)
  {
    && u < cfg.n && s.units[u].Busy() && u !in s.latch && x in s.order[u] && y in s.order[u]
    && x in s.latch && y in s.latch && x in s.failR && y !in s.failR
  }

  /** It does not write, and once the branch goes either way one of the two is cancelled and u waits for it for ever. */
  lemma {:induction false} TornNext(cfg: Config, s: State, i: Input, u: nat, x: nat, y: nat)
    requires Inv(cfg, s) && Legal(cfg, s, i) && TornBy(cfg, s, u, x, y)
    ensures u !in i.goWr && u !in Step(cfg, s, i).latch
    ensures if Resolves(cfg, i) then Doomed(Step(cfg, s, i), {u}) else TornBy(cfg, Step(cfg, s, i), u, x, y)
  {
    ShadowBlocks(cfg, s, i, u, x);
    StaysOut(cfg, s, i, u);
    BusyNext(cfg, s, i, u);
    NoWriteInShadow(cfg, s, i, x);
    NoWriteInShadow(cfg, s, i, y);
    LatchNext(cfg, s, i, x);
    LatchNext(cfg, s, i, y);
    OrderNext(cfg, s, i, u, x);
    OrderNext(cfg, s, i, u, y);
    DiesExactly(cfg, s, i, x);
    DiesExactly(cfg, s, i, y);
    BusyNext(cfg, s, i, x);
    BusyNext(cfg, s, i, y);
    hide Step, Dies, WriteRequest;
    if Resolves(cfg, i) {
      var t, z := Step(cfg, s, i), if Taken(i) then x else y;
      assert z in t.order[u] && !t.units[z].Busy();
      assert Waiting(t, u, {u});
    }
  }

  lemma OneDoomedNext(cfg: Config, s: State, i: Input, u: nat)
    requires Inv(cfg, s) && Legal(cfg, s, i) && Doomed(s, {u}) && u !in s.latch
    ensures u !in i.goWr && Doomed(Step(cfg, s, i), {u}) && u !in Step(cfg, s, i).latch
  {
    hide Inv, Legal, Doomed, Step, Dies;
    DoomedNext(cfg, s, i, {u});
  }

  lemma {:induction false} TornForever(cfg: Config, s: State, ins: seq<Input>, u: nat, x: nat, y: nat)
    requires Inv(cfg, s) && LegalRun(cfg, s, ins) && TornBy(cfg, s, u, x, y)
    ensures var e := Steps(cfg, s, ins);
      && Inv(cfg, e) && u !in e.latch && (TornBy(cfg, e, u, x, y) || Doomed(e, {u}))
    ensures Silent(u, ins)
  {
    if |ins| == 0 {
      assert Steps(cfg, s, ins) == s && u !in s.latch;
    } else {
      assert Shaped(cfg, s);
      hide *;
      var pre, last := ins[..|ins| - 1], ins[|ins| - 1];
      LastLegal(cfg, s, ins);
      TornForever(cfg, s, pre, u, x, y);
      var e := Steps(cfg, s, pre);
      StepKeeps(cfg, e, last);
      if TornBy(cfg, e, u, x, y) {
        TornNext(cfg, e, last, u, x, y);
      } else {
        OneDoomedNext(cfg, e, last, u);
      }
      SilentOn(u, ins);
    }
  }

  lemma {:induction false} TornNeverWrites(cfg: Config, s: State, u: nat, x: nat, y: nat)
    requires Inv(cfg, s) && TornBy(cfg, s, u, x, y)
    ensures NeverWrites(cfg, s, u) && s.units[u].Busy()
  {
    assert s.units[u].Busy() && Shaped(cfg, s);
    hide Inv, LegalRun, TornBy;
    forall ins: seq<Input>, t: nat | t < |ins| && LegalRun(cfg, s, ins)
      ensures u !in ins[t].goWr
    {
      TornForever(cfg, s, ins, u, x, y);
    }
  }

  /** Exactly which units out of the branch shadow can still write while the order shadows are right: those that are not
      behind an instruction for each outcome. */
  lemma {:induction false} TornExactly(cfg: Config, s: State, age: seq<nat>, u: nat)
    requires OrderOk(cfg, s, age) && Inv(cfg, s) && UnitsOk(s) && BehindBranch(cfg, s, age) && u in age && u !in s.latch
    ensures u < cfg.n && (NeverWrites(cfg, s, u) <==> Torn(s, u))
  {
    hide Before, LegalRun;
    var k :| 0 <= k < |age| && age[k] == u;
    if Torn(s, u) {
      var x, y :| x in s.order[u] && y in s.order[u] && x in s.latch && y in s.latch && x in s.failR && y !in s.failR;
      TornNeverWrites(cfg, s, u, x, y);
    } else {
      var front, taken := age[..k + 1], forall x :: x in s.order[u] && x in s.latch ==> x !in s.failR;
      FrontOfAge(cfg, s, age, k + 1);
      OneWayFront(cfg, s, age, k, taken);
      assert front[|front| - 1] == u;
      FrontMayWrite(cfg, s, front, taken);
      MayIsNotNever(cfg, s, u);
    }
  }

  lemma {:induction false} OneWayFront(cfg: Config, s: State, age: seq<nat>, k: nat, taken: bool)
    requires OrderOk(cfg, s, age) && Inv(cfg, s) && BehindBranch(cfg, s, age) && k < |age| && age[k] !in s.latch
    requires !Torn(s, age[k])
    requires taken <==> forall x :: x in s.order[age[k]] && x in s.latch ==> x !in s.failR
    ensures OneWay(cfg, s, age[..k + 1], taken)
  {
    var front := age[..k + 1];
    forall u | u in s.latch && u in front
      ensures Before(front, cfg.br, u) && (u in s.failR <==> !taken)
    {
      var j :| 0 <= j < |front| && front[j] == u;
      assert age[j] == u;
      OneOfFront(cfg, s, age, k, j);
      hide Before;
      assert u in s.latch;
    }
  }

  /** A shadowed unit of the front comes after the branch and before the last. */
  lemma OneOfFront(cfg: Config, s: State, age: seq<nat>, k: nat, j: nat)
    requires OrderOk(cfg, s, age) && BehindBranch(cfg, s, age) && j <= k < |age|
    requires age[k] !in s.latch && age[j] in s.latch
    ensures Before(age[..k + 1], cfg.br, age[j]) && age[k] < cfg.n && age[j] in s.order[age[k]]
  {
    hide Before;
    assert age[k] in age && j < k && age[..k][j] == age[j];
    InPrefix(age, age[j], k);
    BeforeInPrefix(age, cfg.br, j, k);
  }

  lemma BeforeInPrefix(age: seq<nat>, x: nat, j: nat, k: nat)
    requires Distinct(age) && j <= k < |age| && Before(age, x, age[j])
    ensures Before(age[..k + 1], x, age[j])
  {
    InPrefix(age, x, j);
    var i :| 0 <= i < j && age[..j][i] == x;
    assert age[..k + 1][i] == x && age[..k + 1][j] == age[j];
  }

  /** No speculation is open, and the order shadows are right. */
  ghost predicate Settled(cfg: Config, s: State, age: seq<nat>) {
    Inv(cfg, s) && OrderOk(cfg, s, age) && UnitsOk(s) && s.latch == {}
  }

  lemma SettledFront(cfg: Config, s: State, age: seq<nat>, n: nat)
    requires Settled(cfg, s, age) && n <= |age|
    ensures Shaped(cfg, s) && FrontGoes(cfg, s, age[..n], true)
  {
    FrontOfAge(cfg, s, age, n);
    hide OrderOk, FrontOk, Before, UnitsOk;
  }

  /** Then every unit in flight may write. */
  lemma {:induction false} EverybodyMayWrite(cfg: Config, s: State, age: seq<nat>, u: nat)
    requires Settled(cfg, s, age) && u in age
    ensures Shaped(cfg, s) && MayWrite(cfg, s, u)
  {
    hide *;
    var k :| 0 <= k < |age| && age[k] == u;
    SettledFront(cfg, s, age, k + 1);
    assert age[..k + 1][k] == u;
    FrontMayWrite(cfg, s, age[..k + 1], true);
  }

  /** Some unit is in flight, out of the branch shadow, and will never write. */
  ghost predicate Stuck(cfg: Config, s: State)
    requires Shaped(cfg, s)
  {
    exists u: nat :: u < cfg.n && s.units[u].Busy() && u !in s.latch && NeverWrites(cfg, s, u)
  }

  /** Some such unit is behind an instruction for each outcome. */
  ghost predicate SomeTorn(cfg: Config, s: State)
    requires Shaped(cfg, s)
  {
    exists u: nat :: u < cfg.n && s.units[u].Busy() && u !in s.latch && Torn(s, u)
  }

  /** A unit that ever outlived one cancelled before it is doomed from then on. */
  lemma {:induction false} OutlivedIsDoomed(cfg: Config, ins: seq<Input>)
    requires cfg.br < cfg.n && LegalRun(cfg, Reset(cfg), ins) && !NoneOutlives(cfg, ins)
    ensures var e := Steps(cfg, Reset(cfg), ins); exists u: nat :: Doomed(e, {u}) && u !in e.latch
    decreases |ins|
  {
    hide Step, Legal, NextAge, TailDies, OrderOk, Inv, Reset, LegalRun, Steps, Doomed, BranchPlain;
    var pre, last := ins[..|ins| - 1], ins[|ins| - 1];
    var s := Steps(cfg, Reset(cfg), pre);
    LastLegal(cfg, Reset(cfg), ins);
    RecordsAgree(cfg, pre);
    if NoneOutlives(cfg, pre) {
      OrderInRuns(cfg, pre);
      OutlivingIsDoom(cfg, s, last, AgeAfter(cfg, pre));
      var u: nat :| Doomed(Step(cfg, s, last), {u});
      SomeDies(cfg, s, last, AgeAfter(cfg, pre));
    } else {
      OutlivedIsDoomed(cfg, pre);
      var u: nat :| Doomed(s, {u}) && u !in s.latch;
      DoomedNext(cfg, s, last, {u});
    }
  }

  lemma {:induction false} SomeDies(cfg: Config, s: State, i: Input, age: seq<nat>)
    requires Inv(cfg, s) && Legal(cfg, s, i) && BranchPlain(cfg, i) && !TailDies(cfg, s, i, age)
    ensures Step(cfg, s, i).latch == {}
  {
    var x :| x in Dying(cfg, s, i);
    DiesExactly(cfg, s, i, x);
    Resolution(cfg, s, i, x);
    hide Step, Dies;
  }

  /** In every run in which nobody outlives a unit cancelled before it the oldest unit in flight reads, or has read
      and asks to write as soon as its ALU is done: nothing ever stops it. */
  lemma {:induction false} OldestNeverStops(cfg: Config, ins: seq<Input>, i: Input)
    requires cfg.br < cfg.n && LegalRun(cfg, Reset(cfg), ins) && NoneOutlives(cfg, ins) && |AgeAfter(cfg, ins)| > 0
    ensures var s, u := Steps(cfg, Reset(cfg), ins), AgeAfter(cfg, ins)[0];
      && u < cfg.n && (s.units[u].RdRel() || s.units[u].req.Out())
      && (u !in i.issue ==> (WriteRequest(cfg, s, i, u) <==> u in i.aluValid && s.units[u].req.Out()))
  {
    hide Steps, LegalRun, NoneOutlives, AgeAfter, OrderOk, Inv, WriteRequest, Reset;
    OrderInRuns(cfg, ins);
    RecordsAgree(cfg, ins);
    BehindInRuns(cfg, ins);
    OldestAsks(cfg, Steps(cfg, Reset(cfg), ins), i, AgeAfter(cfg, ins));
  }

  lemma {:induction false} BehindInRuns(cfg: Config, ins: seq<Input>)
    requires cfg.br < cfg.n && LegalRun(cfg, Reset(cfg), ins) && NoneOutlives(cfg, ins)
    ensures var s := Steps(cfg, Reset(cfg), ins); BehindBranch(cfg, s, AgeAfter(cfg, ins)) && UnitsOk(s)
    decreases |ins|
  {
    if |ins| > 0 {
      hide Step, Legal, NextAge, TailDies, OrderOk, Inv, Reset, LegalRun, Steps, BranchPlain, BehindBranch, UnitsOk;
      var pre, last := ins[..|ins| - 1], ins[|ins| - 1];
      LastLegal(cfg, Reset(cfg), ins);
      BehindInRuns(cfg, pre);
      OrderInRuns(cfg, pre);
      RecordsAgree(cfg, pre);
      BehindNext(cfg, Steps(cfg, Reset(cfg), pre), last, AgeAfter(cfg, pre));
      UnitsKeep(cfg, Steps(cfg, Reset(cfg), pre), last);
    }
  }

  /** Exactly when speculation costs a unit its write. After any run, a unit in flight and out of the branch shadow will
      never write, whatever follows, if and only if ever a unit outlived one cancelled before it, or a unit is behind an
      instruction for each outcome of the branch still open. */
  lemma {:induction false} NeverWritesExactly(cfg: Config, ins: seq<Input>)
    requires cfg.br < cfg.n && LegalRun(cfg, Reset(cfg), ins)
    ensures var e := Steps(cfg, Reset(cfg), ins);
      && (Stuck(cfg, e) <==> !NoneOutlives(cfg, ins) || SomeTorn(cfg, e))
      && (e.latch == {} ==> !SomeTorn(cfg, e))
  {
    hide Steps, LegalRun, NoneOutlives, AgeAfter, OrderOk, Inv, Reset, NeverWrites, Doomed, BehindBranch, UnitsOk;
    var e := Steps(cfg, Reset(cfg), ins);
    RecordsAgree(cfg, ins);
    if !NoneOutlives(cfg, ins) {
      OutlivedIsDoomed(cfg, ins);
      var u: nat :| Doomed(e, {u}) && u !in e.latch;
      DoomedIsBusy(cfg, e, u);
      DoomedNeverWrite(cfg, e, {u}, u);
    } else {
      OrderInRuns(cfg, ins);
      BehindInRuns(cfg, ins);
      forall u: nat | u < cfg.n && e.units[u].Busy() && u !in e.latch
        ensures NeverWrites(cfg, e, u) <==> Torn(e, u)
      {
        BusyIsInFlight(cfg, e, AgeAfter(cfg, ins), u);
        TornExactly(cfg, e, AgeAfter(cfg, ins), u);
      }
    }
  }

  lemma DoomedIsBusy(cfg: Config, s: State, u: nat)
    requires Inv(cfg, s) && Doomed(s, {u})
    ensures u < cfg.n && s.units[u].Busy()
  {
    assert Waiting(s, u, {u});
  }

  lemma BusyIsInFlight(cfg: Config, s: State, age: seq<nat>, u: nat)
    requires OrderOk(cfg, s, age) && u < cfg.n && s.units[u].Busy()
    ensures u in age
  {
    hide Before;
  }

  /** One more cycle of a legal run. */
  lemma Extend(cfg: Config, s: State, ins: seq<Input>, i: Input)
    requires Shaped(cfg, s) && LegalRun(cfg, s, ins) && Legal(cfg, Steps(cfg, s, ins), i) && BranchPlain(cfg, i)
    ensures LegalRun(cfg, s, ins + [i]) && Steps(cfg, s, ins + [i]) == Step(cfg, Steps(cfg, s, ins), i)
  {
    hide Step, Legal, BranchPlain, Steps;
    assert (ins + [i])[..|ins|] == ins;
    forall t | 0 <= t < |ins + [i]|
      ensures Legal(cfg, Steps(cfg, s, (ins + [i])[..t]), (ins + [i])[t]) && BranchPlain(cfg, (ins + [i])[t])
    {
      assert t < |ins| ==> (ins + [i])[..t] == ins[..t];
    }
    LastStep(cfg, s, ins, i);
  }

  lemma LastStep(cfg: Config, s: State, ins: seq<Input>, i: Input)
    requires Shaped(cfg, s)
    ensures Steps(cfg, s, ins + [i]) == Step(cfg, Steps(cfg, s, ins), i)
  {
    assert (ins + [i])[..|ins|] == ins;
  }

  /** A cycle that issues to some units, with a direction or none, while others read or write. */
  function Cycle(issue: set<nat>, succ: bool, fail: bool, goRd: set<nat>, goWr: set<nat>): Input {
    Input(issue, Instr(Other, false, 0, 0, 0, 0, 0), succ, fail, goRd, goWr, 1, {0}, 0, 0)
  }

  /** The branch is issued; an instruction for the branch not taken; one for the branch taken; it is taken. */
  const BRANCH := Cycle({0}, false, false, {}, {})

  const WRONG := Cycle({1}, false, true, {0}, {})

  const RIGHT := Cycle({2}, true, false, {}, {})

  const TAKEN := Cycle({}, false, false, {}, {0})

  predicate Idle(s: State, u: nat) { u < |s.units| && !s.units[u].Busy() && !s.units[u].opc.s }

  lemma BranchIssued(cfg: Config, s: State)
    requires cfg.n >= 3 && cfg.br == 0 && s == Reset(cfg)
    ensures Legal(cfg, s, BRANCH) && BranchPlain(cfg, BRANCH)
    ensures var t := Step(cfg, s, BRANCH);
      && t.active && t.latch == t.goodR == t.failR == {} && t.order[0] == {}
      && t.units[0].Busy() && t.units[0].src.Out() && Idle(t, 1) && Idle(t, 2) && (cfg.n > 3 ==> Idle(t, 3))
  {
  }

  lemma WrongIssued(cfg: Config, s: State)
    requires cfg.n >= 3 && cfg.br == 0 && Shaped(cfg, s)
    requires s.active && s.latch == s.goodR == s.failR == {} && s.order[0] == {}
    requires s.units[0].Busy() && s.units[0].src.Out() && Idle(s, 1) && Idle(s, 2) && (cfg.n > 3 ==> Idle(s, 3))
    ensures Legal(cfg, s, WRONG) && BranchPlain(cfg, WRONG)
    ensures var t := Step(cfg, s, WRONG);
      && t.active && t.goodR == {} && t.failR == t.latch == {1} && t.order[0] == {}
      && t.units[0].Busy() && t.units[0].req.s && t.units[1].Busy() && Idle(t, 2) && (cfg.n > 3 ==> Idle(t, 3))
  {
  }

  lemma RightIssued(cfg: Config, s: State)
    requires cfg.n >= 3 && cfg.br == 0 && Shaped(cfg, s)
    requires s.active && s.goodR == {} && s.failR == s.latch == {1} && s.order[0] == {}
    requires s.units[0].Busy() && s.units[0].req.s && s.units[1].Busy() && Idle(s, 2) && (cfg.n > 3 ==> Idle(s, 3))
    ensures Legal(cfg, s, RIGHT) && BranchPlain(cfg, RIGHT)
    ensures var t := Step(cfg, s, RIGHT);
      && t.active && t.goodR == {2} && t.failR == {1} && t.latch == {1, 2} && t.order[0] == {} && 1 in t.order[2]
      && t.units[0].Busy() && t.units[0].req.Out() && t.units[1].Busy() && t.units[2].Busy()
      && (cfg.n > 3 ==> Idle(t, 3))
  {
  }

  lemma TakenDooms(cfg: Config, s: State)
    requires cfg.n >= 3 && cfg.br == 0 && Shaped(cfg, s)
    requires s.active && s.goodR == {2} && s.failR == {1} && s.latch == {1, 2} && s.order[0] == {} && 1 in s.order[2]
    requires s.units[0].Busy() && s.units[0].req.Out() && s.units[1].Busy() && s.units[2].Busy()
    ensures Legal(cfg, s, TAKEN) && BranchPlain(cfg, TAKEN)
    ensures Doomed(Step(cfg, s, TAKEN), {2}) && 2 !in Step(cfg, s, TAKEN).latch
  {
    var t := Step(cfg, s, TAKEN);
    assert t.units[2].Busy() && 1 in t.order[2] && !t.units[1].Busy();
  }

  /** From reset: issue the branch, an instruction for its not being taken, then one for its being taken, and let
      it be taken. The second is cancelled; the third is in flight and will never write, in any continuation. */
  lemma {:induction false} WrongOneFirst(cfg: Config)
    requires cfg.n >= 3 && cfg.br == 0
    ensures var ins := [] + [BRANCH] + [WRONG] + [RIGHT] + [TAKEN];
      && LegalRun(cfg, Reset(cfg), ins)
      && Steps(cfg, Reset(cfg), ins).units[2].Busy() && NeverWrites(cfg, Steps(cfg, Reset(cfg), ins), 2)
  {
    var s := Reset(cfg);
    NoCycle(cfg, s);
    hide Step, Legal, BranchPlain, LegalRun, Doomed, BRANCH, WRONG, RIGHT, TAKEN, Reset, Idle, Inv, NeverWrites;
    BranchIssued(cfg, s);
    Extend(cfg, s, [], BRANCH);
    WrongIssued(cfg, Step(cfg, s, BRANCH));
    Extend(cfg, s, [] + [BRANCH], WRONG);
    RightIssued(cfg, Steps(cfg, s, [] + [BRANCH] + [WRONG]));
    Extend(cfg, s, [] + [BRANCH] + [WRONG], RIGHT);
    TakenDooms(cfg, Steps(cfg, s, [] + [BRANCH] + [WRONG] + [RIGHT]));
    Extend(cfg, s, [] + [BRANCH] + [WRONG] + [RIGHT], TAKEN);
    var ins := [] + [BRANCH] + [WRONG] + [RIGHT] + [TAKEN];
    RecordsAgree(cfg, ins);
    DoomedIsBusy(cfg, Steps(cfg, s, ins), 2);
    DoomedNeverWrite(cfg, Steps(cfg, s, ins), {2}, 2);
  }

  const PLAIN := Cycle({3}, false, false, {}, {})

  lemma PlainIssued(cfg: Config, s: State)
    requires cfg.n > 3 && cfg.br == 0 && Shaped(cfg, s)
    requires s.active && s.goodR == {2} && s.failR == {1} && s.latch == {1, 2}
    requires s.units[1].Busy() && s.units[2].Busy() && Idle(s, 3)
    ensures Legal(cfg, s, PLAIN) && BranchPlain(cfg, PLAIN) && TornBy(cfg, Step(cfg, s, PLAIN), 3, 1, 2)
  {
    var c, t := OrderCtl(cfg, s, PLAIN, 3), Step(cfg, s, PLAIN);
    assert {1, 2} <= Busy(s) - PLAIN.issue;
    assert t.order[3] == S.Next(cfg.n, s.order[3], c);
  }

  /** Without any cancellation: an instruction behind one for each outcome will never write, in any continuation,
      though nobody has outlived anybody yet. */
  lemma {:induction false} BehindBoth(cfg: Config)
    requires cfg.n > 3 && cfg.br == 0
    ensures var ins := [] + [BRANCH] + [WRONG] + [RIGHT] + [PLAIN];
      && LegalRun(cfg, Reset(cfg), ins) && NoneOutlives(cfg, ins)
      && Steps(cfg, Reset(cfg), ins).units[3].Busy() && NeverWrites(cfg, Steps(cfg, Reset(cfg), ins), 3)
  {
    var s := Reset(cfg);
    NoCycle(cfg, s);
    hide Step, Legal, BranchPlain, LegalRun, BRANCH, WRONG, RIGHT, PLAIN, Reset, Idle, Inv, NeverWrites, TornBy;
    hide NoneOutlives;
    BranchIssued(cfg, s);
    Extend(cfg, s, [], BRANCH);
    WrongIssued(cfg, Step(cfg, s, BRANCH));
    Extend(cfg, s, [] + [BRANCH], WRONG);
    RightIssued(cfg, Steps(cfg, s, [] + [BRANCH] + [WRONG]));
    Extend(cfg, s, [] + [BRANCH] + [WRONG], RIGHT);
    PlainIssued(cfg, Steps(cfg, s, [] + [BRANCH] + [WRONG] + [RIGHT]));
    Extend(cfg, s, [] + [BRANCH] + [WRONG] + [RIGHT], PLAIN);
    var ins := [] + [BRANCH] + [WRONG] + [RIGHT] + [PLAIN];
    RecordsAgree(cfg, ins);
    TornNeverWrites(cfg, Steps(cfg, s, ins), 3, 1, 2);
    NoneResolves(cfg);
    QuietRun(cfg, ins);
  }

  lemma NoneResolves(cfg: Config)
    requires cfg.br == 0
    ensures var ins := [] + [BRANCH] + [WRONG] + [RIGHT] + [PLAIN];
      forall t :: 0 <= t < |ins| ==> !Resolves(cfg, ins[t])
  {
  }

  lemma {:induction false} QuietRun(cfg: Config, ins: seq<Input>)
    requires cfg.br < cfg.n && LegalRun(cfg, Reset(cfg), ins) && forall t :: 0 <= t < |ins| ==> !Resolves(cfg, ins[t])
    ensures NoneOutlives(cfg, ins)
  {
    if |ins| > 0 {
      var pre, last := ins[..|ins| - 1], ins[|ins| - 1];
      LastLegal(cfg, Reset(cfg), ins);
      QuietRun(cfg, pre);
      RecordsAgree(cfg, pre);
      QuietCycle(cfg, Steps(cfg, Reset(cfg), pre), last, AgeAfter(cfg, pre));
    }
  }

  lemma QuietCycle(cfg: Config, s: State, i: Input, age: seq<nat>)
    requires Inv(cfg, s) && !Resolves(cfg, i)
    ensures TailDies(cfg, s, i, age)
  {
    forall x | x in Dying(cfg, s, i)
      ensures false
    {
      DiesExactly(cfg, s, i, x);
    }
  }

  lemma NoCycle(cfg: Config, s: State)
    requires Shaped(cfg, s)
    ensures LegalRun(cfg, s, []) && Steps(cfg, s, []) == s
  {
  }
}
