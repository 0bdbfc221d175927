/** Branch speculation: instructions issued after a branch and before its result run in its shadow,
    and are released or cancelled when the branch writes. The rest of the scoreboard may do anything
    its request wires allow. */
module Speculation {
  import opened Gates
  import opened RegisterSim
  import S = ShadowCell
  import C = CompCell

  /** n units; `br` is the branch unit. */
  datatype Config = Config(n: nat, br: nat, alu: Alu)

  /** `active`: a branch is unresolved. `goodR`/`failR`: units recorded as expecting either outcome.
      `latch`: units whose branch-shadow latch is set. `order`: the instruction-order shadows of each unit. */
  datatype State = State(active: bool, goodR: set<nat>, failR: set<nat>, latch: set<nat>, order: seq<set<nat>>,
                         units: seq<C.Unit>)

  /** One cycle's wires from outside: the unit issued to with the two direction requests, the pickers'
      choices and the branch's output. */
  datatype Input = Input(issue: set<nat>, insn: Instr, succ: bool, fail: bool, goRd: set<nat>, goWr: set<nat>,
                         data: nat, aluValid: set<nat>, rd1: nat, rd2: nat)

  predicate Shaped(cfg: Config, s: State) {
    |s.units| == |s.order| == cfg.n && cfg.br < cfg.n
  }

  predicate Resolves(cfg: Config, i: Input) { cfg.br in i.goWr }

  predicate Taken(i: Input) { i.data == 1 }

  /** BranchSpeculationRecord: did the outcome match what unit u expected? A later assignment wins,
      so a unit recorded both ways is judged by its fail record. */
  predicate MatchGood(cfg: Config, s: State, i: Input, u: nat) {
    Resolves(cfg, i) && (if u in s.failR then !Taken(i) else u in s.goodR && Taken(i))
  }

  predicate MatchFail(cfg: Config, s: State, i: Input, u: nat) {
    Resolves(cfg, i) && (if u in s.failR then Taken(i) else u in s.goodR && !Taken(i))
  }

  predicate Active(cfg: Config, s: State, i: Input) {
    (s.active || cfg.br in i.issue) && !Resolves(cfg, i)
  }

  predicate Shadowing(cfg: Config, s: State, i: Input, u: nat) {
    Active(cfg, s, i) && (i.succ || i.fail) && u in i.issue
  }

  function Bit(b: bool): set<nat> { if b then {0} else {} }

  function Held(s: State, u: nat): set<nat> { Bit(u in s.latch) }

  function ShadowCtl(cfg: Config, s: State, i: Input, u: nat): S.Ctl {
    S.Ctl(Shadowing(cfg, s, i, u), Bit(Shadowing(cfg, s, i, u)),
          Bit(MatchGood(cfg, s, i, u)), Bit(MatchFail(cfg, s, i, u)),
          MatchGood(cfg, s, i, u) || MatchFail(cfg, s, i, u))
  }

  predicate Shadown(cfg: Config, s: State, i: Input, u: nat) {
    S.Shadown(1, Held(s, u), ShadowCtl(cfg, s, i, u))
  }

  predicate Dies(cfg: Config, s: State, i: Input, u: nat) {
    S.GoDie(1, Held(s, u), ShadowCtl(cfg, s, i, u))
  }

  function Busy(s: State): set<nat> { set u | 0 <= u < |s.units| && s.units[u].Busy() }

  /** The order shadow: cast by the units busy at issue, lifted by their writes, reset by a cancellation. */
  function OrderCtl(cfg: Config, s: State, i: Input, u: nat): S.Ctl {
    S.Ctl(u in i.issue, Busy(s) - i.issue, i.goWr, {}, Dies(cfg, s, i, u))
  }

  predicate Ordered(cfg: Config, s: State, i: Input, u: nat)
    requires u < |s.order|
  {
    S.Shadown(cfg.n, s.order[u], OrderCtl(cfg, s, i, u))
  }

  /** The unit asks to write. */
  predicate WriteRequest(cfg: Config, s: State, i: Input, u: nat)
    requires Shaped(cfg, s) && u < cfg.n
  {
    s.units[u].ReqRel(u in i.aluValid, Ordered(cfg, s, i, u) && Shadown(cfg, s, i, u))
  }

  /** Issue goes to idle units, the pickers only pick units that ask. */
  predicate Legal(cfg: Config, s: State, i: Input)
    requires Shaped(cfg, s)
  {
    && (forall u :: u in i.issue ==> u < cfg.n && !s.units[u].Busy())
    && (forall u, v :: u in i.issue && v in i.issue ==> u == v)
    && (forall u :: u in i.goRd ==> u < cfg.n && s.units[u].RdRel())
    && (forall u :: u in i.goWr ==> u < cfg.n && WriteRequest(cfg, s, i, u))
  }

  /** The branch itself is not put under a direction request. */
  predicate BranchPlain(cfg: Config, i: Input) {
    cfg.br in i.issue ==> !i.succ && !i.fail
  }

  function UnitCtl(cfg: Config, s: State, i: Input, u: nat): C.Ctl {
    C.Ctl(u in i.issue, u in i.goRd, u in i.goWr, Dies(cfg, s, i, u), i.insn, i.rd1, i.rd2)
  }

  function Step(cfg: Config, s: State, i: Input): (t: State)
    requires Shaped(cfg, s)
    ensures Shaped(cfg, t)
  {
    State(
      if Resolves(cfg, i) then false else s.active || cfg.br in i.issue,
      if Resolves(cfg, i) then {} else if s.active && i.succ then s.goodR + i.issue else s.goodR,
      if Resolves(cfg, i) then {} else if s.active && i.fail then s.failR + i.issue else s.failR,
      set u | 0 <= u < cfg.n && 0 in S.Next(1, Held(s, u), ShadowCtl(cfg, s, i, u)),
      seq(cfg.n, u requires 0 <= u < cfg.n => S.Next(cfg.n, s.order[u], OrderCtl(cfg, s, i, u))),
      seq(cfg.n, u requires 0 <= u < cfg.n => C.Next(cfg.alu, s.units[u], UnitCtl(cfg, s, i, u))))
  }

  /** The shadow latches and the recorded directions agree, only while a branch is unresolved, and
      only busy units other than the branch are in its shadow. */
  predicate Inv(cfg: Config, s: State) {
    && Shaped(cfg, s)
    && s.latch == s.goodR + s.failR
    && (!s.active ==> s.latch == {})
    && (s.active ==> s.units[cfg.br].Busy())
    && (forall u :: u in s.latch ==> u < cfg.n && u != cfg.br && s.units[u].Busy())
  }

  /** The outcome unit u was issued to expect. */
  predicate Expected(s: State, i: Input, u: nat) {
    if u in s.failR then !Taken(i) else Taken(i)
  }

  /** A shadowed unit asks for no write, in the resolving cycle included. */
  lemma {:induction false} NoWriteInShadow(cfg: Config, s: State, i: Input, u: nat)
    requires Inv(cfg, s) && u < cfg.n && u in s.latch
    ensures !WriteRequest(cfg, s, i, u)
  {
    var c := ShadowCtl(cfg, s, i, u);
    assert 0 in Qlq(Held(s, u), S.SetIn(1, c), S.ResetIn(1, c));
  }

  /** Cancellation happens in the resolving cycle only, to exactly the shadowed units whose expectation
      was wrong. */
  lemma {:induction false} DiesExactly(cfg: Config, s: State, i: Input, u: nat)
    requires Inv(cfg, s) && u < cfg.n
    ensures Dies(cfg, s, i, u) <==> Resolves(cfg, i) && u in s.latch && !Expected(s, i, u)
  {
    var c := ShadowCtl(cfg, s, i, u);
    if u in s.latch && MatchFail(cfg, s, i, u) {
      assert 0 in Qlq(Held(s, u), S.SetIn(1, c), S.ResetIn(1, c)) * c.fail;
    }
  }

  /** Nobody is cancelled by an order shadow, which nothing makes fail. */
  lemma OrderCancelsNobody(cfg: Config, s: State, i: Input, u: nat)
    requires Shaped(cfg, s) && u < cfg.n
    ensures !S.GoDie(cfg.n, s.order[u], OrderCtl(cfg, s, i, u))
  {
  }

  /** The latch after the cycle: set by an issue in the shadow, lifted by the resolution. */
  lemma {:induction false} LatchNext(cfg: Config, s: State, i: Input, u: nat)
    requires Inv(cfg, s) && u < cfg.n && Legal(cfg, s, i)
    ensures u in Step(cfg, s, i).latch <==> !Resolves(cfg, i) && (u in s.latch || Shadowing(cfg, s, i, u))
    ensures !Resolves(cfg, i) && u in s.latch ==>
      (u in Step(cfg, s, i).goodR <==> u in s.goodR) && (u in Step(cfg, s, i).failR <==> u in s.failR)
  {
    var c := ShadowCtl(cfg, s, i, u);
    if u in i.issue {
      assert u !in s.latch;
    }
    if u in s.latch && Resolves(cfg, i) {
      assert c.reset && 0 in S.ResetIn(1, c) && 0 !in S.SetIn(1, c);
    }
    if u in s.latch && !Resolves(cfg, i) {
      assert 0 !in S.ResetIn(1, c);
    }
    if Shadowing(cfg, s, i, u) {
      assert 0 in S.SetIn(1, c);
    }
  }

  lemma {:induction false} StepKeeps(cfg: Config, s: State, i: Input)
    requires Inv(cfg, s) && Legal(cfg, s, i) && BranchPlain(cfg, i)
    ensures Inv(cfg, Step(cfg, s, i))
  {
    var t := Step(cfg, s, i);
    forall u ensures u in t.latch <==> u in t.goodR + t.failR {
      if 0 <= u < cfg.n {
        LatchNext(cfg, s, i, u);
      }
    }
    forall u | u in t.latch ensures u < cfg.n && u != cfg.br && t.units[u].Busy() {
      LatchNext(cfg, s, i, u);
      StaysBusy(cfg, s, i, u);
    }
    if t.active {
      StaysBusy(cfg, s, i, cfg.br);
    }
  }

  /** A unit that is issued to, or busy without writing or dying, is busy in the next cycle. */
  lemma {:induction false} StaysBusy(cfg: Config, s: State, i: Input, u: nat)
    requires Inv(cfg, s) && Legal(cfg, s, i) && u < cfg.n && !Resolves(cfg, i)
    ensures u in i.issue || (s.units[u].Busy() && (u in s.latch || u == cfg.br)) ==> Step(cfg, s, i).units[u].Busy()
  {
    DiesExactly(cfg, s, i, u);
    if u in s.latch {
      NoWriteInShadow(cfg, s, i, u);
    }
  }

  /** Cycles in a row. */
  function Steps(cfg: Config, s: State, ins: seq<Input>): (t: State)
    requires Shaped(cfg, s)
    ensures Shaped(cfg, t)
  {
    if |ins| == 0 then s else Step(cfg, Steps(cfg, s, ins[..|ins| - 1]), ins[|ins| - 1])
  }

  predicate LegalRun(cfg: Config, s: State, ins: seq<Input>)
    requires Shaped(cfg, s)
  {
    forall t :: 0 <= t < |ins| ==> Legal(cfg, Steps(cfg, s, ins[..t]), ins[t]) && BranchPlain(cfg, ins[t])
  }

  lemma {:induction false} LastLegal(cfg: Config, s: State, ins: seq<Input>)
    requires Shaped(cfg, s) && LegalRun(cfg, s, ins) && |ins| > 0
    ensures var pre, last := ins[..|ins| - 1], ins[|ins| - 1];
      && LegalRun(cfg, s, pre) && Legal(cfg, Steps(cfg, s, pre), last) && BranchPlain(cfg, last)
      && Steps(cfg, s, ins) == Step(cfg, Steps(cfg, s, pre), last)
  {
    hide Step, Legal, BranchPlain;
    var pre, n := ins[..|ins| - 1], |ins| - 1;
    assert forall t :: 0 <= t < |pre| ==> pre[t] == ins[t] && pre[..t] == ins[..t];
    assert Legal(cfg, Steps(cfg, s, ins[..n]), ins[n]) && BranchPlain(cfg, ins[n]);
  }

  /** While the branch is unresolved a shadowed unit stays shadowed, with the direction it was issued
      under, and neither writes nor dies. */
  lemma {:induction false} ShadowLasts(cfg: Config, s: State, ins: seq<Input>, u: nat)
    requires Inv(cfg, s) && LegalRun(cfg, s, ins) && u in s.latch
    requires forall t :: 0 <= t < |ins| ==> !Resolves(cfg, ins[t])
    ensures var e := Steps(cfg, s, ins);
      && Inv(cfg, e) && u in e.latch && (u in e.goodR <==> u in s.goodR) && (u in e.failR <==> u in s.failR)
    ensures forall t :: 0 <= t < |ins| ==> u !in ins[t].goWr && !Dies(cfg, Steps(cfg, s, ins[..t]), ins[t], u)
  {
    hide Step, Dies, WriteRequest, LegalRun, BranchPlain;
    if |ins| > 0 {
      var pre, last := ins[..|ins| - 1], ins[|ins| - 1];
      LastLegal(cfg, s, ins);
      ShadowLasts(cfg, s, pre, u);
      var e := Steps(cfg, s, pre);
      OneShadowed(cfg, e, last, u);
      forall t | 0 <= t < |ins| ensures u !in ins[t].goWr && !Dies(cfg, Steps(cfg, s, ins[..t]), ins[t], u) {
        if t < |pre| {
          assert ins[..t] == pre[..t];
        } else {
          assert ins[..t] == pre;
        }
      }
    }
  }

  lemma {:induction false} OneShadowed(cfg: Config, s: State, i: Input, u: nat)
    requires Inv(cfg, s) && Legal(cfg, s, i) && BranchPlain(cfg, i) && u in s.latch && !Resolves(cfg, i)
    ensures var t := Step(cfg, s, i);
      && Inv(cfg, t) && u in t.latch && (u in t.goodR <==> u in s.goodR) && (u in t.failR <==> u in s.failR)
    ensures u !in i.goWr && !Dies(cfg, s, i, u)
  {
    hide Step, Dies, WriteRequest;
    StepKeeps(cfg, s, i);
    LatchNext(cfg, s, i, u);
    NoWriteInShadow(cfg, s, i, u);
    DiesExactly(cfg, s, i, u);
  }

  /** Speculation is sound. Issued to u in the shadow of the branch, resolved any number of cycles later:
      until then u neither writes nor dies; in the resolving cycle it dies exactly if the branch went the
      other way, and then it is idle; otherwise it lives on, busy, out of every branch shadow. Whether it can
      ever write is another matter: see `StaleExactly`. */
  lemma {:induction false} ResolvedOnce(cfg: Config, s: State, issue: Input, wait: seq<Input>, res: Input, u: nat)
    requires Inv(cfg, s) && s.active && LegalRun(cfg, s, [issue] + wait + [res])
    requires u in issue.issue && (issue.succ || issue.fail) && !Resolves(cfg, issue)
    requires (forall t :: 0 <= t < |wait| ==> !Resolves(cfg, wait[t])) && Resolves(cfg, res)
    ensures var e := Steps(cfg, s, [issue] + wait);
      && u < cfg.n
      && (forall t :: 0 <= t < |wait| ==>
            u !in wait[t].goWr && !Dies(cfg, Steps(cfg, Step(cfg, s, issue), wait[..t]), wait[t], u))
      && (Dies(cfg, e, res, u) <==> (if issue.fail then Taken(res) else !Taken(res)))
      && u !in res.goWr
      && Step(cfg, e, res).latch == {} && !Step(cfg, e, res).active
      && (Step(cfg, e, res).units[u].Busy() <==> !Dies(cfg, e, res, u))
  {
    hide Step, Dies, WriteRequest, Shadown;
    var s1, e := Step(cfg, s, issue), Steps(cfg, s, [issue] + wait);
    RunParts(cfg, s, issue, wait, res);
    StepKeeps(cfg, s, issue);
    IssuedInShadow(cfg, s, issue, u);
    ShadowLasts(cfg, s1, wait, u);
    Resolution(cfg, e, res, u);
  }

  /** A run cut into its first cycle, its middle and its last cycle. */
  lemma {:induction false} RunParts(cfg: Config, s: State, first: Input, mid: seq<Input>, last: Input)
    requires Shaped(cfg, s) && LegalRun(cfg, s, [first] + mid + [last])
    ensures Legal(cfg, s, first) && BranchPlain(cfg, first)
    ensures LegalRun(cfg, Step(cfg, s, first), mid)
    ensures Steps(cfg, s, [first] + mid) == Steps(cfg, Step(cfg, s, first), mid)
    ensures Legal(cfg, Steps(cfg, s, [first] + mid), last) && BranchPlain(cfg, last)
  {
    hide Step, Legal, BranchPlain;
    var run, s1 := [first] + mid + [last], Step(cfg, s, first);
    assert run[..0] == [] && run[0] == first;
    assert Legal(cfg, Steps(cfg, s, run[..0]), run[0]);
    Shift(cfg, s, first, mid);
    forall t | 0 <= t < |mid| ensures Legal(cfg, Steps(cfg, s1, mid[..t]), mid[t]) && BranchPlain(cfg, mid[t]) {
      assert run[..t + 1] == [first] + mid[..t] && run[t + 1] == mid[t];
      Shift(cfg, s, first, mid[..t]);
    }
    assert run[..|mid| + 1] == [first] + mid && run[|mid| + 1] == last;
    assert Legal(cfg, Steps(cfg, s, run[..|mid| + 1]), run[|mid| + 1]);
  }

  lemma {:induction false} IssuedInShadow(cfg: Config, s: State, i: Input, u: nat)
    requires Inv(cfg, s) && s.active && Legal(cfg, s, i) && !Resolves(cfg, i)
    requires u in i.issue && (i.succ || i.fail)
    ensures u < cfg.n && u !in s.latch && u in Step(cfg, s, i).latch
    ensures u in Step(cfg, s, i).failR <==> i.fail
  {
    LatchNext(cfg, s, i, u);
  }

  /** The resolving cycle, seen from a shadowed unit. */
  lemma {:induction false} Resolution(cfg: Config, s: State, i: Input, u: nat)
    requires Inv(cfg, s) && Legal(cfg, s, i) && Resolves(cfg, i) && u in s.latch
    ensures Dies(cfg, s, i, u) <==> !Expected(s, i, u)
    ensures u !in i.goWr && Step(cfg, s, i).latch == {} && !Step(cfg, s, i).active
    ensures Step(cfg, s, i).units[u].Busy() <==> !Dies(cfg, s, i, u)
  {
    NoWriteInShadow(cfg, s, i, u);
    DiesExactly(cfg, s, i, u);
    var t := Step(cfg, s, i);
    forall v | 0 <= v < cfg.n ensures v !in t.latch {
      LatchNext(cfg, s, i, v);
    }
    assert t.latch == {};
  }

  function Reset(cfg: Config): (s: State)
    ensures cfg.br < cfg.n ==> Shaped(cfg, s)
  {
    State(false, {}, {}, {}, seq(cfg.n, _ => {}), seq(cfg.n, _ =>
      C.Unit(C.SyncLatch(false, false, false), C.SyncLatch(false, false, false), C.SyncLatch(false, false, false),
             Instr(Other, false, 0, 0, 0, 0, 0), 0, 0, 0)))
  }

  /** Records and shadow latches agree throughout every run. */
  lemma {:induction false} RecordsAgree(cfg: Config, ins: seq<Input>)
    requires cfg.br < cfg.n && LegalRun(cfg, Reset(cfg), ins)
    ensures Inv(cfg, Steps(cfg, Reset(cfg), ins))
  {
    hide Step, Legal, BranchPlain;
    if |ins| > 0 {
      var pre := ins[..|ins| - 1];
      assert forall t :: 0 <= t < |pre| ==> pre[t] == ins[t] && pre[..t] == ins[..t];
      RecordsAgree(cfg, pre);
      assert Legal(cfg, Steps(cfg, Reset(cfg), ins[..|ins| - 1]), ins[|ins| - 1]);
      StepKeeps(cfg, Steps(cfg, Reset(cfg), pre), ins[|ins| - 1]);
    }
  }

  lemma {:induction false} Shift(cfg: Config, s: State, first: Input, rest: seq<Input>)
    requires Shaped(cfg, s)
    ensures Steps(cfg, s, [first] + rest) == Steps(cfg, Step(cfg, s, first), rest)
  {
    if |rest| == 0 {
      assert ([first] + rest)[..0] == [];
      assert [first] + rest == [first];
    } else {
      Shift(cfg, s, first, rest[..|rest| - 1]);
      assert ([first] + rest)[..|rest|] == [first] + rest[..|rest| - 1];
    }
  }

  /** A branch put under its own direction request waits for itself: its latch is set, the record has
      nothing to lift it by, and the branch never writes again. */
  predicate SelfShadowed(cfg: Config, s: State) {
    && Shaped(cfg, s) && cfg.br in s.latch && s.units[cfg.br].Busy()
    && cfg.br !in s.goodR && cfg.br !in s.failR
  }

  lemma {:induction false} SelfShadowStays(cfg: Config, s: State, i: Input)
    requires SelfShadowed(cfg, s) && Legal(cfg, s, i)
    ensures cfg.br !in i.goWr && SelfShadowed(cfg, Step(cfg, s, i))
  {
    var u, c := cfg.br, ShadowCtl(cfg, s, i, cfg.br);
    assert 0 in Qlq(Held(s, u), S.SetIn(1, c), S.ResetIn(1, c));
    assert u !in i.issue && u !in i.goWr;
    assert c == S.Ctl(false, {}, {}, {}, false);
    assert 0 in S.Next(1, Held(s, u), c);
  }

  /** The unit writes in none of the cycles. */
  predicate Silent(u: nat, ins: seq<Input>) { forall t :: 0 <= t < |ins| ==> u !in ins[t].goWr }

  lemma SilentOn(u: nat, ins: seq<Input>)
    requires |ins| > 0 && Silent(u, ins[..|ins| - 1]) && u !in ins[|ins| - 1].goWr
    ensures Silent(u, ins)
  {
    forall t | 0 <= t < |ins|
      ensures u !in ins[t].goWr
    {
      if t < |ins| - 1 {
        assert ins[..|ins| - 1][t] == ins[t];
      }
    }
  }

  /** Over any run it never writes. */
  lemma {:induction false} SelfShadowIsForever(cfg: Config, s: State, ins: seq<Input>)
    requires SelfShadowed(cfg, s) && LegalRun(cfg, s, ins)
    ensures SelfShadowed(cfg, Steps(cfg, s, ins)) && Silent(cfg.br, ins)
  {
    if |ins| == 0 {
      assert Steps(cfg, s, ins) == s;
    } else {
      assert Shaped(cfg, s);
      hide *;
      var pre, last := ins[..|ins| - 1], ins[|ins| - 1];
      LastLegal(cfg, s, ins);
      SelfShadowIsForever(cfg, s, pre);
      SelfShadowStays(cfg, Steps(cfg, s, pre), last);
      SilentOn(cfg.br, ins);
    }
  }

  /** So the branch's own issue is safe exactly when neither direction is requested with it. */
  lemma {:induction false} BranchIssue(cfg: Config, s: State, i: Input)
    requires Inv(cfg, s) && Legal(cfg, s, i) && cfg.br in i.issue
    ensures SelfShadowed(cfg, Step(cfg, s, i)) <==> !BranchPlain(cfg, i)
    ensures Inv(cfg, Step(cfg, s, i)) <==> BranchPlain(cfg, i)
  {
    LatchNext(cfg, s, i, cfg.br);
    assert cfg.br !in i.goWr;
    if BranchPlain(cfg, i) {
      StepKeeps(cfg, s, i);
    } else {
      assert !s.active;
      StaysBusy(cfg, s, i, cfg.br);
    }
  }

  /** Cancelling a unit clears its write request unless it reads in the very same cycle, when the
      set input of its request latch wins. */
  lemma {:induction false} CancelledClean(cfg: Config, s: State, i: Input, u: nat)
    requires Inv(cfg, s) && Legal(cfg, s, i) && u < cfg.n && Dies(cfg, s, i, u)
    ensures !Step(cfg, s, i).units[u].Busy() && !Step(cfg, s, i).units[u].src.Out()
    ensures Step(cfg, s, i).units[u].req.Out() <==> u in i.goRd
  {
    DiesExactly(cfg, s, i, u);
    assert u !in i.issue;
  }

  /** A request latch left up stays up, however long, until the unit writes or is cancelled. */
  lemma {:induction false} RequestStays(cfg: Config, s: State, ins: seq<Input>, u: nat)
    requires Shaped(cfg, s) && u < cfg.n && s.units[u].req.Out()
    requires forall t :: 0 <= t < |ins| ==> u !in ins[t].goWr && !Dies(cfg, Steps(cfg, s, ins[..t]), ins[t], u)
    ensures Steps(cfg, s, ins).units[u].req.Out()
  {
    if |ins| > 0 {
      hide Dies;
      var pre := ins[..|ins| - 1];
      assert forall t :: 0 <= t < |pre| ==> pre[t] == ins[t] && pre[..t] == ins[..t];
      assert ins[..|ins| - 1] == pre;
      RequestStays(cfg, s, pre, u);
    }
  }

  /** So an instruction given to a unit that was cancelled while it read, any number of cycles later, asks to write
      before it has read: in the cycle after its issue it has yet to read, and as soon as its ALU says so and no
      shadow is up its write request is up too. */
  lemma {:induction false} WritesUnread(cfg: Config, s: State, i: Input, wait: seq<Input>, issue: Input, j: Input,
                                        u: nat)
    requires Inv(cfg, s) && Legal(cfg, s, i) && BranchPlain(cfg, i) && u < cfg.n && Dies(cfg, s, i, u) && u in i.goRd
    requires LegalRun(cfg, Step(cfg, s, i), wait + [issue])
    requires var t := Step(cfg, s, i);
      forall k :: 0 <= k < |wait| ==> u !in wait[k].goWr && !Dies(cfg, Steps(cfg, t, wait[..k]), wait[k], u)
    requires u in issue.issue && u !in j.issue
    ensures var e := Steps(cfg, Step(cfg, s, i), wait + [issue]);
      && e.units[u].RdRel()
      && (WriteRequest(cfg, e, j, u) <==> u in j.aluValid && Ordered(cfg, e, j, u) && Shadown(cfg, e, j, u))
  {
    var t := Step(cfg, s, i);
    CancelledClean(cfg, s, i, u);
    RequestStays(cfg, t, wait, u);
    LastLegal(cfg, t, wait + [issue]);
    assert (wait + [issue])[..|wait|] == wait;
    StepKeeps(cfg, s, i);
    InvStays(cfg, t, wait);
    IssuedStale(cfg, Steps(cfg, t, wait), issue, u);
    hide Step, Dies, Ordered, Shadown;
  }

  lemma {:induction false} IssuedStale(cfg: Config, s: State, i: Input, u: nat)
    requires Inv(cfg, s) && Legal(cfg, s, i) && u in i.issue && s.units[u].req.Out()
    ensures var v := Step(cfg, s, i).units[u]; v.RdRel() && v.req.Out() && v.Busy()
  {
    DiesExactly(cfg, s, i, u);
    hide Dies, ShadowCtl, OrderCtl, WriteRequest;
  }

  lemma {:induction false} InvStays(cfg: Config, s: State, ins: seq<Input>)
    requires Inv(cfg, s) && LegalRun(cfg, s, ins)
    ensures Inv(cfg, Steps(cfg, s, ins))
  {
    if |ins| > 0 {
      hide Step, Legal, BranchPlain, LegalRun, Steps;
      LastLegal(cfg, s, ins);
      InvStays(cfg, s, ins[..|ins| - 1]);
      StepKeeps(cfg, Steps(cfg, s, ins[..|ins| - 1]), ins[|ins| - 1]);
    } else {
      assert Steps(cfg, s, ins) == s;
    }
  }
}

/** The speculation record clocked in place, and what its match outputs are. */
module SpeculationHardware {
  import opened Speculation

  class BranchSpeculationRecord {
    const goodR: array<bool>
    const failR: array<bool>

    ghost predicate Valid() { goodR != failR && goodR.Length == failR.Length }

    ghost predicate Records(s: State)
      requires Valid()
      reads goodR, failR
    {
      forall u :: 0 <= u < goodR.Length ==> (goodR[u] <==> u in s.goodR) && (failR[u] <==> u in s.failR)
    }

    constructor (nFus: nat)
      ensures Valid() && fresh(goodR) && fresh(failR) && goodR.Length == nFus
      ensures forall u :: 0 <= u < nFus ==> !goodR[u] && !failR[u]
    {
      goodR := new bool[nFus](_ => false);
      failR := new bool[nFus](_ => false);
    }

    /** One clock: every unit's record, and whether the outcome matched it. */
    method Clock(cfg: Config, s: State, i: Input) returns (matchG: set<nat>, matchF: set<nat>)
      requires Valid() && goodR.Length == cfg.n && Shaped(cfg, s) && Records(s)
      modifies goodR, failR
      ensures Records(Step(cfg, s, i))
      ensures forall u :: u in matchG <==> 0 <= u < cfg.n && MatchGood(cfg, s, i, u)
      ensures forall u :: u in matchF <==> 0 <= u < cfg.n && MatchFail(cfg, s, i, u)
    {
      var br, brOk := Resolves(cfg, i), Taken(i);
      matchG, matchF := {}, {};
      for u := 0 to cfg.n
        invariant forall v :: v in matchG <==> 0 <= v < u && MatchGood(cfg, s, i, v)
        invariant forall v :: v in matchF <==> 0 <= v < u && MatchFail(cfg, s, i, v)
        invariant forall v :: u <= v < cfg.n ==> (goodR[v] <==> v in s.goodR) && (failR[v] <==> v in s.failR)
        invariant forall v :: 0 <= v < u ==>
          (goodR[v] <==> v in Step(cfg, s, i).goodR) && (failR[v] <==> v in Step(cfg, s, i).failR)
      {
        var good, fail := goodR[u], failR[u];
        if s.active {
          goodR[u], failR[u] := good || (i.succ && u in i.issue), fail || (i.fail && u in i.issue);
        }
        if br {
          if good && !fail {
            if brOk { matchG := matchG + {u}; } else { matchF := matchF + {u}; }
          }
          if fail {
            if brOk { matchF := matchF + {u}; } else { matchG := matchG + {u}; }
          }
          goodR[u], failR[u] := false, false;
        }
      }
    }
  }
}
