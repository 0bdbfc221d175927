/** The scoreboard over whole runs: any number of cycles, any instructions, any ALU delays. */
module ScoreboardTheorems {
  import opened Gates
  import opened RegisterSim
  import opened ScoreboardModel
  import opened ScoreboardProof
  import W = WaitCell

  predicate RunOk(cfg: Config, regs0: seq<nat>, inps: seq<Input>) {
    |regs0| == cfg.nRegs && forall t :: 0 <= t < |inps| ==> InputOk(cfg, inps[t])
  }

  /** The state after the given cycles. */
  function After(cfg: Config, regs0: seq<nat>, inps: seq<Input>): (s: State)
    requires RunOk(cfg, regs0, inps)
    ensures Shaped(cfg, s)
  {
    if |inps| == 0 then Reset(cfg, regs0)
    else
      assert InputOk(cfg, inps[|inps| - 1]);
      Step(cfg, After(cfg, regs0, inps[..|inps| - 1]), inps[|inps| - 1])
  }

  /** The decisions of the last cycle. */
  function LastGo(cfg: Config, regs0: seq<nat>, inps: seq<Input>): Go
    requires RunOk(cfg, regs0, inps) && |inps| > 0
  {
    assert InputOk(cfg, inps[|inps| - 1]);
    Decide(cfg, After(cfg, regs0, inps[..|inps| - 1]), inps[|inps| - 1])
  }

  /** Instructions in the order they were accepted. */
  function Issued(cfg: Config, regs0: seq<nat>, inps: seq<Input>): seq<Instr>
    requires RunOk(cfg, regs0, inps)
  {
    if |inps| == 0 then []
    else
      Issued(cfg, regs0, inps[..|inps| - 1])
        + (if LastGo(cfg, regs0, inps).issue != {} && inps[|inps| - 1].insn.Some?
           then [inps[|inps| - 1].insn.value] else [])
  }

  /** Number of go-write events. */
  function Writes(cfg: Config, regs0: seq<nat>, inps: seq<Input>): nat
    requires RunOk(cfg, regs0, inps)
  {
    if |inps| == 0 then 0
    else Writes(cfg, regs0, inps[..|inps| - 1]) + Commits(LastGo(cfg, regs0, inps))
  }

  ghost function History(cfg: Config, regs0: seq<nat>, inps: seq<Input>): Ghost
    requires RunOk(cfg, regs0, inps)
  {
    if |inps| == 0 then Ghost([], [], {})
    else NextGhost(History(cfg, regs0, inps[..|inps| - 1]), inps[|inps| - 1], LastGo(cfg, regs0, inps))
  }

  lemma {:induction false} LastCycle(cfg: Config, regs0: seq<nat>, inps: seq<Input>)
    requires |inps| > 0 && RunOk(cfg, regs0, inps)
    ensures var before, inp := inps[..|inps| - 1], inps[|inps| - 1];
      && RunOk(cfg, regs0, before) && InputOk(cfg, inp)
      && After(cfg, regs0, inps) == Step(cfg, After(cfg, regs0, before), inp)
      && LastGo(cfg, regs0, inps) == Decide(cfg, After(cfg, regs0, before), inp)
      && History(cfg, regs0, inps) == NextGhost(History(cfg, regs0, before), inp, LastGo(cfg, regs0, inps))
      && Writes(cfg, regs0, inps) == Writes(cfg, regs0, before) + Commits(LastGo(cfg, regs0, inps))
      && Issued(cfg, regs0, inps) == Issued(cfg, regs0, before) +
           (if LastGo(cfg, regs0, inps).issue != {} && inp.insn.Some? then [inp.insn.value] else [])
  {
    assert InputOk(cfg, inps[|inps| - 1]);
    hide InputOk, Step, Decide, NextGhost, Reset, Shaped;
  }

  lemma {:induction false} ResetOk(cfg: Config, regs0: seq<nat>)
    requires |regs0| == cfg.nRegs
    ensures Inv(cfg, regs0, Reset(cfg, regs0), Ghost([], [], {}))
  {
    assert forall y :: 0 <= y < cfg.n ==> IdleOk(Reset(cfg, regs0), y);
  }

  /** The invariant holds after every run, and the history is the one the events tell. */
  lemma {:induction false} Reachable(cfg: Config, regs0: seq<nat>, inps: seq<Input>)
    requires RunOk(cfg, regs0, inps)
    ensures Inv(cfg, regs0, After(cfg, regs0, inps), History(cfg, regs0, inps))
    ensures var g := History(cfg, regs0, inps);
      g.hist == Issued(cfg, regs0, inps) && g.Committed() == Writes(cfg, regs0, inps)
  {
    hide Inv, Step, Decide, GoOk, GhostOk, NextGhost, InputOk, Reset;
    if |inps| > 0 {
      hide After, LastGo, History, Issued, Writes, RunOk;
      var before, inp := inps[..|inps| - 1], inps[|inps| - 1];
      LastCycle(cfg, regs0, inps);
      Reachable(cfg, regs0, before);
      var s, g := After(cfg, regs0, before), History(cfg, regs0, before);
      StepKeeps(cfg, regs0, s, g, inp);
      Decisions(cfg, regs0, s, g, inp);
      InvGhost(cfg, regs0, s, g);
      GhostKept(cfg, g, inp, Decide(cfg, s, inp));
    } else {
      ResetOk(cfg, regs0);
    }
  }

  lemma InvGhost(cfg: Config, regs0: seq<nat>, s: State, g: Ghost)
    requires Inv(cfg, regs0, s, g)
    ensures GhostOk(cfg, g)
  {
  }

  /** Out-of-order execution refines the sequential simulator: after any run the register file is
      what the simulator has after the first k accepted instructions, k the number of writes. */
  lemma {:induction false} RefinesSequential(cfg: Config, regs0: seq<nat>, inps: seq<Input>)
    requires RunOk(cfg, regs0, inps)
    ensures var prog, k := Issued(cfg, regs0, inps), Writes(cfg, regs0, inps);
      && k <= |prog| && (forall j :: 0 <= j < k ==> Fits(|regs0|, prog[j]))
      && After(cfg, regs0, inps).regs == Run(cfg.alu, regs0, prog, k)
  {
    Reachable(cfg, regs0, inps);
  }

  /** Unit y works on program position p with the operands the sequential run has there. */
  predicate HoldsOperands(cfg: Config, regs0: seq<nat>, prog: seq<Instr>, s: State, y: nat, p: int) {
    && 0 <= p < |prog| && y < cfg.n && Shaped(cfg, s) && (forall q :: 0 <= q <= p ==> Fits(|regs0|, prog[q]))
    && var regs, i, u := Run(cfg.alu, regs0, prog, p), prog[p], s.units[y];
       && Fits(|regs|, i) && u.oper == i && u.a == regs[i.src1]
       && u.b == (if i.immOk then i.imm else regs[i.src2])
  }

  /** A unit that has read holds the operands the program gives it, whatever overlaps. */
  lemma {:induction false} OperandsSequential(cfg: Config, regs0: seq<nat>, inps: seq<Input>)
    requires RunOk(cfg, regs0, inps)
    ensures var s, g := After(cfg, regs0, inps), History(cfg, regs0, inps);
      forall j :: 0 <= j < |g.infl| && g.infl[j] in g.read ==>
        HoldsOperands(cfg, regs0, Issued(cfg, regs0, inps), s, g.infl[j], Writes(cfg, regs0, inps) + j)
  {
    hide *;
    Reachable(cfg, regs0, inps);
    var s, g := After(cfg, regs0, inps), History(cfg, regs0, inps);
    forall j | 0 <= j < |g.infl| && g.infl[j] in g.read
      ensures HoldsOperands(cfg, regs0, Issued(cfg, regs0, inps), s, g.infl[j], Writes(cfg, regs0, inps) + j)
    {
      Operands(cfg, regs0, s, g, j);
    }
  }

  lemma {:induction false} Operands(cfg: Config, regs0: seq<nat>, s: State, g: Ghost, j: nat)
    requires Inv(cfg, regs0, s, g) && j < |g.infl| && g.infl[j] in g.read
    ensures HoldsOperands(cfg, regs0, g.hist, s, g.infl[j], g.Committed() + j)
  {
    assert RowsOk(s, g, j) && ValuesOk(cfg, regs0, s, g, j);
    assert forall q :: 0 <= q < |g.hist| ==> InstrOk(cfg, g.hist[q]);
  }

  /** Hazard freedom of one cycle's decisions. A unit reads, once, only when no older unit still has
      to write one of its sources (that write was in a strictly earlier cycle); a unit writes only
      when it has read and no older unit is left, read or unread, so writes happen in issue order. */
  predicate NoHazard(g: Ghost, go: Go) {
    && |g.infl| <= |g.hist|
    && (forall j, k :: 0 <= k < j < |g.infl| && g.infl[j] in go.rd ==> !Reads(InstrOf(g, j), InstrOf(g, k).dest))
    && (forall j :: 0 <= j < |g.infl| && g.infl[j] in go.rd ==> g.infl[j] !in g.read)
    && (forall x :: x in go.wr ==> |g.infl| > 0 && x == g.infl[0] && x in g.read)
  }

  lemma {:induction false} NoHazardNow(cfg: Config, regs0: seq<nat>, s: State, g: Ghost, inp: Input)
    requires Inv(cfg, regs0, s, g) && InputOk(cfg, inp)
    ensures NoHazard(g, Decide(cfg, s, inp))
  {
    Decisions(cfg, regs0, s, g, inp);
    hide Decide;
    var go := Decide(cfg, s, inp);
    forall j, k | 0 <= k < j < |g.infl| && g.infl[j] in go.rd ensures !Reads(InstrOf(g, j), InstrOf(g, k).dest) {
      assert WaitsOk(s, g, j);
    }
  }

  lemma {:induction false} HazardFree(cfg: Config, regs0: seq<nat>, inps: seq<Input>, inp: Input)
    requires RunOk(cfg, regs0, inps) && InputOk(cfg, inp)
    ensures NoHazard(History(cfg, regs0, inps), Decide(cfg, After(cfg, regs0, inps), inp))
  {
    hide *;
    Reachable(cfg, regs0, inps);
    NoHazardNow(cfg, regs0, After(cfg, regs0, inps), History(cfg, regs0, inps), inp);
  }

  /** Unit x was issued before unit y and is not finished. */
  predicate IssuedBefore(g: Ghost, x: nat, y: nat) {
    exists k, j :: 0 <= k < j < |g.infl| && g.infl[k] == x && g.infl[j] == y
  }

  /** Every wait bit and every shadow names a unit issued earlier and not finished, so the wait-for
      relation is acyclic in every reachable state; an idle unit waits for nobody. */
  lemma {:induction false} WaitsPointBack(cfg: Config, regs0: seq<nat>, inps: seq<Input>)
    requires RunOk(cfg, regs0, inps)
    ensures var s, g := After(cfg, regs0, inps), History(cfg, regs0, inps);
      forall x, y :: 0 <= y < cfg.n && x in s.waits[y].rd + s.waits[y].wr + s.shadows[y] ==> IssuedBefore(g, x, y)
  {
    Reachable(cfg, regs0, inps);
    hide After, History, Inv, IssuedBefore;
    var s, g := After(cfg, regs0, inps), History(cfg, regs0, inps);
    forall x, y | 0 <= y < cfg.n && x in s.waits[y].rd + s.waits[y].wr + s.shadows[y]
      ensures IssuedBefore(g, x, y)
    {
      PointsBack(cfg, regs0, s, g, y, x);
    }
  }

  lemma {:induction false} PointsBack(cfg: Config, regs0: seq<nat>, s: State, g: Ghost, y: nat, x: nat)
    requires Inv(cfg, regs0, s, g) && y < cfg.n && x in s.waits[y].rd + s.waits[y].wr + s.shadows[y]
    ensures IssuedBefore(g, x, y)
  {
    assert y !in g.infl ==> IdleOk(s, y);
    var j :| 0 <= j < |g.infl| && g.infl[j] == y;
    assert WaitsOk(s, g, j);
    var k :| 0 <= k < j && g.infl[..j][k] == x;
    assert g.infl[k] == x;
  }

  /** The oldest unfinished unit is blocked by neither matrix nor by its shadow. */
  lemma {:induction false} OldestIsFree(cfg: Config, regs0: seq<nat>, s: State, g: Ghost)
    requires Inv(cfg, regs0, s, g) && |g.infl| > 0
    ensures var y := g.infl[0];
      s.waits[y] == W.Row({}, {}) && s.shadows[y] == {} && s.units[y].Busy()
  {
    assert RowsOk(s, g, 0) && WaitsOk(s, g, 0);
    assert Older(g, 0) == {};
  }

  /** Reads and writes still to come. */
  function Work(g: Ghost): int { 2 * |g.infl| - |g.read| }

  /** Every read and every write takes one off. */
  lemma {:induction false} WorkDone(cfg: Config, g: Ghost, inp: Input, go: Go)
    requires GoOk(cfg, g, inp, go) && go.issue == {}
    ensures var g' := NextGhost(g, inp, go);
      g'.hist == g.hist && Work(g') == Work(g) - |go.rd| - |go.wr|
  {
    if go.rd != {} {
      var x :| x in go.rd;
      assert go.rd == {x};
    }
    if go.wr != {} {
      var x :| x in go.wr;
      assert go.wr == {x};
    }
    assert |g.read + go.rd| == |g.read| + |go.rd|;
    assert |g.read + go.rd - go.wr| == |g.read + go.rd| - |go.wr|;
  }

  /** In a cycle that issues nothing no work is added, and if the oldest unit has not read yet or its ALU
      is done, some is finished. */
  lemma {:induction false} Progress(cfg: Config, regs0: seq<nat>, s: State, g: Ghost, inp: Input)
    requires Inv(cfg, regs0, s, g) && InputOk(cfg, inp) && Decide(cfg, s, inp).issue == {}
    ensures var g' := NextGhost(g, inp, Decide(cfg, s, inp));
      && g'.hist == g.hist && Work(g') <= Work(g)
      && (|g.infl| > 0 && (g.infl[0] in inp.aluValid || g.infl[0] !in g.read) ==> Work(g') < Work(g))
  {
    var go := Decide(cfg, s, inp);
    Decisions(cfg, regs0, s, g, inp);
    WorkDone(cfg, g, inp, go);
    if |g.infl| > 0 {
      OldestIsFree(cfg, regs0, s, g);
      assert RowsOk(s, g, 0);
      var y := g.infl[0];
      if y in g.read && y in inp.aluValid {
        assert y in FreeWriters(cfg, s, inp);
      }
      if y !in g.read {
        assert y in FreeReaders(cfg, s);
      }
    }
  }

  /** Nothing is issued in the cycles after `start`. */
  ghost predicate NoIssue(cfg: Config, regs0: seq<nat>, start: seq<Input>, more: seq<Input>)
    requires RunOk(cfg, regs0, start + more)
  {
    |more| > 0 ==>
      var rest := more[..|more| - 1];
      Cut(start, more) && RunOk(cfg, regs0, start + rest)
      && LastGo(cfg, regs0, start + more).issue == {} && NoIssue(cfg, regs0, start, rest)
  }

  /** A run without its last cycle. */
  predicate Cut(start: seq<Input>, more: seq<Input>)
    requires |more| > 0
  {
    && (start + more)[..|start + more| - 1] == start + more[..|more| - 1]
    && (start + more)[|start + more| - 1] == more[|more| - 1]
  }

  lemma CutOk(cfg: Config, regs0: seq<nat>, start: seq<Input>, more: seq<Input>)
    requires |more| > 0 && RunOk(cfg, regs0, start + more)
    ensures Cut(start, more) && RunOk(cfg, regs0, start + more[..|more| - 1]) && InputOk(cfg, more[|more| - 1])
  {
    hide InputOk;
    assert InputOk(cfg, (start + more)[|start + more| - 1]);
    var less := start + more[..|more| - 1];
    forall t | 0 <= t < |less|
      ensures InputOk(cfg, less[t])
    {
      assert InputOk(cfg, (start + more)[t]);
    }
  }

  /** The oldest unit in flight, if there is one, has yet to read, or its ALU is done. What the other ALUs say does not
      matter. */
  predicate Moves(g: Ghost, inp: Input) { g.infl == [] || g.infl[0] !in g.read || g.infl[0] in inp.aluValid }

  /** How many of the cycles after `start` are such. */
  ghost function MovingCycles(cfg: Config, regs0: seq<nat>, start: seq<Input>, more: seq<Input>): nat
    requires RunOk(cfg, regs0, start + more)
  {
    if |more| == 0 then 0
    else
      var rest := more[..|more| - 1];
      CutOk(cfg, regs0, start, more);
      MovingCycles(cfg, regs0, start, rest)
        + if Moves(History(cfg, regs0, start + rest), more[|more| - 1]) then 1 else 0
  }

  /** One such cycle. */
  lemma {:induction false} OneDrop(cfg: Config, regs0: seq<nat>, s: State, g: Ghost, inp: Input)
    requires Inv(cfg, regs0, s, g) && InputOk(cfg, inp) && Decide(cfg, s, inp).issue == {}
    ensures var g' := NextGhost(g, inp, Decide(cfg, s, inp));
      && g'.hist == g.hist && Work(g') <= Work(g) && (g.infl == [] ==> g'.infl == [])
      && (g'.infl == [] || !Moves(g, inp) || Work(g') < Work(g))
  {
    Progress(cfg, regs0, s, g, inp);
    Decisions(cfg, regs0, s, g, inp);
    hide Decide, RowsOk, WaitsOk, ValuesOk, IdleOk, Work;
  }

  lemma {:induction false} WorkDrops(cfg: Config, regs0: seq<nat>, start: seq<Input>, more: seq<Input>)
    requires RunOk(cfg, regs0, start + more) && RunOk(cfg, regs0, start) && NoIssue(cfg, regs0, start, more)
    ensures var g, g' := History(cfg, regs0, start), History(cfg, regs0, start + more);
      && g'.hist == g.hist
      && (g'.infl == [] || Work(g') + MovingCycles(cfg, regs0, start, more) <= Work(g))
    decreases |more|
  {
    hide Inv, Step, Decide, After, NextGhost, InputOk, RunOk, History, LastGo, Moves, Work, Issued, Writes;
    if |more| == 0 {
      assert start + more == start;
    } else {
      var rest, last := more[..|more| - 1], more[|more| - 1];
      CutOk(cfg, regs0, start, more);
      LastCycle(cfg, regs0, start + more);
      WorkDrops(cfg, regs0, start, rest);
      Reachable(cfg, regs0, start + rest);
      OneDrop(cfg, regs0, After(cfg, regs0, start + rest), History(cfg, regs0, start + rest), last);
    }
  }

  /** Where nothing is offered nothing is issued. */
  lemma {:induction false} Silence(cfg: Config, regs0: seq<nat>, start: seq<Input>, idle: seq<Input>)
    requires RunOk(cfg, regs0, start + idle) && forall t :: 0 <= t < |idle| ==> idle[t].insn.None?
    ensures NoIssue(cfg, regs0, start, idle)
  {
    if |idle| > 0 {
      CutOk(cfg, regs0, start, idle);
      LastCycle(cfg, regs0, start + idle);
      Silence(cfg, regs0, start, idle[..|idle| - 1]);
    }
  }

  /** Once as many such cycles have passed without an issue as there is work left, nothing is in flight. */
  lemma {:induction false} Empties(cfg: Config, regs0: seq<nat>, start: seq<Input>, more: seq<Input>)
    requires RunOk(cfg, regs0, start + more) && RunOk(cfg, regs0, start) && NoIssue(cfg, regs0, start, more)
    requires MovingCycles(cfg, regs0, start, more) >= Work(History(cfg, regs0, start))
    ensures History(cfg, regs0, start + more).infl == []
    ensures Issued(cfg, regs0, start + more) == Issued(cfg, regs0, start)
    ensures Writes(cfg, regs0, start + more) == |Issued(cfg, regs0, start)|
  {
    hide After, LastGo, History, Issued, Writes, RunOk, NoIssue, MovingCycles;
    WorkDrops(cfg, regs0, start, more);
    Reachable(cfg, regs0, start);
    Reachable(cfg, regs0, start + more);
    InvGhost(cfg, regs0, After(cfg, regs0, start + more), History(cfg, regs0, start + more));
    hide Inv;
    if History(cfg, regs0, start + more).infl != [] {
      ReadAtMostInFlight(cfg, History(cfg, regs0, start + more));
    }
  }

  /** Everything issued before `more` is committed after it, nothing else, and the register file is the simulator's
      final one. */
  predicate AllCommitted(cfg: Config, regs0: seq<nat>, start: seq<Input>, more: seq<Input>)
    requires RunOk(cfg, regs0, start + more) && RunOk(cfg, regs0, start)
  {
    var prog := Issued(cfg, regs0, start);
    && Issued(cfg, regs0, start + more) == prog && Writes(cfg, regs0, start + more) == |prog|
    && (forall j :: 0 <= j < |prog| ==> Fits(|regs0|, prog[j]))
    && After(cfg, regs0, start + more).regs == Run(cfg.alu, regs0, prog, |prog|)
  }

  /** Deadlock freedom: once nothing more is offered, as many cycles in which the oldest unit has yet to read or its ALU
      is done as there are reads and writes left, with any others in between, commit every accepted instruction. */
  lemma {:induction false} Drains(cfg: Config, regs0: seq<nat>, start: seq<Input>, idle: seq<Input>)
    requires RunOk(cfg, regs0, start + idle) && RunOk(cfg, regs0, start)
    requires forall t :: 0 <= t < |idle| ==> idle[t].insn.None?
    ensures MovingCycles(cfg, regs0, start, idle) >= Work(History(cfg, regs0, start)) ==>
      AllCommitted(cfg, regs0, start, idle)
  {
    hide After, LastGo, History, Issued, Writes, NoIssue, MovingCycles, Work;
    Silence(cfg, regs0, start, idle);
    if MovingCycles(cfg, regs0, start, idle) >= Work(History(cfg, regs0, start)) {
      Empties(cfg, regs0, start, idle);
    }
    RefinesSequential(cfg, regs0, start + idle);
  }

  lemma JoinOk(cfg: Config, regs0: seq<nat>, start: seq<Input>, more: seq<Input>, t: nat)
    requires RunOk(cfg, regs0, start) && RunOk(cfg, regs0, more) && t <= |more|
    ensures RunOk(cfg, regs0, start + more[..t])
  {
    hide InputOk;
  }

  /** Never d cycles on end in which the oldest unit in flight has read and waits for its ALU. */
  ghost predicate AnswersWithin(cfg: Config, regs0: seq<nat>, start: seq<Input>, more: seq<Input>, d: nat)
    requires RunOk(cfg, regs0, start) && RunOk(cfg, regs0, more)
  {
    forall t: nat :: t + d <= |more| ==> SomeMoves(cfg, regs0, start, more, t, d)
  }

  ghost predicate SomeMoves(cfg: Config, regs0: seq<nat>, start: seq<Input>, more: seq<Input>, t: nat, d: nat)
    requires RunOk(cfg, regs0, start) && RunOk(cfg, regs0, more) && t + d <= |more|
  {
    exists u: nat :: t <= u < t + d && MovesAt(cfg, regs0, start, more, u)
  }

  ghost predicate MovesAt(cfg: Config, regs0: seq<nat>, start: seq<Input>, more: seq<Input>, u: nat)
    requires RunOk(cfg, regs0, start) && RunOk(cfg, regs0, more) && u < |more|
  {
    JoinOk(cfg, regs0, start, more, u);
    Moves(History(cfg, regs0, start + more[..u]), more[u])
  }

  /** The ALUs of the units that have read are done, and perhaps no others. */
  ghost predicate DoneAt(cfg: Config, regs0: seq<nat>, start: seq<Input>, more: seq<Input>, u: nat)
    requires RunOk(cfg, regs0, start) && RunOk(cfg, regs0, more) && u < |more|
  {
    JoinOk(cfg, regs0, start, more, u);
    History(cfg, regs0, start + more[..u]).read <= more[u].aluValid
  }

  /** ALUs that are done as soon as they have their operands answer within one cycle. */
  lemma {:induction false} PromptAnswers(cfg: Config, regs0: seq<nat>, start: seq<Input>, more: seq<Input>)
    requires RunOk(cfg, regs0, start) && RunOk(cfg, regs0, more)
    requires forall u: nat :: u < |more| ==> DoneAt(cfg, regs0, start, more, u)
    ensures AnswersWithin(cfg, regs0, start, more, 1)
  {
    hide RunOk, History;
    forall t: nat | t + 1 <= |more|
      ensures SomeMoves(cfg, regs0, start, more, t, 1)
    {
      JoinOk(cfg, regs0, start, more, t);
      assert DoneAt(cfg, regs0, start, more, t);
      assert MovesAt(cfg, regs0, start, more, t);
    }
  }

  /** One more cycle counted. */
  lemma {:induction false} CountOne(cfg: Config, regs0: seq<nat>, start: seq<Input>, more: seq<Input>, u: nat)
    requires RunOk(cfg, regs0, start) && RunOk(cfg, regs0, more) && u < |more|
    ensures RunOk(cfg, regs0, start + more[..u]) && RunOk(cfg, regs0, start + more[..u + 1])
    ensures MovingCycles(cfg, regs0, start, more[..u + 1]) ==
            MovingCycles(cfg, regs0, start, more[..u]) + if MovesAt(cfg, regs0, start, more, u) then 1 else 0
  {
    hide History, Moves;
    JoinOk(cfg, regs0, start, more, u);
    JoinOk(cfg, regs0, start, more, u + 1);
    hide RunOk;
    assert more[..u + 1][..u] == more[..u];
  }

  /** The count does not fall, and grows if one of the cycles moves. */
  lemma {:induction false} CountUp(cfg: Config, regs0: seq<nat>, start: seq<Input>, more: seq<Input>, t: nat, u: nat)
    requires RunOk(cfg, regs0, start) && RunOk(cfg, regs0, more) && t <= u <= |more|
    ensures RunOk(cfg, regs0, start + more[..t]) && RunOk(cfg, regs0, start + more[..u])
    ensures MovingCycles(cfg, regs0, start, more[..u]) >= MovingCycles(cfg, regs0, start, more[..t])
    ensures (exists v: nat :: t <= v < u && MovesAt(cfg, regs0, start, more, v)) ==>
      MovingCycles(cfg, regs0, start, more[..u]) > MovingCycles(cfg, regs0, start, more[..t])
    decreases u - t
  {
    hide RunOk, MovingCycles, MovesAt;
    JoinOk(cfg, regs0, start, more, t);
    JoinOk(cfg, regs0, start, more, u);
    if t < u {
      CountUp(cfg, regs0, start, more, t, u - 1);
      CountOne(cfg, regs0, start, more, u - 1);
    }
  }

  /** n stretches of d cycles move at least n times. */
  lemma {:induction false} Stretches(cfg: Config, regs0: seq<nat>, start: seq<Input>, more: seq<Input>, d: nat, n: nat,
                                     t: nat)
    requires RunOk(cfg, regs0, start) && RunOk(cfg, regs0, more) && AnswersWithin(cfg, regs0, start, more, d)
    requires d * n <= t <= |more|
    ensures RunOk(cfg, regs0, start + more[..t]) && MovingCycles(cfg, regs0, start, more[..t]) >= n
    decreases n
  {
    hide RunOk, MovingCycles, MovesAt;
    JoinOk(cfg, regs0, start, more, t);
    if n > 0 {
      assert d * n == d * (n - 1) + d && d * (n - 1) >= 0;
      assert SomeMoves(cfg, regs0, start, more, t - d, d);
      Stretches(cfg, regs0, start, more, d, n - 1, t - d);
      CountUp(cfg, regs0, start, more, t - d, t);
    }
  }

  /** With ALUs that answer the oldest unit within d cycles, d cycles for every read and write left commit
      everything. */
  lemma {:induction false} DrainsInTime(cfg: Config, regs0: seq<nat>, start: seq<Input>, idle: seq<Input>, d: nat)
    requires RunOk(cfg, regs0, start) && RunOk(cfg, regs0, idle) && AnswersWithin(cfg, regs0, start, idle, d)
    requires (forall t :: 0 <= t < |idle| ==> idle[t].insn.None?) && |idle| >= d * Work(History(cfg, regs0, start))
    ensures RunOk(cfg, regs0, start + idle) && AllCommitted(cfg, regs0, start, idle)
  {
    hide History, MovingCycles, AnswersWithin, AllCommitted, Work;
    JoinOk(cfg, regs0, start, idle, |idle|);
    assert idle[..|idle|] == idle;
    hide RunOk;
    var w := Work(History(cfg, regs0, start));
    WorkLeft(cfg, regs0, start);
    Stretches(cfg, regs0, start, idle, d, w, |idle|);
    Drains(cfg, regs0, start, idle);
  }

  lemma WorkLeft(cfg: Config, regs0: seq<nat>, start: seq<Input>)
    requires RunOk(cfg, regs0, start)
    ensures Work(History(cfg, regs0, start)) >= 0
  {
    Reachable(cfg, regs0, start);
    InvGhost(cfg, regs0, After(cfg, regs0, start), History(cfg, regs0, start));
    ReadAtMostInFlight(cfg, History(cfg, regs0, start));
    hide History, After, Inv;
  }

  /** No instruction waits for ever: held at the input, it is issued at the latest in the cycle after as many cycles in
      which the oldest unit has yet to read or its ALU is done as there are reads and writes left, if its group has a
      unit at all. */
  lemma {:induction false} AcceptedInTime(cfg: Config, regs0: seq<nat>, start: seq<Input>, wait: seq<Input>, inp: Input)
    requires RunOk(cfg, regs0, start) && RunOk(cfg, regs0, start + wait) && InputOk(cfg, inp) && inp.insn.Some?
    requires exists x: nat :: x < cfg.n && x in cfg.groups[inp.insn.value.group]
    ensures MovingCycles(cfg, regs0, start, wait) >= Work(History(cfg, regs0, start)) ==>
      !NoIssue(cfg, regs0, start, wait) || Decide(cfg, After(cfg, regs0, start + wait), inp).issue != {}
  {
    hide After, LastGo, History, Issued, Writes, RunOk, NoIssue, MovingCycles, Decide, Inv, Work;
    var enough := MovingCycles(cfg, regs0, start, wait) >= Work(History(cfg, regs0, start));
    if enough && NoIssue(cfg, regs0, start, wait) {
      Empties(cfg, regs0, start, wait);
      Reachable(cfg, regs0, start + wait);
      IssuesExactly(cfg, regs0, After(cfg, regs0, start + wait), History(cfg, regs0, start + wait), inp);
    }
  }

  /** Something in flight means work left. */
  lemma {:induction false} ReadAtMostInFlight(cfg: Config, g: Ghost)
    requires GhostOk(cfg, g)
    ensures |g.read| <= |g.infl|
  {
    var u := set x | x in g.infl;
    assert g.read <= u;
    SetOfSeq(g.infl, u);
    Subset(g.read, u);
  }

  lemma {:induction false} SetOfSeq(q: seq<nat>, u: set<nat>)
    requires u == set x | x in q
    ensures |u| <= |q|
  {
    if |q| > 0 {
      var r := q[..|q| - 1];
      var v := set x | x in r;
      SetOfSeq(r, v);
      assert q == r + [q[|q| - 1]];
      assert u == v + {q[|q| - 1]};
    }
  }

  lemma {:induction false} Subset(a: set<nat>, b: set<nat>)
    requires a <= b
    ensures |a| <= |b|
  {
    assert b == a + (b - a);
  }
}
