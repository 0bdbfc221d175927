/** One function unit's row of latches in each of the scoreboard matrices. */

/** Registers a unit still has to read and write (DependencyRow). */
module DependencyCell {
  import opened Gates

  /** The held latch bits: destination and both sources, one bit a register. */
  datatype Row = Row(dest: set<nat>, src1: set<nat>, src2: set<nat>)

  /** The row's input wires in one cycle. */
  datatype Ctl = Ctl(issue: bool, goRd: bool, goWr: bool, die: bool,
                     dest: set<nat>, src1: set<nat>, src2: set<nat>)

  function When(c: bool, v: set<nat>): set<nat> { if c then v else {} }

  function DestQ(n: nat, w: Row, c: Ctl): set<nat> {
    Q(w.dest, When(c.issue, c.dest), Repl(c.goWr, n) + Repl(c.die, n))
  }

  function Src1Q(n: nat, w: Row, c: Ctl): set<nat> {
    Q(w.src1, When(c.issue, c.src1), Repl(c.goRd, n) + Repl(c.die, n))
  }

  function Src2Q(n: nat, w: Row, c: Ctl): set<nat> {
    Q(w.src2, When(c.issue, c.src2), Repl(c.goRd, n) + Repl(c.die, n))
  }

  /** Write-pending and read-pending outputs: the latch value or the held one. */
  function WrPending(n: nat, w: Row, c: Ctl): set<nat> { w.dest + DestQ(n, w, c) }

  function RdPending(n: nat, w: Row, c: Ctl): set<nat> {
    w.src1 + Src1Q(n, w, c) + w.src2 + Src2Q(n, w, c)
  }

  /** Register-file select lines, raised in the go cycle. */
  function DestSel(n: nat, w: Row, c: Ctl): set<nat> { When(c.goWr, WrPending(n, w, c)) }

  function Src1Sel(n: nat, w: Row, c: Ctl): set<nat> { When(c.goRd, w.src1 + Src1Q(n, w, c)) }

  function Src2Sel(n: nat, w: Row, c: Ctl): set<nat> { When(c.goRd, w.src2 + Src2Q(n, w, c)) }

  /** Hazard outputs of the row, reduced over registers (FU_RW_Pend): the unit writes a register
      somebody reads, or reads a register somebody writes. */
  predicate WrHazard(n: nat, w: Row, c: Ctl, rdPend: set<nat>) {
    DestQ(n, w, c) * rdPend != {}
  }

  predicate RdHazard(n: nat, w: Row, c: Ctl, wrPend: set<nat>) {
    Src1Q(n, w, c) * wrPend != {} || Src2Q(n, w, c) * wrPend != {}
  }

  /** The whole matrix: ORed pending vectors, and the units with a hazard. */
  function PendRd(n: nat, ws: seq<Row>, cs: seq<Ctl>): set<nat>
    requires |ws| == |cs|
  {
    AnyOf(n, seq(|ws|, y requires 0 <= y < |ws| => RdPending(n, ws[y], cs[y])))
  }

  function PendWr(n: nat, ws: seq<Row>, cs: seq<Ctl>): set<nat>
    requires |ws| == |cs|
  {
    AnyOf(n, seq(|ws|, y requires 0 <= y < |ws| => WrPending(n, ws[y], cs[y])))
  }

  /** A register raised by one row is raised in the ORed vectors. */
  lemma PendIntro(n: nat, ws: seq<Row>, cs: seq<Ctl>, y: nat, r: nat)
    requires |ws| == |cs| && y < |ws| && r < n
    ensures r in WrPending(n, ws[y], cs[y]) ==> r in PendWr(n, ws, cs)
    ensures r in RdPending(n, ws[y], cs[y]) ==> r in PendRd(n, ws, cs)
  {
    var wr := seq(|ws|, y requires 0 <= y < |ws| => WrPending(n, ws[y], cs[y]));
    var rd := seq(|ws|, y requires 0 <= y < |ws| => RdPending(n, ws[y], cs[y]));
    assert wr[y] == WrPending(n, ws[y], cs[y]) && rd[y] == RdPending(n, ws[y], cs[y]);
  }

  function HazRd(n: nat, ws: seq<Row>, cs: seq<Ctl>): set<nat>
    requires |ws| == |cs|
  {
    set x | 0 <= x < |ws| && RdHazard(n, ws[x], cs[x], PendWr(n, ws, cs))
  }

  function HazWr(n: nat, ws: seq<Row>, cs: seq<Ctl>): set<nat>
    requires |ws| == |cs|
  {
    set x | 0 <= x < |ws| && WrHazard(n, ws[x], cs[x], PendRd(n, ws, cs))
  }

  function Next(n: nat, w: Row, c: Ctl): Row {
    Row(DestQ(n, w, c), Src1Q(n, w, c), Src2Q(n, w, c))
  }

  /** A register's bits in a row: set by an issue that names it, whatever else happens, and otherwise held until the
      unit reads, or writes, or is cancelled. The pending and select lines show the old bit and the new. */
  lemma RowBits(n: nat, w: Row, c: Ctl, r: nat)
    requires r < n
    ensures var t := Next(n, w, c);
      && (r in t.dest <==> (c.issue && r in c.dest) || (r in w.dest && !c.goWr && !c.die))
      && (r in t.src1 <==> (c.issue && r in c.src1) || (r in w.src1 && !c.goRd && !c.die))
      && (r in t.src2 <==> (c.issue && r in c.src2) || (r in w.src2 && !c.goRd && !c.die))
      && (r in WrPending(n, w, c) <==> r in w.dest || r in t.dest)
      && (r in RdPending(n, w, c) <==> r in w.src1 || r in t.src1 || r in w.src2 || r in t.src2)
      && (r in DestSel(n, w, c) <==> c.goWr && (r in w.dest || r in t.dest))
      && (r in Src1Sel(n, w, c) <==> c.goRd && (r in w.src1 || r in t.src1))
      && (r in Src2Sel(n, w, c) <==> c.goRd && (r in w.src2 || r in t.src2))
  {
  }
}

/** Units a unit waits for before it may write (`rd`) or read (`wr`) (FUDependenceCell). */
module WaitCell {
  import opened Gates

  datatype Row = Row(rd: set<nat>, wr: set<nat>)

  /** `pendRd`/`pendWr`: the hazard outputs of every unit; `self` never waits for itself. */
  datatype Ctl = Ctl(self: nat, issue: bool, goRd: set<nat>, goWr: set<nat>, die: set<nat>,
                     pendRd: set<nat>, pendWr: set<nat>)

  function RdQ(w: Row, c: Ctl): set<nat> {
    Q(w.rd, if c.issue then c.pendRd - {c.self} else {}, c.goRd + c.die)
  }

  function WrQ(w: Row, c: Ctl): set<nat> {
    Q(w.wr, if c.issue then c.pendWr - {c.self} else {}, c.goWr + c.die)
  }

  function RdWait(w: Row, c: Ctl): set<nat> { if c.issue then {} else w.rd + RdQ(w, c) }

  function WrWait(w: Row, c: Ctl): set<nat> { if c.issue then {} else w.wr + WrQ(w, c) }

  /** FU_Pick_Vec: readable when no write is waited for, writable when no read is. */
  predicate Readable(w: Row, c: Ctl) { WrWait(w, c) == {} }

  predicate Writable(w: Row, c: Ctl) { RdWait(w, c) == {} }

  function Next(w: Row, c: Ctl): Row { Row(RdQ(w, c), WrQ(w, c)) }

  /** A unit is waited for from an issue that sees its hazard, never itself, until it reads, or writes, or is
      cancelled; and in the cycle of the issue nothing is waited for yet. */
  lemma WaitBits(w: Row, c: Ctl, x: nat)
    ensures x in Next(w, c).rd <==>
      (c.issue && x in c.pendRd && x != c.self) || (x in w.rd && x !in c.goRd && x !in c.die)
    ensures x in Next(w, c).wr <==>
      (c.issue && x in c.pendWr && x != c.self) || (x in w.wr && x !in c.goWr && x !in c.die)
    ensures x in RdWait(w, c) <==> !c.issue && (x in w.rd || x in Next(w, c).rd)
    ensures x in WrWait(w, c) <==> !c.issue && (x in w.wr || x in Next(w, c).wr)
  {
  }
}

/** Shadows cast on a unit: it may not write while one is up (ShadowFn). */
module ShadowCell {
  import opened Gates

  datatype Ctl = Ctl(issue: bool, shadow: set<nat>, good: set<nat>, fail: set<nat>, reset: bool)

  function SetIn(n: nat, c: Ctl): set<nat> {
    if c.issue then c.shadow - c.good - (c.good + c.fail + Repl(c.reset, n)) else {}
  }

  function ResetIn(n: nat, c: Ctl): set<nat> {
    Repl(c.reset, n) + (c.good + c.fail + Repl(c.reset, n)) + c.good
      + (if c.issue then All(n) - c.shadow else {})
  }

  function Next(n: nat, held: set<nat>, c: Ctl): set<nat> { Q(held, SetIn(n, c), ResetIn(n, c)) }

  /** No shadow, latched or being latched. */
  predicate Shadown(n: nat, held: set<nat>, c: Ctl) { Qlq(held, SetIn(n, c), ResetIn(n, c)) == {} }

  /** A shadow turned out to be a failure: the unit must be cancelled. */
  predicate GoDie(n: nat, held: set<nat>, c: Ctl) {
    Qlq(held, SetIn(n, c), ResetIn(n, c)) * c.fail != {}
  }

  /** A shadow is up next exactly if nothing lifts it now and it was up, or, in an issue, is cast now. */
  lemma ShadowBits(n: nat, held: set<nat>, c: Ctl, x: nat)
    requires x < n
    ensures x in Next(n, held, c) <==>
      !c.reset && x !in c.good && x !in c.fail && if c.issue then x in c.shadow else x in held
  {
  }

  /** The unit may write exactly if no shadow was up and none is cast now that is not lifted now; it is cancelled
      exactly if a shadow that was up fails. */
  lemma {:induction false} ShadowOutputs(n: nat, held: set<nat>, c: Ctl)
    requires held <= All(n) && c.shadow <= All(n)
    ensures Shadown(n, held, c) <==>
      held == {} && (c.issue && !c.reset ==> c.shadow <= c.good + c.fail)
    ensures GoDie(n, held, c) <==> held * c.fail != {}
  {
    assert SetIn(n, c) * c.fail == {};
    assert Q(held, SetIn(n, c), ResetIn(n, c)) <= held + SetIn(n, c);
    if held == {} {
      assert Q(held, SetIn(n, c), ResetIn(n, c)) == SetIn(n, c);
      assert SetIn(n, c) == if c.issue && !c.reset then c.shadow - (c.good + c.fail) else {};
    }
  }
}

/** The issue / go-read / go-write protocol of one computation unit (ComputationUnitNoDelay). */
module CompCell {
  import opened RegisterSim

  /** A latch whose set and reset inputs are registered. */
  datatype SyncLatch = SyncLatch(q: bool, s: bool, r: bool) {
    predicate Out() { (q && !r) || s }

    function Clock(s': bool, r': bool): SyncLatch { SyncLatch(Out(), s', r') }
  }

  /** `oper`, `a` and `b` are the operand registers, `res` the ALU's result. */
  datatype Unit = Unit(opc: SyncLatch, src: SyncLatch, req: SyncLatch,
                       oper: Instr, a: nat, b: nat, res: nat) {
    predicate Busy() { opc.Out() }

    predicate RdRel() { src.Out() && Busy() }

    /** The write request waits for the ALU and for the shadow. */
    predicate ReqRel(aluValid: bool, shadown: bool) {
      aluValid && req.Out() && Busy() && shadown
    }
  }

  /** Wires into the unit: `insn` and the two register-file read buses are shared by all units. */
  datatype Ctl = Ctl(issue: bool, goRd: bool, goWr: bool, die: bool, insn: Instr, rd1: nat, rd2: nat)

  function Oper(u: Unit, c: Ctl): Instr { if c.issue then c.insn else u.oper }

  /** Operand latches are transparent while the source latch is up. */
  function A(u: Unit, c: Ctl): nat { if u.src.Out() then c.rd1 else u.a }

  function B(u: Unit, c: Ctl): nat {
    var imm := Oper(u, c).immOk;
    var open := if imm then u.opc.Out() else u.src.Out();
    if open then if imm then Oper(u, c).imm else c.rd2 else u.b
  }

  /** The ALU takes the operands in the go-read cycle. */
  function Next(alu: Alu, u: Unit, c: Ctl): Unit {
    Unit(u.opc.Clock(c.issue, c.goWr || c.die),
         u.src.Clock(c.issue, c.goRd || c.die),
         u.req.Clock(c.goRd, c.goWr || c.die),
         Oper(u, c), A(u, c), B(u, c),
         if c.goRd then alu(Oper(u, c).op, A(u, c), B(u, c)) else u.res)
  }
}
