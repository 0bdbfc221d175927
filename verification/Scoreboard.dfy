/** The scoreboard: every function unit's rows, wired together and clocked. */
module ScoreboardModel {
  import opened Gates
  import opened Options
  import opened RegisterSim
  import D = DependencyCell
  import W = WaitCell
  import S = ShadowCell
  import C = CompCell

  /** n units, n_regs registers, the units of each issue group, and what the ALUs compute. */
  datatype Config = Config(n: nat, nRegs: nat, groups: seq<set<nat>>, alu: Alu)

  datatype State = State(rows: seq<D.Row>, waits: seq<W.Row>, shadows: seq<set<nat>>,
                         units: seq<C.Unit>, regs: seq<nat>)

  /** At most one instruction is offered in a cycle; `aluValid` are the units whose ALU says its
      output is valid, in whatever cycle the ALU pleases. */
  datatype Input = Input(insn: Option<Instr>, aluValid: set<nat>)

  /** The three decisions of one cycle: who is issued to, who reads and who writes. */
  datatype Go = Go(issue: set<nat>, rd: set<nat>, wr: set<nat>)

  predicate Shaped(cfg: Config, s: State) {
    |s.rows| == |s.waits| == |s.shadows| == |s.units| == cfg.n && |s.regs| == cfg.nRegs
  }

  predicate InstrOk(cfg: Config, i: Instr) {
    Fits(cfg.nRegs, i) && i.group < |cfg.groups|
  }

  predicate InputOk(cfg: Config, inp: Input) {
    inp.insn.Some? ==> InstrOk(cfg, inp.insn.value)
  }

  const Nop := Instr(Other, false, 0, 0, 0, 0, 0)

  /** RegDecode: unary register numbers, all zero when nothing is offered. */
  function Offered(inp: Input): Instr {
    match inp.insn case None => Nop case Some(i) => i
  }

  function Unary(inp: Input, r: nat): set<nat> {
    if inp.insn.None? then {} else {r}
  }

  function Busy(cfg: Config, s: State): set<nat>
    requires Shaped(cfg, s)
  {
    set y | 0 <= y < cfg.n && s.units[y].Busy()
  }

  /** IssueUnitArray: the offered instruction goes to the lowest idle unit of its group. */
  function Issue(cfg: Config, s: State, inp: Input): set<nat>
    requires Shaped(cfg, s) && InputOk(cfg, inp)
  {
    if inp.insn.None? then {}
    else Pick(cfg.n, cfg.groups[inp.insn.value.group] - Busy(cfg, s))
  }

  function RowCtl(inp: Input, g: Go, y: nat): D.Ctl {
    var i := Offered(inp);
    D.Ctl(y in g.issue, y in g.rd, y in g.wr, false, Unary(inp, i.dest), Unary(inp, i.src1), Unary(inp, i.src2))
  }

  function RowCtls(cfg: Config, inp: Input, g: Go): (r: seq<D.Ctl>)
    ensures |r| == cfg.n && forall y :: 0 <= y < cfg.n ==> r[y] == RowCtl(inp, g, y)
  {
    seq(cfg.n, y requires 0 <= y < cfg.n => RowCtl(inp, g, y))
  }

  /** GlobalPending: a register somebody still reads, or still writes. */
  function RdPend(cfg: Config, s: State, inp: Input, g: Go): set<nat>
    requires Shaped(cfg, s)
  {
    D.PendRd(cfg.nRegs, s.rows, RowCtls(cfg, inp, g))
  }

  function WrPend(cfg: Config, s: State, inp: Input, g: Go): set<nat>
    requires Shaped(cfg, s)
  {
    D.PendWr(cfg.nRegs, s.rows, RowCtls(cfg, inp, g))
  }

  /** Units with a hazard on a register they have yet to read, or to write. */
  function RdHazards(cfg: Config, s: State, inp: Input, g: Go): set<nat>
    requires Shaped(cfg, s)
  {
    D.HazRd(cfg.nRegs, s.rows, RowCtls(cfg, inp, g))
  }

  function WrHazards(cfg: Config, s: State, inp: Input, g: Go): set<nat>
    requires Shaped(cfg, s)
  {
    D.HazWr(cfg.nRegs, s.rows, RowCtls(cfg, inp, g))
  }

  function WaitCtl(cfg: Config, s: State, inp: Input, g: Go, y: nat): W.Ctl
    requires Shaped(cfg, s)
  {
    W.Ctl(y, y in g.issue, g.rd, g.wr, {}, RdHazards(cfg, s, inp, g), WrHazards(cfg, s, inp, g))
  }

  /** The previous instructions, while busy, shadow the one being issued; a write lifts its shadow. */
  function ShadowCtl(cfg: Config, s: State, g: Go, y: nat): S.Ctl
    requires Shaped(cfg, s)
  {
    S.Ctl(y in g.issue, Busy(cfg, s) - g.issue, g.wr, {}, false)
  }

  function ReadRequests(cfg: Config, s: State, inp: Input, g: Go): set<nat>
    requires Shaped(cfg, s)
  {
    set y | 0 <= y < cfg.n && s.units[y].RdRel() && W.Readable(s.waits[y], WaitCtl(cfg, s, inp, g, y))
  }

  function WriteRequests(cfg: Config, s: State, inp: Input, g: Go): set<nat>
    requires Shaped(cfg, s)
  {
    set y | 0 <= y < cfg.n
      && s.units[y].ReqRel(y in inp.aluValid, S.Shadown(cfg.n, s.shadows[y], ShadowCtl(cfg, s, g, y)))
      && W.Writable(s.waits[y], WaitCtl(cfg, s, inp, g, y))
  }

  /** The combinational wires of the cycle, all at rest: the pickers' outputs run through the
      matrices back into the pickers' inputs. */
  predicate Settled(cfg: Config, s: State, inp: Input, g: Go)
    requires Shaped(cfg, s) && InputOk(cfg, inp)
  {
    && g.issue == Issue(cfg, s, inp)
    && g.rd == Pick(cfg.n, ReadRequests(cfg, s, inp, g))
    && g.wr == Pick(cfg.n, WriteRequests(cfg, s, inp, g))
  }

  /** Units that ask to read, or to write, and are blocked by none of their held latches. */
  function FreeReaders(cfg: Config, s: State): set<nat>
    requires Shaped(cfg, s)
  {
    set y | 0 <= y < cfg.n && s.units[y].RdRel() && s.waits[y].wr == {}
  }

  function FreeWriters(cfg: Config, s: State, inp: Input): set<nat>
    requires Shaped(cfg, s)
  {
    set y | 0 <= y < cfg.n && s.units[y].ReqRel(y in inp.aluValid, s.shadows[y] == {}) && s.waits[y].rd == {}
  }

  /** The decisions, computed from the held latches alone. */
  function Decide(cfg: Config, s: State, inp: Input): Go
    requires Shaped(cfg, s) && InputOk(cfg, inp)
  {
    Go(Issue(cfg, s, inp), Pick(cfg.n, FreeReaders(cfg, s)), Pick(cfg.n, FreeWriters(cfg, s, inp)))
  }

  /** The loop through the matrices settles, in exactly one way. */
  lemma {:induction false} SettlesUniquely(cfg: Config, s: State, inp: Input, g: Go)
    requires Shaped(cfg, s) && InputOk(cfg, inp)
    ensures Settled(cfg, s, inp, g) <==> g == Decide(cfg, s, inp)
  {
    if g.issue == Issue(cfg, s, inp) {
      assert g.issue * Busy(cfg, s) == {};
      forall y | y in g.issue ensures 0 <= y < cfg.n ==> !s.units[y].Busy() {
        assert y !in Busy(cfg, s);
      }
      assert ReadRequests(cfg, s, inp, g) == FreeReaders(cfg, s);
      assert WriteRequests(cfg, s, inp, g) == FreeWriters(cfg, s, inp);
    }
  }

  /** Register-file ports: the select lines of all rows ORed; a write is seen by a read of the
      same register in the same cycle. */
  function WriteSel(cfg: Config, s: State, inp: Input, g: Go): set<nat>
    requires Shaped(cfg, s)
  {
    AnyOf(cfg.nRegs, seq(cfg.n, y requires 0 <= y < cfg.n => D.DestSel(cfg.nRegs, s.rows[y], RowCtl(inp, g, y))))
  }

  function Read1Sel(cfg: Config, s: State, inp: Input, g: Go): set<nat>
    requires Shaped(cfg, s)
  {
    AnyOf(cfg.nRegs, seq(cfg.n, y requires 0 <= y < cfg.n => D.Src1Sel(cfg.nRegs, s.rows[y], RowCtl(inp, g, y))))
  }

  function Read2Sel(cfg: Config, s: State, inp: Input, g: Go): set<nat>
    requires Shaped(cfg, s)
  {
    AnyOf(cfg.nRegs, seq(cfg.n, y requires 0 <= y < cfg.n => D.Src2Sel(cfg.nRegs, s.rows[y], RowCtl(inp, g, y))))
  }

  /** The result bus: the results of the writing units ORed. */
  function WriteData(cfg: Config, s: State, g: Go): nat
    requires Shaped(cfg, s)
  {
    OrSelect(seq(cfg.n, y requires 0 <= y < cfg.n => s.units[y].res), g.wr)
  }

  function Written(cfg: Config, s: State, inp: Input, g: Go): (r: seq<nat>)
    requires Shaped(cfg, s)
    ensures |r| == cfg.nRegs
  {
    seq(cfg.nRegs, r requires 0 <= r < cfg.nRegs =>
      if r in WriteSel(cfg, s, inp, g) then WriteData(cfg, s, g) else s.regs[r])
  }

  function UnitCtl(cfg: Config, s: State, inp: Input, g: Go, y: nat): C.Ctl
    requires Shaped(cfg, s)
  {
    C.Ctl(y in g.issue, y in g.rd, y in g.wr, false, Offered(inp),
          OrSelect(Written(cfg, s, inp, g), Read1Sel(cfg, s, inp, g)),
          OrSelect(Written(cfg, s, inp, g), Read2Sel(cfg, s, inp, g)))
  }

  /** One clock, with the cycle's wires at rest on g. */
  function Clocked(cfg: Config, s: State, inp: Input, g: Go): (t: State)
    requires Shaped(cfg, s)
    ensures Shaped(cfg, t)
  {
    State(
      seq(cfg.n, y requires 0 <= y < cfg.n => D.Next(cfg.nRegs, s.rows[y], RowCtl(inp, g, y))),
      seq(cfg.n, y requires 0 <= y < cfg.n => W.Next(s.waits[y], WaitCtl(cfg, s, inp, g, y))),
      seq(cfg.n, y requires 0 <= y < cfg.n => S.Next(cfg.n, s.shadows[y], ShadowCtl(cfg, s, g, y))),
      seq(cfg.n, y requires 0 <= y < cfg.n => C.Next(cfg.alu, s.units[y], UnitCtl(cfg, s, inp, g, y))),
      Written(cfg, s, inp, g))
  }

  function Step(cfg: Config, s: State, inp: Input): (t: State)
    requires Shaped(cfg, s) && InputOk(cfg, inp)
    ensures Shaped(cfg, t)
  {
    Clocked(cfg, s, inp, Decide(cfg, s, inp))
  }

  const IdleLatch := C.SyncLatch(false, false, false)

  function Reset(cfg: Config, regs: seq<nat>): (s: State)
    requires |regs| == cfg.nRegs
    ensures Shaped(cfg, s)
  {
    State(seq(cfg.n, _ => D.Row({}, {}, {})), seq(cfg.n, _ => W.Row({}, {})), seq(cfg.n, _ => {}),
          seq(cfg.n, _ => C.Unit(IdleLatch, IdleLatch, IdleLatch, Nop, 0, 0, 0)), regs)
  }
}
