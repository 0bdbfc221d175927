/** The scoreboard as clocked objects: matrices whose latches are updated in place, row by row. */
module ScoreboardHardware {
  import opened Gates
  import opened RegisterSim
  import opened ScoreboardModel
  import D = DependencyCell
  import W = WaitCell
  import S = ShadowCell
  import C = CompCell

  /** GlobalPending: per register, the OR of the units' bits. */
  method GlobalPending(n: nat, fuVecs: seq<set<nat>>) returns (pend: set<nat>)
    ensures pend == AnyOf(n, fuVecs)
  {
    pend := {};
    for r := 0 to n
      invariant forall i :: i in pend <==> 0 <= i < r && exists y :: 0 <= y < |fuVecs| && i in fuVecs[y]
    {
      var bit := false;
      for y := 0 to |fuVecs|
        invariant bit <==> exists z :: 0 <= z < y && r in fuVecs[z]
      {
        bit := bit || r in fuVecs[y];
      }
      if bit { pend := pend + {r}; }
    }
  }

  /** FU_RW_Pend for every unit: does its row have a hazard against the global pending vectors? */
  method ReduceHazards(n: nat, rows: seq<D.Row>, ctl: seq<D.Ctl>) returns (rd: set<nat>, wr: set<nat>)
    requires |ctl| == |rows|
    ensures rd == D.HazRd(n, rows, ctl) && wr == D.HazWr(n, rows, ctl)
  {
    hide D.RdHazard, D.WrHazard, D.RdPending, D.WrPending, AnyOf;
    var rdPend := GlobalPending(n, seq(|rows|, y requires 0 <= y < |rows| => D.RdPending(n, rows[y], ctl[y])));
    var wrPend := GlobalPending(n, seq(|rows|, y requires 0 <= y < |rows| => D.WrPending(n, rows[y], ctl[y])));
    assert rdPend == D.PendRd(n, rows, ctl) && wrPend == D.PendWr(n, rows, ctl);
    rd, wr := {}, {};
    for x := 0 to |rows|
      invariant rd == set z | 0 <= z < x && D.RdHazard(n, rows[z], ctl[z], wrPend)
      invariant wr == set z | 0 <= z < x && D.WrHazard(n, rows[z], ctl[z], rdPend)
    {
      if D.RdHazard(n, rows[x], ctl[x], wrPend) { rd := rd + {x}; }
      if D.WrHazard(n, rows[x], ctl[x], rdPend) { wr := wr + {x}; }
    }
  }

  class FURegDepMatrix {
    const nReg: nat
    const dm: array<D.Row>

    constructor (nFu: nat, nReg: nat)
      ensures this.nReg == nReg && fresh(dm) && dm.Length == nFu
      ensures forall y :: 0 <= y < nFu ==> dm[y] == D.Row({}, {}, {})
    {
      this.nReg := nReg;
      dm := new D.Row[nFu](_ => D.Row({}, {}, {}));
    }

    /** Global pending vectors and the hazard outputs of every row. */
    method Hazards(ctl: seq<D.Ctl>) returns (rd: set<nat>, wr: set<nat>)
      requires |ctl| == dm.Length
      ensures rd == D.HazRd(nReg, dm[..], ctl) && wr == D.HazWr(nReg, dm[..], ctl)
    {
      rd, wr := ReduceHazards(nReg, dm[..], ctl);
    }

    method Clock(ctl: seq<D.Ctl>)
      requires |ctl| == dm.Length
      modifies dm
      ensures forall y :: 0 <= y < dm.Length ==> dm[y] == D.Next(nReg, old(dm[y]), ctl[y])
    {
      for y := 0 to dm.Length
        invariant forall z :: 0 <= z < y ==> dm[z] == D.Next(nReg, old(dm[z]), ctl[z])
        invariant forall z :: y <= z < dm.Length ==> dm[z] == old(dm[z])
      {
        dm[y] := D.Next(nReg, dm[y], ctl[y]);
      }
    }
  }

  class FUFUDepMatrix {
    const dm: array<W.Row>

    constructor (nFu: nat)
      ensures fresh(dm) && dm.Length == nFu && forall y :: 0 <= y < nFu ==> dm[y] == W.Row({}, {})
    {
      dm := new W.Row[nFu](_ => W.Row({}, {}));
    }

    method Clock(ctl: seq<W.Ctl>)
      requires |ctl| == dm.Length
      modifies dm
      ensures forall y :: 0 <= y < dm.Length ==> dm[y] == W.Next(old(dm[y]), ctl[y])
    {
      for y := 0 to dm.Length
        invariant forall z :: 0 <= z < y ==> dm[z] == W.Next(old(dm[z]), ctl[z])
        invariant forall z :: y <= z < dm.Length ==> dm[z] == old(dm[z])
      {
        dm[y] := W.Next(dm[y], ctl[y]);
      }
    }
  }

  class ShadowMatrix {
    const wid: nat
    const sh: array<set<nat>>

    constructor (nFu: nat, wid: nat)
      ensures this.wid == wid && fresh(sh) && sh.Length == nFu && forall y :: 0 <= y < nFu ==> sh[y] == {}
    {
      this.wid := wid;
      sh := new set<nat>[nFu](_ => {});
    }

    method Clock(ctl: seq<S.Ctl>)
      requires |ctl| == sh.Length
      modifies sh
      ensures forall y :: 0 <= y < sh.Length ==> sh[y] == S.Next(wid, old(sh[y]), ctl[y])
    {
      for y := 0 to sh.Length
        invariant forall z :: 0 <= z < y ==> sh[z] == S.Next(wid, old(sh[z]), ctl[z])
        invariant forall z :: y <= z < sh.Length ==> sh[z] == old(sh[z])
      {
        sh[y] := S.Next(wid, sh[y], ctl[y]);
      }
    }
  }

  class Scoreboard {
    const cfg: Config
    const intRegDeps: FURegDepMatrix
    const intFuDeps: FUFUDepMatrix
    const shadows: ShadowMatrix
    const units: array<C.Unit>
    var intRegs: seq<nat>

    ghost predicate Valid()
      reads this
    {
      && intRegDeps.dm.Length == intFuDeps.dm.Length == shadows.sh.Length == units.Length == cfg.n
      && |intRegs| == cfg.nRegs && intRegDeps.nReg == cfg.nRegs && shadows.wid == cfg.n
    }

    function Snapshot(): State
      reads this, intRegDeps.dm, intFuDeps.dm, shadows.sh, units
    {
      State(intRegDeps.dm[..], intFuDeps.dm[..], shadows.sh[..], units[..], intRegs)
    }

    constructor (cfg: Config, regs: seq<nat>)
      requires |regs| == cfg.nRegs
      ensures Valid() && this.cfg == cfg && Snapshot() == Reset(cfg, regs)
      ensures fresh(intRegDeps.dm) && fresh(intFuDeps.dm) && fresh(shadows.sh) && fresh(units)
    {
      this.cfg := cfg;
      intRegDeps := new FURegDepMatrix(cfg.n, cfg.nRegs);
      intFuDeps := new FUFUDepMatrix(cfg.n);
      shadows := new ShadowMatrix(cfg.n, cfg.n);
      units := new C.Unit[cfg.n](_ => C.Unit(IdleLatch, IdleLatch, IdleLatch, Nop, 0, 0, 0));
      intRegs := regs;
      new;
      assert Snapshot().rows == Reset(cfg, regs).rows;
      assert Snapshot().waits == Reset(cfg, regs).waits;
      assert Snapshot().shadows == Reset(cfg, regs).shadows;
      assert Snapshot().units == Reset(cfg, regs).units;
    }

    /** One clock: settle the wires, then update every latch in place. */
    method Clock(inp: Input) returns (go: Go)
      requires Valid() && InputOk(cfg, inp)
      modifies this, intRegDeps.dm, intFuDeps.dm, shadows.sh, units
      ensures Valid() && go == Decide(cfg, old(Snapshot()), inp)
      ensures Snapshot() == Step(cfg, old(Snapshot()), inp)
    {
      var s := Snapshot();
      go := Decide(cfg, s, inp);
      hide Decide, RowCtl, ShadowCtl, UnitCtl, WaitCtl, Written, D.Next, W.Next, S.Next, C.Next, Clocked;
      ClockLatches(s, inp, go);
      intRegs := Written(cfg, s, inp, go);
      IsClocked(cfg, s, inp, go, Snapshot());
    }

    method ClockLatches(s: State, inp: Input, go: Go)
      requires Valid() && s == Snapshot()
      modifies intRegDeps.dm, intFuDeps.dm, shadows.sh, units
      ensures forall y :: 0 <= y < cfg.n ==> intRegDeps.dm[y] == D.Next(cfg.nRegs, s.rows[y], RowCtl(inp, go, y))
      ensures forall y :: 0 <= y < cfg.n ==> intFuDeps.dm[y] == W.Next(s.waits[y], WaitCtl(cfg, s, inp, go, y))
      ensures forall y :: 0 <= y < cfg.n ==> shadows.sh[y] == S.Next(cfg.n, s.shadows[y], ShadowCtl(cfg, s, go, y))
      ensures forall y :: 0 <= y < cfg.n ==> units[y] == C.Next(cfg.alu, s.units[y], UnitCtl(cfg, s, inp, go, y))
    {
      var rowCtl := RowCtls(cfg, inp, go);
      var rdHaz, wrHaz := intRegDeps.Hazards(rowCtl);
      var waitCtl := seq(cfg.n, y requires 0 <= y < cfg.n => W.Ctl(y, y in go.issue, go.rd, go.wr, {}, rdHaz, wrHaz));
      var shadowCtl := seq(cfg.n, y requires 0 <= y < cfg.n => ShadowCtl(cfg, s, go, y));
      var unitCtl := seq(cfg.n, y requires 0 <= y < cfg.n => UnitCtl(cfg, s, inp, go, y));
      assert forall y :: 0 <= y < cfg.n ==> waitCtl[y] == WaitCtl(cfg, s, inp, go, y);
      hide RowCtl, ShadowCtl, UnitCtl, WaitCtl, RowCtls, D.Next, W.Next, S.Next, C.Next, D.HazRd, D.HazWr;
      intRegDeps.Clock(rowCtl);
      intFuDeps.Clock(waitCtl);
      shadows.Clock(shadowCtl);
      ClockUnits(unitCtl);
    }

    method ClockUnits(ctl: seq<C.Ctl>)
      requires |ctl| == units.Length
      modifies units
      ensures forall y :: 0 <= y < units.Length ==> units[y] == C.Next(cfg.alu, old(units[y]), ctl[y])
    {
      for y := 0 to units.Length
        invariant forall z :: 0 <= z < y ==> units[z] == C.Next(cfg.alu, old(units[z]), ctl[z])
        invariant forall z :: y <= z < units.Length ==> units[z] == old(units[z])
      {
        units[y] := C.Next(cfg.alu, units[y], ctl[y]);
      }
    }
  }

  /** A state whose every row is clocked is the clocked state. */
  lemma {:induction false} IsClocked(cfg: Config, s: State, inp: Input, g: Go, t: State)
    requires Shaped(cfg, s) && Shaped(cfg, t) && t.regs == Written(cfg, s, inp, g)
    requires forall y :: 0 <= y < cfg.n ==> t.rows[y] == D.Next(cfg.nRegs, s.rows[y], RowCtl(inp, g, y))
    requires forall y :: 0 <= y < cfg.n ==> t.waits[y] == W.Next(s.waits[y], WaitCtl(cfg, s, inp, g, y))
    requires forall y :: 0 <= y < cfg.n ==> t.shadows[y] == S.Next(cfg.n, s.shadows[y], ShadowCtl(cfg, s, g, y))
    requires forall y :: 0 <= y < cfg.n ==> t.units[y] == C.Next(cfg.alu, s.units[y], UnitCtl(cfg, s, inp, g, y))
    ensures t == Clocked(cfg, s, inp, g)
  {
    hide RowCtl, ShadowCtl, UnitCtl, WaitCtl, Written, D.Next, W.Next, S.Next, C.Next;
    var c := Clocked(cfg, s, inp, g);
    assert t.rows == c.rows && t.waits == c.waits && t.shadows == c.shadows && t.units == c.units;
  }
}
