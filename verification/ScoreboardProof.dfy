/** What every run of the scoreboard keeps, and why it computes what the program says. */
module ScoreboardProof {
  import opened Gates
  import opened RegisterSim
  import opened ScoreboardModel
  import D = DependencyCell
  import W = WaitCell
  import S = ShadowCell
  import C = CompCell

  /** History: instructions in issue order, the units still holding the last of them (oldest
      first), and those of these units that have read their operands. */
  datatype Ghost = Ghost(hist: seq<Instr>, infl: seq<nat>, read: set<nat>) {
    function Committed(): int { |hist| - |infl| }
  }

  ghost function NextGhost(g: Ghost, inp: Input, go: Go): Ghost {
    var infl := if go.wr == {} || g.infl == [] then g.infl else g.infl[1..];
    var issued := go.issue != {} && inp.insn.Some?;
    Ghost(if issued then g.hist + [inp.insn.value] else g.hist,
          if issued then infl + [Only(go.issue)] else infl,
          g.read + go.rd - go.wr)
  }

  /** The element of a one-hot vector. */
  ghost function Only(s: set<nat>): (x: nat)
    requires s != {}
    ensures x in s
  {
    var x :| x in s; x
  }

  predicate GhostOk(cfg: Config, g: Ghost) {
    && |g.infl| <= |g.hist|
    && (forall i :: 0 <= i < |g.hist| ==> InstrOk(cfg, g.hist[i]))
    && (forall j :: 0 <= j < |g.infl| ==> g.infl[j] < cfg.n)
    && (forall i, j :: 0 <= i < j < |g.infl| ==> g.infl[i] != g.infl[j])
    && (forall x :: x in g.read ==> x in g.infl)
  }

  /** Units issued before the j-th unit in flight and not finished. */
  function Older(g: Ghost, j: nat): set<nat>
    requires j <= |g.infl|
  {
    set x | x in g.infl[..j]
  }

  lemma OldestIsOlder(g: Ghost, j: nat)
    requires j < |g.infl|
    ensures j > 0 ==> g.infl[0] in Older(g, j)
  {
    assert j > 0 ==> g.infl[..j][0] == g.infl[0];
  }

  function InstrOf(g: Ghost, j: nat): Instr
    requires j < |g.infl| <= |g.hist|
  {
    g.hist[g.Committed() + j]
  }

  /** The registers as the program has them just before history position p. */
  function Before(cfg: Config, regs0: seq<nat>, g: Ghost, p: nat): (r: seq<nat>)
    requires |regs0| == cfg.nRegs && GhostOk(cfg, g) && p <= |g.hist|
    ensures |r| == cfg.nRegs
  {
    Run(cfg.alu, regs0, g.hist, p)
  }

  predicate Reads(i: Instr, r: nat) { r == i.src1 || r == i.src2 }

  /** The latches of the j-th unit in flight. */
  predicate RowsOk(s: State, g: Ghost, j: nat)
    requires j < |g.infl| <= |g.hist| && g.infl[j] < |s.rows| && g.infl[j] < |s.units|
  {
    var y, i := g.infl[j], InstrOf(g, j);
    var u := s.units[y];
    && s.rows[y].dest == {i.dest}
    && s.rows[y].src1 == (if y in g.read then {} else {i.src1})
    && s.rows[y].src2 == (if y in g.read then {} else {i.src2})
    && u.opc.Out() && (u.src.Out() <==> y !in g.read) && (u.req.Out() <==> y in g.read)
    && u.oper == i
  }

  /** What the j-th unit in flight waits for: only older units, and every older unit it has a
      hazard with. */
  predicate WaitsOk(s: State, g: Ghost, j: nat)
    requires j < |g.infl| <= |g.hist| && g.infl[j] < |s.waits| && g.infl[j] < |s.shadows|
  {
    var y, i := g.infl[j], InstrOf(g, j);
    && s.shadows[y] == Older(g, j)
    && s.waits[y].wr <= Older(g, j)
    && s.waits[y].rd <= Older(g, j) - g.read
    && (forall k :: 0 <= k < j && Reads(i, InstrOf(g, k).dest) ==> g.infl[k] in s.waits[y].wr)
    && (forall k :: 0 <= k < j && g.infl[k] !in g.read && Reads(InstrOf(g, k), i.dest)
          ==> g.infl[k] in s.waits[y].rd)
  }

  /** A unit that has read holds the operands the program gives it. */
  predicate ValuesOk(cfg: Config, regs0: seq<nat>, s: State, g: Ghost, j: nat)
    requires |regs0| == cfg.nRegs && GhostOk(cfg, g) && j < |g.infl| && Shaped(cfg, s)
  {
    var y, i := g.infl[j], InstrOf(g, j);
    var regs := Before(cfg, regs0, g, g.Committed() + j);
    var u := s.units[y];
    y in g.read ==>
      && u.a == regs[i.src1]
      && u.b == (if i.immOk then i.imm else regs[i.src2])
      && u.res == cfg.alu(i.op, u.a, u.b)
  }

  predicate IdleOk(s: State, y: nat)
    requires y < |s.rows| && y < |s.units| && y < |s.waits| && y < |s.shadows|
  {
    var u := s.units[y];
    && s.rows[y] == D.Row({}, {}, {})
    && s.waits[y] == W.Row({}, {})
    && s.shadows[y] == {}
    && !u.opc.Out() && !u.src.Out() && !u.req.Out()
  }

  predicate Inv(cfg: Config, regs0: seq<nat>, s: State, g: Ghost) {
    && |regs0| == cfg.nRegs && Shaped(cfg, s) && GhostOk(cfg, g)
    && (forall j :: 0 <= j < |g.infl| ==> RowsOk(s, g, j))
    && (forall j :: 0 <= j < |g.infl| ==> WaitsOk(s, g, j))
    && (forall j :: 0 <= j < |g.infl| ==> ValuesOk(cfg, regs0, s, g, j))
    && (forall y :: 0 <= y < cfg.n && y !in g.infl ==> IdleOk(s, y))
    && s.regs == Before(cfg, regs0, g, g.Committed())
  }

  /** At most the oldest unit writes, one unit that has not read reads, one idle unit is issued to. */
  predicate GoOk(cfg: Config, g: Ghost, inp: Input, go: Go) {
    && (forall x :: x in go.wr ==> |g.infl| > 0 && x == g.infl[0] && x in g.read)
    && (forall x :: x in go.rd ==> x in g.infl && x !in g.read)
    && (forall x, y :: x in go.rd && y in go.rd ==> x == y)
    && (forall x :: x in go.issue ==> x !in g.infl && x < cfg.n && inp.insn.Some?)
    && (forall x, y :: x in go.issue && y in go.issue ==> x == y)
  }

  /** Nobody is cancelled: an order shadow is only ever lifted by the write of the unit that casts it. */
  lemma ShadowCancelsNobody(cfg: Config, s: State, go: Go, y: nat)
    requires Shaped(cfg, s) && y < cfg.n
    ensures !S.GoDie(cfg.n, s.shadows[y], ShadowCtl(cfg, s, go, y))
  {
  }

  /** Who is busy, and who may be chosen. */
  lemma {:induction false} Decisions(cfg: Config, regs0: seq<nat>, s: State, g: Ghost, inp: Input)
    requires Inv(cfg, regs0, s, g) && InputOk(cfg, inp)
    ensures forall y :: y in Busy(cfg, s) <==> y in g.infl
    ensures GoOk(cfg, g, inp, Decide(cfg, s, inp))
    ensures forall x :: x in Decide(cfg, s, inp).rd ==> s.waits[x].wr == {}
  {
    var go := Decide(cfg, s, inp);
    forall y ensures y in Busy(cfg, s) <==> y in g.infl {
      if y in g.infl {
        var j :| 0 <= j < |g.infl| && g.infl[j] == y;
        assert RowsOk(s, g, j);
      } else if 0 <= y < cfg.n {
        assert IdleOk(s, y);
      }
    }
    forall x | x in go.wr ensures |g.infl| > 0 && x == g.infl[0] && x in g.read {
      assert x in Busy(cfg, s);
      var j :| 0 <= j < |g.infl| && g.infl[j] == x;
      assert RowsOk(s, g, j) && WaitsOk(s, g, j);
      OldestIsOlder(g, j);
    }
    forall x | x in go.rd ensures x in g.infl && x !in g.read && x < cfg.n && s.waits[x].wr == {} {
      assert x in Busy(cfg, s);
      var j :| 0 <= j < |g.infl| && g.infl[j] == x;
      assert RowsOk(s, g, j);
    }
    forall x | x in go.issue ensures x !in g.infl && x < cfg.n && inp.insn.Some? {
      assert x !in Busy(cfg, s);
    }
  }

  /** A register raised by unit y's row is raised in the ORed vector. */
  lemma AnyOfIntro(n: nat, lines: seq<set<nat>>, y: nat, r: nat)
    requires y < |lines| && r in lines[y] && r < n
    ensures r in AnyOf(n, lines)
  {
  }

  /** An offered instruction is issued exactly if its group has a unit that is not in flight. */
  lemma {:induction false} IssuesExactly(cfg: Config, regs0: seq<nat>, s: State, g: Ghost, inp: Input)
    requires Inv(cfg, regs0, s, g) && InputOk(cfg, inp)
    ensures Decide(cfg, s, inp).issue != {} <==>
      inp.insn.Some? && exists x: nat :: x < cfg.n && x in cfg.groups[inp.insn.value.group] && x !in g.infl
  {
    Decisions(cfg, regs0, s, g, inp);
    if inp.insn.Some? {
      var free := cfg.groups[inp.insn.value.group] - Busy(cfg, s);
      hide Inv, Busy, GoOk;
      assert Decide(cfg, s, inp).issue == Pick(cfg.n, free);
      hide Decide;
      forall x: nat
        ensures x in free <==> x in cfg.groups[inp.insn.value.group] && x !in g.infl
      {
      }
    }
  }

  /** The pending vectors show the registers of the instruction being issued. */
  lemma {:induction false} PendingShowsIssued(cfg: Config, s: State, inp: Input, g: Go, z: nat)
    requires Shaped(cfg, s) && InputOk(cfg, inp) && inp.insn.Some?
    requires z in g.issue && z < cfg.n
    ensures inp.insn.value.dest in WrPend(cfg, s, inp, g)
    ensures inp.insn.value.src1 in RdPend(cfg, s, inp, g) && inp.insn.value.src2 in RdPend(cfg, s, inp, g)
  {
    var i, cs := inp.insn.value, RowCtls(cfg, inp, g);
    D.PendIntro(cfg.nRegs, s.rows, cs, z, i.dest);
    D.PendIntro(cfg.nRegs, s.rows, cs, z, i.src1);
    D.PendIntro(cfg.nRegs, s.rows, cs, z, i.src2);
  }

  /** The hazards seen by the instruction being issued to z: exactly enough of the older units. */
  lemma {:induction false} HazardsAtIssue(cfg: Config, regs0: seq<nat>, s: State, g: Ghost, inp: Input, z: nat)
    requires Inv(cfg, regs0, s, g) && InputOk(cfg, inp) && z in Decide(cfg, s, inp).issue
    ensures inp.insn.Some?
    ensures var go, i := Decide(cfg, s, inp), inp.insn.value;
      && (forall x :: x in RdHazards(cfg, s, inp, go) && x != z ==> x in g.infl && x !in g.read && x !in go.rd)
      && (forall x :: x in WrHazards(cfg, s, inp, go) && x != z ==> x in g.infl && x !in go.wr)
      && (forall k :: 0 <= k < |g.infl| && g.infl[k] !in g.read + go.rd && Reads(InstrOf(g, k), i.dest)
            ==> g.infl[k] in RdHazards(cfg, s, inp, go))
      && (forall k :: 0 <= k < |g.infl| && g.infl[k] !in go.wr && Reads(i, InstrOf(g, k).dest)
            ==> g.infl[k] in WrHazards(cfg, s, inp, go))
  {
    Decisions(cfg, regs0, s, g, inp);
    var go, i := Decide(cfg, s, inp), inp.insn.value;
    PendingShowsIssued(cfg, s, inp, go, z);
    forall x | x in RdHazards(cfg, s, inp, go) && x != z ensures x in g.infl && x !in g.read && x !in go.rd {
      HazardSource(cfg, regs0, s, g, inp, x);
    }
    forall x | x in WrHazards(cfg, s, inp, go) && x != z ensures x in g.infl && x !in go.wr {
      HazardSource(cfg, regs0, s, g, inp, x);
    }
    forall k | 0 <= k < |g.infl|
      ensures g.infl[k] !in g.read + go.rd && Reads(InstrOf(g, k), i.dest) ==> g.infl[k] in RdHazards(cfg, s, inp, go)
      ensures g.infl[k] !in go.wr && Reads(i, InstrOf(g, k).dest) ==> g.infl[k] in WrHazards(cfg, s, inp, go)
    {
      HazardFound(cfg, regs0, s, g, inp, z, k);
    }
  }

  /** An older unit with an outstanding hazard against the instruction being issued raises it. */
  lemma {:induction false} HazardFound(cfg: Config, regs0: seq<nat>, s: State, g: Ghost, inp: Input, z: nat, k: nat)
    requires Inv(cfg, regs0, s, g) && InputOk(cfg, inp) && inp.insn.Some?
    requires z in Decide(cfg, s, inp).issue && z < cfg.n && k < |g.infl|
    ensures var go, i, x := Decide(cfg, s, inp), inp.insn.value, g.infl[k];
      && (x !in g.read + go.rd && Reads(InstrOf(g, k), i.dest) ==> x in RdHazards(cfg, s, inp, go))
      && (x !in go.wr && Reads(i, InstrOf(g, k).dest) ==> x in WrHazards(cfg, s, inp, go))
  {
    var go, i, x := Decide(cfg, s, inp), inp.insn.value, g.infl[k];
    var c := RowCtl(inp, go, x);
    PendingShowsIssued(cfg, s, inp, go, z);
    assert RowsOk(s, g, k);
    if x !in g.read + go.rd && Reads(InstrOf(g, k), i.dest) {
      assert i.dest in D.Src1Q(cfg.nRegs, s.rows[x], c) * WrPend(cfg, s, inp, go)
          || i.dest in D.Src2Q(cfg.nRegs, s.rows[x], c) * WrPend(cfg, s, inp, go);
    }
    if x !in go.wr && Reads(i, InstrOf(g, k).dest) {
      assert InstrOf(g, k).dest in D.DestQ(cfg.nRegs, s.rows[x], c) * RdPend(cfg, s, inp, go);
    }
  }

  /** Only a unit that still has something to read (or write) raises a hazard. */
  lemma {:induction false} HazardSource(cfg: Config, regs0: seq<nat>, s: State, g: Ghost, inp: Input, x: nat)
    requires Inv(cfg, regs0, s, g) && InputOk(cfg, inp) && x < cfg.n
    ensures var go := Decide(cfg, s, inp);
      x !in go.issue ==>
        && (x in RdHazards(cfg, s, inp, go) ==> x in g.infl && x !in g.read && x !in go.rd)
        && (x in WrHazards(cfg, s, inp, go) ==> x in g.infl && x !in go.wr)
  {
    var go := Decide(cfg, s, inp);
    Decisions(cfg, regs0, s, g, inp);
    if x in g.infl {
      var j :| 0 <= j < |g.infl| && g.infl[j] == x;
      assert RowsOk(s, g, j);
      var i := InstrOf(g, j);
      assert i in g.hist && InstrOk(cfg, i);
    } else {
      assert IdleOk(s, x);
    }
  }

  /** How many instructions commit in the cycle. */
  function Commits(go: Go): nat { if go.wr == {} then 0 else 1 }

  /** The history stays in shape; positions shift by the commit. */
  predicate Follows(g: Ghost, g': Ghost, inp: Input, go: Go) {
    var d := Commits(go);
    && d <= |g.infl| <= |g'.infl| + d && |g.infl| <= |g.hist| && |g'.infl| <= |g'.hist|
    && |g'.hist| >= |g.hist| && g'.hist[..|g.hist|] == g.hist
    && g'.Committed() == g.Committed() + d
    && (go.issue == {} ==> |g'.infl| + d == |g.infl| && g'.hist == g.hist)
    && (go.issue != {} ==> (|g'.infl| + d == |g.infl| + 1 && g'.infl[|g.infl| - d] in go.issue
                            && inp.insn.Some? && g'.hist == g.hist + [inp.insn.value]))
    && (forall j :: d <= j < |g.infl| ==> g'.infl[j - d] == g.infl[j])
    && (forall j :: d <= j < |g.infl| ==> InstrOf(g', j - d) == InstrOf(g, j))
    && g'.read == g.read + go.rd - go.wr
  }

  /** The instructions that stay in flight move down by the commit. */
  predicate Shifted(g: Ghost, g': Ghost, d: nat) {
    && d <= |g.infl| <= |g.hist| <= |g'.hist| && |g.infl| - d <= |g'.infl| <= |g'.hist|
    && g'.infl[..|g.infl| - d] == g.infl[d..] && g'.hist[..|g.hist|] == g.hist
    && |g'.hist| - |g'.infl| == |g.hist| - |g.infl| + d
  }

  lemma {:induction false} GhostFollows(cfg: Config, g: Ghost, inp: Input, go: Go)
    requires |g.infl| <= |g.hist| && GoOk(cfg, g, inp, go)
    ensures Follows(g, NextGhost(g, inp, go), inp, go)
  {
    hide NextGhost, GoOk, Commits, InstrOf, Shifted;
    var g', d := NextGhost(g, inp, go), Commits(go);
    GhostSizes(cfg, g, inp, go);
    GhostShifted(cfg, g, inp, go);
    SameInstrs(g, g', d);
  }

  lemma {:induction false} SameInstrs(g: Ghost, g': Ghost, d: nat)
    requires Shifted(g, g', d)
    ensures |g.infl| <= |g.hist| <= |g'.hist| && |g.infl| - d <= |g'.infl| <= |g'.hist| && g'.hist[..|g.hist|] == g.hist
    ensures forall j :: d <= j < |g.infl| ==> g'.infl[j - d] == g.infl[j]
    ensures forall j :: d <= j < |g.infl| ==> InstrOf(g', j - d) == InstrOf(g, j)
  {
    forall j | d <= j < |g.infl|
      ensures g'.infl[j - d] == g.infl[j] && InstrOf(g', j - d) == InstrOf(g, j)
    {
      SameInstr(g, g', d, j);
    }
  }

  lemma SameInstr(g: Ghost, g': Ghost, d: nat, j: nat)
    requires Shifted(g, g', d) && d <= j < |g.infl|
    ensures g'.infl[j - d] == g.infl[j] && InstrOf(g', j - d) == InstrOf(g, j)
  {
    assert g'.infl[..|g.infl| - d][j - d] == g.infl[d..][j - d];
    var k := |g.hist| - |g.infl| + j;
    assert g'.hist[..|g.hist|][k] == g'.hist[k];
  }

  lemma {:induction false} GhostSizes(cfg: Config, g: Ghost, inp: Input, go: Go)
    requires |g.infl| <= |g.hist| && GoOk(cfg, g, inp, go)
    ensures var g', d := NextGhost(g, inp, go), Commits(go);
      && d <= |g.infl| && g'.read == g.read + go.rd - go.wr
      && (go.issue == {} ==> |g'.infl| + d == |g.infl| && g'.hist == g.hist)
      && (go.issue != {} ==>
            inp.insn.Some? && g'.hist == g.hist + [inp.insn.value] && |g'.infl| == |g.infl| - d + 1
            && g'.infl[|g.infl| - d] in go.issue)
  {
    if go.issue != {} {
      var z :| z in go.issue;
    }
    if go.wr != {} {
      var x :| x in go.wr;
    }
  }

  lemma {:induction false} GhostShifted(cfg: Config, g: Ghost, inp: Input, go: Go)
    requires |g.infl| <= |g.hist| && GoOk(cfg, g, inp, go)
    ensures Shifted(g, NextGhost(g, inp, go), Commits(go))
  {
    GhostSizes(cfg, g, inp, go);
    if go.wr != {} {
      var x :| x in go.wr;
    }
  }

  lemma {:induction false} GhostKept(cfg: Config, g: Ghost, inp: Input, go: Go)
    requires GhostOk(cfg, g) && GoOk(cfg, g, inp, go) && InputOk(cfg, inp)
    ensures Follows(g, NextGhost(g, inp, go), inp, go)
    ensures GhostOk(cfg, NextGhost(g, inp, go))
  {
    GhostFollows(cfg, g, inp, go);
    var g' := NextGhost(g, inp, go);
    if go.wr != {} {
      var x :| x in go.wr;
    }
    forall x | x in g'.read ensures x in g'.infl {
      StaysInFlight(g, g', inp, go, x);
    }
  }

  lemma {:induction false} BeforeKept(cfg: Config, regs0: seq<nat>, g: Ghost, g': Ghost, p: nat)
    requires |regs0| == cfg.nRegs && GhostOk(cfg, g) && GhostOk(cfg, g') && p <= |g.hist|
    requires |g'.hist| >= |g.hist| && g'.hist[..|g.hist|] == g.hist
    ensures Before(cfg, regs0, g', p) == Before(cfg, regs0, g, p)
  {
    RunPrefix(cfg.alu, regs0, g.hist, g'.hist, p);
  }

  /** With a single raised row, the ORed vector is that row. */
  lemma {:induction false} AnyOfOne(n: nat, lines: seq<set<nat>>, y: nat, r: nat)
    requires y < |lines| && lines[y] == {r} && r < n
    requires forall x :: 0 <= x < |lines| && x != y ==> lines[x] == {}
    ensures AnyOf(n, lines) == {r}
  {
    AnyOfIntro(n, lines, y, r);
  }

  /** The write port: in a commit cycle the oldest instruction's destination takes its result. */
  lemma {:induction false} WriteEffect(cfg: Config, regs0: seq<nat>, s: State, g: Ghost, inp: Input, go: Go)
    requires Inv(cfg, regs0, s, g) && GoOk(cfg, g, inp, go)
    ensures go.wr == {} ==> Written(cfg, s, inp, go) == s.regs
    ensures go.wr != {} ==> (|g.infl| > 0 && g.infl[0] in g.read
              && Written(cfg, s, inp, go) == s.regs[InstrOf(g, 0).dest := s.units[g.infl[0]].res])
  {
    var lines := seq(cfg.n, y requires 0 <= y < cfg.n => D.DestSel(cfg.nRegs, s.rows[y], RowCtl(inp, go, y)));
    if go.wr == {} {
      assert forall y :: 0 <= y < |lines| ==> lines[y] == {};
      assert WriteSel(cfg, s, inp, go) == {};
    } else {
      var x :| x in go.wr;
      assert RowsOk(s, g, 0) && InstrOk(cfg, InstrOf(g, 0));
      var d := InstrOf(g, 0).dest;
      forall y | 0 <= y < |lines| && y != x ensures lines[y] == {} {
        assert y !in go.wr;
      }
      assert lines[x] == {d};
      AnyOfOne(cfg.nRegs, lines, x, d);
      OrSelectOne(seq(cfg.n, y requires 0 <= y < cfg.n => s.units[y].res), go.wr, x);
    }
  }

  /** The select lines in a go-read cycle: the sources of the reading unit. */
  lemma {:induction false} ReadSelects(cfg: Config, regs0: seq<nat>, s: State, g: Ghost, inp: Input, go: Go, j: nat)
    requires Inv(cfg, regs0, s, g) && GoOk(cfg, g, inp, go) && j < |g.infl| && g.infl[j] in go.rd
    ensures Read1Sel(cfg, s, inp, go) == {InstrOf(g, j).src1}
    ensures Read2Sel(cfg, s, inp, go) == {InstrOf(g, j).src2}
  {
    var y, i := g.infl[j], InstrOf(g, j);
    assert RowsOk(s, g, j) && InstrOk(cfg, i);
    var sel1 := seq(cfg.n, x requires 0 <= x < cfg.n => D.Src1Sel(cfg.nRegs, s.rows[x], RowCtl(inp, go, x)));
    var sel2 := seq(cfg.n, x requires 0 <= x < cfg.n => D.Src2Sel(cfg.nRegs, s.rows[x], RowCtl(inp, go, x)));
    forall x | 0 <= x < cfg.n && x != y ensures sel1[x] == {} && sel2[x] == {} {
      assert x !in go.rd;
    }
    assert sel1[y] == {i.src1} && sel2[y] == {i.src2};
    AnyOfOne(cfg.nRegs, sel1, y, i.src1);
    AnyOfOne(cfg.nRegs, sel2, y, i.src2);
  }

  /** The read ports: in its go-read cycle a unit sees the operands the program gives it, because no
      older unit still has to write one of them. */
  lemma {:induction false} ReadEffect(cfg: Config, regs0: seq<nat>, s: State, g: Ghost, inp: Input, go: Go, j: nat)
    requires Inv(cfg, regs0, s, g) && GoOk(cfg, g, inp, go) && j < |g.infl|
    requires g.infl[j] in go.rd && s.waits[g.infl[j]].wr == {}
    ensures var c, i := UnitCtl(cfg, s, inp, go, g.infl[j]), InstrOf(g, j);
      var regs := Before(cfg, regs0, g, g.Committed() + j);
      c.rd1 == regs[i.src1] && c.rd2 == regs[i.src2]
  {
    var i, w := InstrOf(g, j), Written(cfg, s, inp, go);
    assert InstrOk(cfg, i);
    ReadSelects(cfg, regs0, s, g, inp, go, j);
    OrSelectOne(w, Read1Sel(cfg, s, inp, go), i.src1);
    OrSelectOne(w, Read2Sel(cfg, s, inp, go), i.src2);
    SourceUntouched(cfg, regs0, s, g, j, i.src1);
    SourceUntouched(cfg, regs0, s, g, j, i.src2);
    WriteEffect(cfg, regs0, s, g, inp, go);
    assert j == 0 ==> go.wr == {};
  }

  /** A source of a unit that waits for nobody has the value the program gives it. */
  lemma {:induction false} SourceUntouched(cfg: Config, regs0: seq<nat>, s: State, g: Ghost, j: nat, r: nat)
    requires Inv(cfg, regs0, s, g) && j < |g.infl| && s.waits[g.infl[j]].wr == {}
    requires r < cfg.nRegs && Reads(InstrOf(g, j), r)
    ensures Before(cfg, regs0, g, g.Committed() + j)[r] == s.regs[r]
    ensures j > 0 ==> InstrOf(g, 0).dest != r
  {
    assert WaitsOk(s, g, j);
    forall p | g.Committed() <= p < g.Committed() + j ensures g.hist[p].dest != r {
      assert g.hist[p] == InstrOf(g, p - g.Committed());
    }
    RunUntouched(cfg.alu, regs0, g.hist, g.Committed(), g.Committed() + j, r);
  }

  /** The rows of a unit that stays in flight. */
  lemma {:induction false} RowsKept(cfg: Config, s: State, g: Ghost, inp: Input, go: Go, g': Ghost, j: nat,
                                    r: D.Ctl, c: C.Ctl, t: State)
    requires Shaped(cfg, s) && Shaped(cfg, t) && GhostOk(cfg, g) && GhostOk(cfg, g') && Follows(g, g', inp, go)
    requires Commits(go) <= j < |g.infl| && RowsOk(s, g, j)
    requires var y := g.infl[j];
      && y !in go.wr && t.rows[y] == D.Next(cfg.nRegs, s.rows[y], r) && t.units[y] == C.Next(cfg.alu, s.units[y], c)
      && !r.issue && !r.goWr && !r.die && (r.goRd <==> y in go.rd)
      && !c.issue && !c.goWr && !c.die && (c.goRd <==> y in go.rd)
    ensures RowsOk(t, g', j - Commits(go))
  {
    assert InstrOk(cfg, InstrOf(g, j));
    assert g'.infl[j - Commits(go)] == g.infl[j];
  }

  lemma {:induction false} OlderShift(g: Ghost, g': Ghost, inp: Input, go: Go, j: nat)
    requires Follows(g, g', inp, go) && Commits(go) <= j <= |g.infl|
    requires forall x :: x in go.wr ==> |g.infl| > 0 && x == g.infl[0]
    requires forall a, b :: 0 <= a < b < |g.infl| ==> g.infl[a] != g.infl[b]
    ensures Older(g', j - Commits(go)) == Older(g, j) - go.wr
  {
    var d := Commits(go);
    forall x ensures x in Older(g', j - d) <==> x in Older(g, j) - go.wr {
      if x in Older(g', j - d) {
        var k :| 0 <= k < j - d && g'.infl[..j - d][k] == x;
        assert g.infl[..j][k + d] == x;
      }
      if x in Older(g, j) - go.wr {
        var k :| 0 <= k < j && g.infl[..j][k] == x;
        assert go.wr != {} ==> k > 0;
        assert g'.infl[..j - d][k - d] == x;
      }
    }
  }

  /** A row that is not issued to only loses bits. */
  lemma {:induction false} RowsOnlyFall(cfg: Config, s: State, inp: Input, go: Go, y: nat)
    requires Shaped(cfg, s) && y < cfg.n && y !in go.issue
    ensures var t := Clocked(cfg, s, inp, go);
      && t.waits[y] == W.Row(s.waits[y].rd - go.rd, s.waits[y].wr - go.wr)
      && t.shadows[y] == s.shadows[y] - go.wr
  {
  }

  lemma {:induction false} WaitsKept(cfg: Config, s: State, g: Ghost, inp: Input, go: Go, g': Ghost, j: nat, t: State)
    requires Shaped(cfg, s) && GhostOk(cfg, g) && Commits(go) <= j < |g.infl| && WaitsOk(s, g, j)
    requires GoOk(cfg, g, inp, go) && GhostOk(cfg, g') && Follows(g, g', inp, go) && Shaped(cfg, t)
    requires var y := g.infl[j];
      && t.waits[y] == W.Row(s.waits[y].rd - go.rd, s.waits[y].wr - go.wr)
      && t.shadows[y] == s.shadows[y] - go.wr
    ensures WaitsOk(t, g', j - Commits(go))
  {
    var d, y := Commits(go), g.infl[j];
    OlderShift(g, g', inp, go, j);
    forall k | 0 <= k < j - d
      ensures Reads(InstrOf(g', j - d), InstrOf(g', k).dest) ==> g'.infl[k] in t.waits[y].wr
      ensures g'.infl[k] !in g'.read && Reads(InstrOf(g', k), InstrOf(g', j - d).dest) ==> g'.infl[k] in t.waits[y].rd
    {
      assert g'.infl[k] == g.infl[k + d] && InstrOf(g', k) == InstrOf(g, k + d);
    }
  }

  lemma {:induction false} ValuesKept(cfg: Config, regs0: seq<nat>, s: State, g: Ghost, inp: Input, go: Go, g': Ghost,
                                      j: nat, c: C.Ctl, t: State)
    requires Shaped(cfg, s) && GhostOk(cfg, g) && |regs0| == cfg.nRegs && Commits(go) <= j < |g.infl|
    requires RowsOk(s, g, j) && ValuesOk(cfg, regs0, s, g, j)
    requires GoOk(cfg, g, inp, go) && GhostOk(cfg, g') && Follows(g, g', inp, go) && Shaped(cfg, t)
    requires var y, i := g.infl[j], InstrOf(g, j);
      && t.units[y] == C.Next(cfg.alu, s.units[y], c) && !c.issue && (c.goRd <==> y in go.rd)
      && (y in go.rd ==>
            var regs := Before(cfg, regs0, g, g.Committed() + j);
            c.rd1 == regs[i.src1] && c.rd2 == regs[i.src2])
    ensures ValuesOk(cfg, regs0, t, g', j - Commits(go))
  {
    BeforeKept(cfg, regs0, g, g', g.Committed() + j);
  }

  /** The unit being issued to starts a clean tenure. */
  lemma {:induction false} IssuedRows(cfg: Config, s: State, inp: Input, go: Go, g': Ghost)
    requires Shaped(cfg, s) && InputOk(cfg, inp) && GhostOk(cfg, g') && |g'.infl| > 0 && inp.insn.Some?
    requires var z := g'.infl[|g'.infl| - 1];
      z in go.issue && z !in go.rd && z !in go.wr && IdleOk(s, z) && z !in g'.read
    requires InstrOf(g', |g'.infl| - 1) == inp.insn.value
    ensures RowsOk(Clocked(cfg, s, inp, go), g', |g'.infl| - 1)
  {
  }

  /** What the unit being issued to latches in its wait and shadow rows. */
  lemma {:induction false} IssuedLatches(cfg: Config, s: State, inp: Input, go: Go, z: nat)
    requires Shaped(cfg, s) && z < cfg.n && z in go.issue && IdleOk(s, z)
    ensures var t := Clocked(cfg, s, inp, go);
      && t.waits[z] == W.Row(RdHazards(cfg, s, inp, go) - {z}, WrHazards(cfg, s, inp, go) - {z})
      && t.shadows[z] == Busy(cfg, s) - go.issue - go.wr
  {
    var c := ShadowCtl(cfg, s, go, z);
    assert S.SetIn(cfg.n, c) == Busy(cfg, s) - go.issue - go.wr;
    assert Clocked(cfg, s, inp, go).shadows[z] == S.SetIn(cfg.n, c);
  }

  /** The hazards an instruction finds are enough for the wait rows of its unit. */
  lemma {:induction false} IssuedWaits(cfg: Config, g: Ghost, inp: Input, go: Go, g': Ghost, t: State,
                                       rdHaz: set<nat>, wrHaz: set<nat>)
    requires GhostOk(cfg, g) && GoOk(cfg, g, inp, go) && GhostOk(cfg, g') && Follows(g, g', inp, go) && go.issue != {}
    requires Shaped(cfg, t)
    requires var z, i := g'.infl[|g'.infl| - 1], inp.insn.value;
      && t.waits[z] == W.Row(rdHaz - {z}, wrHaz - {z})
      && t.shadows[z] == Older(g, |g.infl|) - go.wr
      && (forall x :: x in rdHaz && x != z ==> x in g.infl && x !in g.read && x !in go.rd)
      && (forall x :: x in wrHaz && x != z ==> x in g.infl && x !in go.wr)
      && (forall k :: 0 <= k < |g.infl| && g.infl[k] !in g.read + go.rd && Reads(InstrOf(g, k), i.dest)
            ==> g.infl[k] in rdHaz)
      && (forall k :: 0 <= k < |g.infl| && g.infl[k] !in go.wr && Reads(i, InstrOf(g, k).dest) ==> g.infl[k] in wrHaz)
    ensures WaitsOk(t, g', |g'.infl| - 1)
  {
    var i, j, d := inp.insn.value, |g'.infl| - 1, Commits(go);
    var z := g'.infl[j];
    assert InstrOf(g', j) == i;
    OlderShift(g, g', inp, go, |g.infl|);
    assert g.infl[..|g.infl|] == g.infl;
    forall k | 0 <= k < j
      ensures Reads(i, InstrOf(g', k).dest) ==> g'.infl[k] in t.waits[z].wr
      ensures g'.infl[k] !in g'.read && Reads(InstrOf(g', k), i.dest) ==> g'.infl[k] in t.waits[z].rd
    {
      assert g'.infl[k] == g.infl[k + d] && InstrOf(g', k) == InstrOf(g, k + d);
    }
  }

  /** The unit being issued to waits for older units only, and for every one it must. */
  lemma {:induction false} IssuedWaitsOk(cfg: Config, regs0: seq<nat>, s: State, g: Ghost, inp: Input,
                                         go: Go, g': Ghost)
    requires Inv(cfg, regs0, s, g) && InputOk(cfg, inp) && GhostOk(cfg, g') && go == Decide(cfg, s, inp)
    requires GoOk(cfg, g, inp, go) && Follows(g, g', inp, go) && go.issue != {}
    requires forall y :: y in Busy(cfg, s) <==> y in g.infl
    ensures WaitsOk(Clocked(cfg, s, inp, go), g', |g'.infl| - 1)
  {
    var z := g'.infl[|g'.infl| - 1];
    assert IdleOk(s, z);
    IssuedLatches(cfg, s, inp, go, z);
    assert Older(g, |g.infl|) == Busy(cfg, s) - go.issue by {
      assert g.infl[..|g.infl|] == g.infl;
    }
    HazardsAtIssue(cfg, regs0, s, g, inp, z);
    hide Decide, WaitsOk, RdHazards, WrHazards, Clocked, Older;
    IssuedWaits(cfg, g, inp, go, g', Clocked(cfg, s, inp, go), RdHazards(cfg, s, inp, go), WrHazards(cfg, s, inp, go));
  }

  lemma {:induction false} IssuedOk(cfg: Config, regs0: seq<nat>, s: State, g: Ghost, inp: Input, go: Go, g': Ghost)
    requires Inv(cfg, regs0, s, g) && InputOk(cfg, inp) && GhostOk(cfg, g') && go == Decide(cfg, s, inp)
    requires GoOk(cfg, g, inp, go) && Follows(g, g', inp, go) && go.issue != {}
    requires forall y :: y in Busy(cfg, s) <==> y in g.infl
    ensures var t, j := Clocked(cfg, s, inp, go), |g'.infl| - 1;
      RowsOk(t, g', j) && WaitsOk(t, g', j) && ValuesOk(cfg, regs0, t, g', j)
  {
    var z := g'.infl[|g'.infl| - 1];
    IssuedWaitsOk(cfg, regs0, s, g, inp, go, g');
    hide Decide, WaitsOk, RowsOk, Clocked, IdleOk;
    assert IdleOk(s, z) && z !in go.rd && z !in go.wr;
    assert InstrOf(g', |g'.infl| - 1) == inp.insn.value;
    IssuedRows(cfg, s, inp, go, g');
  }

  /** A unit that is idle after the cycle has clean rows: it stayed idle or has just written. */
  lemma {:induction false} IdleKept(cfg: Config, regs0: seq<nat>, s: State, g: Ghost, inp: Input, go: Go, y: nat)
    requires Inv(cfg, regs0, s, g) && GoOk(cfg, g, inp, go) && y < cfg.n
    requires y !in go.issue && (y in g.infl ==> y in go.wr)
    ensures IdleOk(Clocked(cfg, s, inp, go), y)
  {
    if y in g.infl {
      assert RowsOk(s, g, 0) && WaitsOk(s, g, 0) && InstrOk(cfg, InstrOf(g, 0));
      assert Older(g, 0) == {};
    } else {
      assert IdleOk(s, y);
      assert y !in go.wr && y !in go.rd;
    }
  }

  lemma {:induction false} KeptInFlight(cfg: Config, regs0: seq<nat>, s: State, g: Ghost, inp: Input,
                                        go: Go, g': Ghost, j: nat)
    requires Inv(cfg, regs0, s, g) && GoOk(cfg, g, inp, go) && GhostOk(cfg, g') && Follows(g, g', inp, go)
    requires forall x :: x in go.rd ==> s.waits[x].wr == {}
    requires Commits(go) <= j < |g.infl|
    ensures var t := Clocked(cfg, s, inp, go);
      RowsOk(t, g', j - Commits(go)) && WaitsOk(t, g', j - Commits(go)) && ValuesOk(cfg, regs0, t, g', j - Commits(go))
  {
    var t, y := Clocked(cfg, s, inp, go), g.infl[j];
    RowsKept(cfg, s, g, inp, go, g', j, RowCtl(inp, go, y), UnitCtl(cfg, s, inp, go, y), t);
    RowsOnlyFall(cfg, s, inp, go, y);
    WaitsKept(cfg, s, g, inp, go, g', j, t);
    if y in go.rd {
      ReadEffect(cfg, regs0, s, g, inp, go, j);
    }
    ValuesKept(cfg, regs0, s, g, inp, go, g', j, UnitCtl(cfg, s, inp, go, y), t);
  }

  /** The register file after the cycle is the program's, one instruction further on a commit. */
  lemma {:induction false} RegsKept(cfg: Config, regs0: seq<nat>, s: State, g: Ghost, inp: Input,
                                    go: Go, g': Ghost, regs: seq<nat>)
    requires |regs0| == cfg.nRegs && Shaped(cfg, s) && GhostOk(cfg, g) && GhostOk(cfg, g') && Follows(g, g', inp, go)
    requires s.regs == Before(cfg, regs0, g, g.Committed())
    requires go.wr == {} ==> regs == s.regs
    requires go.wr != {} ==> (ValuesOk(cfg, regs0, s, g, 0) && g.infl[0] in g.read
               && regs == s.regs[InstrOf(g, 0).dest := s.units[g.infl[0]].res])
    ensures regs == Before(cfg, regs0, g', g'.Committed())
  {
    BeforeKept(cfg, regs0, g, g', g'.Committed());
  }

  lemma {:induction false} StaysInFlight(g: Ghost, g': Ghost, inp: Input, go: Go, y: nat)
    requires Follows(g, g', inp, go) && y in g.infl && y !in go.wr
    requires go.wr != {} ==> g.infl[0] in go.wr
    ensures y in g'.infl
  {
    var k :| 0 <= k < |g.infl| && g.infl[k] == y;
    assert g'.infl[k - Commits(go)] == y;
  }

  lemma {:induction false} IdleAfter(cfg: Config, regs0: seq<nat>, s: State, g: Ghost, inp: Input, go: Go, g': Ghost)
    requires Inv(cfg, regs0, s, g) && GoOk(cfg, g, inp, go) && GhostOk(cfg, g') && Follows(g, g', inp, go)
    ensures forall y :: 0 <= y < cfg.n && y !in g'.infl ==> IdleOk(Clocked(cfg, s, inp, go), y)
  {
    forall y | 0 <= y < cfg.n && y !in g'.infl ensures IdleOk(Clocked(cfg, s, inp, go), y) {
      if go.wr != {} {
        var x :| x in go.wr;
      }
      if y in g.infl {
        if y !in go.wr {
          StaysInFlight(g, g', inp, go, y);
          assert false;
        }
      }
      IdleKept(cfg, regs0, s, g, inp, go, y);
    }
  }

  lemma {:induction false} InFlightAfter(cfg: Config, regs0: seq<nat>, s: State, g: Ghost, inp: Input,
                                         go: Go, g': Ghost)
    requires Inv(cfg, regs0, s, g) && InputOk(cfg, inp) && GhostOk(cfg, g') && go == Decide(cfg, s, inp)
    requires GoOk(cfg, g, inp, go) && Follows(g, g', inp, go)
    requires forall y :: y in Busy(cfg, s) <==> y in g.infl
    requires forall x :: x in go.rd ==> s.waits[x].wr == {}
    ensures var t := Clocked(cfg, s, inp, go);
      forall j :: 0 <= j < |g'.infl| ==> RowsOk(t, g', j) && WaitsOk(t, g', j) && ValuesOk(cfg, regs0, t, g', j)
  {
    hide RowsOk, WaitsOk, IdleOk, Decide, Clocked, GoOk;
    var t, d := Clocked(cfg, s, inp, go), Commits(go);
    forall j | 0 <= j < |g'.infl|
      ensures RowsOk(t, g', j) && WaitsOk(t, g', j) && ValuesOk(cfg, regs0, t, g', j)
    {
      if j + d < |g.infl| {
        KeptInFlight(cfg, regs0, s, g, inp, go, g', j + d);
      } else {
        IssuedOk(cfg, regs0, s, g, inp, go, g');
      }
    }
  }

  /** Every clock keeps the invariant. */
  lemma {:induction false} StepKeeps(cfg: Config, regs0: seq<nat>, s: State, g: Ghost, inp: Input)
    requires Inv(cfg, regs0, s, g) && InputOk(cfg, inp)
    ensures Inv(cfg, regs0, Step(cfg, s, inp), NextGhost(g, inp, Decide(cfg, s, inp)))
  {
    var go := Decide(cfg, s, inp);
    var g' := NextGhost(g, inp, go);
    Decisions(cfg, regs0, s, g, inp);
    GhostKept(cfg, g, inp, go);
    InFlightAfter(cfg, regs0, s, g, inp, go, g');
    IdleAfter(cfg, regs0, s, g, inp, go, g');
    WriteEffect(cfg, regs0, s, g, inp, go);
    assert go.wr != {} ==> ValuesOk(cfg, regs0, s, g, 0);
    RegsKept(cfg, regs0, s, g, inp, go, g', Written(cfg, s, inp, go));
  }
}
