/** A fetch that is held is served: how far it is from being presented, and that it gets there. */
module ICacheService {
  import opened ICache
  import opened ICacheProof
  import opened ICacheTheorems
  import opened Words
  import R = Refill

  /** The request stays, and nothing drops lines or translations under it. The pipeline may stall. */
  predicate Holds(x: Input, i: Input) {
    && i.req && i.nia == x.nia && i.virt == x.virt && i.privMode == x.privMode
    && !i.flush && !i.inval && !i.tlbie && !i.tlbld
  }

  predicate Hits(s: State, x: Input)
    requires Shaped(s)
  {
    exists w: nat :: w < NUM_WAYS && WayHit(s, x, w)
  }

  /** The reload under way is the one this request started. */
  predicate Own(s: State, g: Ghost, x: Input)
    requires Shaped(s)
  {
    var ra := RealAddr(s.tlb, x.virt, x.nia);
    && s.core.storeValid && s.core.storeIndex == IndexOf(x.nia) && s.core.storeTag == TagOf(ra)
    && g.first == RowInLine(ra)
  }

  /** How many steps are missing: the rest of another reload, the miss, the row's acknowledgement, the hit. */
  function Rank(s: State, g: Ghost, x: Input): (n: nat)
    requires Shaped(s)
    ensures 1 <= n <= 11
  {
    if s.core.state == IDLE then if Hits(s, x) then 1 else 3
    else if Own(s, g, x) then if g.bus.acked > 0 then 1 else 2
    else if g.bus.acked < R.ROWS then 3 + (R.ROWS - g.bus.acked) else 3
  }

  /** A cycle that does its share: no stall on a hit, an acknowledgement during a reload. */
  predicate Productive(s: State, x: Input, i: Input)
    requires Shaped(s)
  {
    if Hits(s, x) then !i.stall else s.core.state == IDLE || i.ack
  }

  predicate Ready(mem: Memory, s: State, g: Ghost, x: Input, i: Input)
    requires Shaped(s)
  {
    EnvOk(mem, s, g, i) && Holds(x, i) && AccessOk(s.tlb, x)
  }

  lemma {:induction false} IdleRank(mem: Memory, s: State, g: Ghost, x: Input, i: Input)
    requires Inv(mem, s, g) && Ready(mem, s, g, x, i) && s.core.state == IDLE
    ensures var n := Rank(Step(s, i), NextGhost(s, g, i), x);
      if Hits(s, x) then n == 1 else n == 2
  {
    hide LinesOk, Unique, ReloadOk, HitOk, RealAddr, HitNext, HashEa, IndexOf, RowInLine, TagOf;
    if Hits(s, x) {
      var w: nat :| w < NUM_WAYS && WayHit(s, x, w);
      assert WayHit(s, i, w);
      var t := Step(s, i);
      assert t.core.state == IDLE && t.arr.valid == s.arr.valid && t.arr.tags == s.arr.tags && t.tlb == s.tlb;
      assert WayHit(t, x, w);
    } else {
      assert forall w: nat :: w < NUM_WAYS ==> WayHit(s, i, w) == WayHit(s, x, w);
    }
  }

  /** Once the row asked for has been acknowledged its request hits. */
  lemma {:induction false} OwnHits(mem: Memory, s: State, g: Ghost, x: Input)
    requires Inv(mem, s, g) && s.core.state != IDLE && Own(s, g, x) && g.bus.acked > 0
    ensures Hits(s, x)
  {
    hide LinesOk, Unique, HitOk, RealAddr, RowsLoaded;
    assert R.Place(g.first, g.first) == 0;
    RowNumOf(RealAddr(s.tlb, x.virt, x.nia), x.nia);
    assert WayHit(s, x, s.core.storeWay);
  }

  lemma {:induction false} OwnRank(mem: Memory, s: State, g: Ghost, x: Input, i: Input)
    requires Inv(mem, s, g) && Ready(mem, s, g, x, i) && s.core.state != IDLE && Own(s, g, x)
    ensures var n := Rank(Step(s, i), NextGhost(s, g, i), x);
      n <= Rank(s, g, x) && (i.ack ==> n == 1)
  {
    R.StepKeeps(s.core.f, g.bus, g.first, i.wbStall, i.ack);
    if Completes(s.core, i) {
      RefillServes(mem, s, g, i, x);
    }
    hide LinesOk, Unique, HitOk, RealAddr, HitNext, HashEa, IndexOf, RowInLine, TagOf, WayHit, NoTwin, RowsLoaded;
    hide ValidNext, TagsNext, RamNext;
  }

  lemma {:induction false} OtherRank(mem: Memory, s: State, g: Ghost, x: Input, i: Input)
    requires Inv(mem, s, g) && Ready(mem, s, g, x, i) && s.core.state != IDLE && !Own(s, g, x)
    ensures var n := Rank(Step(s, i), NextGhost(s, g, i), x);
      n <= Rank(s, g, x) && (i.ack ==> n < Rank(s, g, x))
  {
    R.StepKeeps(s.core.f, g.bus, g.first, i.wbStall, i.ack);
    hide LinesOk, Unique, HitOk, RealAddr, HitNext, HashEa, IndexOf, RowInLine, TagOf, WayHit, NoTwin, RowsLoaded;
    hide ValidNext, TagsNext, RamNext;
  }

  /** No cycle takes a held request further away, and a productive one brings it a step nearer or presents it. */
  lemma {:induction false} RankFalls(mem: Memory, s: State, g: Ghost, x: Input, i: Input)
    requires Inv(mem, s, g) && Ready(mem, s, g, x, i)
    ensures var t, h := Step(s, i), NextGhost(s, g, i);
      && t.tlb == s.tlb && Rank(t, h, x) <= Rank(s, g, x)
      && (Productive(s, x, i) ==> (Hits(s, x) && !i.stall) || Rank(t, h, x) < Rank(s, g, x))
  {
    if s.core.state == IDLE {
      IdleRank(mem, s, g, x, i);
    } else if Own(s, g, x) {
      OwnRank(mem, s, g, x, i);
      if g.bus.acked > 0 {
        OwnHits(mem, s, g, x);
      }
    } else {
      OtherRank(mem, s, g, x, i);
    }
    hide Inv, EnvOk, Rank, Hits, CoreNext, HitNext, NextGhost, ValidNext, TagsNext, RamNext;
  }

  /** The cache and its history after the given cycles. */
  function Onward(s: State, g: Ghost, ins: seq<Input>): (r: (State, Ghost))
    requires Shaped(s)
    ensures Shaped(r.0)
  {
    if |ins| == 0 then (s, g)
    else
      var (e, h) := Onward(s, g, ins[..|ins| - 1]);
      (Step(e, ins[|ins| - 1]), NextGhost(e, h, ins[|ins| - 1]))
  }

  predicate EnvFrom(mem: Memory, s: State, g: Ghost, ins: seq<Input>)
    requires Shaped(s)
  {
    |ins| > 0 ==>
      var pre := ins[..|ins| - 1];
      var (e, h) := Onward(s, g, pre);
      EnvFrom(mem, s, g, pre) && EnvOk(mem, e, h, ins[|ins| - 1])
  }

  function Productives(s: State, g: Ghost, x: Input, ins: seq<Input>): nat
    requires Shaped(s)
  {
    if |ins| == 0 then 0
    else
      var pre, last := ins[..|ins| - 1], ins[|ins| - 1];
      Productives(s, g, x, pre) + if Productive(Onward(s, g, pre).0, x, last) then 1 else 0
  }

  /** The cycle presents the request: its address, the memory word there, and unless the row of the instruction
      before is used again the address is its translation. */
  predicate Presents(mem: Memory, tlb: Tlb, s: State, g: Ghost, x: Input, i: Input)
    requires Shaped(s) && |tlb.ptes| == TLB_SIZE
  {
    var t, ra := Step(s, i), NextGhost(s, g, i).hitRa;
    t.hit.valid && t.hit.nia == x.nia && Insn(t) == WordAt(mem, ra)
    && (UsePrevious(s, i) || ra == RealAddr(tlb, x.virt, x.nia))
  }

  predicate Served(mem: Memory, s: State, g: Ghost, x: Input, ins: seq<Input>)
    requires Shaped(s)
  {
    |ins| > 0 &&
    var pre := ins[..|ins| - 1];
    var (e, h) := Onward(s, g, pre);
    Served(mem, s, g, x, pre) || Presents(mem, s.tlb, e, h, x, ins[|ins| - 1])
  }

  lemma {:induction false} HitServes(mem: Memory, s: State, g: Ghost, x: Input, i: Input)
    requires Inv(mem, s, g) && Ready(mem, s, g, x, i) && Hits(s, x) && !i.stall
    ensures Presents(mem, s.tlb, s, g, x, i)
  {
    var w: nat :| w < NUM_WAYS && WayHit(s, x, w);
    assert WayHit(s, i, w);
    assert ReqIsHit(s, i);
    HitPresented(mem, s, g, i);
    hide Inv, EnvOk, Step, Insn, WordAt, RealAddr, WayHit, Hits, HitWay;
  }

  /** Until it is presented, the steps missing and the productive cycles are no more than at the start. */
  lemma {:induction false} StillHeld(mem: Memory, s: State, g: Ghost, x: Input, ins: seq<Input>)
    requires Inv(mem, s, g) && EnvFrom(mem, s, g, ins) && AccessOk(s.tlb, x)
    requires forall t :: 0 <= t < |ins| ==> Holds(x, ins[t])
    ensures var (e, h) := Onward(s, g, ins);
      && Inv(mem, e, h) && e.tlb == s.tlb
      && (Served(mem, s, g, x, ins) || Rank(e, h, x) + Productives(s, g, x, ins) <= Rank(s, g, x))
  {
    if |ins| > 0 {
      hide Inv, EnvOk, Step, NextGhost, Rank, Productive, Presents, Holds, AccessOk, Hits;
      var pre, last := ins[..|ins| - 1], ins[|ins| - 1];
      assert Holds(x, last) && forall t :: 0 <= t < |pre| ==> pre[t] == ins[t];
      StillHeld(mem, s, g, x, pre);
      var (e, h) := Onward(s, g, pre);
      StepKeeps(mem, e, h, last);
      RankFalls(mem, e, h, x, last);
      if Hits(e, x) && !last.stall {
        HitServes(mem, e, h, x, last);
      }
    }
  }

  /** A fetch held at the input is presented with its own memory word, whatever the cache was doing: at the latest
      with the eleventh cycle in which the pipeline does not stall on its hit and the slave, while a reload runs,
      acknowledges; with the third from the idle state, with the second once the reload is its own. */
  lemma {:induction false} HeldIsServed(mem: Memory, s: State, g: Ghost, x: Input, ins: seq<Input>)
    requires Inv(mem, s, g) && EnvFrom(mem, s, g, ins) && AccessOk(s.tlb, x)
    requires forall t :: 0 <= t < |ins| ==> Holds(x, ins[t])
    ensures Productives(s, g, x, ins) >= Rank(s, g, x) ==> Served(mem, s, g, x, ins)
    ensures Productives(s, g, x, ins) >= 11 || (s.core.state == IDLE && Productives(s, g, x, ins) >= 3) ==>
      Served(mem, s, g, x, ins)
  {
    StillHeld(mem, s, g, x, ins);
    hide Inv, EnvFrom, Served, Productives, Onward;
  }
}
