/** The instruction cache over whole runs, and exactly which environments it serves. */
module ICacheTheorems {
  import opened ICache
  import opened ICacheProof
  import opened Options
  import opened Words
  import R = Refill

  function After(ins: seq<Input>): (s: State)
    ensures Shaped(s)
  {
    if |ins| == 0 then Reset() else Step(After(ins[..|ins| - 1]), ins[|ins| - 1])
  }

  function History(ins: seq<Input>): Ghost {
    if |ins| == 0 then Ghost(R.Bus([], 0), 0, 0)
    else NextGhost(After(ins[..|ins| - 1]), History(ins[..|ins| - 1]), ins[|ins| - 1])
  }

  predicate EnvKeeps(mem: Memory, ins: seq<Input>) {
    forall t :: 0 <= t < |ins| ==> EnvOk(mem, After(ins[..t]), History(ins[..t]), ins[t])
  }

  lemma {:induction false} ResetOk(mem: Memory)
    ensures Inv(mem, Reset(), Ghost(R.Bus([], 0), 0, 0))
  {
  }

  lemma {:induction false} LastCycle(mem: Memory, ins: seq<Input>)
    requires |ins| > 0 && EnvKeeps(mem, ins)
    ensures var pre, last := ins[..|ins| - 1], ins[|ins| - 1];
      && EnvKeeps(mem, pre) && EnvOk(mem, After(pre), History(pre), last)
      && After(ins) == Step(After(pre), last) && History(ins) == NextGhost(After(pre), History(pre), last)
  {
    hide EnvOk, Step, NextGhost, Reset, Shaped;
    var pre, n := ins[..|ins| - 1], |ins| - 1;
    assert forall t :: 0 <= t < |pre| ==> pre[t] == ins[t] && pre[..t] == ins[..t];
    assert EnvOk(mem, After(ins[..n]), History(ins[..n]), ins[n]);
  }

  lemma {:induction false} Reachable(mem: Memory, ins: seq<Input>)
    requires EnvKeeps(mem, ins)
    ensures Inv(mem, After(ins), History(ins))
    decreases |ins|
  {
    if |ins| == 0 {
      ResetOk(mem);
    } else {
      hide *;
      var pre, last := ins[..|ins| - 1], ins[|ins| - 1];
      LastCycle(mem, ins);
      Reachable(mem, pre);
      StepKeeps(mem, After(pre), History(pre), last);
    }
  }

  /** Agreement with memory, over every run: a valid instruction output is the memory word at the real address
      it was translated to, and no set ever has two valid ways of one tag. */
  lemma {:induction false} FetchesMemory(mem: Memory, ins: seq<Input>)
    requires EnvKeeps(mem, ins)
    ensures var s := After(ins); s.hit.valid ==> Insn(s) == WordAt(mem, History(ins).hitRa)
    ensures Unique(After(ins)) && LinesOk(mem, After(ins))
  {
    Reachable(mem, ins);
    hide After, History, EnvKeeps, LinesOk, Unique, ReloadOk;
    OutputIsWord(mem, After(ins), History(ins));
  }

  lemma {:induction false} OutputIsWord(mem: Memory, s: State, g: Ghost)
    requires Shaped(s) && HitOk(mem, s, g)
    ensures s.hit.valid ==> Insn(s) == WordAt(mem, g.hitRa)
  {
    if s.hit.valid {
      var ra, nia := g.hitRa, s.hit.nia;
      assert ra / 4 % 2 == (ra % 4096) / 4 % 2 by {
        Parity(ra / 4096, ra % 4096);
        assert ra == 4096 * (ra / 4096) + ra % 4096;
      }
      assert nia / 4 % 2 == (nia % 4096) / 4 % 2 by {
        Parity(nia / 4096, nia % 4096);
        assert nia == 4096 * (nia / 4096) + nia % 4096;
      }
    }
  }

  lemma Parity(q: nat, o: nat)
    requires o < 4096
    ensures (4096 * q + o) / 4 % 2 == o / 4 % 2
  {
    assert 4096 * q + o == 4 * (1024 * q + o / 4) + o % 4;
    assert (1024 * q + o / 4) % 2 == o / 4 % 2;
  }

  /** The address the output is held to: the translation of the request that hit, or four bytes on. */
  lemma {:induction false} HeldAddress(mem: Memory, s: State, g: Ghost, i: Input)
    requires Inv(mem, s, g) && EnvOk(mem, s, g, i) && !i.stall && Step(s, i).hit.valid
    ensures NextGhost(s, g, i).hitRa == if UsePrevious(s, i) then g.hitRa + 4 else RealAddr(s.tlb, i.virt, i.nia)
    ensures UsePrevious(s, i) ==> s.hit.valid && i.nia == s.hit.nia + 4
    ensures !UsePrevious(s, i) ==> AccessOk(s.tlb, i)
  {
    hide Inv, RealAddr, AccessOk, HitWay, CoreNext, ValidNext, TagsNext, RamNext, TlbNext, R.MayAck, R.AckRow;
  }

  /** A hit that is not stalled is presented in the next cycle, with its own address and memory word, and so is the
      other half of the row presented now, without a lookup; a flush leaves nothing presented. */
  lemma {:induction false} HitPresented(mem: Memory, s: State, g: Ghost, i: Input)
    requires Inv(mem, s, g) && EnvOk(mem, s, g, i)
    ensures var t := Step(s, i);
      && (ReqIsHit(s, i) && !i.stall ==>
            t.hit.valid && t.hit.nia == i.nia && Insn(t) == WordAt(mem, NextGhost(s, g, i).hitRa))
      && (i.sequential && (i.nia / 4) % 2 == 1 && s.hit.valid && !i.stall && !i.flush ==>
            t.hit.valid && t.hit.nia == i.nia && Insn(t) == WordAt(mem, g.hitRa + 4))
      && (i.flush ==> !t.hit.valid)
      && (i.stall && !i.flush ==> t.hit == s.hit)
  {
    HitKeeps(mem, s, g, i);
    OutputIsWord(mem, Step(s, i), NextGhost(s, g, i));
    hide Inv, EnvOk, RealAddr, AccessOk, HitWay, CoreNext, ValidNext, TagsNext, RamNext, TlbNext, NextGhost, WordAt;
    hide Insn, HitOk;
  }

  /** A live miss of the idle machine, and nothing else, starts a reload: of the missed line, from the missed
      row. */
  lemma {:induction false} MissStarts(mem: Memory, s: State, g: Ghost, i: Input)
    requires Inv(mem, s, g) && EnvOk(mem, s, g, i) && s.core.state == IDLE
    ensures var c, ra := Step(s, i).core, RealAddr(s.tlb, i.virt, i.nia);
      && (c.state != IDLE <==>
            i.req && AccessOk(s.tlb, i) && !i.flush && forall w :: 0 <= w < NUM_WAYS ==> !WayHit(s, i, w))
      && (c.state != IDLE ==>
            (c.state == CLR_TAG && c.cyc && c.f.stb && c.f.req == RowInLine(i.nia)
             && c.line * R.ROWS + c.f.req == ra / 8))
  {
    RowNumOf(RealAddr(s.tlb, i.virt, i.nia), i.nia);
    hide Inv, EnvOk, RealAddr, AccessOk, HitNext, ValidNext, TagsNext, RamNext, TlbNext;
    hide IndexOf, TagOf, RowInLine, WayHit;
  }

  /** Four bytes on is also where the next instruction translates to, by the same TLB entry. */
  lemma {:induction false} SequentialTranslation(tlb: Tlb, virt: bool, nia: nat)
    requires |tlb.ptes| == TLB_SIZE && ((nia + 4) / 4) % 2 != 0
    ensures HashEa(nia + 4) == HashEa(nia) && RealAddr(tlb, virt, nia + 4) == RealAddr(tlb, virt, nia) + 4
  {
    LowHalf(nia);
    var p, o := nia / 4096, nia % 4096;
    assert nia == 4096 * p + o;
    hide HashEa, RealAddr;
    NextInPage(p, o);
    assert o + 4 < 4096;
    SamePage(p, o);
    SamePage(p, o + 4);
    PageOffset(tlb, virt, p, o);
    PageOffset(tlb, virt, p, o + 4);
  }

  lemma PageOffset(tlb: Tlb, virt: bool, p: nat, o: nat)
    requires |tlb.ptes| == TLB_SIZE && o < 4096
    ensures RealAddr(tlb, virt, 4096 * p + o) == RealAddr(tlb, virt, 4096 * p) + o
  {
    if virt {
      hide HashEa;
      SamePage(p, o);
      SamePage(p, 0);
      assert 4096 * p + 0 == 4096 * p;
    } else {
      var q, r := p / 0x1000_0000_0000, p % 0x1000_0000_0000;
      assert 4096 * p + o == 0x100_0000_0000_0000 * q + (4096 * r + o);
      Cut(q, 4096 * r + o);
      Cut(q, 4096 * r);
    }
  }

  /** Real addresses have 56 bits. */
  lemma Cut(q: nat, r: nat)
    requires r < 0x100_0000_0000_0000
    ensures (0x100_0000_0000_0000 * q + r) % 0x100_0000_0000_0000 == r
  {
    var x := 0x100_0000_0000_0000 * q + r;
    assert x == 0x100_0000_0000_0000 * (x / 0x100_0000_0000_0000) + x % 0x100_0000_0000_0000;
  }

  lemma SamePage(p: nat, o: nat)
    requires o < 4096
    ensures (4096 * p + o) / 4096 == p && HashEa(4096 * p + o) == HashEa(4096 * p) && (4096 * p + o) % 4096 == o
  {
    hide Xor;
    Quarter(p, o);
    Quarter(p, 0);
  }

  lemma Quarter(p: nat, o: nat)
    requires o < 4096
    ensures (4096 * p + o) / 4096 == p && (4096 * p + o) % 4096 == o
    ensures (4096 * p + o) / 0x4_0000 == p / 64 && (4096 * p + o) / 0x100_0000 == p / 4096
  {
  }

  /** A refill serves the miss that caused it: a request for a row of the line hits from the cycle after the row
      was acknowledged, and for the whole line once the refill has completed without an invalidation. */
  lemma {:induction false} RefillServes(mem: Memory, s: State, g: Ghost, i: Input, j: Input)
    requires Inv(mem, s, g) && EnvOk(mem, s, g, i) && s.core.state != IDLE
    requires IndexOf(j.nia) == s.core.storeIndex && TagOf(RealAddr(Step(s, i).tlb, j.virt, j.nia)) == s.core.storeTag
    requires if Completes(s.core, i) then s.core.storeValid && !i.inval
             else RowInLine(j.nia) in R.Step(s.core.f, i.wbStall, i.ack).rows
    ensures WayHit(Step(s, i), j, ReplaceWay(s, i))
  {
    if Completes(s.core, i) {
      LineLoaded(mem, s, g, i);
    }
    hide R.Inv, R.MayAck, R.AckRow, R.Completes, R.Step, LinesOk, Unique, HitOk, RealAddr, HitNext, RamNext;
    hide IndexOf, TagOf, RowInLine;
  }

  /** Exactly when clearing the victim works: the refill of a line is sound if and only if, in the cycle that
      clears the tag, fetch still presents the set of the miss, or the victim is invalid there anyway. */
  lemma {:induction false} HoldNeeded(mem: Memory, s: State, g: Ghost, i: Input)
    requires Shaped(s) && ReloadOk(mem, s, g) && SlaveOk(mem, s, g, i) && s.core.state == CLR_TAG
    ensures ReloadOk(mem, Step(s, i), NextGhost(s, g, i)) <==> Held(s, i)
  {
    if Held(s, i) {
      RefillKeeps(mem, s, g, i);
    } else {
      StaleTag(mem, s, g, i);
    }
  }

  /** Otherwise the old line stays valid under the new tag: */
  lemma {:induction false} StaleTag(mem: Memory, s: State, g: Ghost, i: Input)
    requires Shaped(s) && ReloadOk(mem, s, g) && SlaveOk(mem, s, g, i) && s.core.state == CLR_TAG && !Held(s, i)
    ensures var t, x := Step(s, i), s.core.storeIndex;
      t.core.state == WAIT_ACK && t.core.storeWay == i.victim && i.victim in t.arr.valid[x]
        && t.arr.tags[x][i.victim] == s.core.storeTag
  {
    R.StepKeeps(s.core.f, g.bus, g.first, i.wbStall, i.ack);
    assert R.Place(g.first, g.first) == 0;
    assert g.first !in s.core.f.rows;
    assert g.bus.acked == 0;
    hide HitNext, TlbNext, RealAddr, RamNext;
  }

  /** and the next request for the new line hits, reading the old one. */
  lemma {:induction false} StaleHit(mem: Memory, s: State, g: Ghost, i: Input, j: Input)
    requires Inv(mem, s, g) && SlaveOk(mem, s, g, i) && s.core.state == CLR_TAG && !Held(s, i) && !i.ack
    requires var t := Step(s, i);
      IndexOf(j.nia) == s.core.storeIndex && TagOf(RealAddr(t.tlb, j.virt, j.nia)) == s.core.storeTag
    ensures WayHit(Step(s, i), j, i.victim)
    ensures Step(s, i).arr.ram[i.victim][ReqRow(j)] ==
            mem(RowNum(s.arr.tags[s.core.storeIndex][i.victim], s.core.storeIndex, RowInLine(j.nia)))
  {
    StaleTag(mem, s, g, i);
    var x, w := s.core.storeIndex, i.victim;
    assert w in s.arr.valid[x] && LineOk(mem, s.arr, x, w);
    hide RealAddr, HitNext, TlbNext, CoreNext, ValidNext, TagsNext, IndexOf, RowInLine, TagOf, R.Inv, Unique, HitOk;
  }

  /** The one set an invalidation may miss: the one whose valid bits the reload machine rewrites in that cycle,
      from what they were. */
  predicate Rewritten(s: State, i: Input, x: nat)
    requires Shaped(s)
  {
    (s.core.state == CLR_TAG && x == IndexOf(i.nia)) || (Completes(s.core, i) && x == s.core.storeIndex)
  }

  /** After an invalidation a way is valid if and only if it was, in that set, and is not the one replaced; and
      the line then in refill is not made valid when it completes. */
  lemma {:induction false} InvalidationMisses(mem: Memory, s: State, g: Ghost, i: Input, x: nat, w: nat)
    requires Inv(mem, s, g) && EnvOk(mem, s, g, i) && i.inval && x < NUM_LINES
    ensures var t := Step(s, i);
      && (w in t.arr.valid[x] <==> Rewritten(s, i, x) && w in s.arr.valid[x] && w != ReplaceWay(s, i))
      && (s.core.state != IDLE && t.core.state != IDLE ==> !t.core.storeValid)
    ensures s.core.state != IDLE && !s.core.storeValid && Completes(s.core, i) ==>
      ReplaceWay(s, i) !in Step(s, i).arr.valid[s.core.storeIndex]
  {
    if s.core.state == CLR_TAG {
      NotYet(mem, s, g, i);
    }
    hide R.Inv, R.MayAck, R.AckRow, R.Completes, R.Step, LinesOk, Unique, ReloadOk, HitOk, RealAddr, HitNext;
    hide RamNext, TagsNext;
  }

  /** What a cycle does to the entry for the page of a: dropped by an invalidation that covers its slot or by
      another page's load into the slot, replaced by its own page's load. */
  function EntryNext(i: Input, a: nat, o: Option<nat>): Option<nat> {
    if i.tlbie then (if i.doall || HashEa(i.mAddr) == HashEa(a) then None else o)
    else if i.tlbld && HashEa(i.mAddr) == HashEa(a) then (if i.mAddr / 4096 == a / 4096 then Some(i.mPte) else None)
    else o
  }

  function Entry(ins: seq<Input>, a: nat): Option<nat> {
    if |ins| == 0 then None else EntryNext(ins[|ins| - 1], a, Entry(ins[..|ins| - 1], a))
  }

  /** The lookup finds exactly this entry. */
  predicate Finds(tlb: Tlb, a: nat, o: Option<nat>)
    requires |tlb.ptes| == |tlb.tags| == TLB_SIZE
  {
    var slot := HashEa(a);
    && (slot in tlb.valid && tlb.tags[slot] == a / 0x4_0000 <==> o.Some?)
    && (o.Some? ==> tlb.ptes[slot] == o.value)
  }

  /** Slot and tag together tell the page: the hash can be undone when the bits above are known. */
  lemma {:induction false} SlotAndTag(a: nat, b: nat)
    requires HashEa(a) == HashEa(b) && a / 0x4_0000 == b / 0x4_0000
    ensures a / 4096 == b / 4096
  {
    Upper(a);
    Upper(b);
    var x, y, m, h := a / 4096, b / 4096, a / 0x4_0000, a / 0x100_0000;
    hide Bit, Low;
    forall i | 0 <= i < 6
      ensures Bit(Low(x, 6), i) == Bit(Low(y, 6), i)
    {
      BitXor(x, m, 6, i);
      BitXor(y, m, 6, i);
      BitXor(Xor(x, m, 6), h, 6, i);
      BitXor(Xor(y, m, 6), h, 6, i);
      BitLow(x, 6, i);
      BitLow(y, 6, i);
    }
    SameBits(Low(x, 6), Low(y, 6), 6);
  }

  lemma Upper(a: nat)
    ensures a / 4096 == Low(a / 4096, 6) + Shl(a / 0x4_0000, 6) && a / 0x100_0000 == (a / 0x4_0000) / 64
  {
    LowSplit(a / 4096, 6);
    ShrSix(a / 4096);
    assert a / 0x4_0000 == (a / 4096) / 64;
    hide Low, Shl, Shr;
  }

  lemma {:induction false} LowSplit(x: nat, n: nat)
    ensures x == Low(x, n) + Shl(Shr(x, n), n)
  {
    if n > 0 {
      LowSplit(x / 2, n - 1);
    }
  }

  lemma ShrSix(x: nat)
    ensures Shr(x, 6) == x / 64
  {
    assert Shr(x, 6) == Shr(x / 2, 5) == Shr(x / 2 / 2, 4);
    assert Shr(x / 2 / 2, 4) == Shr(x / 2 / 2 / 2, 3) == Shr(x / 2 / 2 / 2 / 2, 2);
    assert Shr(x / 2 / 2 / 2 / 2, 2) == Shr(x / 2 / 2 / 2 / 2 / 2, 1) == Shr(x / 2 / 2 / 2 / 2 / 2 / 2, 0);
    assert x / 2 / 2 == x / 4;
    assert x / 4 / 2 == x / 8;
    assert x / 8 / 2 == x / 16;
    assert x / 16 / 2 == x / 32;
    assert x / 32 / 2 == x / 64;
  }

  lemma {:induction false} PageOrTag(a: nat, b: nat)
    requires HashEa(a) == HashEa(b)
    ensures a / 4096 == b / 4096 <==> a / 0x4_0000 == b / 0x4_0000
  {
    if a / 0x4_0000 == b / 0x4_0000 {
      SlotAndTag(a, b);
    }
    PageGivesTag(a);
    PageGivesTag(b);
    hide HashEa;
  }

  lemma PageGivesTag(a: nat)
    ensures a / 0x4_0000 == (a / 4096) / 64
  {
  }

  lemma {:induction false} EntryKept(tlb: Tlb, i: Input, a: nat, o: Option<nat>)
    requires |tlb.ptes| == |tlb.tags| == TLB_SIZE && Finds(tlb, a, o)
    ensures Finds(TlbNext(tlb, i), a, EntryNext(i, a, o))
  {
    hide HashEa;
    if HashEa(i.mAddr) == HashEa(a) {
      PageOrTag(i.mAddr, a);
    }
  }

  /** After every run the TLB translates an address by the entry last loaded for its page, if no invalidation
      and no other page's load has taken the slot since, and otherwise misses. */
  lemma {:induction false} TranslatesByLastLoad(ins: seq<Input>, a: nat)
    ensures Finds(After(ins).tlb, a, Entry(ins, a))
  {
    hide HashEa, Finds, EntryNext, TlbNext;
    if |ins| > 0 {
      var pre, last := ins[..|ins| - 1], ins[|ins| - 1];
      TranslatesByLastLoad(pre, a);
      StepTlb(After(pre), last);
      EntryKept(After(pre).tlb, last, a, Entry(pre, a));
    } else {
      Empty(a);
    }
  }

  lemma StepTlb(s: State, i: Input)
    requires Shaped(s)
    ensures Step(s, i).tlb == TlbNext(s.tlb, i)
  {
  }

  lemma Empty(a: nat)
    ensures Finds(Reset().tlb, a, None)
  {
  }
}
