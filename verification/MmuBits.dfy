/** What the walker's fields and addresses are, bit by bit, and the translation they make. */
module MmuBits {
  import opened Mmu
  import opened MmuBus
  import opened MmuProof
  import opened Words

  /** Bit j of fields put side by side: `low` in the bits below `at`, `high` from there. */
  lemma Beside(low: nat, high: nat, at: nat, j: nat)
    requires low < Pow2(at)
    ensures Bit(low + Shl(high, at), j) == if j < at then Bit(low, j) else Bit(high, j - at)
  {
    BitBelow(low, high, at, j);
  }

  lemma {:induction false} MaskedFits(a: nat, b: nat, s: nat, n: nat)
    requires a < Pow2(n) && b < Pow2(n)
    ensures Masked(a, b, s) < Pow2(n)
  {
    if s > 0 {
      if n > 0 {
        MaskedFits(a / 2, b / 2, s - 1, n - 1);
      } else {
        MaskedZero(s);
      }
    }
  }

  lemma {:induction false} MaskedZero(s: nat)
    ensures Masked(0, 0, s) == 0
  {
    if s > 0 {
      MaskedZero(s - 1);
    }
  }

  lemma {:induction false} BesideFits(low: nat, high: nat, at: nat, n: nat)
    requires low < Pow2(at) && high < Pow2(n)
    ensures low + Shl(high, at) < Pow2(at + n)
  {
    if at > 0 {
      BesideFits(low / 2, high, at - 1, n);
    }
  }

  /** The fields of a table entry: tree size in two parts, index width, base of the next table. */
  lemma {:induction false} EntryFields(d: nat, j: nat)
    ensures Bit(Rts(d), j) <==> j < 5 && Bit(d, if j < 3 then 5 + j else 58 + j)
    ensures Bit(Mbits(d), j) <==> j < 5 && Bit(d, j)
    ensures Bit(Base(d), j) <==> 8 <= j < 56 && Bit(d, j)
  {
    hide Bit, Bits, Pow2;
    RtsIs(d);
    Beside(Bits(d, 5, 8), Bits(d, 61, 63), 3, j);
    BitBits(d, 5, 8, j);
    if j >= 3 {
      BitBits(d, 61, 63, j - 3);
    }
    BitBits(d, 0, 5, j);
    BitShl(Bits(d, 8, 56), 8, j);
    if j >= 8 {
      BitBits(d, 8, 56, j - 8);
    }
  }

  lemma RtsIs(d: nat)
    ensures Rts(d) == Bits(d, 5, 8) + Shl(Bits(d, 61, 63), 3)
  {
    var x := Bits(d, 61, 63);
    hide Bits;
    ShlTimes(x, 3);
    assert Pow2(3) == 8;
  }

  /** The entry loaded: from bit 12 as many bits of the address as were left, all others from the leaf, none above. */
  lemma {:induction false} PteBits(pde: nat, addr: nat, shift: nat, j: nat)
    ensures Bit(Pte(pde, addr, shift), j) <==> j < 56 && Bit(if 12 <= j < 12 + shift then addr else pde, j)
  {
    hide Bit, Bits, Masked, Pow2;
    Beside(Bits(pde, 0, 12), Masked(Bits(pde, 12, 56), Bits(addr, 12, 56), shift), 12, j);
    BitBits(pde, 0, 12, j);
    if j >= 12 {
      MaskedBits(Bits(pde, 12, 56), Bits(addr, 12, 56), shift, j - 12);
      BitBits(pde, 12, 56, j - 12);
      BitBits(addr, 12, 56, j - 12);
    }
  }

  /** The process number of an address: the register's in the lower half of the address space, zero in the upper. */
  lemma {:induction false} EffPidIs(pid: nat, addr: nat)
    requires addr < Pow2(64)
    ensures EffPid(pid, addr) == if addr < Pow2(63) then pid else 0
  {
    ShiftAndCut(addr, 63);
    assert Pow2(64) == 2 * Pow2(63);
    hide Pow2, Shr;
    var m := Pow2(63);
    if addr < m {
      Divided(addr, m, 0, addr);
    } else {
      Divided(addr, m, 1, addr - m);
    }
  }

  /** The address of a process-table entry: its doubleword pair by the low byte of the process number, then from bit 12
      as many bits of the rest of that number as the table's size says, the others from the table's base. */
  lemma {:induction false} ProcEntryBits(prtbl: nat, effpid: nat, j: nat)
    ensures Bit(ProcEntry(prtbl, effpid), j) <==>
      4 <= j < 56 && if j < 12 then Bit(effpid, j - 4)
                     else if j < 12 + Bits(prtbl, 0, 5) && j < 36 then Bit(effpid, j - 4) else Bit(prtbl, j)
  {
    var width, mid := Bits(prtbl, 0, 5), Masked(Bits(prtbl, 12, 36), Bits(effpid, 8, 32), Bits(prtbl, 0, 5));
    hide Bit, Bits, Masked, Shl, Pow2;
    MaskedFits(Bits(prtbl, 12, 36), Bits(effpid, 8, 32), width, 24);
    ThreeFields(Bits(effpid, 0, 8), mid, Bits(prtbl, 36, 56), j);
    hide ProcEntry;
    if 4 <= j < 12 {
      BitBits(effpid, 0, 8, j - 4);
    } else if 12 <= j < 36 {
      MaskedField(prtbl, 12, 36, effpid, 8, 32, width, j - 12);
    } else if j >= 36 {
      BitBits(prtbl, 36, 56, j - 36);
    }
  }

  /** A field of one number merged into one of another. */
  lemma MaskedField(x: nat, lo: nat, hi: nat, y: nat, from: nat, to: nat, width: nat, i: nat)
    requires lo <= hi && from <= to && i < hi - lo && i < to - from
    ensures Bit(Masked(Bits(x, lo, hi), Bits(y, from, to), width), i) == Bit(if i < width then y else x,
                                                                            if i < width then from + i else lo + i)
  {
    hide Bit, Bits, Masked;
    MaskedBits(Bits(x, lo, hi), Bits(y, from, to), width, i);
    BitBits(x, lo, hi, i);
    BitBits(y, from, to, i);
  }

  /** Fields at bits 4, 12 and 36. */
  lemma {:induction false} ThreeFields(a: nat, b: nat, c: nat, j: nat)
    requires a < Pow2(8) && b < Pow2(24)
    ensures Bit(Shl(a, 4) + Shl(b, 12) + Shl(c, 36), j) <==>
      j >= 4 && if j < 12 then Bit(a, j - 4) else if j < 36 then Bit(b, j - 12) else Bit(c, j - 36)
  {
    hide Bit, Pow2;
    ShlApart4(a);
    var low := Shl(a, 4);
    BitShl(a, 4, j);
    BesideFits(low, b, 12, 24);
    Beside(low, b, 12, j);
    Beside(low + Shl(b, 12), c, 36, j);
  }

  lemma ShlApart4(a: nat)
    requires a < Pow2(8)
    ensures Shl(a, 4) < Pow2(12)
  {
    ShlTimes(a, 4);
    assert Pow2(4) == 16 && Pow2(8) == 256 && Pow2(12) == 4096;
  }

  /** The address of a tree entry: from bit 3 as many bits of the index as it is wide, the others from the table's
      base. */
  lemma {:induction false} TableAdrBits(pgbase: nat, index: nat, width: nat, j: nat)
    requires width <= 16
    ensures Bit(TableAdr(pgbase, index, width), j) <==>
      3 <= j < 56 && if j < 3 + width then Bit(index, j - 3) else Bit(pgbase, j)
  {
    var low := Masked(Bits(pgbase, 3, 19), index, width);
    hide Bit, Bits, Masked, Pow2, Shl;
    LowIndex(pgbase, index, width);
    TwoFields(low, Bits(pgbase, 19, 56), j);
    hide TableAdr;
    if 3 <= j < 19 {
      MaskedBits(Bits(pgbase, 3, 19), index, width, j - 3);
      BitBits(pgbase, 3, 19, j - 3);
    } else if j >= 19 {
      BitBits(pgbase, 19, 56, j - 19);
    }
  }

  /** Fields at bits 3 and 19. */
  lemma TwoFields(a: nat, b: nat, j: nat)
    requires a < Pow2(16)
    ensures Bit(Shl(a, 3) + Shl(b, 19), j) <==> j >= 3 && if j < 19 then Bit(a, j - 3) else Bit(b, j - 19)
  {
    hide Bit, Pow2;
    ShlThree(a);
    Beside(Shl(a, 3), b, 19, j);
    BitShl(a, 3, j);
  }

  lemma LowIndex(pgbase: nat, index: nat, width: nat)
    requires width <= 16
    ensures Masked(Bits(pgbase, 3, 19), index, width) < Pow2(16)
  {
    MaskedShort(Bits(pgbase, 3, 19), index, width, 16);
  }

  lemma {:induction false} MaskedShort(a: nat, b: nat, s: nat, n: nat)
    requires a < Pow2(n) && s <= n
    ensures Masked(a, b, s) < Pow2(n)
  {
    if s > 0 {
      MaskedShort(a / 2, b / 2, s - 1, n - 1);
    }
  }

  lemma ShlThree(a: nat)
    requires a < Pow2(16)
    ensures Shl(a, 3) < Pow2(19)
  {
    ShlTimes(a, 3);
    assert Pow2(3) == 8 && Pow2(8) == 256 && Pow2(16) == 65536 && Pow2(19) == 524288;
  }

  /** Outside the segment: the two highest bits differ, or a bit is set between the tree's size and them. */
  lemma {:induction false} OutsideExactly(addr: nat, shift: nat)
    ensures OutsideSegment(addr, shift) <==>
      Bit(addr, 63) != Bit(addr, 62) || exists j :: 31 + shift <= j < 62 && Bit(addr, j)
  {
    var x := Shr(Bits(addr, 31, 62), shift);
    hide Bit, Bits, Pow2, Shr;
    forall i: nat
      ensures Bit(x, i) <==> i + shift < 31 && Bit(addr, 31 + shift + i)
    {
      BitShr(Bits(addr, 31, 62), shift, i);
      BitBits(addr, 31, 62, i + shift);
    }
    if x != 0 {
      var i := SomeBit(x);
      assert 31 + shift <= 31 + shift + i < 62 && Bit(addr, 31 + shift + i);
    } else {
      forall j | 31 + shift <= j < 62
        ensures !Bit(addr, j)
      {
        var i: nat := j - 31 - shift;
        BitZero(i);
        assert !Bit(x, i) && j == 31 + shift + i;
      }
    }
  }

  lemma {:induction false} SomeBit(x: nat) returns (i: nat)
    requires x != 0
    ensures Bit(x, i)
  {
    if x % 2 == 1 {
      i := 0;
    } else {
      i := SomeBit(x / 2);
      i := i + 1;
    }
  }

  /** The invalidation is for everything by the fields of the instruction: its kind, its scope, or its page size. */
  lemma {:induction false} FlushExactly(l: LoadStore)
    ensures Flush(l) <==> l.slbia || Bits(l.addr, 10, 12) != 0 || Bits(l.addr, 5, 8) != 0
  {
    var scope, size := Bits(l.addr, 10, 12), Bits(l.addr, 5, 8);
    BitBits(l.addr, 10, 12, 0);
    BitBits(l.addr, 10, 12, 1);
    BitBits(l.addr, 5, 8, 0);
    BitBits(l.addr, 5, 8, 1);
    BitBits(l.addr, 5, 8, 2);
    hide Bits, Low, Shr;
    BitZero(0);
    BitZero(1);
    BitZero(2);
    assert Pow2(2) == 4 && Pow2(3) == 8;
    hide Pow2;
    Digits(scope);
    Digits(size);
  }

  lemma Digits(x: nat)
    requires x < 8
    ensures x != 0 ==> Bit(x, 0) || Bit(x, 1) || Bit(x, 2)
    ensures x < 4 ==> !Bit(x, 2)
  {
    BitStep(x, 0);
    BitStep(x, 1);
    BitStep(x / 2, 0);
    BitStep(x, 2);
    BitStep(x / 2, 1);
    BitStep(x / 2 / 2, 0);
    hide Bit;
  }

  /** The cached roots are forgotten exactly so: both by a tlbie that flushes the process table (the upper of the two
      bits of its kind), that of the lower half of the address space by any mtspr, that of the upper by one of prtbl;
      and each is learnt from an entry read for its half. */
  lemma {:induction false} RootsForgotten(r: Reg, l: LoadStore, d: DCache)
    ensures var c, was := Step(r, l, d).roots, r.roots;
      var flush := r.state == IDLE && l.valid && l.tlbie && Bits(l.sprn, 2, 4) >= 2;
      var move, learnt := r.state == IDLE && l.mtspr, r.state == PROC_TBL_WAIT && d.done;
      && (c.pt0Valid <==> (learnt && !Bit(r.req.addr, 63)) || (was.pt0Valid && !flush && !move))
      && (c.pt3Valid <==>
            (learnt && Bit(r.req.addr, 63)) || (was.pt3Valid && !flush && !(move && Bit(l.sprn, 9))))
  {
    UpperOfTwo(l.sprn);
    hide Bit, Bits, Shl, Base, Mbits, Rts, OutsideSegment, PermOk, RcOk, Flush, Pow2;
  }

  lemma UpperOfTwo(x: nat)
    ensures Bits(x, 2, 4) >= 2 <==> Bit(x, 3)
  {
    var y := Bits(x, 2, 4);
    BitBits(x, 2, 4, 1);
    BitStep(y, 1);
    BitStep(y / 2, 0);
    assert Pow2(2) == 4;
    hide Bit, Bits, Pow2;
  }

  /** The pte wire: the entry in the cycle of a load, zero in any other. */
  lemma {:induction false} PteWire(index: Index, r: Reg, j: nat)
    ensures Bit(Outputs(index, r).pte, j) <==>
      r.state == RADIX_LOAD_TLB && j < 56 && Bit(if 12 <= j < 12 + r.at.shift then r.req.addr else r.at.pde, j)
  {
    PteBits(r.at.pde, r.req.addr, r.at.shift, j);
    BitZero(j);
    hide Bit, Bits, Pte;
  }

  /** A leaf memory holds that allows the access and has it recorded. */
  predicate IsLeaf(env: Env, adr: nat, a: Access, d: nat) {
    env.mem(adr) == Data(d) && Bit(d, 63) && Bit(d, 62) && MayAccess(a, d) && Recorded(a, d)
  }

  /** The entry for the page of `addr` in a leaf with that many address bits left. */
  ghost predicate EntryFor(pte: nat, d: nat, addr: nat, shift: nat) {
    forall j: nat :: Bit(pte, j) <==> j < 56 && Bit(if 12 <= j < 12 + shift then addr else d, j)
  }

  /** A walk that translates ends in a leaf it reads last, with the address bits left that no table took, and gives the
      entry of that leaf. */
  lemma {:induction false} WalkEndsInLeaf(env: Env, a: Access, shift: nat, width: nat, base: nat)
    requires Walk(env, a, shift, width, base).Translated?
    ensures var events := WalkEvents(env, a, shift, width, base);
      exists d: nat, s: nat, adr: nat :: s <= shift && |events| >= 2 && events[|events| - 2] == Read(adr)
        && IsLeaf(env, adr, a, d) && EntryFor(Walk(env, a, shift, width, base).pte, d, a.addr, s)
    decreases shift
  {
    hide Bit, Mbits, Base, Pte, Page, MayAccess, Recorded, Entry, LoadEvent;
    var adr := Entry(env, base, shift, width, a.addr);
    var d := env.mem(adr).word;
    var rest := EntryEvents(env, a, shift, env.mem(adr));
    var events := WalkEvents(env, a, shift, width, base);
    assert events == [Read(adr)] + rest;
    if Bit(d, 62) {
      forall j: nat {
        PteBits(d, a.addr, shift, j);
      }
      assert EntryFor(Pte(d, a.addr, shift), d, a.addr, shift);
      assert |rest| == 1 && events[0] == Read(adr) && IsLeaf(env, adr, a, d);
    } else {
      WalkEndsInLeaf(env, a, shift - Mbits(d), Mbits(d), Base(d));
      assert |rest| >= 2 && events[|events| - 2] == rest[|rest| - 2];
    }
  }

  /** So does a whole translation, whether its root is cached or not: what it loads is the entry of the leaf read
      last. */
  lemma {:induction false} TranslationIsLeaf(env: Env, prtbl: nat, pid: nat, a: Access, cached: bool)
    requires Translate(env, prtbl, pid, a).Translated?
    ensures var events := TranslateEvents(env, prtbl, pid, a, cached);
      exists d: nat, s: nat, adr: nat :: s <= 45 && |events| >= 2 && events[|events| - 2] == Read(adr)
        && IsLeaf(env, adr, a, d) && EntryFor(Translate(env, prtbl, pid, a).pte, d, a.addr, s)
  {
    hide Bit, Mbits, Base, Rts, MayAccess, Recorded, OutsideSegment, Walk, WalkEvents, EntryFor, IsLeaf, ProcEntry;
    var root := env.mem(ProcEntry(prtbl, EffPid(pid, a.addr))).word;
    var shift, width, base := Rts(root) + 19 - Mbits(root), Mbits(root), Base(root);
    WalkEndsInLeaf(env, a, shift, width, base);
    var walk, events := WalkEvents(env, a, shift, width, base), TranslateEvents(env, prtbl, pid, a, cached);
    assert events == (if cached then [] else [Read(ProcEntry(prtbl, EffPid(pid, a.addr)))]) + walk;
    assert |walk| >= 2 && events[|events| - 2] == walk[|walk| - 2];
  }

  /** The page of an address. */
  lemma {:induction false} PageBits(addr: nat, j: nat)
    ensures Bit(Page(addr), j) <==> 12 <= j < 64 && Bit(addr, j)
  {
    hide Bit, Bits;
    BitShl(Bits(addr, 12, 64), 12, j);
    if j >= 12 {
      BitBits(addr, 12, 64, j - 12);
    }
  }

  /** The real address an entry makes of an effective one in its page: the page offset below the entry's page. */
  function Real(pte: nat, addr: nat): nat { Bits(addr, 0, 12) + Shl(Bits(pte, 12, 56), 12) }

  /** So the translation of every address in the page is the leaf's: its low twelve bits and the bits left are the
      effective address's, all others the leaf's. */
  lemma {:induction false} RealBits(pte: nat, d: nat, addr: nat, x: nat, shift: nat, j: nat)
    requires EntryFor(pte, d, addr, shift) && Page(x) == Page(addr)
    ensures Bit(Real(pte, x), j) <==> j < 56 && Bit(if j < 12 + shift then x else d, j)
  {
    PageBits(x, j);
    PageBits(addr, j);
    hide Bit, Bits, Page, Pow2;
    Beside(Bits(x, 0, 12), Bits(pte, 12, 56), 12, j);
    BitBits(x, 0, 12, j);
    if j >= 12 {
      BitBits(pte, 12, 56, j - 12);
      assert Bit(pte, j) <==> j < 56 && Bit(if 12 <= j < 12 + shift then addr else d, j);
    }
  }
}
