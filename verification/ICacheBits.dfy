/** What the instruction cache's fields are, bit by bit: the instruction, the real address, the TLB slot and who may
    fetch. */
module ICacheBits {
  import opened ByteMemoryProof
  import opened ICache
  import opened ICacheProof
  import opened ICacheTheorems
  import opened Options
  import opened Words

  /** A half word's bytes are those of its half of the row. */
  lemma {:induction false} HalfByte(word: nat, upper: bool, b: nat)
    requires b < 4
    ensures ByteOf(Half(word, upper), b) == ByteOf(word, if upper then 4 + b else b)
  {
    hide ByteOf, Bit, ByteBit, Bits, Pow2;
    var at := if upper then 4 + b else b;
    forall c | 0 <= c < 8
      ensures ByteBit(Half(word, upper), b, c) == Bit(ByteOf(word, at), c)
    {
      HalfBit(word, upper, b, c);
      BitByte(word, at, c);
    }
    IsByte(Half(word, upper), b, ByteOf(word, at));
  }

  lemma HalfBit(word: nat, upper: bool, b: nat, c: nat)
    requires b < 4 && c < 8
    ensures ByteBit(Half(word, upper), b, c) == ByteBit(word, if upper then 4 + b else b, c)
  {
    BitBits(word, 32, 64, 8 * b + c);
    BitBits(word, 0, 32, 8 * b + c);
    hide Bit, Bits;
  }

  /** The word at an address is its four bytes. */
  lemma {:induction false} WordBytes(mem: Memory, ra: nat, b: nat)
    requires b < 4
    ensures WordAt(mem, ra) < Pow2(32)
    ensures ra % 4 == 0 ==> ByteOf(WordAt(mem, ra), b) == ByteOf(mem(ra / 8), ra % 8 + b)
  {
    HalfByte(mem(ra / 8), (ra / 4) % 2 == 1, b);
    Eighths(ra);
    hide ByteOf, Bits, Pow2;
  }

  lemma Eighths(a: nat)
    ensures a % 4 == 0 ==> a % 8 == if (a / 4) % 2 == 1 then 4 else 0
  {
    var q, r := a / 8, a % 8;
    assert a == 4 * (2 * q + r / 4) + r % 4;
    Divided(a, 4, 2 * q + r / 4, r % 4);
    Divided(2 * q + r / 4, 2, q, r / 4);
  }

  /** In every run a valid output is the four bytes of memory at the address held, the lowest first, and no more. */
  lemma {:induction false} FetchesBytes(mem: Memory, ins: seq<Input>, b: nat)
    requires EnvKeeps(mem, ins) && b < 4
    ensures var s, ra := After(ins), History(ins).hitRa;
      s.hit.valid ==>
        && Insn(s) < Pow2(32)
        && (ra % 4 == 0 ==> ByteOf(Insn(s), b) == ByteOf(mem(ra / 8), ra % 8 + b))
  {
    hide *;
    FetchesMemory(mem, ins);
    WordBytes(mem, History(ins).hitRa, b);
  }

  /** The real address: the page offset of the effective one below the page of the TLB entry; or the effective one, cut
      to 56 bits. */
  lemma {:induction false} RealAddrBits(tlb: Tlb, virt: bool, nia: nat, j: nat)
    requires |tlb.ptes| == TLB_SIZE
    ensures Bit(RealAddr(tlb, virt, nia), j) <==>
      j < 56 && Bit(if virt && j >= 12 then tlb.ptes[HashEa(nia)] else nia, j)
  {
    hide HashEa, Bit, Low, Shr;
    Powers();
    ShiftAndCut(nia, 12);
    ShiftAndCut(nia, 56);
    BitLow(nia, 56, j);
    if virt {
      var pte := tlb.ptes[HashEa(nia)];
      ShiftAndCut(pte, 12);
      ShiftAndCut(Shr(pte, 12), 44);
      Joined(Low(nia, 12), Bits(pte, 12, 56), j);
      BitLow(nia, 12, j);
      if j >= 12 {
        BitBits(pte, 12, 56, j - 12);
      }
    }
  }

  lemma Powers()
    ensures Pow2(12) == 4096 && Pow2(44) == 0x1000_0000_0000 && Pow2(56) == 0x100_0000_0000_0000
  {
    assert Pow2(4) == 16 && Pow2(8) == 256 && Pow2(16) == 65536 && Pow2(20) == 0x10_0000;
    assert Pow2(24) == 0x100_0000 && Pow2(32) == 0x1_0000_0000 && Pow2(36) == 0x10_0000_0000;
    assert Pow2(40) == 0x100_0000_0000 && Pow2(48) == 0x1_0000_0000_0000 && Pow2(52) == 0x10_0000_0000_0000;
  }

  lemma Joined(offset: nat, page: nat, j: nat)
    requires offset < Pow2(12)
    ensures Bit(offset + 4096 * page, j) == if j < 12 then Bit(offset, j) else Bit(page, j - 12)
  {
    ShlTimes(page, 12);
    Powers();
    BitBelow(offset, page, 12, j);
  }

  /** The TLB slot of a page: three fields of its number, folded. */
  lemma {:induction false} HashBits(a: nat, j: nat)
    requires j < 6
    ensures Bit(HashEa(a), j) <==> ((Bit(a, 12 + j) != Bit(a, 18 + j)) != Bit(a, 24 + j))
  {
    hide Bit, Shr;
    assert Pow2(12) == 4096 && Pow2(18) == 0x4_0000 && Pow2(24) == 0x100_0000;
    ShiftAndCut(a, 12);
    ShiftAndCut(a, 18);
    ShiftAndCut(a, 24);
    BitXor(Xor(a / 4096, a / 0x4_0000, 6), a / 0x100_0000, 6, j);
    BitXor(a / 4096, a / 0x4_0000, 6, j);
    BitShr(a, 12, j);
    BitShr(a, 18, j);
    BitShr(a, 24, j);
  }

  /** Who may fetch, over every run: with translation, whoever has an entry still standing for the page, unless it is
      privileged and he is not; without, whoever is privileged. */
  lemma {:induction false} MayFetch(ins: seq<Input>, i: Input)
    ensures AccessOk(After(ins).tlb, i) <==>
      if i.virt then Entry(ins, i.nia).Some? && (Bit(Entry(ins, i.nia).value, 3) ==> i.privMode) else i.privMode
  {
    TranslatesByLastLoad(ins, i.nia);
    hide After, Entry, HashEa, Bit;
  }

  /** and where: the page of that entry. */
  lemma {:induction false} FetchesFrom(ins: seq<Input>, i: Input, j: nat)
    requires i.virt && AccessOk(After(ins).tlb, i)
    ensures Entry(ins, i.nia).Some?
    ensures Bit(RealAddr(After(ins).tlb, true, i.nia), j) <==>
      j < 56 && Bit(if j >= 12 then Entry(ins, i.nia).value else i.nia, j)
  {
    MayFetch(ins, i);
    TranslatesByLastLoad(ins, i.nia);
    RealAddrBits(After(ins).tlb, true, i.nia, j);
    hide After, Entry, HashEa, Bit, RealAddr;
  }
}
