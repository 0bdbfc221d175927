/** Loads and stores through the byte-lane port: a length mask, shifted and widened, over 64-bit words. */
module ByteMemory {
  import opened Words

  /** Words of the test memory. */
  const DEPTH: nat := 32

  const BYTES: nat := 256

  /** Every bit of the mask repeated `cover` times, for the low n bits. */
  function Widened(mask: nat, cover: nat, n: nat): nat {
    if n == 0 then 0 else (if mask % 2 == 1 then Ones(cover) else 0) + Shl(Widened(mask / 2, cover, n - 1), cover)
  }

  /** LenExpand: the bytes of an access, one bit each, counted from the start of the word. */
  function LenExp(len: nat, lsb: nat): nat { Shl(Ones(len), lsb) }

  /** The same, eight bits each, in the width of the signal. */
  function RExp(len: nat, lsb: nat): nat { Widened(LenExp(len, lsb), 8, 22) }

  /** The access reaches beyond the word. */
  predicate Misalign(len: nat, lsb: nat) { Shr(LenExp(len, lsb), 8) != 0 }

  function Lsb(addr: nat): nat { addr % 8 }

  /** The word addressed; the address port has five bits. */
  function Index(addr: nat): (i: nat)
    ensures i < DEPTH
  {
    (addr / 8) % 32
  }

  function LoadData(data: nat, len: nat, lsb: nat): nat { Shr(And(data, RExp(len, lsb)), 8 * lsb) }

  /** A write with one enable for every byte lane. */
  function Lanes(word: nat, data: nat, en: nat, n: nat): nat
    decreases n
  {
    if n == 0 then word
    else Low(if en % 2 == 1 then data else word, 8) + Shl(Lanes(Shr(word, 8), Shr(data, 8), en / 2, n - 1), 8)
  }

  function StoreData(word: nat, st: nat, len: nat, lsb: nat): nat {
    Lanes(word, Low(Shl(st, 8 * lsb), 64), LenExp(len, lsb), 8)
  }

  predicate Valid(mem: seq<nat>) { |mem| == DEPTH }

  function Load(mem: seq<nat>, addr: nat, len: nat): nat
    requires Valid(mem)
  {
    LoadData(mem[Index(addr)], len, Lsb(addr))
  }

  function Store(mem: seq<nat>, addr: nat, len: nat, st: nat): (m: seq<nat>)
    requires Valid(mem)
    ensures Valid(m)
  {
    mem[Index(addr) := StoreData(mem[Index(addr)], st, len, Lsb(addr))]
  }
}

/** The port is a little-endian byte memory. */
module ByteMemoryProof {
  import opened Words
  import opened ByteMemory

  /** Bit b of byte i. */
  predicate ByteBit(x: nat, i: nat, b: nat) { Bit(x, 8 * i + b) }

  lemma {:induction false} BitWidened(mask: nat, n: nat, i: nat, b: nat)
    requires b < 8
    ensures ByteBit(Widened(mask, 8, n), i, b) == (i < n && Bit(mask, i))
  {
    if n == 0 {
      BitZero(8 * i + b);
    } else {
      BitStep(mask, i);
      BitJoin(if mask % 2 == 1 then Ones(8) else 0, Widened(mask / 2, 8, n - 1), i, b);
      BitOnes(8, b);
      BitZero(b);
      if i > 0 {
        BitWidened(mask / 2, n - 1, i - 1, b);
      }
    }
  }

  /** A byte below the rest. */
  lemma {:induction false} BitJoin(lo: nat, rest: nat, i: nat, b: nat)
    requires lo < Pow2(8) && b < 8
    ensures ByteBit(lo + Shl(rest, 8), i, b) == if i == 0 then Bit(lo, b) else ByteBit(rest, i - 1, b)
  {
    BitBelow(lo, rest, 8, 8 * i + b);
    hide Bit, Shl, Pow2;
  }

  lemma {:induction false} BitLanes(word: nat, data: nat, en: nat, n: nat, i: nat, b: nat)
    requires b < 8
    ensures ByteBit(Lanes(word, data, en, n), i, b) == ByteBit(if i < n && Bit(en, i) then data else word, i, b)
    decreases n
  {
    if n > 0 {
      hide Bit, ByteBit, Shl, Shr, Low, Pow2;
      var lo, rest := if en % 2 == 1 then data else word, Lanes(Shr(word, 8), Shr(data, 8), en / 2, n - 1);
      BitStep(en, i);
      BitJoin(Low(lo, 8), rest, i, b);
      LowestByte(lo, b);
      if i > 0 {
        BitLanes(Shr(word, 8), Shr(data, 8), en / 2, n - 1, i - 1, b);
        NextByte(word, i, b);
        NextByte(data, i, b);
      }
    }
  }

  lemma LowestByte(x: nat, b: nat)
    requires b < 8
    ensures Bit(Low(x, 8), b) == ByteBit(x, 0, b)
  {
    BitLow(x, 8, b);
    hide Bit, Low;
  }

  lemma NextByte(x: nat, i: nat, b: nat)
    requires i > 0
    ensures ByteBit(Shr(x, 8), i - 1, b) == ByteBit(x, i, b)
  {
    BitShr(x, 8, 8 * (i - 1) + b);
    hide Bit, Shr;
  }

  /** The mask has the access's bytes. */
  lemma {:induction false} BitLenExp(len: nat, lsb: nat, i: nat)
    ensures Bit(LenExp(len, lsb), i) == (lsb <= i < lsb + len)
  {
    BitShl(Ones(len), lsb, i);
    if i >= lsb {
      BitOnes(len, i - lsb);
    }
  }

  /** Byte i of a number. */
  function ByteOf(x: nat, i: nat): (r: nat)
    ensures r < Pow2(8)
  {
    Low(Shr(x, 8 * i), 8)
  }

  lemma {:induction false} BitByte(x: nat, i: nat, b: nat)
    ensures Bit(ByteOf(x, i), b) == (b < 8 && ByteBit(x, i, b))
  {
    BitLow(Shr(x, 8 * i), 8, b);
    BitShr(x, 8 * i, b);
    hide Low, Shr, Bit, Pow2;
  }

  /** Byte i of x is y, bit by bit. */
  lemma {:induction false} IsByte(x: nat, i: nat, y: nat)
    requires y < Pow2(8) && forall b :: 0 <= b < 8 ==> ByteBit(x, i, b) == Bit(y, b)
    ensures ByteOf(x, i) == y
  {
    forall b | 0 <= b < 8
      ensures Bit(ByteOf(x, i), b) == Bit(y, b)
    {
      BitByte(x, i, b);
      assert ByteBit(x, i, b) == Bit(y, b);
    }
    hide ByteOf, Bit, Pow2;
    SameBits(ByteOf(x, i), y, 8);
  }

  lemma {:induction false} LoadBit(data: nat, len: nat, lsb: nat, i: nat, b: nat)
    requires lsb + i < 22 && b < 8
    ensures ByteBit(LoadData(data, len, lsb), i, b) == (i < len && ByteBit(data, lsb + i, b))
  {
    hide Bit, And, Shr, LenExp, Widened;
    BitShr(And(data, RExp(len, lsb)), 8 * lsb, 8 * i + b);
    BitAnd(data, RExp(len, lsb), 8 * (lsb + i) + b);
    BitWidened(LenExp(len, lsb), 22, lsb + i, b);
    BitLenExp(len, lsb, lsb + i);
  }

  /** Bytes written by enable, over a whole word. */
  lemma {:induction false} LaneBytes(word: nat, data: nat, en: nat, i: nat)
    requires i < 8
    ensures ByteOf(Lanes(word, data, en, 8), i) == if Bit(en, i) then ByteOf(data, i) else ByteOf(word, i)
  {
    hide Lanes, ByteOf, Bit, ByteBit;
    var from := if Bit(en, i) then data else word;
    forall b | 0 <= b < 8
      ensures ByteBit(Lanes(word, data, en, 8), i, b) == Bit(ByteOf(from, i), b)
    {
      BitLanes(word, data, en, 8, i, b);
      BitByte(from, i, b);
    }
    IsByte(Lanes(word, data, en, 8), i, ByteOf(from, i));
  }

  /** A word of eight bytes. */
  predicate Fits64(x: nat) { x < Pow2(64) }

  /** Eight-byte words with the same bytes are the same. */
  lemma {:induction false} SameBytes(x: nat, y: nat)
    requires Fits64(x) && Fits64(y) && forall i :: 0 <= i < 8 ==> ByteOf(x, i) == ByteOf(y, i)
    ensures x == y
  {
    hide Bit, ByteOf, Pow2;
    forall j | 0 <= j < 64
      ensures Bit(x, j) == Bit(y, j)
    {
      var i, b := j / 8, j % 8;
      BitByte(x, i, b);
      BitByte(y, i, b);
      assert ByteOf(x, i) == ByteOf(y, i) && j == 8 * i + b;
    }
    SameBits(x, y, 64);
  }

  lemma {:induction false} LanesFit(word: nat, data: nat, en: nat, n: nat)
    requires word < Pow2(8 * n)
    ensures Lanes(word, data, en, n) < Pow2(8 * n)
    decreases n
  {
    if n > 0 {
      hide Shl, Shr, Low;
      ShrFits(word, 8, 8 * (n - 1));
      LanesFit(Shr(word, 8), Shr(data, 8), en / 2, n - 1);
      var lo, rest := Low(if en % 2 == 1 then data else word, 8), Lanes(Shr(word, 8), Shr(data, 8), en / 2, n - 1);
      JoinFits(lo, rest, 8, 8 * (n - 1));
    }
  }

  lemma {:induction false} ShrFits(x: nat, s: nat, n: nat)
    requires x < Pow2(s + n)
    ensures Shr(x, s) < Pow2(n)
  {
    if s > 0 {
      ShrFits(x / 2, s - 1, n);
    }
  }

  lemma {:induction false} JoinFits(lo: nat, rest: nat, s: nat, n: nat)
    requires lo < Pow2(s) && rest < Pow2(n)
    ensures lo + Shl(rest, s) < Pow2(s + n)
  {
    if s > 0 {
      JoinFits(lo / 2, rest, s - 1, n);
    }
  }

  /** A load brings the access's bytes down to the bottom and clears the rest. */
  lemma {:induction false} LoadBytes(data: nat, len: nat, lsb: nat, i: nat)
    requires lsb + i < 22
    ensures ByteOf(LoadData(data, len, lsb), i) == if i < len then ByteOf(data, lsb + i) else 0
  {
    hide LoadData, ByteOf, Bit, ByteBit;
    forall b | 0 <= b < 8
      ensures ByteBit(LoadData(data, len, lsb), i, b) == Bit(if i < len then ByteOf(data, lsb + i) else 0, b)
    {
      LoadBit(data, len, lsb, i, b);
      BitByte(data, lsb + i, b);
      BitZero(b);
    }
    IsByte(LoadData(data, len, lsb), i, if i < len then ByteOf(data, lsb + i) else 0);
  }

  lemma {:induction false} StoreBit(word: nat, st: nat, len: nat, lsb: nat, i: nat, b: nat)
    requires i < 8 && b < 8
    ensures ByteBit(StoreData(word, st, len, lsb), i, b) ==
            if lsb <= i < lsb + len then ByteBit(st, i - lsb, b) else ByteBit(word, i, b)
  {
    hide Bit, Shl, Low, LenExp, Lanes, Pow2;
    BitLenExp(len, lsb, i);
    BitLanes(word, Low(Shl(st, 8 * lsb), 64), LenExp(len, lsb), 8, i, b);
    ShiftedBit(st, lsb, i, b);
  }

  /** The store data on its lanes. */
  lemma ShiftedBit(st: nat, lsb: nat, i: nat, b: nat)
    requires i < 8 && b < 8
    ensures ByteBit(Low(Shl(st, 8 * lsb), 64), i, b) == (i >= lsb && ByteBit(st, i - lsb, b))
  {
    hide Bit, Shl, Low, Pow2;
    BitLow(Shl(st, 8 * lsb), 64, 8 * i + b);
    BitShl(st, 8 * lsb, 8 * i + b);
    assert i >= lsb ==> 8 * i + b - 8 * lsb == 8 * (i - lsb) + b;
  }

  /** A store changes the access's bytes within the word, and no other. */
  lemma {:induction false} StoreBytes(word: nat, st: nat, len: nat, lsb: nat, i: nat)
    requires i < 8
    ensures ByteOf(StoreData(word, st, len, lsb), i) ==
            if lsb <= i < lsb + len then ByteOf(st, i - lsb) else ByteOf(word, i)
  {
    hide StoreData, ByteOf, Bit, ByteBit;
    var on := lsb <= i < lsb + len;
    forall b | 0 <= b < 8
      ensures ByteBit(StoreData(word, st, len, lsb), i, b) ==
              Bit(if on then ByteOf(st, i - lsb) else ByteOf(word, i), b)
    {
      StoreBit(word, st, len, lsb, i, b);
      if on {
        BitByte(st, i - lsb, b);
      } else {
        BitByte(word, i, b);
      }
    }
    IsByte(StoreData(word, st, len, lsb), i, if on then ByteOf(st, i - lsb) else ByteOf(word, i));
  }

  /** The misalignment flag is up exactly for an access that leaves its word. */
  lemma {:induction false} MisalignExactly(len: nat, lsb: nat)
    ensures Misalign(len, lsb) <==> len > 0 && lsb + len > 8
  {
    var x := Shr(LenExp(len, lsb), 8);
    if len > 0 && lsb + len > 8 {
      BitShr(LenExp(len, lsb), 8, lsb + len - 1 - 8);
      BitLenExp(len, lsb, lsb + len - 1);
      BitZero(lsb + len - 1 - 8);
    } else if x != 0 {
      var i := SomeBit(x);
      BitShr(LenExp(len, lsb), 8, i);
      BitLenExp(len, lsb, i + 8);
    }
  }

  lemma {:induction false} SomeBit(x: nat) returns (i: nat)
    requires x > 0
    ensures Bit(x, i)
  {
    if x % 2 == 1 {
      i := 0;
    } else {
      i := SomeBit(x / 2);
      i := i + 1;
    }
  }

  /** The memory as bytes, by byte address. */
  function Bytes(mem: seq<nat>): (s: seq<nat>)
    requires Valid(mem)
    ensures |s| == BYTES
  {
    seq(BYTES, a requires 0 <= a < BYTES => ByteOf(mem[a / 8], a % 8))
  }

  /** Within one word, an address and its following bytes. */
  predicate Aligned(addr: nat, len: nat) { Lsb(addr) + len <= 8 }

  function ByteAddr(addr: nat): (a: nat)
    ensures a < BYTES
  {
    addr % 256
  }

  lemma {:induction false} AddrSplit(addr: nat)
    ensures ByteAddr(addr) == 8 * Index(addr) + Lsb(addr)
  {
    var q, r := addr / 256, addr % 256;
    Eight(q, r);
    ThirtyTwo(q, r / 8);
    assert addr == 256 * q + r;
    assert r == 8 * (r / 8) + r % 8;
  }

  lemma Eight(q: nat, r: nat)
    ensures (256 * q + r) / 8 == 32 * q + r / 8 && (256 * q + r) % 8 == r % 8
  {
  }

  lemma ThirtyTwo(q: nat, k: nat)
    requires k < 32
    ensures (32 * q + k) % 32 == k
  {
  }

  /** The reference: bytes one after the other, the lowest first. */
  function Put(s: seq<nat>, a: nat, len: nat, st: nat): (t: seq<nat>)
    requires a + len <= |s|
    ensures |t| == |s| && forall k :: 0 <= k < |s| ==> t[k] == if a <= k < a + len then ByteOf(st, k - a) else s[k]
  {
    if len == 0 then s
    else
      var t: seq<nat> := Put(s, a, len - 1, st);
      t[a + len - 1 := ByteOf(st, len - 1)]
  }

  function Get(s: seq<nat>, a: nat, len: nat): nat
    requires a + len <= |s|
    decreases len
  {
    if len == 0 then 0 else Low(s[a], 8) + Shl(Get(s, a + 1, len - 1), 8)
  }

  /** A store within one word is a store of bytes. */
  lemma {:induction false} StoreRefines(mem: seq<nat>, addr: nat, len: nat, st: nat)
    requires Valid(mem) && Aligned(addr, len)
    ensures ByteAddr(addr) + len <= BYTES
    ensures Bytes(Store(mem, addr, len, st)) == Put(Bytes(mem), ByteAddr(addr), len, st)
  {
    hide StoreData, ByteOf, Index, Lsb, ByteAddr;
    AddrSplit(addr);
    var was, now := Bytes(mem), Bytes(Store(mem, addr, len, st));
    forall a: nat | a < BYTES
      ensures now[a] == Put(was, ByteAddr(addr), len, st)[a]
    {
      StoreBytes(mem[Index(addr)], st, len, Lsb(addr), a % 8);
      assert a == 8 * (a / 8) + a % 8;
    }
  }

  /** Byte i of the number got is the i-th byte. */
  lemma {:induction false} ByteOfGet(s: seq<nat>, a: nat, len: nat, i: nat)
    requires a + len <= |s| && forall k :: 0 <= k < |s| ==> s[k] < Pow2(8)
    ensures ByteOf(Get(s, a, len), i) == if i < len then s[a + i] else 0
    decreases len
  {
    hide ByteOf, Bit, ByteBit, Shl, Low, Pow2;
    if len == 0 {
      forall b | 0 <= b < 8
        ensures ByteBit(0, i, b) == Bit(0, b)
      {
        ZeroBit(i, b);
      }
      IsByte(0, i, 0);
    } else {
      if i > 0 {
        ByteOfGet(s, a + 1, len - 1, i - 1);
      }
      var rest := Get(s, a + 1, len - 1);
      var y := if i == 0 then s[a] else ByteOf(rest, i - 1);
      forall b | 0 <= b < 8
        ensures ByteBit(Low(s[a], 8) + Shl(rest, 8), i, b) == Bit(y, b)
      {
        BitJoin(Low(s[a], 8), rest, i, b);
        BitLow(s[a], 8, b);
        if i > 0 {
          BitByte(rest, i - 1, b);
        }
      }
      IsByte(Low(s[a], 8) + Shl(rest, 8), i, y);
    }
  }

  lemma ZeroBit(i: nat, b: nat)
    ensures !ByteBit(0, i, b) && !Bit(0, b)
  {
    BitZero(8 * i + b);
    BitZero(b);
  }

  /** A load within one word brings the bytes at the address, lowest first, and nothing above them. */
  lemma {:induction false} LoadRefines(mem: seq<nat>, addr: nat, len: nat, i: nat)
    requires Valid(mem) && Aligned(addr, len) && i < 8
    ensures ByteAddr(addr) + len <= BYTES
    ensures ByteOf(Load(mem, addr, len), i) == ByteOf(Get(Bytes(mem), ByteAddr(addr), len), i)
    ensures ByteOf(Load(mem, addr, len), i) == if i < len then Bytes(mem)[ByteAddr(addr) + i] else 0
  {
    hide LoadData, ByteOf, Index, Lsb, ByteAddr, Get, Pow2;
    AddrSplit(addr);
    LoadBytes(mem[Index(addr)], len, Lsb(addr), i);
    ByteOfGet(Bytes(mem), ByteAddr(addr), len, i);
  }

  /** Little-endian bytes loaded from an address. */
  predicate Brings(s: seq<nat>, addr: nat, len: nat, ld: nat)
    requires |s| == BYTES
  {
    ByteAddr(addr) + len <= BYTES
    && forall i :: 0 <= i < 8 ==> ByteOf(ld, i) == if i < len then s[ByteAddr(addr) + i] else 0
  }

  lemma {:induction false} LoadBrings(mem: seq<nat>, addr: nat, len: nat)
    requires Valid(mem)
    ensures Aligned(addr, len) ==> Brings(Bytes(mem), addr, len, Load(mem, addr, len))
  {
    hide Bytes, ByteOf, Load, ByteAddr, Aligned;
    if Aligned(addr, len) {
      LoadRefines(mem, addr, len, 0);
      forall i: nat | i < 8
        ensures ByteOf(Load(mem, addr, len), i) == if i < len then Bytes(mem)[ByteAddr(addr) + i] else 0
      {
        LoadRefines(mem, addr, len, i);
      }
    }
  }

  datatype Op = LoadOp(addr: nat, len: nat) | StoreOp(addr: nat, len: nat, st: nat)

  /** The bytes after a sequence of operations, done through the port. */
  function Run(mem: seq<nat>, ops: seq<Op>): (m: seq<nat>)
    requires Valid(mem)
    ensures Valid(m)
  {
    if |ops| == 0 then mem
    else
      var m, op := Run(mem, ops[..|ops| - 1]), ops[|ops| - 1];
      if op.StoreOp? then Store(m, op.addr, op.len, op.st) else m
  }

  /** The byte a store of the sequence last put at an address, or what was there. */
  function LastStored(s: seq<nat>, ops: seq<Op>, a: nat): nat
    requires |s| == BYTES && a < BYTES
  {
    if |ops| == 0 then s[a]
    else
      var op := ops[|ops| - 1];
      if op.StoreOp? && ByteAddr(op.addr) <= a < ByteAddr(op.addr) + op.len then ByteOf(op.st, a - ByteAddr(op.addr))
      else LastStored(s, ops[..|ops| - 1], a)
  }

  /** After any loads and stores within words, every byte is the one last stored to it, and a load brings
      the bytes last stored at its addresses. */
  lemma {:induction false} BytesLastStored(mem: seq<nat>, ops: seq<Op>, a: nat)
    requires Valid(mem) && a < BYTES && forall t :: 0 <= t < |ops| ==> Aligned(ops[t].addr, ops[t].len)
    ensures Bytes(Run(mem, ops))[a] == LastStored(Bytes(mem), ops, a)
  {
    if |ops| > 0 {
      var pre, op := ops[..|ops| - 1], ops[|ops| - 1];
      BytesLastStored(mem, pre, a);
      hide Store, Bytes, ByteOf, ByteAddr;
      if op.StoreOp? {
        StoreRefines(Run(mem, pre), op.addr, op.len, op.st);
      }
    }
  }

  lemma {:induction false} LoadsLastStored(mem: seq<nat>, ops: seq<Op>, addr: nat, len: nat, i: nat)
    requires Valid(mem) && Aligned(addr, len) && i < len
    requires forall t :: 0 <= t < |ops| ==> Aligned(ops[t].addr, ops[t].len)
    ensures ByteAddr(addr) + i < BYTES
    ensures ByteOf(Load(Run(mem, ops), addr, len), i) == LastStored(Bytes(mem), ops, ByteAddr(addr) + i)
  {
    LoadRefines(Run(mem, ops), addr, len, i);
    BytesLastStored(mem, ops, ByteAddr(addr) + i);
  }
}

/** The memory behind the port, written in place. */
module ByteMemoryHardware {
  import opened ByteMemory
  import opened ByteMemoryProof

  class TestMemory {
    const mem: array<nat>

    constructor ()
      ensures mem.Length == DEPTH && fresh(mem) && forall i :: 0 <= i < DEPTH ==> mem[i] == 0
    {
      mem := new nat[DEPTH](_ => 0);
    }

    /** A load within a word brings the bytes at the address, lowest first, and nothing above them. */
    method GetRdData(addr: nat, len: nat) returns (ld: nat)
      requires mem.Length == DEPTH
      ensures Aligned(addr, len) ==> Brings(Bytes(mem[..]), addr, len, ld)
    {
      ld := LoadData(mem[Index(addr)], len, Lsb(addr));
      assert ld == Load(mem[..], addr, len);
      hide *;
      LoadBrings(mem[..], addr, len);
    }

    /** Any store changes its bytes within the word and no other byte; one within a word is a store of bytes. */
    method SetWrData(addr: nat, len: nat, st: nat)
      requires mem.Length == DEPTH
      modifies mem
      ensures mem[..] == Store(old(mem[..]), addr, len, st)
      ensures Aligned(addr, len) ==>
        ByteAddr(addr) + len <= BYTES && Bytes(mem[..]) == Put(old(Bytes(mem[..])), ByteAddr(addr), len, st)
    {
      ghost var was := mem[..];
      var i := Index(addr);
      mem[i] := StoreData(mem[i], st, len, Lsb(addr));
      hide Bytes, StoreData, ByteAddr, Aligned, Put;
      assert mem[..] == Store(was, addr, len, st);
      if Aligned(addr, len) {
        StoreRefines(was, addr, len, st);
      }
    }
  }
}
