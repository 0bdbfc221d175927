/** The instruction cache: hit detection, refill, tags, valid bits and the line RAM, clock by clock. */
module ICache {
  import opened Words
  import R = Refill

  const NUM_LINES: nat := 16
  const NUM_WAYS: nat := 4
  const TLB_SIZE: nat := 64

  type Way = w: nat | w < NUM_WAYS

  /** Address fields; memory is addressed by 8-byte row. */
  function IndexOf(a: nat): (x: nat)
    ensures x < NUM_LINES
  {
    (a / 64) % 16
  }

  function RowInLine(a: nat): (r: nat)
    ensures r < R.ROWS
  {
    (a / 8) % 8
  }

  function TagOf(ra: nat): nat { ra / 1024 }

  function RowNum(tag: nat, index: nat, row: nat): nat { tag * 128 + index * 8 + row }

  datatype Stage = IDLE | CLR_TAG | WAIT_ACK

  /** The reload machine. `line` is the memory line being requested. */
  datatype Core = Core(state: Stage, cyc: bool, f: R.Refill, line: nat, storeWay: nat, storeIndex: nat,
                       storeTag: nat, storeValid: bool)

  /** Per set: valid ways and tags; per way: the row RAM. */
  datatype Arrays = Arrays(valid: seq<set<nat>>, tags: seq<seq<nat>>, ram: seq<seq<nat>>)

  /** The hit latch and the RAM output registers. */
  datatype Hit = Hit(way: nat, nia: nat, valid: bool, data: seq<nat>)

  datatype Tlb = Tlb(valid: set<nat>, tags: seq<nat>, ptes: seq<nat>)

  datatype State = State(core: Core, arr: Arrays, hit: Hit, tlb: Tlb)

  datatype Input = Input(req: bool, virt: bool, privMode: bool, sequential: bool, nia: nat,
                         stall: bool, flush: bool, inval: bool,
                         ack: bool, dat: nat, wbStall: bool, victim: Way,
                         tlbie: bool, doall: bool, tlbld: bool, mAddr: nat, mPte: nat)

  predicate Shaped(s: State) {
    && |s.arr.valid| == |s.arr.tags| == NUM_LINES && |s.arr.ram| == NUM_WAYS
    && (forall x :: 0 <= x < NUM_LINES ==> |s.arr.tags[x]| == NUM_WAYS)
    && (forall w :: 0 <= w < NUM_WAYS ==> |s.arr.ram[w]| == NUM_LINES * R.ROWS)
    && |s.hit.data| == NUM_WAYS && s.hit.way < NUM_WAYS
    && |s.tlb.tags| == |s.tlb.ptes| == TLB_SIZE
    && s.core.storeWay < NUM_WAYS && s.core.storeIndex < NUM_LINES && s.core.f.store < R.ROWS
  }

  /** Direct-mapped TLB slot of an address. */
  function HashEa(a: nat): (r: nat)
    ensures r < TLB_SIZE
  {
    assert Pow2(6) == 64;
    Xor(Xor(a / 4096, a / 0x4_0000, 6), a / 0x100_0000, 6)
  }

  /** Real address, with the page offset of the effective one. */
  function RealAddr(tlb: Tlb, virt: bool, nia: nat): (ra: nat)
    requires |tlb.ptes| == TLB_SIZE
    ensures ra % 4096 == nia % 4096
  {
    if virt then
      var page := (tlb.ptes[HashEa(nia)] / 4096) % 0x1000_0000_0000;
      InPage(page, nia % 4096);
      nia % 4096 + 4096 * page
    else
      LowBits(nia);
      nia % 0x100_0000_0000_0000
  }

  lemma InPage(page: nat, o: nat)
    requires o < 4096
    ensures (o + 4096 * page) % 4096 == o
  {
  }

  lemma LowBits(a: nat)
    ensures (a % 0x100_0000_0000_0000) % 4096 == a % 4096
  {
    var q, r := a / 0x100_0000_0000_0000, a % 0x100_0000_0000_0000;
    assert a == 4096 * (0x1000_0000_0000 * q + r / 4096) + r % 4096;
    InPage(0x1000_0000_0000 * q + r / 4096, r % 4096);
  }

  predicate AccessOk(tlb: Tlb, i: Input)
    requires |tlb.ptes| == |tlb.tags| == TLB_SIZE
  {
    var slot := HashEa(i.nia);
    if i.virt then
      slot in tlb.valid && tlb.tags[slot] == i.nia / 0x4_0000 && (Bit(tlb.ptes[slot], 3) ==> i.privMode)
    else i.privMode
  }

  function TlbNext(tlb: Tlb, i: Input): (t: Tlb)
    requires |tlb.ptes| == |tlb.tags| == TLB_SIZE
    ensures |t.ptes| == |t.tags| == TLB_SIZE
  {
    var slot := HashEa(i.mAddr);
    if i.tlbie && i.doall then tlb.(valid := {})
    else if i.tlbie then tlb.(valid := tlb.valid - {slot})
    else if i.tlbld then
      Tlb(tlb.valid + {slot}, tlb.tags[slot := i.mAddr / 0x4_0000], tlb.ptes[slot := i.mPte])
    else tlb
  }

  /** The row read last cycle also holds this instruction. */
  predicate UsePrevious(s: State, i: Input) { (i.nia / 4) % 2 != 0 && i.sequential && s.hit.valid }

  /** A row of the line being refilled is already there. */
  predicate HitCond(s: State, i: Input) {
    s.core.state == WAIT_ACK && IndexOf(i.nia) == s.core.storeIndex && RowInLine(i.nia) in s.core.f.rows
  }

  predicate WayHit(s: State, i: Input, w: nat)
    requires Shaped(s) && w < NUM_WAYS
  {
    && (w in s.arr.valid[IndexOf(i.nia)] || (HitCond(s, i) && w == s.core.storeWay))
    && s.arr.tags[IndexOf(i.nia)][w] == TagOf(RealAddr(s.tlb, i.virt, i.nia))
  }

  /** The last way that hits, if any. */
  function HitWay(s: State, i: Input, n: nat): (w: int)
    requires Shaped(s) && n <= NUM_WAYS
    ensures w < n && (w >= 0 ==> WayHit(s, i, w))
    ensures w < 0 ==> forall v :: 0 <= v < n ==> !WayHit(s, i, v)
  {
    if n == 0 then -1 else if WayHit(s, i, n - 1) then n - 1 else HitWay(s, i, n - 1)
  }

  predicate Live(s: State, i: Input)
    requires Shaped(s)
  {
    i.req && AccessOk(s.tlb, i) && !i.flush
  }

  predicate ReqIsHit(s: State, i: Input)
    requires Shaped(s)
  {
    Live(s, i) && HitWay(s, i, NUM_WAYS) >= 0
  }

  predicate ReqIsMiss(s: State, i: Input)
    requires Shaped(s)
  {
    Live(s, i) && HitWay(s, i, NUM_WAYS) < 0
  }

  function ReplaceWay(s: State, i: Input): nat { if s.core.state == CLR_TAG then i.victim else s.core.storeWay }

  function StoreRow(c: Core): nat { (c.line % NUM_LINES) * R.ROWS + c.f.store }

  predicate Completes(c: Core, i: Input) { c.state != IDLE && R.Completes(c.f, i.wbStall, i.ack) }

  function CoreNext(s: State, i: Input): Core
    requires Shaped(s)
  {
    var c := s.core;
    var stored := if i.inval then c.(storeValid := false) else c;
    match c.state
    case IDLE =>
      var ra := RealAddr(s.tlb, i.virt, i.nia);
      if ReqIsMiss(s, i) then
        Core(CLR_TAG, true, R.Start(RowInLine(ra)), ra / 64, c.storeWay, IndexOf(i.nia), TagOf(ra), true)
      else stored.(f := c.f.(rows := {}))
    case _ =>
      var d := stored.(f := R.Step(c.f, i.wbStall, i.ack), storeWay := ReplaceWay(s, i));
      if Completes(c, i) then d.(state := IDLE, cyc := false) else d.(state := WAIT_ACK)
  }

  function ValidNext(s: State, i: Input): (v: seq<set<nat>>)
    requires Shaped(s)
    ensures |v| == NUM_LINES
  {
    var a, c := s.arr.valid, s.core;
    var v0 := if i.inval then seq(NUM_LINES, _ => {}) else a;
    // both later writes replace the whole vector of their set, by its value before the cycle
    var v1 := if c.state == CLR_TAG then v0[IndexOf(i.nia) := a[IndexOf(i.nia)] - {i.victim}] else v0;
    if !Completes(c, i) then v1
    else v1[c.storeIndex := if c.storeValid && !i.inval then a[c.storeIndex] + {ReplaceWay(s, i)}
                            else a[c.storeIndex] - {ReplaceWay(s, i)}]
  }

  function TagsNext(s: State, i: Input): (t: seq<seq<nat>>)
    requires Shaped(s)
    ensures |t| == NUM_LINES && forall x :: 0 <= x < NUM_LINES ==> |t[x]| == NUM_WAYS
  {
    var x := s.core.storeIndex;
    var row: seq<nat> := s.arr.tags[x][i.victim := s.core.storeTag];
    if s.core.state == CLR_TAG then s.arr.tags[x := row] else s.arr.tags
  }

  function RamNext(s: State, i: Input): (m: seq<seq<nat>>)
    requires Shaped(s)
    ensures |m| == NUM_WAYS && forall w :: 0 <= w < NUM_WAYS ==> |m[w]| == NUM_LINES * R.ROWS
  {
    var w := ReplaceWay(s, i);
    var column: seq<nat> := s.arr.ram[w][StoreRow(s.core) := i.dat];
    if i.ack then s.arr.ram[w := column] else s.arr.ram
  }

  function ReqRow(i: Input): nat { IndexOf(i.nia) * R.ROWS + RowInLine(i.nia) }

  function HitNext(s: State, i: Input): (h: Hit)
    requires Shaped(s)
    ensures |h.data| == NUM_WAYS && h.way < NUM_WAYS
  {
    var h := s.hit;
    var kept := i.stall || UsePrevious(s, i);
    Hit(if !kept && ReqIsHit(s, i) then HitWay(s, i, NUM_WAYS) else h.way,
        if i.stall then h.nia else i.nia,
        if kept then h.valid && !i.flush else ReqIsHit(s, i),
        if kept then h.data else seq(NUM_WAYS, w requires 0 <= w < NUM_WAYS => s.arr.ram[w][ReqRow(i)]))
  }

  function Step(s: State, i: Input): (t: State)
    requires Shaped(s)
    ensures Shaped(t)
  {
    State(CoreNext(s, i), Arrays(ValidNext(s, i), TagsNext(s, i), RamNext(s, i)), HitNext(s, i), TlbNext(s.tlb, i))
  }

  function Half(word: nat, upper: bool): nat {
    if upper then Bits(word, 32, 64) else Bits(word, 0, 32)
  }

  /** The instruction output. */
  function Insn(s: State): nat
    requires Shaped(s)
  {
    Half(s.hit.data[s.hit.way], (s.hit.nia / 4) % 2 == 1)
  }

  function Reset(): (s: State)
    ensures Shaped(s)
  {
    State(Core(IDLE, false, R.Refill(false, 0, 0, 0, {}), 0, 0, 0, 0, false),
          Arrays(seq(NUM_LINES, _ => {}), seq(NUM_LINES, _ => seq(NUM_WAYS, _ => 0)),
                 seq(NUM_WAYS, _ => seq(NUM_LINES * R.ROWS, _ => 0))),
          Hit(0, 0, false, seq(NUM_WAYS, _ => 0)),
          Tlb({}, seq(TLB_SIZE, _ => 0), seq(TLB_SIZE, _ => 0)))
  }
}

/** The cache agrees with memory. */
module ICacheProof {
  import opened Words
  import opened ICache
  import R = Refill

  type Memory = nat -> nat

  /** History: the bus since the miss, the missed row, and the real address of the instruction held. */
  datatype Ghost = Ghost(bus: R.Bus, first: nat, hitRa: nat)

  function WordAt(mem: Memory, ra: nat): nat { Half(mem(ra / 8), (ra / 4) % 2 == 1) }

  /** The cycle that clears the victim's tag clears the valid bit in the set of the request now at the input:
      the right one if fetch still holds the missed request. Otherwise the victim must be invalid anyway. */
  predicate Held(s: State, i: Input)
    requires Shaped(s)
  {
    s.core.state == CLR_TAG ==>
      IndexOf(i.nia) == s.core.storeIndex || i.inval || i.victim !in s.arr.valid[s.core.storeIndex]
  }

  /** The rest of the machine: an in-order slave serving fixed memory, any victim, and `sequential` meaning
      four bytes further. */
  predicate SlaveOk(mem: Memory, s: State, g: Ghost, i: Input) {
    && (i.ack ==>
          (s.core.state != IDLE && R.MayAck(g.bus, s.core.f, i.wbStall, true)
           && i.dat == mem(s.core.line * R.ROWS + R.AckRow(g.bus, s.core.f, i.wbStall))))
    && (i.sequential && s.hit.valid ==> i.nia == s.hit.nia + 4)
  }

  predicate EnvOk(mem: Memory, s: State, g: Ghost, i: Input)
    requires Shaped(s)
  {
    SlaveOk(mem, s, g, i) && Held(s, i)
  }

  function NextGhost(s: State, g: Ghost, i: Input): Ghost
    requires Shaped(s)
  {
    var ra := RealAddr(s.tlb, i.virt, i.nia);
    var miss := s.core.state == IDLE && ReqIsMiss(s, i);
    Ghost(if miss then R.Bus([], 0)
          else if s.core.state == IDLE then g.bus
          else R.NextBus(g.bus, s.core.f, i.wbStall, i.ack),
          if miss then RowInLine(ra) else g.first,
          if i.stall then g.hitRa
          else if UsePrevious(s, i) then g.hitRa + 4
          else if ReqIsHit(s, i) then ra else g.hitRa)
  }

  predicate LineOk(mem: Memory, a: Arrays, x: nat, w: nat)
    requires x < |a.tags| && w < |a.tags[x]| && w < |a.ram| && |a.ram[w]| == NUM_LINES * R.ROWS && x < NUM_LINES
  {
    forall k :: 0 <= k < R.ROWS ==> a.ram[w][x * R.ROWS + k] == mem(RowNum(a.tags[x][w], x, k))
  }

  /** Every valid line holds the memory of its tag. */
  predicate LinesOk(mem: Memory, s: State)
    requires Shaped(s)
  {
    forall x, w :: 0 <= x < NUM_LINES && w in s.arr.valid[x] ==> w < NUM_WAYS && LineOk(mem, s.arr, x, w)
  }

  /** No two valid ways of a set have the same tag. */
  predicate Unique(s: State)
    requires Shaped(s)
  {
    forall x, v, w ::
      0 <= x < NUM_LINES && v in s.arr.valid[x] && w in s.arr.valid[x] && v < NUM_WAYS && w < NUM_WAYS && v != w ==>
        s.arr.tags[x][v] != s.arr.tags[x][w]
  }

  /** The refill is the one started by the miss. */
  ghost predicate CoreOk(s: State, g: Ghost) {
    var c := s.core;
    && (c.cyc <==> c.state != IDLE)
    && (c.state != IDLE ==> R.Inv(c.f, g.bus, g.first) && c.line == c.storeTag * NUM_LINES + c.storeIndex)
    && (c.state == CLR_TAG ==> c.f.rows == {})
  }

  /** The line being refilled is nowhere valid. */
  predicate NoTwin(s: State)
    requires Shaped(s)
  {
    var c, a := s.core, s.arr;
    && (c.state != IDLE ==>
          forall w :: w in a.valid[c.storeIndex] && w < NUM_WAYS ==> a.tags[c.storeIndex][w] != c.storeTag)
    && (c.state == WAIT_ACK ==>
          c.storeWay !in a.valid[c.storeIndex] && a.tags[c.storeIndex][c.storeWay] == c.storeTag)
  }

  /** Its flagged rows are loaded. */
  predicate RowsLoaded(mem: Memory, s: State)
    requires Shaped(s)
  {
    var c := s.core;
    c.state == WAIT_ACK ==> forall k :: k in c.f.rows && k < R.ROWS ==>
      s.arr.ram[c.storeWay][c.storeIndex * R.ROWS + k] == mem(RowNum(c.storeTag, c.storeIndex, k))
  }

  ghost predicate ReloadOk(mem: Memory, s: State, g: Ghost)
    requires Shaped(s)
  {
    CoreOk(s, g) && NoTwin(s) && RowsLoaded(mem, s)
  }

  /** What the hit latch presents is the memory row of the instruction's real address. */
  predicate HitOk(mem: Memory, s: State, g: Ghost)
    requires Shaped(s)
  {
    s.hit.valid ==> s.hit.data[s.hit.way] == mem(g.hitRa / 8) && g.hitRa % 4096 == s.hit.nia % 4096
  }

  ghost predicate Inv(mem: Memory, s: State, g: Ghost) {
    Shaped(s) && LinesOk(mem, s) && Unique(s) && ReloadOk(mem, s, g) && HitOk(mem, s, g)
  }

  lemma By8(a: nat, b: nat)
    ensures (8 * a + b) / 8 == a + b / 8 && (8 * a + b) % 8 == b % 8
  {
  }

  lemma By16(a: nat, b: nat)
    ensures (16 * a + b) % 16 == b % 16
  {
  }

  lemma By64(a: nat, b: nat)
    ensures (64 * a + b) / 64 == a + b / 64
  {
  }

  lemma By1024(a: nat, b: nat)
    ensures (1024 * a + b) / 1024 == a + b / 1024
  {
  }

  /** Addresses q pages apart. */
  lemma Fields(q: nat, o: nat)
    requires o < 4096
    ensures (4096 * q + o) / 64 == 64 * q + o / 64 && (4096 * q + o) / 8 == 512 * q + o / 8
    ensures IndexOf(4096 * q + o) == (o / 64) % 16 && RowInLine(4096 * q + o) == (o / 8) % 8
    ensures TagOf(4096 * q + o) == 4 * q + o / 1024
  {
    By8(512 * q, o);
    By8(64 * q, o / 8);
    By64(64 * q, o);
    By16(4 * q, o / 64);
    By1024(4 * q, o);
  }

  lemma Offset(o: nat)
    ensures o / 64 == 16 * (o / 1024) + (o / 64) % 16 && o / 8 == 8 * (o / 64) + (o / 8) % 8
  {
    assert o == 1024 * (o / 1024) + o % 1024;
    assert o == 64 * (o / 64) + o % 64;
  }

  /** Tag, set index and row of a real address give back its memory row. */
  lemma RowNumOf(ra: nat, nia: nat)
    requires ra % 4096 == nia % 4096
    ensures ra / 8 == RowNum(TagOf(ra), IndexOf(nia), RowInLine(nia))
    ensures IndexOf(ra) == IndexOf(nia) && RowInLine(ra) == RowInLine(nia)
    ensures ra / 64 == TagOf(ra) * NUM_LINES + IndexOf(nia)
  {
    var o := ra % 4096;
    Fields(ra / 4096, o);
    Fields(nia / 4096, o);
    assert ra == 4096 * (ra / 4096) + o && nia == 4096 * (nia / 4096) + o;
    Offset(o);
    hide IndexOf, RowInLine, TagOf;
  }

  /** A row of a valid line, or a flagged row of the line in refill, is the memory row of its tag. */
  lemma {:induction false} RowAgrees(mem: Memory, s: State, g: Ghost, w: nat, x: nat, k: nat)
    requires Shaped(s) && LinesOk(mem, s) && ReloadOk(mem, s, g) && w < NUM_WAYS && x < NUM_LINES && k < R.ROWS
    requires w in s.arr.valid[x] ||
             (s.core.state == WAIT_ACK && x == s.core.storeIndex && k in s.core.f.rows && w == s.core.storeWay)
    ensures s.arr.ram[w][x * R.ROWS + k] == mem(RowNum(s.arr.tags[x][w], x, k))
  {
    if w in s.arr.valid[x] {
      assert LineOk(mem, s.arr, x, w);
    }
  }

  /** A hit reads the memory row of the translated address, on a loaded row of a line in refill too. */
  lemma {:induction false} HitReadsMemory(mem: Memory, s: State, g: Ghost, i: Input, w: nat)
    requires Inv(mem, s, g) && w < NUM_WAYS && WayHit(s, i, w)
    ensures s.arr.ram[w][ReqRow(i)] == mem(RealAddr(s.tlb, i.virt, i.nia) / 8)
  {
    hide HashEa, RealAddr, TagOf, IndexOf, RowInLine, RowNum, LinesOk, ReloadOk, Unique, HitOk;
    RowNumOf(RealAddr(s.tlb, i.virt, i.nia), i.nia);
    RowAgrees(mem, s, g, w, IndexOf(i.nia), RowInLine(i.nia));
  }

  lemma {:induction false} HitKeeps(mem: Memory, s: State, g: Ghost, i: Input)
    requires Inv(mem, s, g) && EnvOk(mem, s, g, i)
    ensures HitOk(mem, Step(s, i), NextGhost(s, g, i))
  {
    if !i.stall && UsePrevious(s, i) {
      SameRow(g.hitRa, s.hit.nia);
    } else if !i.stall && ReqIsHit(s, i) {
      HitReadsMemory(mem, s, g, i, HitWay(s, i, NUM_WAYS));
    }
    hide HashEa, TagOf, IndexOf, RowInLine, AccessOk, WayHit, LinesOk, Unique, ReloadOk;
  }

  /** The next instruction in the upper half of the same row. */
  lemma SameRow(ra: nat, nia: nat)
    requires ra % 4096 == nia % 4096 && ((nia + 4) / 4) % 2 != 0
    ensures (ra + 4) / 8 == ra / 8 && (ra + 4) % 4096 == (nia + 4) % 4096
  {
    LowHalf(nia);
    var o := ra % 4096;
    assert nia == 4096 * (nia / 4096) + o && ra == 4096 * (ra / 4096) + o;
    NextInPage(nia / 4096, o);
    NextInPage(ra / 4096, o);
  }

  lemma NextInPage(p: nat, o: nat)
    requires o < 4096
    ensures (4096 * p + o) % 8 < 4 ==> (4096 * p + o + 4) / 8 == (4096 * p + o) / 8
    ensures (4096 * p + o) % 8 < 4 ==> (4096 * p + o + 4) % 4096 == o + 4
    ensures (4096 * p + o) % 8 == o % 8
  {
    var m, t := o / 8, o % 8;
    assert 4096 * p + o == 8 * (512 * p + m) + t;
    By8(512 * p + m, t);
    if t < 4 {
      By8(512 * p + m, t + 4);
      InPage(p, o + 4);
    }
  }

  lemma LowHalf(nia: nat)
    requires ((nia + 4) / 4) % 2 != 0
    ensures nia % 8 < 4
  {
    var m, t := nia / 8, nia % 8;
    assert nia == 8 * m + t;
    if t >= 4 {
      EvenWord(m, t - 4);
    }
  }

  lemma EvenWord(m: nat, t: nat)
    requires t < 4
    ensures ((8 * m + t + 8) / 4) % 2 == 0
  {
    assert (8 * m + t + 8) / 4 == 2 * (m + 1);
  }

  /** Which ways of a set are valid after a cycle: never the one being replaced, except that completing the
      refill turns it on. */
  lemma {:induction false} ValidAfter(mem: Memory, s: State, g: Ghost, i: Input, x: nat, w: nat)
    requires Shaped(s) && ReloadOk(mem, s, g) && EnvOk(mem, s, g, i) && x < NUM_LINES && w < NUM_WAYS
    requires w in ValidNext(s, i)[x]
    ensures s.core.state != IDLE && x == s.core.storeIndex && w == ReplaceWay(s, i) ==> Completes(s.core, i)
    ensures w in s.arr.valid[x] || (Completes(s.core, i) && x == s.core.storeIndex && w == ReplaceWay(s, i))
  {
    hide R.Inv, R.MayAck, R.AckRow, R.Completes, IndexOf;
  }

  /** An acknowledged word is the memory word of the row it is stored to. */
  lemma {:induction false} AckData(mem: Memory, s: State, g: Ghost, i: Input)
    requires Shaped(s) && ReloadOk(mem, s, g) && EnvOk(mem, s, g, i) && i.ack
    ensures s.core.state != IDLE && i.dat == mem(RowNum(s.core.storeTag, s.core.storeIndex, s.core.f.store))
    ensures StoreRow(s.core) == s.core.storeIndex * R.ROWS + s.core.f.store
  {
    R.StepKeeps(s.core.f, g.bus, g.first, i.wbStall, true);
    assert s.core.line % NUM_LINES == s.core.storeIndex;
    hide R.Inv, R.MayAck, R.AckRow, R.Completes, R.NextBus, R.Step;
  }

  /** The line RAM after a cycle: an acknowledged row gets its memory word, nothing else changes. */
  lemma {:induction false} RamAfter(mem: Memory, s: State, g: Ghost, i: Input, w: nat, x: nat, k: nat)
    requires Shaped(s) && ReloadOk(mem, s, g) && EnvOk(mem, s, g, i) && x < NUM_LINES && w < NUM_WAYS && k < R.ROWS
    ensures RamNext(s, i)[w][x * R.ROWS + k] ==
            if i.ack && w == ReplaceWay(s, i) && x == s.core.storeIndex && k == s.core.f.store
            then mem(RowNum(s.core.storeTag, x, k)) else s.arr.ram[w][x * R.ROWS + k]
  {
    if i.ack {
      AckData(mem, s, g, i);
    }
    hide R.Inv, StoreRow, RowNum, ReloadOk, EnvOk;
  }

  /** A refill never completes in the cycle that clears the tag. */
  lemma {:induction false} NotYet(mem: Memory, s: State, g: Ghost, i: Input)
    requires Shaped(s) && ReloadOk(mem, s, g) && EnvOk(mem, s, g, i) && s.core.state == CLR_TAG
    ensures !Completes(s.core, i)
  {
    R.StepKeeps(s.core.f, g.bus, g.first, i.wbStall, i.ack);
    assert R.Place(g.first, g.first) == 0;
    assert g.first !in s.core.f.rows;
    assert g.bus.acked == 0;
  }

  /** A refilled line agrees with memory in every row once the refill completes. */
  lemma {:induction false} LineLoaded(mem: Memory, s: State, g: Ghost, i: Input)
    requires Shaped(s) && ReloadOk(mem, s, g) && EnvOk(mem, s, g, i) && Completes(s.core, i)
    ensures s.core.state == WAIT_ACK
    ensures LineOk(mem, Step(s, i).arr, s.core.storeIndex, s.core.storeWay)
  {
    if s.core.state == CLR_TAG {
      NotYet(mem, s, g, i);
    }
    R.StepKeeps(s.core.f, g.bus, g.first, i.wbStall, i.ack);
    forall k: nat | k < R.ROWS
      ensures RamNext(s, i)[s.core.storeWay][s.core.storeIndex * R.ROWS + k] ==
              mem(RowNum(s.core.storeTag, s.core.storeIndex, k))
    {
      RamAfter(mem, s, g, i, s.core.storeWay, s.core.storeIndex, k);
      assert k in R.Step(s.core.f, i.wbStall, i.ack).rows;
    }
  }

  /** Lines that stay valid are not touched. */
  lemma {:induction false} LineUntouched(mem: Memory, s: State, g: Ghost, i: Input, x: nat, w: nat)
    requires Shaped(s) && ReloadOk(mem, s, g) && EnvOk(mem, s, g, i) && x < NUM_LINES && w < NUM_WAYS
    requires LineOk(mem, s.arr, x, w) && (s.core.state != IDLE ==> x != s.core.storeIndex || w != ReplaceWay(s, i))
    ensures LineOk(mem, Step(s, i).arr, x, w) && Step(s, i).arr.tags[x][w] == s.arr.tags[x][w]
  {
    forall k: nat | k < R.ROWS
      ensures RamNext(s, i)[w][x * R.ROWS + k] == mem(RowNum(s.arr.tags[x][w], x, k))
    {
      RamAfter(mem, s, g, i, w, x, k);
    }
  }

  lemma {:induction false} LinesKeep(mem: Memory, s: State, g: Ghost, i: Input)
    requires Shaped(s) && LinesOk(mem, s) && ReloadOk(mem, s, g) && EnvOk(mem, s, g, i)
    ensures LinesOk(mem, Step(s, i))
  {
    forall x: nat, w: nat | x < NUM_LINES && w in ValidNext(s, i)[x]
      ensures w < NUM_WAYS && LineOk(mem, Step(s, i).arr, x, w)
    {
      assert w < NUM_WAYS;
      ValidAfter(mem, s, g, i, x, w);
      if Completes(s.core, i) && x == s.core.storeIndex && w == ReplaceWay(s, i) {
        LineLoaded(mem, s, g, i);
      } else {
        LineUntouched(mem, s, g, i, x, w);
      }
    }
  }

  /** Invalidating, clearing and refilling leave at most one valid way a tag. */
  lemma {:induction false} UniqueKeep(mem: Memory, s: State, g: Ghost, i: Input)
    requires Shaped(s) && LinesOk(mem, s) && Unique(s) && ReloadOk(mem, s, g) && EnvOk(mem, s, g, i)
    ensures Unique(Step(s, i))
  {
    var t := Step(s, i);
    forall x: nat, v: nat, w: nat |
        x < NUM_LINES && v in t.arr.valid[x] && w in t.arr.valid[x] && v < NUM_WAYS && w < NUM_WAYS && v != w
      ensures t.arr.tags[x][v] != t.arr.tags[x][w]
    {
      ValidAfter(mem, s, g, i, x, v);
      ValidAfter(mem, s, g, i, x, w);
      if Completes(s.core, i) {
        LineLoaded(mem, s, g, i);
      }
    }
  }

  /** A miss starts a refill of a line that no way of its set holds. */
  lemma {:induction false} MissKeeps(mem: Memory, s: State, g: Ghost, i: Input)
    requires Shaped(s) && ReloadOk(mem, s, g) && EnvOk(mem, s, g, i) && s.core.state == IDLE
    ensures ReloadOk(mem, Step(s, i), NextGhost(s, g, i))
  {
    var t := Step(s, i);
    if ReqIsMiss(s, i) {
      var ra, x := RealAddr(s.tlb, i.virt, i.nia), IndexOf(i.nia);
      R.StartOk(RowInLine(ra));
      RowNumOf(ra, i.nia);
      forall w: nat | w in t.arr.valid[x] && w < NUM_WAYS
        ensures t.arr.tags[x][w] != TagOf(ra)
      {
        assert w in s.arr.valid[x];
        assert !WayHit(s, i, w);
      }
    }
  }

  lemma {:induction false} CoreKeeps(mem: Memory, s: State, g: Ghost, i: Input)
    requires Shaped(s) && ReloadOk(mem, s, g) && EnvOk(mem, s, g, i) && s.core.state != IDLE
    ensures CoreOk(Step(s, i), NextGhost(s, g, i))
  {
    R.StepKeeps(s.core.f, g.bus, g.first, i.wbStall, i.ack);
    hide R.Inv, R.AckRow, R.Completes, R.NextBus, R.Step, HitNext, TlbNext, RealAddr, ValidNext, RamNext, HitWay;
  }

  lemma {:induction false} NoTwinKeeps(mem: Memory, s: State, g: Ghost, i: Input)
    requires Shaped(s) && ReloadOk(mem, s, g) && EnvOk(mem, s, g, i) && s.core.state != IDLE
    ensures NoTwin(Step(s, i))
  {
    var t, x := Step(s, i), s.core.storeIndex;
    if !Completes(s.core, i) {
      forall w: nat | w in t.arr.valid[x] && w < NUM_WAYS
        ensures w != ReplaceWay(s, i) && t.arr.tags[x][w] != s.core.storeTag
      {
        ValidAfter(mem, s, g, i, x, w);
      }
    }
    hide ValidNext, RamNext, HitNext, TlbNext, EnvOk, ReloadOk, R.Step;
  }

  /** Rows flagged are rows loaded, the one acknowledged in this cycle included. */
  lemma {:induction false} RowsKeep(mem: Memory, s: State, g: Ghost, i: Input)
    requires Shaped(s) && ReloadOk(mem, s, g) && EnvOk(mem, s, g, i) && s.core.state != IDLE
    ensures RowsLoaded(mem, Step(s, i))
  {
    var t, x, v := Step(s, i), s.core.storeIndex, ReplaceWay(s, i);
    forall k: nat | t.core.state == WAIT_ACK && k in t.core.f.rows && k < R.ROWS
      ensures t.arr.ram[v][x * R.ROWS + k] == mem(RowNum(s.core.storeTag, x, k))
    {
      RamAfter(mem, s, g, i, v, x, k);
    }
    hide RamNext, ValidNext, HitNext, TlbNext, EnvOk, RowNum, R.Inv;
  }

  lemma {:induction false} RefillKeeps(mem: Memory, s: State, g: Ghost, i: Input)
    requires Shaped(s) && ReloadOk(mem, s, g) && EnvOk(mem, s, g, i) && s.core.state != IDLE
    ensures ReloadOk(mem, Step(s, i), NextGhost(s, g, i))
  {
    CoreKeeps(mem, s, g, i);
    NoTwinKeeps(mem, s, g, i);
    RowsKeep(mem, s, g, i);
    hide Step, NextGhost, CoreOk, NoTwin, RowsLoaded;
  }

  /** Every clock keeps the invariant, in any environment. */
  lemma {:induction false} StepKeeps(mem: Memory, s: State, g: Ghost, i: Input)
    requires Inv(mem, s, g) && EnvOk(mem, s, g, i)
    ensures Inv(mem, Step(s, i), NextGhost(s, g, i))
  {
    HitKeeps(mem, s, g, i);
    LinesKeep(mem, s, g, i);
    UniqueKeep(mem, s, g, i);
    if s.core.state == IDLE {
      MissKeeps(mem, s, g, i);
    } else {
      RefillKeeps(mem, s, g, i);
    }
    hide LinesOk, Unique, ReloadOk, HitOk, EnvOk, NextGhost;
  }
}
