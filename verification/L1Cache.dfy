/** The one- or two-way level-one cache: hit test, line refill, eviction, flush and bus errors. */
module L1Cache {

  datatype Config = Config(nways: nat, nlines: nat, nwords: nat)

  predicate ConfigOk(c: Config) {
    (c.nways == 1 || c.nways == 2) && c.nlines > 0 && (c.nwords == 4 || c.nwords == 8 || c.nwords == 16)
  }

  datatype Addr = Addr(tag: nat, line: nat, offset: nat)

  datatype Way = Way(valid: set<nat>, tags: seq<nat>, data: seq<seq<nat>>)

  /** FSM state, the bus request, the last offset of the burst and the way next to be replaced. */
  datatype Core = Core(refill: bool, busRe: bool, busAddr: Addr, lastOffs: nat, lru: nat)

  /** A pipeline stage: address, read enable, valid. */
  datatype Stage = Stage(addr: Addr, re: bool, valid: bool)

  /** `rp`: line address latched by the read ports. `s2` is the second pipeline stage. */
  datatype State = State(core: Core, ways: seq<Way>, s2: Stage, rp: nat)

  datatype Input = Input(s1: Stage, stall: bool, flush: bool, evict: bool, busValid: bool, busError: bool, rdata: nat)

  predicate InRange(c: Config, a: Addr) { a.line < c.nlines && a.offset < c.nwords }

  predicate WayShaped(c: Config, w: Way) {
    && |w.tags| == |w.data| == c.nlines && (forall l :: 0 <= l < c.nlines ==> |w.data[l]| == c.nwords)
    && (forall l :: l in w.valid ==> l < c.nlines)
  }

  predicate Shaped(c: Config, s: State) {
    && ConfigOk(c) && |s.ways| == c.nways && (forall w :: 0 <= w < c.nways ==> WayShaped(c, s.ways[w]))
    && InRange(c, s.core.busAddr) && s.core.lastOffs < c.nwords && s.core.lru < c.nways
    && InRange(c, s.s2.addr) && s.rp < c.nlines
  }

  function NextOffset(c: Config, o: nat): nat { if o + 1 == c.nwords then 0 else o + 1 }

  function PrevOffset(c: Config, o: nat): nat
    requires c.nwords > 0
  {
    if o == 0 then c.nwords - 1 else o - 1
  }

  predicate WayHit(c: Config, s: State, w: nat)
    requires Shaped(c, s) && w < c.nways
  {
    s.ways[w].tags[s.rp] == s.s2.addr.tag && s.s2.addr.line in s.ways[w].valid
  }

  /** The encoder answers only if exactly one way hits. */
  predicate OnlyHit(c: Config, s: State, w: nat)
    requires Shaped(c, s) && w < c.nways
  {
    WayHit(c, s, w) && forall v :: 0 <= v < c.nways && v != w ==> !WayHit(c, s, v)
  }

  predicate Miss(c: Config, s: State)
    requires Shaped(c, s)
  {
    forall w :: 0 <= w < c.nways ==> !OnlyHit(c, s, w)
  }

  function Rdata(c: Config, s: State, w: nat): nat
    requires Shaped(c, s) && w < c.nways
  {
    s.ways[w].data[s.rp][s.s2.addr.offset]
  }

  predicate BusLast(k: Core) { k.refill && k.busAddr.offset == k.lastOffs }

  function CoreNext(c: Config, s: State, i: Input): Core
    requires Shaped(c, s)
  {
    var k := s.core;
    var lru := if k.busRe && i.busValid && BusLast(k) && !i.busError && c.nways == 2 then 1 - k.lru else k.lru;
    if !k.refill then
      if s.s2.re && Miss(c, s) && s.s2.valid then Core(true, true, s.s2.addr, PrevOffset(c, s.s2.addr.offset), lru)
      else k.(lru := lru)
    else
      Core(k.busRe || i.stall,
           k.busRe && !((i.busValid && BusLast(k)) || i.busError),
           if i.busValid then k.busAddr.(offset := NextOffset(c, k.busAddr.offset)) else k.busAddr,
           k.lastOffs, lru)
  }

  function ValidNext(c: Config, s: State, i: Input, w: nat): set<nat>
    requires Shaped(c, s) && w < c.nways
  {
    var k, y := s.core, s.ways[w];
    var busRe := k.busRe && w == k.lru;
    if i.flush && i.s1.valid then {}
    else if busRe && i.busError then y.valid - {k.busAddr.line}
    else if busRe && i.busValid && BusLast(k) then y.valid + {k.busAddr.line}
    else if i.evict && s.s2.valid && y.tags[s.rp] == s.s2.addr.tag then y.valid - {s.s2.addr.line}
    else y.valid
  }

  function WayNext(c: Config, s: State, i: Input, w: nat): (y: Way)
    requires Shaped(c, s) && w < c.nways
    ensures WayShaped(c, y)
  {
    var k, y := s.core, s.ways[w];
    var busRe := k.busRe && w == k.lru;
    var line := k.busAddr.line;
    assert WayShaped(c, y);
    Way(ValidNext(c, s, i, w),
        if busRe && i.busValid && BusLast(k) then y.tags[line := k.busAddr.tag] else y.tags,
        if busRe && i.busValid then Store(y.data, line, k.busAddr.offset, i.rdata) else y.data)
  }

  function Store(data: seq<seq<nat>>, line: nat, offset: nat, word: nat): (d: seq<seq<nat>>)
    requires line < |data| && offset < |data[line]|
    ensures |d| == |data| && forall l :: 0 <= l < |d| ==> |d[l]| == |data[l]|
    ensures forall l, k :: 0 <= l < |d| && 0 <= k < |d[l]| ==>
      d[l][k] == if l == line && k == offset then word else data[l][k]
  {
    var row: seq<nat> := data[line][offset := word];
    data[line := row]
  }

  function Step(c: Config, s: State, i: Input): (t: State)
    requires Shaped(c, s) && InRange(c, i.s1.addr)
    ensures Shaped(c, t)
  {
    State(CoreNext(c, s, i), seq(c.nways, w requires 0 <= w < c.nways => WayNext(c, s, i, w)),
          if i.stall then s.s2 else i.s1, if i.stall then s.s2.addr.line else i.s1.addr.line)
  }

  function Reset(c: Config): (s: State)
    requires ConfigOk(c)
    ensures Shaped(c, s)
  {
    var zero := Addr(0, 0, 0);
    State(Core(false, false, zero, 0, 0),
          seq(c.nways, _ => Way({}, seq(c.nlines, _ => 0), seq(c.nlines, _ => seq(c.nwords, _ => 0)))),
          Stage(zero, false, false), 0)
  }
}

/** Agreement with a memory that is also written. */
module L1CacheProof {
  import opened L1Cache

  type Memory = Addr -> nat

  datatype Write = None | Write(addr: Addr, word: nat)

  function Written(mem: Memory, wr: Write): Memory {
    if wr.Write? then (a: Addr) => if a == wr.addr then wr.word else mem(a) else mem
  }

  /** The bus answers with memory; memory is written only while no refill is running, and the store evicts
      its line in that cycle. */
  predicate EnvOk(c: Config, mem: Memory, s: State, i: Input, wr: Write) {
    && InRange(c, i.s1.addr)
    && (s.core.busRe && i.busValid && !i.busError ==> i.rdata == mem(s.core.busAddr))
    && (wr.Write? ==> !s.core.busRe && i.evict && s.s2.valid && s.s2.addr == wr.addr)
  }

  /** Where an offset comes in the burst that ends at `last`. */
  function Place(c: Config, last: nat, k: int): int { if k > last then k - last - 1 else k + c.nwords - last - 1 }

  predicate LineOk(c: Config, mem: Memory, y: Way, l: nat)
    requires WayShaped(c, y) && l < c.nlines
  {
    forall k :: 0 <= k < c.nwords ==> y.data[l][k] == mem(Addr(y.tags[l], l, k))
  }

  predicate InRefill(s: State, w: nat, l: nat) { s.core.busRe && w == s.core.lru && l == s.core.busAddr.line }

  /** Every valid line but the one in refill holds the memory of its tag. */
  predicate LinesOk(c: Config, mem: Memory, s: State)
    requires Shaped(c, s)
  {
    forall w, l :: 0 <= w < c.nways && l in s.ways[w].valid && !InRefill(s, w, l) ==> LineOk(c, mem, s.ways[w], l)
  }

  /** No line is valid under one tag in two ways. */
  predicate Unique(c: Config, s: State)
    requires Shaped(c, s)
  {
    forall v, w, l :: 0 <= v < w < c.nways && l in s.ways[v].valid && l in s.ways[w].valid ==>
      s.ways[v].tags[l] != s.ways[w].tags[l]
  }

  /** A refill runs towards a line that no way holds, and has loaded the offsets before the current one. */
  predicate RefillOk(c: Config, mem: Memory, s: State)
    requires Shaped(c, s)
  {
    var k := s.core;
    k.busRe ==>
      && k.refill
      && (forall w :: 0 <= w < c.nways && k.busAddr.line in s.ways[w].valid ==>
            s.ways[w].tags[k.busAddr.line] != k.busAddr.tag)
      && (forall o :: 0 <= o < c.nwords && Place(c, k.lastOffs, o) < Place(c, k.lastOffs, k.busAddr.offset) ==>
            s.ways[k.lru].data[k.busAddr.line][o] == mem(k.busAddr.(offset := o)))
  }

  predicate Inv(c: Config, mem: Memory, s: State) {
    Shaped(c, s) && s.rp == s.s2.addr.line && LinesOk(c, mem, s) && Unique(c, s) && RefillOk(c, mem, s)
  }

  lemma {:induction false} ResetOk(c: Config, mem: Memory)
    requires ConfigOk(c)
    ensures Inv(c, mem, Reset(c))
  {
  }

  /** A line valid after the cycle was valid before, unless its refill has just completed; then it is loaded. */
  lemma {:induction false} Completed(c: Config, mem: Memory, s: State, i: Input, wr: Write, w: nat)
    requires Inv(c, mem, s) && EnvOk(c, mem, s, i, wr) && w < c.nways
    requires InRefill(s, w, s.core.busAddr.line) && !CoreNext(c, s, i).busRe
    requires s.core.busAddr.line in ValidNext(c, s, i, w)
    ensures LineOk(c, mem, WayNext(c, s, i, w), s.core.busAddr.line)
    ensures WayNext(c, s, i, w).tags[s.core.busAddr.line] == s.core.busAddr.tag
  {
    var k := s.core;
    forall o: nat | o < c.nwords
      ensures WayNext(c, s, i, w).data[k.busAddr.line][o] == mem(k.busAddr.(offset := o))
    {
      assert o != k.busAddr.offset ==> Place(c, k.lastOffs, o) < Place(c, k.lastOffs, k.busAddr.offset);
    }
  }

  /** A line not in refill keeps its words; if memory changes under it, it is evicted. */
  lemma {:induction false} Untouched(c: Config, mem: Memory, s: State, i: Input, wr: Write, w: nat, l: nat)
    requires Inv(c, mem, s) && EnvOk(c, mem, s, i, wr) && w < c.nways
    requires l in ValidNext(c, s, i, w) && !InRefill(s, w, l)
    ensures l in s.ways[w].valid && LineOk(c, Written(mem, wr), WayNext(c, s, i, w), l)
    ensures WayNext(c, s, i, w).tags[l] == s.ways[w].tags[l]
  {
    assert LineOk(c, mem, s.ways[w], l);
    if wr.Write? && l == wr.addr.line {
      assert s.ways[w].tags[l] != wr.addr.tag;
    }
  }

  lemma {:induction false} LinesKeep(c: Config, mem: Memory, s: State, i: Input, wr: Write)
    requires Inv(c, mem, s) && EnvOk(c, mem, s, i, wr)
    ensures LinesOk(c, Written(mem, wr), Step(c, s, i))
  {
    var t := Step(c, s, i);
    forall w: nat, l: nat | w < c.nways && l in t.ways[w].valid && !InRefill(t, w, l)
      ensures LineOk(c, Written(mem, wr), t.ways[w], l)
    {
      if InRefill(s, w, l) {
        Completed(c, mem, s, i, wr, w);
      } else {
        Untouched(c, mem, s, i, wr, w, l);
      }
    }
  }

  lemma {:induction false} UniqueKeep(c: Config, mem: Memory, s: State, i: Input, wr: Write)
    requires Inv(c, mem, s) && EnvOk(c, mem, s, i, wr)
    ensures Unique(c, Step(c, s, i))
  {
    hide LinesOk, Miss, Store;
  }

  /** At most one way matches any address, so a miss means that no way holds it. */
  lemma {:induction false} MissMeansAbsent(c: Config, s: State, w: nat)
    requires Shaped(c, s) && s.rp == s.s2.addr.line && Unique(c, s) && Miss(c, s) && w < c.nways
    ensures !WayHit(c, s, w)
  {
    assert !OnlyHit(c, s, w);
  }

  /** The encoder misses, in any state, exactly if none or both of the ways hit. */
  lemma {:induction false} MissExactly(c: Config, s: State)
    requires Shaped(c, s)
    ensures c.nways == 1 ==> (Miss(c, s) <==> !WayHit(c, s, 0))
    ensures c.nways == 2 ==> (Miss(c, s) <==> WayHit(c, s, 0) == WayHit(c, s, 1))
  {
    assert OnlyHit(c, s, 0) <==> WayHit(c, s, 0) && (c.nways == 2 ==> !WayHit(c, s, 1));
    if c.nways == 2 {
      assert OnlyHit(c, s, 1) <==> WayHit(c, s, 1) && !WayHit(c, s, 0);
    }
    hide WayHit;
  }

  lemma {:induction false} RefillStarts(c: Config, mem: Memory, s: State, i: Input, wr: Write)
    requires Inv(c, mem, s) && EnvOk(c, mem, s, i, wr) && !s.core.busRe
    ensures RefillOk(c, Written(mem, wr), Step(c, s, i))
  {
    var t := Step(c, s, i);
    if t.core.busRe {
      forall w: nat | w < c.nways && t.core.busAddr.line in t.ways[w].valid
        ensures t.ways[w].tags[t.core.busAddr.line] != t.core.busAddr.tag
      {
        MissMeansAbsent(c, s, w);
      }
    }
    hide LinesOk, LineOk, Unique, Written, Miss;
  }

  lemma {:induction false} RefillGoesOn(c: Config, mem: Memory, s: State, i: Input, wr: Write)
    requires Inv(c, mem, s) && EnvOk(c, mem, s, i, wr) && s.core.busRe
    ensures RefillOk(c, Written(mem, wr), Step(c, s, i))
  {
    var k, t := s.core, Step(c, s, i);
    if t.core.busRe {
      forall w: nat | w < c.nways && k.busAddr.line in t.ways[w].valid
        ensures t.ways[w].tags[k.busAddr.line] != k.busAddr.tag
      {
        assert k.busAddr.line in s.ways[w].valid;
      }
      forall o: nat | o < c.nwords && Place(c, k.lastOffs, o) < Place(c, k.lastOffs, t.core.busAddr.offset)
        ensures t.ways[k.lru].data[k.busAddr.line][o] == mem(k.busAddr.(offset := o))
      {
        assert o != k.busAddr.offset ==> Place(c, k.lastOffs, o) < Place(c, k.lastOffs, k.busAddr.offset);
      }
    }
    hide LinesOk, LineOk, Unique;
  }

  /** One clock, with or without a memory write. */
  lemma {:induction false} StepKeeps(c: Config, mem: Memory, s: State, i: Input, wr: Write)
    requires Inv(c, mem, s) && EnvOk(c, mem, s, i, wr)
    ensures Inv(c, Written(mem, wr), Step(c, s, i))
  {
    LinesKeep(c, mem, s, i, wr);
    UniqueKeep(c, mem, s, i, wr);
    if s.core.busRe {
      RefillGoesOn(c, mem, s, i, wr);
    } else {
      RefillStarts(c, mem, s, i, wr);
    }
    hide LinesOk, Unique, RefillOk, Written;
  }

  /** A hit on any line but the one in refill reads memory. */
  lemma {:induction false} HitReadsMemory(c: Config, mem: Memory, s: State, w: nat)
    requires Inv(c, mem, s) && w < c.nways && WayHit(c, s, w)
    ensures !InRefill(s, w, s.s2.addr.line) ==> Rdata(c, s, w) == mem(s.s2.addr)
    ensures OnlyHit(c, s, w)
  {
    if !InRefill(s, w, s.s2.addr.line) {
      assert LineOk(c, mem, s.ways[w], s.s2.addr.line);
    }
  }

  /** The pipeline stalls on a miss until its refill is over; then it may move on, as it does after an error. */
  predicate Stalls(c: Config, s: State, i: Input)
    requires Shaped(c, s)
  {
    s.s2.re && Miss(c, s) && s.s2.valid && (s.core.busRe || !s.core.refill) ==> i.stall
  }

  /** The pipeline stalls on every miss, whatever came of its refill. */
  predicate AlwaysStalls(c: Config, s: State, i: Input)
    requires Shaped(c, s)
  {
    s.s2.re && Miss(c, s) && s.s2.valid ==> i.stall
  }

  /** Stage two waits for the refill it caused. */
  predicate Waits(s: State) {
    s.core.busRe ==> s.s2.re && s.s2.valid && s.s2.addr.(offset := 0) == s.core.busAddr.(offset := 0)
  }

  lemma {:induction false} WaitsKeep(c: Config, mem: Memory, s: State, i: Input, wr: Write)
    requires Inv(c, mem, s) && EnvOk(c, mem, s, i, wr) && Waits(s) && Stalls(c, s, i)
    ensures Waits(Step(c, s, i))
    ensures s.core.busRe ==> Miss(c, s)
  {
    hide LinesOk, LineOk, Unique, WayNext;
  }

  /** Then no hit is ever on a line half replaced. */
  lemma {:induction false} EveryHitReadsMemory(c: Config, mem: Memory, s: State, w: nat)
    requires Inv(c, mem, s) && Waits(s) && w < c.nways && WayHit(c, s, w)
    ensures Rdata(c, s, w) == mem(s.s2.addr)
  {
    HitReadsMemory(c, mem, s, w);
    hide LinesOk, Unique;
  }

  /** A burst ends with the last word or an error. A good one leaves the whole line in exactly one way; an
      erroneous one leaves no way holding the line asked for, and the way it was to replace empty there. Of two ways
      the other is next to be replaced after a good one, and after nothing else. */
  lemma {:induction false} BurstEnds(c: Config, mem: Memory, s: State, i: Input, wr: Write)
    requires Inv(c, mem, s) && EnvOk(c, mem, s, i, wr) && s.core.busRe
    ensures var k, t := s.core, Step(c, s, i);
      && (t.core.busRe <==> !i.busError && !(i.busValid && Place(c, k.lastOffs, k.busAddr.offset) == c.nwords - 1))
      && (i.busError ==>
            k.busAddr.line !in t.ways[k.lru].valid
            && forall w :: 0 <= w < c.nways && k.busAddr.line in t.ways[w].valid ==>
                 t.ways[w].tags[k.busAddr.line] != k.busAddr.tag)
      && (!t.core.busRe && !i.busError && !(i.flush && i.s1.valid) ==>
            k.busAddr.line in t.ways[k.lru].valid && t.ways[k.lru].tags[k.busAddr.line] == k.busAddr.tag
            && LineOk(c, mem, t.ways[k.lru], k.busAddr.line))
      && (c.nways == 2 ==> (t.core.lru != k.lru <==> !t.core.busRe && !i.busError))
  {
    if !CoreNext(c, s, i).busRe && !i.busError && !(i.flush && i.s1.valid) {
      Completed(c, mem, s, i, wr, s.core.lru);
    }
    hide LinesOk, LineOk, Unique;
  }

  /** The refill is over but the line is not there: the state machine waits for the pipeline to move, and a
      pipeline that stalls on a miss waits for the line. */
  predicate Stuck(c: Config, s: State)
    requires Shaped(c, s)
  {
    s.core.refill && !s.core.busRe && s.s2.re && s.s2.valid && Miss(c, s)
  }

  /** A pipeline that stalls on every miss is stuck at the end of a burst if and only if the burst failed or the cache
      was flushed in that cycle, */
  lemma {:induction false} SticksExactly(c: Config, mem: Memory, s: State, i: Input, wr: Write)
    requires Inv(c, mem, s) && EnvOk(c, mem, s, i, wr) && Waits(s) && Stalls(c, s, i)
    requires s.core.busRe && !Step(c, s, i).core.busRe
    ensures Stuck(c, Step(c, s, i)) <==> i.busError || (i.flush && i.s1.valid)
  {
    WaitsKeep(c, mem, s, i, wr);
    BurstEnds(c, mem, s, i, wr);
    StepKeeps(c, mem, s, i, wr);
    var t := Step(c, s, i);
    if !(i.busError || (i.flush && i.s1.valid)) {
      HitReadsMemory(c, Written(mem, wr), t, s.core.lru);
    }
    hide LinesOk, LineOk, Unique, RefillOk, WayNext;
  }

  /** and is so exactly until the pipeline moves, when the state machine leaves the refill. */
  lemma {:induction false} StuckStays(c: Config, mem: Memory, s: State, i: Input, wr: Write)
    requires Inv(c, mem, s) && EnvOk(c, mem, s, i, wr) && Stuck(c, s)
    ensures Stuck(c, Step(c, s, i)) <==> i.stall
    ensures Step(c, s, i).core.refill <==> i.stall
  {
    var t := Step(c, s, i);
    if i.stall {
      forall w: nat | w < c.nways
        ensures !WayHit(c, t, w)
      {
        MissMeansAbsent(c, s, w);
      }
    }
    hide LinesOk, LineOk, Unique, RefillOk;
  }

  /** A valid read of a word that no way holds, and nothing else, starts a burst when none runs; every word
      received is the next one in wrapping order, starting with the word missed. */
  lemma {:induction false} WordsInOrder(c: Config, mem: Memory, s: State, i: Input, wr: Write)
    requires Inv(c, mem, s) && EnvOk(c, mem, s, i, wr)
    ensures var k, t := s.core, Step(c, s, i).core;
      && (!k.refill ==> (t.busRe <==> s.s2.re && s.s2.valid && forall w :: 0 <= w < c.nways ==> !WayHit(c, s, w)))
      && (!k.refill && t.busRe ==> t.busAddr == s.s2.addr && Place(c, t.lastOffs, t.busAddr.offset) == 0)
      && (k.busRe && t.busRe ==>
            (t.lastOffs == k.lastOffs && t.busAddr.(offset := 0) == k.busAddr.(offset := 0)
             && Place(c, t.lastOffs, t.busAddr.offset) ==
                Place(c, k.lastOffs, k.busAddr.offset) + (if i.busValid then 1 else 0)))
  {
    if Miss(c, s) {
      forall w: nat | w < c.nways
        ensures !WayHit(c, s, w)
      {
        MissMeansAbsent(c, s, w);
      }
    }
    hide LinesOk, LineOk, Unique;
  }

  /** A flush empties every way, whatever else the cycle does. */
  lemma {:induction false} FlushEmpties(c: Config, s: State, i: Input, w: nat)
    requires Shaped(c, s) && InRange(c, i.s1.addr) && w < c.nways && i.flush && i.s1.valid
    ensures Step(c, s, i).ways[w].valid == {}
  {
  }

  /** An eviction removes the address from a way exactly unless, in that cycle, a refill of another line
      ends in error, or any refill of that way ends well. */
  lemma {:induction false} EvictsUnless(c: Config, mem: Memory, s: State, i: Input, w: nat)
    requires Inv(c, mem, s) && w < c.nways && WayHit(c, s, w) && i.evict && s.s2.valid && InRange(c, i.s1.addr)
    ensures var k := s.core;
      var ends := k.busRe && w == k.lru && !(i.flush && i.s1.valid) &&
        (if i.busError then k.busAddr.line != s.s2.addr.line else i.busValid && BusLast(k));
      s.s2.addr.line in Step(c, s, i).ways[w].valid <==> ends
  {
    hide LinesOk, Unique, RefillOk;
  }

  datatype Cycle = Cycle(i: Input, wr: Write)

  /** The cache and the memory after the given cycles. */
  ghost function Run(c: Config, mem: Memory, cs: seq<Cycle>): (r: (State, Memory))
    requires ConfigOk(c) && forall t :: 0 <= t < |cs| ==> InRange(c, cs[t].i.s1.addr)
    ensures Shaped(c, r.0)
  {
    if |cs| == 0 then (Reset(c), mem)
    else
      var n := |cs| - 1;
      var r := Run(c, mem, cs[..n]);
      (Step(c, r.0, cs[n].i), Written(r.1, cs[n].wr))
  }

  ghost predicate RunOk(c: Config, mem: Memory, cs: seq<Cycle>)
    requires ConfigOk(c) && forall t :: 0 <= t < |cs| ==> InRange(c, cs[t].i.s1.addr)
  {
    |cs| == 0 ||
    var n := |cs| - 1;
    var r := Run(c, mem, cs[..n]);
    RunOk(c, mem, cs[..n]) && EnvOk(c, r.1, r.0, cs[n].i, cs[n].wr) && Stalls(c, r.0, cs[n].i)
  }

  /** Over every run in which the pipeline stalls on a miss while its refill runs, with bus errors, flushes and any
      memory writes outside refills: every hit reads what memory holds now, and outside a refill every valid line is
      memory's. */
  lemma {:induction false} AgreesWithMemory(c: Config, mem: Memory, cs: seq<Cycle>)
    requires ConfigOk(c) && (forall t :: 0 <= t < |cs| ==> InRange(c, cs[t].i.s1.addr)) && RunOk(c, mem, cs)
    ensures var r := Run(c, mem, cs);
      && Inv(c, r.1, r.0) && Waits(r.0)
      && (forall w :: 0 <= w < c.nways && WayHit(c, r.0, w) ==>
            OnlyHit(c, r.0, w) && Rdata(c, r.0, w) == r.1(r.0.s2.addr))
  {
    hide Inv, Waits, Step, EnvOk, Stalls, Written, Reset, WayHit, OnlyHit, Rdata;
    if |cs| == 0 {
      Start(c, mem);
    } else {
      var n := |cs| - 1;
      AgreesWithMemory(c, mem, cs[..n]);
      var r := Run(c, mem, cs[..n]);
      StepKeeps(c, r.1, r.0, cs[n].i, cs[n].wr);
      WaitsKeep(c, r.1, r.0, cs[n].i, cs[n].wr);
    }
    var r := Run(c, mem, cs);
    forall w: nat | w < c.nways && WayHit(c, r.0, w)
      ensures OnlyHit(c, r.0, w) && Rdata(c, r.0, w) == r.1(r.0.s2.addr)
    {
      HitReadsMemory(c, r.1, r.0, w);
      EveryHitReadsMemory(c, r.1, r.0, w);
    }
  }

  /** The cache and the memory some cycles on. */
  ghost function Onward(c: Config, mem: Memory, s: State, cs: seq<Cycle>): (r: (State, Memory))
    requires Shaped(c, s) && forall t :: 0 <= t < |cs| ==> InRange(c, cs[t].i.s1.addr)
    ensures Shaped(c, r.0)
  {
    if |cs| == 0 then (s, mem)
    else
      var n := |cs| - 1;
      var r := Onward(c, mem, s, cs[..n]);
      (Step(c, r.0, cs[n].i), Written(r.1, cs[n].wr))
  }

  /** In these cycles the pipeline stalls on every miss. */
  ghost predicate StallsOn(c: Config, mem: Memory, s: State, cs: seq<Cycle>)
    requires Shaped(c, s) && forall t :: 0 <= t < |cs| ==> InRange(c, cs[t].i.s1.addr)
  {
    |cs| == 0 ||
    var n := |cs| - 1;
    var r := Onward(c, mem, s, cs[..n]);
    StallsOn(c, mem, s, cs[..n]) && EnvOk(c, r.1, r.0, cs[n].i, cs[n].wr) && AlwaysStalls(c, r.0, cs[n].i)
  }

  /** With a pipeline that stalls on every miss it is stuck for good, over any run. */
  lemma {:induction false} StuckForGood(c: Config, mem: Memory, s: State, cs: seq<Cycle>)
    requires Inv(c, mem, s) && Stuck(c, s) && forall t :: 0 <= t < |cs| ==> InRange(c, cs[t].i.s1.addr)
    requires StallsOn(c, mem, s, cs)
    ensures var r := Onward(c, mem, s, cs); Inv(c, r.1, r.0) && Stuck(c, r.0)
  {
    assert Shaped(c, s);
    hide Inv, Step, EnvOk, Written, Miss;
    if |cs| > 0 {
      var n := |cs| - 1;
      StuckForGood(c, mem, s, cs[..n]);
      var r := Onward(c, mem, s, cs[..n]);
      StepKeeps(c, r.1, r.0, cs[n].i, cs[n].wr);
      StuckStays(c, r.1, r.0, cs[n].i, cs[n].wr);
    }
  }

  lemma {:induction false} Start(c: Config, mem: Memory)
    requires ConfigOk(c)
    ensures Inv(c, mem, Reset(c)) && Waits(Reset(c))
  {
    ResetOk(c, mem);
  }
}

/** The cache with its registers and memories updated in place. */
module L1CacheHardware {
  import opened L1Cache

  class Cache {
    const c: Config
    var core: Core
    const validLines: array<set<nat>>
    const tagMem: array<seq<nat>>
    const dataMem: array<seq<seq<nat>>>
    var s2: Stage
    var rp: nat

    ghost predicate Valid()
      reads this, validLines, tagMem, dataMem
    {
      validLines.Length == tagMem.Length == dataMem.Length == c.nways && Shaped(c, Snapshot())
    }

    function WayAt(w: nat): Way
      requires w < validLines.Length && w < tagMem.Length && w < dataMem.Length
      reads validLines, tagMem, dataMem
    {
      Way(validLines[w], tagMem[w], dataMem[w])
    }

    function Snapshot(): State
      requires validLines.Length == tagMem.Length == dataMem.Length == c.nways
      reads this, validLines, tagMem, dataMem
    {
      State(core, seq(c.nways, w requires 0 <= w < c.nways reads this, validLines, tagMem, dataMem => WayAt(w)), s2, rp)
    }

    constructor (c: Config)
      requires ConfigOk(c)
      ensures Valid() && this.c == c && Snapshot() == Reset(c)
      ensures fresh(validLines) && fresh(tagMem) && fresh(dataMem)
    {
      var z := Reset(c);
      this.c := c;
      core, s2, rp := z.core, z.s2, z.rp;
      validLines := new set<nat>[c.nways](_ => {});
      tagMem := new seq<nat>[c.nways](_ => seq(c.nlines, _ => 0));
      dataMem := new seq<seq<nat>>[c.nways](_ => seq(c.nlines, _ => seq(c.nwords, _ => 0)));
      new;
      assert forall w :: 0 <= w < c.nways ==> WayAt(w) == z.ways[w];
      assert Snapshot().ways == z.ways;
    }

    /** One clock. */
    method Clock(i: Input)
      requires Valid() && InRange(c, i.s1.addr)
      modifies this, validLines, tagMem, dataMem
      ensures Valid() && Snapshot() == Step(c, old(Snapshot()), i)
    {
      ghost var s := Snapshot();
      var k := CoreNext(c, Snapshot(), i);
      ClockWays(i);
      core := k;
      rp := if i.stall then s2.addr.line else i.s1.addr.line;
      s2 := if i.stall then s2 else i.s1;
      assert Snapshot().ways == Step(c, s, i).ways;
    }

    method ClockWays(i: Input)
      requires Valid()
      modifies validLines, tagMem, dataMem
      ensures forall w :: 0 <= w < c.nways ==> WayAt(w) == WayNext(c, old(Snapshot()), i, w)
    {
      ghost var s := Snapshot();
      hide Miss, CoreNext, Step, Reset, WayNext;
      for w := 0 to c.nways
        invariant forall v :: 0 <= v < w ==> WayAt(v) == WayNext(c, s, i, v)
        invariant forall v :: w <= v < c.nways ==> WayAt(v) == s.ways[v]
      {
        ClockWay(s, i, w);
      }
    }

    /** The valid bits, the tag and the data write port of one way. */
    method ClockWay(ghost s: State, i: Input, w: nat)
      requires Shaped(c, s) && s.core == core && s.s2 == s2 && s.rp == rp
      requires validLines.Length == tagMem.Length == dataMem.Length == c.nways && w < c.nways && WayAt(w) == s.ways[w]
      modifies validLines, tagMem, dataMem
      ensures WayAt(w) == WayNext(c, s, i, w) && forall v :: 0 <= v < c.nways && v != w ==> WayAt(v) == old(WayAt(v))
    {
      hide Miss, CoreNext, Step, Reset;
      var line := core.busAddr.line;
      var busRe := core.busRe && w == core.lru;
      assert WayShaped(c, s.ways[w]);
      if i.flush && i.s1.valid {
        validLines[w] := {};
      } else if busRe && i.busError {
        validLines[w] := validLines[w] - {line};
      } else if busRe && i.busValid && BusLast(core) {
        validLines[w] := validLines[w] + {line};
      } else if i.evict && s2.valid && tagMem[w][rp] == s2.addr.tag {
        validLines[w] := validLines[w] - {s2.addr.line};
      }
      if busRe && i.busValid {
        if BusLast(core) {
          tagMem[w] := tagMem[w][line := core.busAddr.tag];
        }
        dataMem[w] := Store(dataMem[w], line, core.busAddr.offset, i.rdata);
      }
    }
  }
}
