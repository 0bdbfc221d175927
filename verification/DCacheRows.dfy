/** The row memories of the data cache: what reloads, line clears and store hits put there. */
module DCacheRows {
  import opened ByteMemory
  import opened Words
  import C = CacheRams
  import D = DCache
  import R = Refill

  const NUM_LINES: nat := 16

  const NUM_WAYS: nat := 4

  const SIZE: nat := NUM_LINES * R.ROWS

  /** The request latched for the slow path: row and way of the memories, and what it stores. */
  datatype Req = Req(row: nat, way: nat, word: D.Word)

  /** The registers beside those of the bus, the memories and the valid ways of every set. */
  datatype State = State(bus: D.State, dcbz: bool, writeTag: bool, writeBram: bool, way: nat, index: nat, req: Req,
                         ram: seq<seq<nat>>, valid: seq<set<nat>>)

  /** The request with its set and the way it hits, the way to be replaced, the bus data. */
  datatype Input = Input(bus: D.Input, index: nat, hitWay: nat, victim: nat, dat: nat)

  function RowAt(index: nat, row: nat): nat { index * R.ROWS + row }

  predicate InputOk(i: Input) {
    i.bus.row < R.ROWS && i.index < NUM_LINES && i.hitWay < NUM_WAYS && i.victim < NUM_WAYS
  }

  predicate Shaped(s: State) {
    && |s.ram| == NUM_WAYS && (forall w :: 0 <= w < NUM_WAYS ==> |s.ram[w]| == SIZE) && |s.valid| == NUM_LINES
    && s.way < NUM_WAYS && s.index < NUM_LINES && s.req.row < SIZE && s.req.way < NUM_WAYS && s.bus.f.store < R.ROWS
  }

  /** The way a reload fills: chosen in its first cycle, kept from then on. */
  function ReplaceWay(s: State, i: Input): nat { if s.writeTag then i.victim else s.way }

  predicate Reloads(s: State, i: Input) { s.bus.stage.RELOAD_WAIT_ACK? && i.bus.ack }

  predicate Completes(s: State, i: Input) {
    s.bus.stage.RELOAD_WAIT_ACK? && R.Completes(s.bus.f, i.bus.stall, i.bus.ack)
  }

  /** The one write of a cycle: a store hit of the cycle before, or else the row acknowledged. */
  function WriteOf(s: State, i: Input): C.Write {
    if s.writeBram then C.Write(true, s.req.way, s.req.row, s.req.word.dat, s.req.word.sel)
    else
      C.Write(Reloads(s, i), ReplaceWay(s, i), RowAt(s.index, s.bus.f.store), if s.dcbz then 0 else i.dat, Ones(8))
  }

  /** A load of the tag and set in reload hits if its row is flagged, and then in the way being filled. */
  predicate HitsReload(s: State, i: Input) {
    s.bus.stage.RELOAD_WAIT_ACK? && i.index == s.index && i.bus.sameTag && i.bus.row in s.bus.f.rows
  }

  function RamNext(s: State, i: Input): (m: seq<seq<nat>>)
    requires Shaped(s)
    ensures |m| == NUM_WAYS && forall w :: 0 <= w < NUM_WAYS ==> m[w] == C.Written(s.ram[w], w, WriteOf(s, i))
  {
    seq(NUM_WAYS, w requires 0 <= w < NUM_WAYS && Shaped(s) => C.Written(s.ram[w], w, WriteOf(s, i)))
  }

  /** A request that is latched. */
  function ReqNext(s: State, i: Input): Req {
    if i.bus.op.OpNone? || i.bus.op.LoadHit? then s.req else Req(RowAt(i.index, i.bus.row), i.hitWay, i.bus.word)
  }

  function WayNext(s: State, i: Input): nat {
    if s.bus.stage.IDLE? && i.bus.op.StoreHit? then i.hitWay else ReplaceWay(s, i)
  }

  predicate TagNext(s: State, i: Input) {
    s.bus.stage.IDLE? && (i.bus.op.LoadMiss? || (i.bus.op.StoreMiss? && i.bus.dcbz))
  }

  /** A store hit writes its bytes once the bus has taken it. */
  predicate BramNext(s: State, i: Input) { i.bus.op.StoreHit? && D.TakesStore(s.bus, i.bus) }

  function ValidNext(s: State, i: Input): seq<set<nat>>
    requires Shaped(s)
  {
    if Completes(s, i) then s.valid[s.index := s.valid[s.index] + {s.way}] else s.valid
  }

  function Step(s: State, i: Input): (t: State)
    requires Shaped(s) && InputOk(i)
    ensures Shaped(t)
  {
    var idle := s.bus.stage.IDLE?;
    State(D.Step(s.bus, i.bus), if idle then i.bus.dcbz else s.dcbz, TagNext(s, i), BramNext(s, i), WayNext(s, i),
          if idle then i.index else s.index, ReqNext(s, i), RamNext(s, i), ValidNext(s, i))
  }

  function Reset(): (s: State)
    ensures Shaped(s)
  {
    State(D.RESET, false, false, false, 0, 0, Req(0, 0, D.Word(0, 0)), seq(NUM_WAYS, _ => seq(SIZE, _ => 0)),
          seq(NUM_LINES, _ => {}))
  }
}

/** A row flagged as loaded holds what memory holds, in reloads and in line clears. */
module DCacheRowsProof {
  import opened ByteMemory
  import opened ByteMemoryProof
  import opened CacheRams
  import opened DCacheRows
  import opened Words
  import D = DCache
  import P = DCacheProof
  import R = Refill

  /** Where a reload belongs: the set of its request, and the way the request hit, or else, once the first cycle is
      over, the victim of that cycle. */
  datatype Place = Place(index: nat, miss: bool, first: bool, way: nat)

  /** The account of the bus, the line of the bus cycle under way as memory holds it, and where it belongs. */
  datatype Ghost = Ghost(bus: P.Ghost, line: seq<nat>, at: Place)

  const START := Ghost(P.Ghost(R.Bus([], 0), 0, [], []), [0, 0, 0, 0, 0, 0, 0, 0], Place(0, false, false, 0))

  /** One clock, with the line of the request as memory holds it then. */
  datatype Cycle = Cycle(i: Input, line: seq<nat>)

  predicate LineOk(line: seq<nat>) { |line| == R.ROWS && forall r :: 0 <= r < R.ROWS ==> Fits64(line[r]) }

  predicate Clears(s: State, i: Input) {
    s.bus.stage.RELOAD_WAIT_ACK? && s.dcbz && s.bus.f.stb && !i.bus.stall
  }

  /** A line clear writes to memory, with every request the slave takes. */
  function LineNext(s: State, line: seq<nat>, c: Cycle): seq<nat> {
    if s.bus.stage.IDLE? then c.line
    else if Clears(s, c.i) && s.bus.f.req < |line| then
      line[s.bus.f.req := Lanes(line[s.bus.f.req], s.bus.word.dat, s.bus.word.sel, 8)]
    else line
  }

  /** A line clear comes with zero data and every byte selected, and is a store. */
  predicate RequestOk(i: D.Input) { i.dcbz ==> !i.op.LoadMiss? && i.word == D.Word(0, Ones(8)) }

  /** The slave is in order, and answers a read with what memory holds. */
  predicate EnvOk(s: State, g: Ghost, c: Cycle) {
    && InputOk(c.i) && RequestOk(c.i.bus) && P.EnvOk(s.bus, g.bus, c.i.bus) && LineOk(c.line)
    && (Reloads(s, c.i) && !s.dcbz && s.bus.f.store < |LineNext(s, g.line, c)| ==>
          c.i.dat == LineNext(s, g.line, c)[s.bus.f.store])
  }

  function PlaceNext(s: State, p: Place, i: Input): Place {
    if s.bus.stage.IDLE? then Place(i.index, i.bus.op.LoadMiss? || i.bus.op.StoreMiss?, true, i.hitWay)
    else Place(p.index, p.miss, false, if p.first && p.miss then i.victim else p.way)
  }

  function NextGhost(s: State, g: Ghost, c: Cycle): Ghost
    requires InputOk(c.i)
  {
    Ghost(P.NextGhost(s.bus, g.bus, c.i.bus), LineNext(s, g.line, c), PlaceNext(s, g.at, c.i))
  }

  predicate RowsFit(ram: seq<seq<nat>>) { forall w, k :: 0 <= w < |ram| && 0 <= k < |ram[w]| ==> Fits64(ram[w][k]) }

  /** The flagged rows are memory's. */
  predicate Filled(s: State, line: seq<nat>)
    requires Shaped(s) && |line| == R.ROWS
  {
    forall r :: r in s.bus.f.rows ==> r < R.ROWS && s.ram[s.way][RowAt(s.index, r)] == line[r]
  }

  /** The rows requested so far are clear. */
  predicate Cleared(line: seq<nat>, b: R.Bus, first: nat)
    requires |line| == R.ROWS
  {
    forall r :: 0 <= r < R.ROWS && R.Place(first, r) < |b.requested| ==> line[r] == 0
  }

  /** The registers: a store hit is written only while stores are under way, and the way to fill is open only
      in the first cycle of a reload. */
  ghost predicate RegsOk(s: State, g: Ghost) {
    && s.bus.f.req < R.ROWS && (s.writeBram ==> s.bus.stage.STORE_WAIT_ACK?)
    && (s.writeTag ==> s.bus.stage.RELOAD_WAIT_ACK? && g.bus.bus.acked == 0)
    && (s.bus.stage.RELOAD_WAIT_ACK? && s.dcbz ==> s.bus.word == D.Word(0, Ones(8)))
    && (s.bus.stage.RELOAD_WAIT_ACK? ==> s.index == g.at.index && (s.writeTag <==> g.at.miss && g.at.first))
    && (s.bus.stage.RELOAD_WAIT_ACK? && !s.writeTag ==> s.way == g.at.way)
  }

  ghost predicate Inv(s: State, g: Ghost) {
    && Shaped(s) && P.Inv(s.bus, g.bus) && RegsOk(s, g) && LineOk(g.line) && RowsFit(s.ram)
    && (s.bus.stage.RELOAD_WAIT_ACK? ==> Filled(s, g.line) && (s.dcbz ==> Cleared(g.line, g.bus.bus, g.bus.first)))
  }

  /** A clear with every byte selected leaves zero. */
  lemma ClearLanes(was: nat)
    requires Fits64(was)
    ensures Lanes(was, 0, Ones(8), 8) == 0 && Fits64(0)
  {
    AllLanes(was, 0);
  }

  lemma LineKeeps(s: State, g: Ghost, c: Cycle)
    requires Inv(s, g) && EnvOk(s, g, c)
    ensures LineOk(LineNext(s, g.line, c))
  {
    hide P.Inv, P.EnvOk, Fits64, Lanes, RowsFit, Filled, Cleared;
    StillFits(g.line[s.bus.f.req], s.bus.word.dat, s.bus.word.sel);
  }

  /** A row requested by a line clear is clear. */
  lemma {:induction false} ClearedKeeps(s: State, g: Ghost, c: Cycle)
    requires Inv(s, g) && EnvOk(s, g, c) && s.bus.stage.RELOAD_WAIT_ACK? && s.dcbz
    ensures |LineNext(s, g.line, c)| == R.ROWS
    ensures Cleared(LineNext(s, g.line, c), R.NextBus(g.bus.bus, s.bus.f, c.i.bus.stall, c.i.bus.ack), g.bus.first)
  {
    hide Fits64, Lanes, RowsFit, Filled;
    ClearLanes(g.line[s.bus.f.req]);
  }

  lemma RamFits(s: State, i: Input)
    requires Shaped(s) && InputOk(i) && RowsFit(s.ram)
    ensures RowsFit(RamNext(s, i))
  {
    hide Fits64, Lanes;
    var x := WriteOf(s, i);
    forall w | 0 <= w < NUM_WAYS
      ensures Fits64(Lanes(s.ram[w][x.addr], x.data, x.sel, 8))
    {
      StillFits(s.ram[w][x.addr], x.data, x.sel);
    }
  }

  /** The row acknowledged is stored, from the bus or as zero, in the way to fill. */
  lemma {:induction false} RowStored(s: State, g: Ghost, c: Cycle)
    requires Inv(s, g) && EnvOk(s, g, c) && Reloads(s, c.i)
    ensures |LineNext(s, g.line, c)| == R.ROWS
    ensures var w, x := ReplaceWay(s, c.i), RowAt(s.index, s.bus.f.store);
      && RamNext(s, c.i)[w] == s.ram[w][x := LineNext(s, g.line, c)[s.bus.f.store]]
  {
    var w, x := ReplaceWay(s, c.i), RowAt(s.index, s.bus.f.store);
    R.StepKeeps(s.bus.f, g.bus.bus, g.bus.first, c.i.bus.stall, c.i.bus.ack);
    LineKeeps(s, g, c);
    if s.dcbz {
      ClearedKeeps(s, g, c);
      ClearLanes(s.ram[w][x]);
    } else {
      AllLanes(s.ram[w][x], c.i.dat);
    }
  }

  /** With it, every flagged row is memory's. */
  lemma {:induction false} FilledKeeps(s: State, g: Ghost, c: Cycle)
    requires Inv(s, g) && EnvOk(s, g, c) && s.bus.stage.RELOAD_WAIT_ACK?
    ensures |LineNext(s, g.line, c)| == R.ROWS && Filled(Step(s, c.i), LineNext(s, g.line, c))
  {
    var t, line := Step(s, c.i), LineNext(s, g.line, c);
    LineKeeps(s, g, c);
    if Reloads(s, c.i) {
      RowStored(s, g, c);
    }
    forall r | r in t.bus.f.rows
      ensures r < R.ROWS && t.ram[t.way][RowAt(t.index, r)] == line[r]
    {
      if r in s.bus.f.rows {
        OldRow(s, g, c, r);
      } else {
        assert Reloads(s, c.i) && r == s.bus.f.store;
      }
    }
  }

  /** A row flagged before stays as it is, in memory, in the row memory and in the way, which is chosen by then. */
  lemma {:induction false} OldRow(s: State, g: Ghost, c: Cycle, r: nat)
    requires Inv(s, g) && EnvOk(s, g, c) && s.bus.stage.RELOAD_WAIT_ACK? && r in s.bus.f.rows
    ensures |LineNext(s, g.line, c)| == R.ROWS && r < R.ROWS && LineNext(s, g.line, c)[r] == g.line[r]
    ensures Step(s, c.i).way == s.way && Step(s, c.i).ram[s.way][RowAt(s.index, r)] == g.line[r]
  {
    OldLine(s, g, c, r);
    R.StepKeeps(s.bus.f, g.bus.bus, g.bus.first, c.i.bus.stall, c.i.bus.ack);
    hide Fits64, Lanes, RowsFit, R.MayAck, LineNext, Cleared;
  }

  lemma {:induction false} OldLine(s: State, g: Ghost, c: Cycle, r: nat)
    requires Inv(s, g) && EnvOk(s, g, c) && s.bus.stage.RELOAD_WAIT_ACK? && r in s.bus.f.rows
    ensures |LineNext(s, g.line, c)| == R.ROWS && r < R.ROWS && LineNext(s, g.line, c)[r] == g.line[r]
  {
    hide Fits64, Lanes, RowsFit, R.MayAck, Filled;
    assert R.Place(g.bus.first, r) < |g.bus.bus.requested|;
  }

  lemma {:induction false} RegsKeep(s: State, g: Ghost, c: Cycle)
    requires Inv(s, g) && EnvOk(s, g, c)
    ensures RegsOk(Step(s, c.i), NextGhost(s, g, c))
  {
    hide Fits64, Lanes, RowsFit, Filled, Cleared;
  }

  lemma {:induction false} StepKeeps(s: State, g: Ghost, c: Cycle)
    requires Inv(s, g) && EnvOk(s, g, c)
    ensures Inv(Step(s, c.i), NextGhost(s, g, c))
  {
    P.StepKeeps(s.bus, g.bus, c.i.bus);
    RegsKeep(s, g, c);
    LineKeeps(s, g, c);
    RamFits(s, c.i);
    if s.bus.stage.RELOAD_WAIT_ACK? {
      FilledKeeps(s, g, c);
      if s.dcbz {
        ClearedKeeps(s, g, c);
      }
    }
    hide P.Inv, P.EnvOk, Fits64, Lanes, RowsFit;
  }

  /** A reload ends exactly with the eighth acknowledgement, and then the way it validates is the one it filled, which
      is the victim of its first cycle if the line was missing and the way that hit if not, in the set of the request:
      every row of the line is memory's, and zero after a line clear. */
  lemma {:induction false} LineFilled(s: State, g: Ghost, c: Cycle)
    requires Inv(s, g) && EnvOk(s, g, c) && s.bus.stage.RELOAD_WAIT_ACK?
    ensures |LineNext(s, g.line, c)| == R.ROWS
    ensures var t, h := Step(s, c.i), NextGhost(s, g, c);
      && (t.bus.stage.IDLE? <==> h.bus.bus.acked == R.ROWS)
      && (t.bus.stage.IDLE? ==> t.way == h.at.way && t.index == h.at.index)
      && (t.bus.stage.IDLE? ==> t.valid[t.index] == s.valid[t.index] + {t.way} && forall r :: 0 <= r < R.ROWS ==>
            t.ram[t.way][RowAt(t.index, r)] == h.line[r] && (s.dcbz ==> h.line[r] == 0))
  {
    P.ReloadKeeps(s.bus, g.bus, c.i.bus);
    LineKeeps(s, g, c);
    FilledKeeps(s, g, c);
    if Completes(s, c.i) {
      WayChosen(s, g, c);
      if s.dcbz {
        ClearedKeeps(s, g, c);
        AllCleared(s, g, c);
      }
    }
    hide Fits64, Lanes, RowsFit, Cleared, P.Inv, P.EnvOk, RegsOk, R.NextBus;
  }

  /** A way becomes valid in this way only, and none ever becomes invalid. */
  lemma {:induction false} ValidOnlyByFill(s: State, g: Ghost, c: Cycle, x: nat, w: nat)
    requires Inv(s, g) && EnvOk(s, g, c) && x < NUM_LINES
    ensures var t := Step(s, c.i);
      w in t.valid[x] <==>
        w in s.valid[x] || (s.bus.stage.RELOAD_WAIT_ACK? && t.bus.stage.IDLE? && x == t.index && w == t.way)
  {
    if Completes(s, c.i) {
      WayChosen(s, g, c);
    }
    hide Fits64, Lanes, RowsFit, Filled, Cleared, P.Inv, P.EnvOk;
  }

  /** By the last acknowledgement the way has been chosen. */
  lemma WayChosen(s: State, g: Ghost, c: Cycle)
    requires Inv(s, g) && EnvOk(s, g, c) && Completes(s, c.i)
    ensures Step(s, c.i).way == s.way == NextGhost(s, g, c).at.way
    ensures Step(s, c.i).index == NextGhost(s, g, c).at.index
  {
    R.StepKeeps(s.bus.f, g.bus.bus, g.bus.first, c.i.bus.stall, c.i.bus.ack);
    hide Fits64, Lanes, RowsFit, Filled, Cleared;
  }

  lemma AllCleared(s: State, g: Ghost, c: Cycle)
    requires Inv(s, g) && EnvOk(s, g, c) && Completes(s, c.i) && |LineNext(s, g.line, c)| == R.ROWS
    requires Cleared(LineNext(s, g.line, c), R.NextBus(g.bus.bus, s.bus.f, c.i.bus.stall, c.i.bus.ack), g.bus.first)
    ensures forall r :: 0 <= r < R.ROWS ==> LineNext(s, g.line, c)[r] == 0
  {
    R.StepKeeps(s.bus.f, g.bus.bus, g.bus.first, c.i.bus.stall, c.i.bus.ack);
    hide Fits64, Lanes, RowsFit, Filled, LineNext;
  }

  /** A load hits on the line in reload only if it asks for that line, and then exactly once its row has been
      acknowledged; it reads what memory holds of the line it asks for. */
  lemma {:induction false} HitReadsMemory(s: State, g: Ghost, i: Input, want: seq<nat>)
    requires Inv(s, g) && InputOk(i) && |want| == R.ROWS
    requires i.index == s.index && i.bus.sameTag ==> want == g.line
    ensures HitsReload(s, i) ==> s.ram[ReplaceWay(s, i)][RowAt(i.index, i.bus.row)] == want[i.bus.row]
    ensures HitsReload(s, i) <==>
      && s.bus.stage.RELOAD_WAIT_ACK? && i.index == s.index && i.bus.sameTag
      && R.Place(g.bus.first, i.bus.row) < g.bus.bus.acked
  {
    assert s.bus.stage.RELOAD_WAIT_ACK? ==> R.Inv(s.bus.f, g.bus.bus, g.bus.first);
    hide Fits64, RowsFit, Cleared;
  }

  /** Memory's line changes only by a line clear, which clears the row requested as the slave takes it. */
  lemma {:induction false} MemoryCleared(s: State, g: Ghost, c: Cycle, r: nat)
    requires Inv(s, g) && EnvOk(s, g, c) && s.bus.stage.RELOAD_WAIT_ACK? && r < R.ROWS
    ensures var was, now := g.bus.bus.requested, NextGhost(s, g, c).bus.bus.requested;
      && |LineNext(s, g.line, c)| == R.ROWS
      && LineNext(s, g.line, c)[r] == if s.dcbz && now == was + [r] then 0 else g.line[r]
  {
    hide Fits64, Lanes, RowsFit, Filled, Cleared;
    ClearLanes(g.line[s.bus.f.req]);
    Appended(g.bus.bus.requested, s.bus.f.req, r);
  }

  lemma Appended(rows: seq<nat>, x: nat, r: nat)
    ensures rows != rows + [r] && (rows + [x] == rows + [r] <==> x == r)
  {
    assert (rows + [x])[|rows|] == x && (rows + [r])[|rows|] == r;
    assert |rows| != |rows + [r]|;
  }

  /** In a reload nothing but the line to fill changes; in every other cycle nothing but the row of a store hit. */
  lemma {:induction false} ElsewhereKept(s: State, g: Ghost, c: Cycle, w: nat, k: nat)
    requires Inv(s, g) && EnvOk(s, g, c) && w < NUM_WAYS && k < SIZE
    ensures var t := Step(s, c.i); t.ram[w][k] != s.ram[w][k] ==>
      if s.bus.stage.RELOAD_WAIT_ACK? then w == t.way && k / R.ROWS == t.index
      else s.bus.stage.STORE_WAIT_ACK? && s.writeBram && w == s.req.way && k == s.req.row
  {
    hide Fits64, Lanes, RowsFit, Filled, Cleared;
  }

  /** A store hit taken now is written in the next cycle, whatever comes: its bytes, to the row and the way it hit. */
  lemma {:induction false} StoreHitWritten(s: State, g: Ghost, c: Cycle, d: Cycle, b: nat)
    requires Inv(s, g) && EnvOk(s, g, c) && Inv(Step(s, c.i), NextGhost(s, g, c)) && b < 8
    requires EnvOk(Step(s, c.i), NextGhost(s, g, c), d) && c.i.bus.op.StoreHit? && D.TakesStore(s.bus, c.i.bus)
    ensures var t, u, x := Step(s, c.i), Step(Step(s, c.i), d.i), RowAt(c.i.index, c.i.bus.row);
      && ByteOf(u.ram[c.i.hitWay][x], b) ==
         if Bit(c.i.bus.word.sel, b) then ByteOf(c.i.bus.word.dat, b) else ByteOf(t.ram[c.i.hitWay][x], b)
  {
    var t, x := Step(s, c.i), RowAt(c.i.index, c.i.bus.row);
    LaneBytes(t.ram[c.i.hitWay][x], c.i.bus.word.dat, c.i.bus.word.sel, b);
    hide Fits64, Lanes, ByteOf, Bit, RowsFit, Filled, Cleared, P.Inv, P.EnvOk, D.Step, ValidNext;
  }

  /** A line clear is one exactly if it finds the machine idle. One that comes while stores to its tag are under way,
      with room for another, is taken as a store of its one word. */
  lemma {:induction false} ClearTaken(s: State, g: Ghost, c: Cycle)
    requires Inv(s, g) && EnvOk(s, g, c) && D.IsStore(c.i.bus.op) && c.i.bus.dcbz
    ensures var t, h := Step(s, c.i), NextGhost(s, g, c);
      && (t.bus.stage.RELOAD_WAIT_ACK? && !s.bus.stage.RELOAD_WAIT_ACK? <==> s.bus.stage.IDLE?)
      && (s.bus.stage.IDLE? ==> t.dcbz && t.bus.f == R.Start(c.i.bus.row))
      && (h.bus.taken == g.bus.taken + [c.i.bus.word] <==> s.bus.stage.STORE_WAIT_ACK? && D.Joins(s.bus, c.i.bus))
      && (s.bus.stage.STORE_WAIT_ACK? && D.Joins(s.bus, c.i.bus) ==> t.bus.stage.STORE_WAIT_ACK?)
  {
    hide Fits64, Lanes, RowsFit, Filled, Cleared;
    if s.bus.stage.STORE_WAIT_ACK? {
      P.StoreKeeps(s.bus, g.bus, c.i.bus);
    }
  }

  /** One more cycle. */
  lemma Extend(pre: seq<D.Input>, i: D.Input)
    requires (forall t :: 0 <= t < |pre| ==> pre[t].row < R.ROWS) && i.row < R.ROWS
    ensures forall t :: 0 <= t < |pre + [i]| ==> (pre + [i])[t].row < R.ROWS
    ensures P.Run(pre + [i]) == D.Step(P.Run(pre), i)
    ensures P.History(pre + [i]) == P.NextGhost(P.Run(pre), P.History(pre), i)
    ensures P.Honest(pre + [i]) <==> P.Honest(pre) && P.EnvOk(P.Run(pre), P.History(pre), i)
  {
    assert (pre + [i])[..|pre|] == pre;
  }

  /** A request, a line clear or not, of the tag under way. */
  function Offer(op: D.Op, clear: bool, row: nat, w: D.Word, ack: bool): D.Input {
    D.Input(op, clear, true, row, w, false, ack)
  }

  /** A store, and a line clear right behind it. */
  function StoreThenClear(row: nat, w: D.Word): (ins: seq<D.Input>)
    requires row < R.ROWS
    ensures forall t :: 0 <= t < |ins| ==> ins[t].row < R.ROWS
  {
    [] + [Offer(D.StoreMiss, false, row, w, false)] + [Offer(D.StoreMiss, true, row, D.Word(0, Ones(8)), false)]
  }

  lemma ClearJoins(row: nat, w: D.Word)
    requires row < R.ROWS
    ensures var ins, zero := StoreThenClear(row, w), D.Word(0, Ones(8));
      && P.Honest(ins) && P.Run(ins) == D.State(D.STORE_WAIT_ACK, true, R.Start(row), zero, 1, true, false)
      && P.History(ins) == P.Ghost(R.Bus([row], 0), row, [w, zero], [w])
  {
    var zero := D.Word(0, Ones(8));
    assert P.Run([]) == D.RESET && P.History([]) == START.bus && P.Honest([]);
    hide P.Run, P.History, P.Honest, Ones;
    Extend([], Offer(D.StoreMiss, false, row, w, false));
    Extend([] + [Offer(D.StoreMiss, false, row, w, false)], Offer(D.StoreMiss, true, row, zero, false));
  }

  /** Such a clear is lost: once both are acknowledged the machine is idle again, with one word of zero sent in place
      of eight. */
  lemma {:induction false} ClearLost(row: nat, w: D.Word)
    requires row < R.ROWS
    ensures var ack := Offer(D.OpNone, false, row, w, true);
      var ins := StoreThenClear(row, w) + [ack] + [ack];
      P.Honest(ins) && P.Run(ins).stage.IDLE? && P.History(ins).sent == P.History(ins).taken == [w, D.Word(0, Ones(8))]
  {
    hide P.Run, P.History, P.Honest, Ones, StoreThenClear;
    var ack, ins := Offer(D.OpNone, false, row, w, true), StoreThenClear(row, w);
    ClearJoins(row, w);
    Extend(ins, ack);
    Extend(ins + [ack], ack);
  }

  predicate InputsOk(cs: seq<Cycle>) { forall t :: 0 <= t < |cs| ==> InputOk(cs[t].i) }

  function Run(cs: seq<Cycle>): (s: State)
    requires InputsOk(cs)
    ensures Shaped(s)
  {
    if |cs| == 0 then Reset() else Step(Run(cs[..|cs| - 1]), cs[|cs| - 1].i)
  }

  function History(cs: seq<Cycle>): Ghost
    requires InputsOk(cs)
  {
    if |cs| == 0 then START else NextGhost(Run(cs[..|cs| - 1]), History(cs[..|cs| - 1]), cs[|cs| - 1])
  }

  predicate Honest(cs: seq<Cycle>)
    requires InputsOk(cs)
  {
    |cs| > 0 ==>
      var pre := cs[..|cs| - 1];
      Honest(pre) && EnvOk(Run(pre), History(pre), cs[|cs| - 1])
  }

  /** In every run against such a slave: while a line is being reloaded, each row flagged is memory's row, in the
      way that is to be validated. */
  lemma {:induction false} FlaggedRows(cs: seq<Cycle>)
    requires InputsOk(cs) && Honest(cs)
    ensures Inv(Run(cs), History(cs))
    ensures var s, line := Run(cs), History(cs).line;
      s.bus.stage.RELOAD_WAIT_ACK? ==> |line| == R.ROWS && Filled(s, line)
  {
    hide Filled, Step, NextGhost, EnvOk, P.Inv;
    if |cs| > 0 {
      var pre := cs[..|cs| - 1];
      FlaggedRows(pre);
      StepKeeps(Run(pre), History(pre), cs[|cs| - 1]);
    } else {
      ResetOk();
    }
  }

  lemma ResetOk()
    ensures Inv(Reset(), START)
  {
    hide Pow2;
    assert 0 < Pow2(64);
  }
}
