/** The data cache's bus machine, row memories and valid bits, clocked in place. */
module DCacheHardware {
  import opened ByteMemory
  import opened ByteMemoryProof
  import opened CacheRams
  import opened DCacheRows
  import opened Words
  import D = DCache
  import R = Refill

  class DCacheUnit {
    const bus: D.BusMachine
    const ways: seq<CacheRam>
    const valid: array<set<nat>>
    var dcbz: bool
    var writeTag: bool
    var writeBram: bool
    var storeWay: nat
    var storeIndex: nat
    var req: Req

    ghost predicate Valid()
      reads this, bus, valid, ways, Memories(ways)
    {
      Separate(ways, NUM_WAYS, SIZE) && RowsFit(ways) && Shaped(Snapshot())
    }

    function Snapshot(): State
      reads this, bus, valid, Memories(ways)
    {
      State(bus.Snapshot(), dcbz, writeTag, writeBram, storeWay, storeIndex, req, Rams(ways), valid[..])
    }

    constructor ()
      ensures Valid() && Snapshot() == Reset()
      ensures fresh(bus) && fresh(valid) && fresh(ways) && fresh(Memories(ways))
    {
      hide Shaped, Reset;
      bus := new D.BusMachine();
      valid := new set<nat>[NUM_LINES](_ => {});
      var ws := NewWays(NUM_WAYS, SIZE);
      ways := ws;
      dcbz, writeTag, writeBram, storeWay, storeIndex, req := false, false, false, 0, 0, Req(0, 0, D.Word(0, 0));
      new;
      IsReset(Snapshot());
    }

    static lemma IsReset(s: State)
      requires s.(ram := [], valid := []) == Reset().(ram := [], valid := [])
      requires |s.valid| == NUM_LINES && |s.ram| == NUM_WAYS && forall x :: 0 <= x < NUM_LINES ==> s.valid[x] == {}
      requires forall w :: 0 <= w < NUM_WAYS ==> |s.ram[w]| == SIZE && forall k :: 0 <= k < SIZE ==> s.ram[w][k] == 0
      ensures s == Reset() && Shaped(s)
    {
      var z := Reset();
      assert s.valid == z.valid;
      assert forall w :: 0 <= w < NUM_WAYS ==> s.ram[w] == z.ram[w];
      assert s.ram == z.ram;
    }

    /** The way and the row written are those of the registers; every way reads the row of the early request. */
    method ClockRams(s: State, i: Input, early: nat)
      requires Valid() && s == Snapshot() && InputOk(i) && early < SIZE
      modifies ways, Memories(ways)
      ensures RowsFit(ways) && Rams(ways) == RamNext(s, i)
    {
      var write := WriteOf(s, i);
      assert write.addr < SIZE;
      ghost var was: seq<seq<nat>> := Rams(ways);
      hide RowsFit, WriteOf, Written;
      ClockWays(ways, SIZE, true, early, write);
      assert forall k :: 0 <= k < NUM_WAYS ==> Rams(ways)[k] == Written(was[k], k, write);
    }

    method ClockRegisters(s: State, i: Input)
      requires Shaped(s) && InputOk(i) && valid[..] == s.valid
      requires s.writeTag == writeTag && s.way == storeWay && s.index == storeIndex && s.req == req && s.dcbz == dcbz
      modifies `dcbz, `writeTag, `writeBram, `storeWay, `storeIndex, `req, valid
      ensures Registers(Step(s, i)) && valid[..] == ValidNext(s, i)
    {
      if Completes(s, i) {
        valid[storeIndex] := valid[storeIndex] + {storeWay};
      }
      writeBram := false;
      if writeTag {
        storeWay, writeTag := i.victim, false;
      }
      if !i.bus.op.OpNone? && !i.bus.op.LoadHit? {
        req := Req(RowAt(i.index, i.bus.row), i.hitWay, i.bus.word);
      }
      if s.bus.stage.IDLE? {
        dcbz, storeIndex := i.bus.dcbz, i.index;
        if i.bus.op.StoreHit? {
          storeWay, writeBram := i.hitWay, !i.bus.dcbz;
        }
        writeTag := i.bus.op.LoadMiss? || (i.bus.op.StoreMiss? && i.bus.dcbz);
      } else if s.bus.stage.STORE_WAIT_ACK? && D.Joins(s.bus, i.bus) {
        writeBram := i.bus.op.StoreHit?;
      }
    }

    ghost predicate Registers(t: State)
      reads this
    {
      && dcbz == t.dcbz && writeTag == t.writeTag && writeBram == t.writeBram && storeWay == t.way
      && storeIndex == t.index && req == t.req
    }

    method Clock(i: Input, early: nat)
      requires Valid() && InputOk(i) && early < SIZE
      modifies this, bus, valid, ways, Memories(ways)
      ensures Valid() && Snapshot() == Step(old(Snapshot()), i)
    {
      var s := Snapshot();
      hide RamNext, ValidNext, RowsFit, Rams, D.Step;
      ClockRams(s, i, early);
      ClockRegisters(s, i);
      bus.Clock(i.bus);
    }
  }
}
