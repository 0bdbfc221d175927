/** The instruction cache with its arrays updated in place, clock by clock. */
module ICacheHardware {
  import opened ByteMemory
  import opened ByteMemoryProof
  import opened CacheRams
  import opened ICache
  import opened Words
  import R = Refill

  class ICacheUnit {
    var core: Core
    const valid: array<set<nat>>
    const tags: array<seq<nat>>
    const ways: seq<CacheRam>
    var hitWay: nat
    var hitNia: nat
    var hitValid: bool
    var tlb: Tlb

    ghost predicate Valid()
      reads this, valid, tags, ways, Memories(ways)
    {
      Separate(ways, NUM_WAYS, NUM_LINES * R.ROWS) && RowsFit(ways) && Shaped(Snapshot())
    }

    function Snapshot(): State
      reads this, valid, tags, ways, Memories(ways)
    {
      State(core, Arrays(valid[..], tags[..], Rams(ways)), Hit(hitWay, hitNia, hitValid, Outputs(ways)), tlb)
    }

    constructor ()
      ensures Valid() && Snapshot() == Reset()
      ensures fresh(valid) && fresh(tags) && fresh(ways) && fresh(Memories(ways))
    {
      var z := Reset();
      hide Reset, Shaped;
      core, hitWay, hitNia, hitValid, tlb := z.core, z.hit.way, z.hit.nia, z.hit.valid, z.tlb;
      valid := new set<nat>[NUM_LINES](_ => {});
      tags := new seq<nat>[NUM_LINES](_ => seq(NUM_WAYS, _ => 0));
      var ws := NewWays(NUM_WAYS, NUM_LINES * R.ROWS);
      ways := ws;
      new;
      IsReset(Snapshot());
    }

    static lemma IsReset(s: State)
      requires s.core == Reset().core && s.tlb == Reset().tlb && s.hit.(data := Reset().hit.data) == Reset().hit
      requires |s.arr.valid| == |s.arr.tags| == NUM_LINES && |s.arr.ram| == |s.hit.data| == NUM_WAYS
      requires forall x :: 0 <= x < NUM_LINES ==> s.arr.valid[x] == {} && s.arr.tags[x] == seq(NUM_WAYS, _ => 0)
      requires forall w :: 0 <= w < NUM_WAYS ==> |s.arr.ram[w]| == NUM_LINES * R.ROWS && s.hit.data[w] == 0
      requires forall w, k :: 0 <= w < NUM_WAYS && 0 <= k < NUM_LINES * R.ROWS ==> s.arr.ram[w][k] == 0
      ensures s == Reset() && Shaped(s)
    {
      var z := Reset();
      assert s.arr.valid == z.arr.valid && s.hit.data == z.hit.data;
      assert forall x :: 0 <= x < NUM_LINES ==> s.arr.tags[x] == z.arr.tags[x];
      assert s.arr.tags == z.arr.tags;
      assert forall w :: 0 <= w < NUM_WAYS ==> s.arr.ram[w] == z.arr.ram[w];
      assert s.arr.ram == z.arr.ram;
    }

    /** Invalidation, the clearing of the victim and the completion of a line, in that order. */
    method ClockTags(s: State, i: Input)
      requires Shaped(s) && valid[..] == s.arr.valid && tags[..] == s.arr.tags
      modifies valid, tags
      ensures valid[..] == ValidNext(s, i) && tags[..] == TagsNext(s, i)
    {
      var c := s.core;
      if i.inval {
        for x := 0 to NUM_LINES
          invariant forall y :: 0 <= y < x ==> valid[y] == {}
          invariant tags[..] == s.arr.tags
        {
          valid[x] := {};
        }
      }
      if c.state == CLR_TAG {
        assert tags[c.storeIndex] == s.arr.tags[c.storeIndex];
        valid[IndexOf(i.nia)] := s.arr.valid[IndexOf(i.nia)] - {i.victim};
        tags[c.storeIndex] := tags[c.storeIndex][i.victim := c.storeTag];
      }
      if Completes(c, i) {
        valid[c.storeIndex] := if c.storeValid && !i.inval then s.arr.valid[c.storeIndex] + {ReplaceWay(s, i)}
                               else s.arr.valid[c.storeIndex] - {ReplaceWay(s, i)};
      }
    }

    /** What the memories hold and output afterwards is what the specification says. */
    static lemma MemoriesAre(s: State, i: Input, m: seq<seq<nat>>, d: seq<nat>)
      requires Shaped(s) && |m| == |d| == NUM_WAYS
      requires forall k :: 0 <= k < NUM_WAYS ==>
        m[k] == if i.ack && k == ReplaceWay(s, i) then s.arr.ram[k][StoreRow(s.core) := i.dat] else s.arr.ram[k]
      requires forall k :: 0 <= k < NUM_WAYS ==>
        d[k] == if i.stall || UsePrevious(s, i) then s.hit.data[k] else s.arr.ram[k][ReqRow(i)]
      ensures m == RamNext(s, i) && d == HitNext(s, i).data
    {
      hide ReqIsHit, HitWay, UsePrevious, ReqRow, StoreRow;
    }

    static method ClockRams(ws: seq<CacheRam>, s: State, i: Input)
      requires Separate(ws, NUM_WAYS, NUM_LINES * R.ROWS) && RowsFit(ws) && Fits64(i.dat)
      requires Shaped(s) && Rams(ws) == s.arr.ram && Outputs(ws) == s.hit.data
      modifies ws, Memories(ws)
      ensures RowsFit(ws) && Rams(ws) == RamNext(s, i) && Outputs(ws) == HitNext(s, i).data
    {
      var store := StoreRow(s.core);
      assert ReqRow(i) < NUM_LINES * R.ROWS && store < NUM_LINES * R.ROWS;
      hide ReqRow, StoreRow, HitNext, RamNext, UsePrevious, Fits64, Lanes;
      var write := Write(i.ack, ReplaceWay(s, i), store, i.dat, Ones(8));
      forall k | 0 <= k < NUM_WAYS
        ensures i.ack && k == ReplaceWay(s, i) ==> Written(s.arr.ram[k], k, write) == s.arr.ram[k][store := i.dat]
      {
        assert ws[k].Fits() && s.arr.ram[k] == ws[k].ram[..];
        AllLanes(s.arr.ram[k][store], i.dat);
      }
      ClockWays(ws, NUM_LINES * R.ROWS, !(i.stall || UsePrevious(s, i)), ReqRow(i), write);
      MemoriesAre(s, i, Rams(ws), Outputs(ws));
    }

    method ClockArrays(s: State, i: Input)
      requires Valid() && s == Snapshot() && Fits64(i.dat)
      modifies valid, tags, ways, Memories(ways)
      ensures RowsFit(ways)
      ensures valid[..] == ValidNext(s, i) && tags[..] == TagsNext(s, i)
      ensures Rams(ways) == RamNext(s, i) && Outputs(ways) == HitNext(s, i).data
    {
      hide HitNext, RamNext, ValidNext, TagsNext, Fits64, Rams, Outputs, Shaped;
      ClockTags(s, i);
      ClockRams(ways, s, i);
    }

    method ClockRegisters(s: State, i: Input)
      requires Shaped(s)
      modifies `core, `hitWay, `hitNia, `hitValid, `tlb
      ensures core == CoreNext(s, i) && tlb == TlbNext(s.tlb, i)
      ensures Hit(hitWay, hitNia, hitValid, HitNext(s, i).data) == HitNext(s, i)
      ensures valid[..] == old(valid[..]) && tags[..] == old(tags[..])
      ensures Rams(ways) == old(Rams(ways)) && Outputs(ways) == old(Outputs(ways))
      ensures old(RowsFit(ways)) ==> RowsFit(ways)
    {
      hide Rams, Outputs, HitNext, CoreNext, TlbNext;
      var h := HitNext(s, i);
      hitWay, hitNia, hitValid := h.way, h.nia, h.valid;
      core, tlb := CoreNext(s, i), TlbNext(s.tlb, i);
    }

    /** One clock. The bus is eight bytes wide. */
    method Clock(i: Input) returns (out: bool, insn: nat)
      requires Valid() && Fits64(i.dat)
      modifies this, valid, tags, ways, Memories(ways)
      ensures Valid() && Snapshot() == Step(old(Snapshot()), i)
      ensures out == old(Snapshot()).hit.valid && insn == Insn(old(Snapshot()))
    {
      var s := Snapshot();
      out, insn := hitValid, Insn(s);
      hide Insn, Step, HitNext, CoreNext, TlbNext, RamNext, ValidNext, TagsNext, Shaped, Rams, Outputs, RowsFit, Fits64;
      ClockArrays(s, i);
      ClockRegisters(s, i);
      IsStep(s, i, Snapshot());
    }

    static lemma IsStep(s: State, i: Input, t: State)
      requires Shaped(s) && t.core == CoreNext(s, i) && t.hit == HitNext(s, i) && t.tlb == TlbNext(s.tlb, i)
      requires t.arr.valid == ValidNext(s, i) && t.arr.tags == TagsNext(s, i) && t.arr.ram == RamNext(s, i)
      ensures t == Step(s, i)
    {
    }
  }
}
