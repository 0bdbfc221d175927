/** The row memories of the two caches: one memory a way, all written and read in the same clock. */
module CacheRams {
  import opened ByteMemory
  import opened ByteMemoryProof
  import opened Words

  /** A row memory with a registered read and a write enable for every byte. */
  class CacheRam {
    const ram: array<nat>
    var rdData: nat

    ghost predicate Fits()
      reads ram
    {
      forall k :: 0 <= k < ram.Length ==> Fits64(ram[k])
    }

    constructor (size: nat)
      ensures fresh(ram) && ram.Length == size && rdData == 0 && Fits() && forall k :: 0 <= k < size ==> ram[k] == 0
    {
      ram := new nat[size](_ => 0);
      rdData := 0;
    }

    /** The bytes enabled are written and no other; the row read is the one from before the write. */
    method Clock(rdEn: bool, rdAddr: nat, wrSel: nat, wrAddr: nat, wrData: nat)
      requires rdAddr < ram.Length && wrAddr < ram.Length && Fits()
      modifies this, ram
      ensures Fits() && rdData == if rdEn then old(ram[rdAddr]) else old(rdData)
      ensures ram[..] == old(ram[..])[wrAddr := Lanes(old(ram[wrAddr]), wrData, wrSel, 8)]
      ensures forall i :: 0 <= i < 8 ==>
        ByteOf(ram[wrAddr], i) == if Bit(wrSel, i) then ByteOf(wrData, i) else ByteOf(old(ram[wrAddr]), i)
    {
      hide Lanes, ByteOf, Bit, Pow2;
      if rdEn {
        rdData := ram[rdAddr];
      }
      ghost var was := ram[wrAddr];
      LanesFit(was, wrData, wrSel, 8);
      ram[wrAddr] := Lanes(ram[wrAddr], wrData, wrSel, 8);
      forall i: nat | i < 8
        ensures ByteOf(ram[wrAddr], i) == if Bit(wrSel, i) then ByteOf(wrData, i) else ByteOf(was, i)
      {
        LaneBytes(was, wrData, wrSel, i);
      }
    }
  }

  ghost function Memories(ws: seq<CacheRam>): set<array<nat>> { set w: CacheRam | w in ws :: w.ram }

  /** As many memories as ways, none shared. */
  ghost predicate Separate(ws: seq<CacheRam>, ways: nat, size: nat) {
    && |ws| == ways && (forall k :: 0 <= k < |ws| ==> ws[k].ram.Length == size)
    && (forall v, w :: 0 <= v < w < |ws| ==> ws[v] != ws[w] && ws[v].ram != ws[w].ram)
  }

  ghost predicate RowsFit(ws: seq<CacheRam>)
    reads Memories(ws)
  {
    forall k :: 0 <= k < |ws| ==> ws[k].Fits()
  }

  /** What the memories hold, and what they read last cycle. */
  function Rams(ws: seq<CacheRam>): (m: seq<seq<nat>>)
    reads Memories(ws)
    ensures |m| == |ws| && forall k :: 0 <= k < |ws| ==> m[k] == ws[k].ram[..]
  {
    if |ws| == 0 then [] else [ws[0].ram[..]] + Rams(ws[1..])
  }

  function Outputs(ws: seq<CacheRam>): (d: seq<nat>)
    reads ws
    ensures |d| == |ws| && forall k :: 0 <= k < |ws| ==> d[k] == ws[k].rdData
  {
    if |ws| == 0 then [] else [ws[0].rdData] + Outputs(ws[1..])
  }

  method NewWays(ways: nat, size: nat) returns (ws: seq<CacheRam>)
    ensures Separate(ws, ways, size) && RowsFit(ws) && fresh(ws) && fresh(Memories(ws))
    ensures forall w :: 0 <= w < ways ==> ws[w].rdData == 0 && forall k :: 0 <= k < size ==> ws[w].ram[k] == 0
  {
    ws := [];
    for n := 0 to ways
      invariant |ws| == n && RowsFit(ws) && fresh(ws) && fresh(Memories(ws))
      invariant forall w :: 0 <= w < n ==> ws[w].ram.Length == size && ws[w].rdData == 0
      invariant forall w, k :: 0 <= w < n && 0 <= k < size ==> ws[w].ram[k] == 0
      invariant forall v, w :: 0 <= v < w < n ==> ws[v] != ws[w] && ws[v].ram != ws[w].ram
    {
      var ram := new CacheRam(size);
      assert forall w :: 0 <= w < n ==> ws[w].ram in Memories(ws);
      ws := ws + [ram];
    }
  }

  /** The write of one cycle: at most one way, the bytes selected. */
  datatype Write = Write(en: bool, way: nat, addr: nat, data: nat, sel: nat)

  function Written(was: seq<nat>, k: nat, w: Write): seq<nat>
    requires w.addr < |was|
  {
    if w.en && k == w.way then was[w.addr := Lanes(was[w.addr], w.data, w.sel, 8)] else was
  }

  /** Every way reads the requested row; the one selected is written, the others keep what they hold. */
  method ClockWays(ws: seq<CacheRam>, size: nat, rdEn: bool, rdAddr: nat, w: Write)
    requires Separate(ws, |ws|, size) && RowsFit(ws) && rdAddr < size && w.addr < size
    modifies ws, Memories(ws)
    ensures RowsFit(ws)
    ensures forall k :: 0 <= k < |ws| ==> ws[k].rdData == if rdEn then old(ws[k].ram[..])[rdAddr] else old(ws[k].rdData)
    ensures forall k :: 0 <= k < |ws| ==> ws[k].ram[..] == Written(old(ws[k].ram[..]), k, w)
  {
    hide Fits64, Lanes;
    for n := 0 to |ws|
      invariant RowsFit(ws)
      invariant forall k :: n <= k < |ws| ==> ws[k].rdData == old(ws[k].rdData) && ws[k].ram[..] == old(ws[k].ram[..])
      invariant forall k :: 0 <= k < n ==>
        ws[k].rdData == if rdEn then old(ws[k].ram[..])[rdAddr] else old(ws[k].rdData)
      invariant forall k :: 0 <= k < n ==> ws[k].ram[..] == Written(old(ws[k].ram[..]), k, w)
    {
      label L:
      var sel := if w.en && n == w.way then w.sel else 0;
      NoLane(ws[n].ram[w.addr], w.data);
      ws[n].Clock(rdEn, rdAddr, sel, w.addr, w.data);
      assert forall k :: 0 <= k < |ws| && k != n ==>
        ws[k].rdData == old@L(ws[k].rdData) && ws[k].ram[..] == old@L(ws[k].ram[..]);
    }
  }

  /** No lane enabled, and all of them. */
  lemma NoLane(was: nat, data: nat)
    requires Fits64(was)
    ensures Lanes(was, data, 0, 8) == was
  {
    hide ByteOf, Bit, Fits64, Lanes;
    forall i: nat | i < 8
      ensures ByteOf(Lanes(was, data, 0, 8), i) == ByteOf(was, i)
    {
      BitZero(i);
      LaneBytes(was, data, 0, i);
    }
    StillFits(was, data, 0);
    SameBytes(Lanes(was, data, 0, 8), was);
  }

  lemma AllLanes(was: nat, data: nat)
    requires Fits64(was) && Fits64(data)
    ensures Lanes(was, data, Ones(8), 8) == data
  {
    hide ByteOf, Bit, Fits64, Lanes;
    forall i: nat | i < 8
      ensures ByteOf(Lanes(was, data, Ones(8), 8), i) == ByteOf(data, i)
    {
      BitOnes(8, i);
      LaneBytes(was, data, Ones(8), i);
    }
    StillFits(was, data, Ones(8));
    SameBytes(Lanes(was, data, Ones(8), 8), data);
  }

  lemma StillFits(was: nat, data: nat, sel: nat)
    requires Fits64(was)
    ensures Fits64(Lanes(was, data, sel, 8))
  {
    hide Pow2, Lanes;
    LanesFit(was, data, sel, 8);
  }
}
