/** A wide bus access split into narrow ones: one sub-word at a time, lowest address first. */
module DownConvert {
  import opened Words

  /** The bytes of a narrow word, lowest lane first; a wide word is a sequence of narrow ones. */
  type Bytes = seq<nat>

  datatype Fsm = IDLE | WRITE | READ

  /** `cached` is the shift register, one narrow word a place. */
  datatype State = State(fsm: Fsm, counter: nat, cached: seq<Bytes>)

  datatype Request = Request(adr: nat, dat: seq<Bytes>, sel: seq<seq<bool>>)

  /** The master's side, and the slave's answer. */
  datatype Input = Input(stb: bool, cyc: bool, we: bool, q: Request, ack: bool, datR: Bytes)

  function Ratio(bits: nat): nat { Pow2(bits) }

  predicate Shaped(bits: nat, s: State) { s.counter < Ratio(bits) && |s.cached| == Ratio(bits) }

  predicate Fits(bits: nat, i: Input) { |i.q.dat| == |i.q.sel| == Ratio(bits) }

  /** The narrow access now on the slave's side. */
  predicate SlaveStb(s: State, i: Input) { s.fsm != IDLE && i.stb && i.cyc }

  /** The narrow address of the first sub-word: the wide address with `bits` zeros below. */
  function Base(bits: nat, adr: nat): nat { Shl(adr, bits) }

  function SlaveAdr(bits: nat, s: State, i: Input): nat { Base(bits, i.q.adr) + s.counter }

  predicate Taken(s: State, i: Input) { SlaveStb(s, i) && i.ack }

  predicate MasterAck(bits: nat, s: State, i: Input) { Taken(s, i) && s.counter == Ratio(bits) - 1 }

  function ShiftReg(s: State, i: Input): seq<Bytes>
    requires |s.cached| > 0
  {
    s.cached[1..] + [i.datR]
  }

  function Step(bits: nat, s: State, i: Input): (t: State)
    requires Shaped(bits, s)
    ensures Shaped(bits, t)
  {
    if s.fsm == IDLE then
      State(if i.stb && i.cyc then (if i.we then WRITE else READ) else IDLE, 0, seq(Ratio(bits), _ => []))
    else
      State(if MasterAck(bits, s, i) || !i.cyc then IDLE else s.fsm,
            if !Taken(s, i) then s.counter else if s.counter + 1 == Ratio(bits) then 0 else s.counter + 1,
            if s.fsm == READ && Taken(s, i) then ShiftReg(s, i) else s.cached)
  }

  /** The converter's registers, clocked in place. */
  class WishboneDownConvert {
    const bits: nat
    var fsm: Fsm
    var counter: nat
    var cachedData: seq<Bytes>

    function Snapshot(): State
      reads this
    {
      State(fsm, counter, cachedData)
    }

    constructor (bits: nat)
      ensures this.bits == bits && Shaped(bits, Snapshot()) && fsm == IDLE
    {
      this.bits := bits;
      fsm, counter, cachedData := IDLE, 0, seq(Ratio(bits), _ => []);
    }

    method Clock(i: Input) returns (ack: bool, datR: seq<Bytes>)
      requires Shaped(bits, Snapshot())
      modifies this
      ensures Snapshot() == Step(bits, old(Snapshot()), i)
      ensures ack == MasterAck(bits, old(Snapshot()), i)
      ensures ack && old(fsm) == READ ==> datR == ShiftReg(old(Snapshot()), i)
    {
      ack, datR := false, [];
      if fsm == IDLE {
        counter, cachedData := 0, seq(Ratio(bits), _ => []);
        if i.stb && i.cyc {
          fsm := if i.we then WRITE else READ;
        }
      } else if i.stb && i.cyc {
        if i.ack {
          var shiftReg := cachedData[1..] + [i.datR];
          var done := counter == Ratio(bits) - 1;
          counter := if done then 0 else counter + 1;
          if fsm == READ {
            cachedData := shiftReg;
          }
          if done {
            ack, datR, fsm := true, shiftReg, IDLE;
          }
        }
      } else if !i.cyc {
        fsm := IDLE;
      }
    }
  }
}

/** A converted access is one wide access. */
module DownConvertProof {
  import opened Words
  import opened DownConvert

  /** Narrow words by narrow address. */
  type Memory = nat -> Bytes

  /** One byte-masked write of a narrow word. */
  function Merged(was: Bytes, dat: Bytes, sel: seq<bool>): (r: Bytes)
    ensures |r| == |was|
    ensures forall b :: 0 <= b < |was| ==> r[b] == if b < |sel| && b < |dat| && sel[b] then dat[b] else was[b]
  {
    seq(|was|, b requires 0 <= b < |was| => if b < |sel| && b < |dat| && sel[b] then dat[b] else was[b])
  }

  /** The slave's memory after a cycle: a taken write changes the addressed word. */
  function MemNext(bits: nat, mem: Memory, s: State, i: Input): Memory
    requires Shaped(bits, s) && Fits(bits, i)
  {
    if s.fsm == WRITE && Taken(s, i) then
      (a: nat) => if a == SlaveAdr(bits, s, i) then Merged(mem(a), i.q.dat[s.counter], i.q.sel[s.counter]) else mem(a)
    else mem
  }

  function SubWord(bits: nat, mem: Memory, adr: nat, k: nat): Bytes { mem(Base(bits, adr) + k) }

  /** The wide word at a wide address. */
  function Wide(bits: nat, mem: Memory, adr: nat): (w: seq<Bytes>)
    ensures |w| == Ratio(bits)
  {
    seq(Ratio(bits), k requires 0 <= k < Ratio(bits) => SubWord(bits, mem, adr, k))
  }

  /** What memory holds at a narrow address once the first n sub-words of a request are written. */
  function Prefix(bits: nat, mem: Memory, q: Request, n: nat, a: nat): Bytes
    requires n <= |q.dat| == |q.sel|
  {
    var base := Base(bits, q.adr);
    if base <= a < base + n then Merged(mem(a), q.dat[a - base], q.sel[a - base]) else mem(a)
  }

  ghost predicate IsPrefix(bits: nat, mem0: Memory, q: Request, n: nat, mem: Memory)
    requires n <= |q.dat| == |q.sel|
  {
    forall a: nat :: mem(a) == Prefix(bits, mem0, q, n, a)
  }

  ghost predicate Same(m: Memory, n: Memory) { forall a: nat :: m(a) == n(a) }

  /** The access in progress: what is written, or what is shifted in, is what has been taken so far. */
  ghost predicate Inv(bits: nat, mem0: Memory, q: Request, s: State, mem: Memory) {
    && Shaped(bits, s) && |q.dat| == |q.sel| == Ratio(bits)
    && (s.fsm == WRITE ==> IsPrefix(bits, mem0, q, s.counter, mem))
    && (s.fsm == READ ==> Same(mem, mem0) && forall k :: 0 <= k < s.counter ==>
          s.cached[Ratio(bits) - s.counter + k] == SubWord(bits, mem0, q.adr, k))
  }

  /** The master holds its request while it is in the bus cycle; the slave reads out its memory. It may take
      any time to answer, and the master may lower its strobe, or give up. */
  predicate EnvOk(bits: nat, q: Request, s: State, mem: Memory, i: Input) {
    Fits(bits, i) && (i.cyc ==> i.q == q) && (s.fsm == READ && Taken(s, i) ==> i.datR == mem(SlaveAdr(bits, s, i)))
  }

  lemma {:induction false} Begins(bits: nat, mem: Memory, s: State, i: Input)
    requires Shaped(bits, s) && Fits(bits, i) && s.fsm == IDLE
    ensures Inv(bits, mem, i.q, Step(bits, s, i), MemNext(bits, mem, s, i))
  {
  }

  lemma {:induction false} WriteGoesOn(bits: nat, mem0: Memory, q: Request, s: State, mem: Memory, i: Input)
    requires Inv(bits, mem0, q, s, mem) && EnvOk(bits, q, s, mem, i) && s.fsm == WRITE
    ensures IsPrefix(bits, mem0, q, if Taken(s, i) then s.counter + 1 else s.counter, MemNext(bits, mem, s, i))
  {
    forall a: nat
      ensures MemNext(bits, mem, s, i)(a) == Prefix(bits, mem0, q, if Taken(s, i) then s.counter + 1 else s.counter, a)
    {
      assert mem(a) == Prefix(bits, mem0, q, s.counter, a);
    }
  }

  /** One cycle of an access. If it ends with the master's acknowledgement, a read has delivered the wide word
      and a write has been made in full; if it ends because the master gave up, a proper prefix of the
      sub-words is written; otherwise it goes on. */
  lemma {:induction false} StepKeeps(bits: nat, mem0: Memory, q: Request, s: State, mem: Memory, i: Input)
    requires Inv(bits, mem0, q, s, mem) && EnvOk(bits, q, s, mem, i) && s.fsm != IDLE
    ensures var t, m := Step(bits, s, i), MemNext(bits, mem, s, i);
      && Inv(bits, mem0, q, t, m)
      && (s.fsm == READ ==> Same(m, mem0))
      && (t.fsm == IDLE <==> MasterAck(bits, s, i) || !i.cyc)
      && (MasterAck(bits, s, i) && s.fsm == READ ==> ShiftReg(s, i) == Wide(bits, mem0, q.adr))
      && (MasterAck(bits, s, i) && s.fsm == WRITE ==> IsPrefix(bits, mem0, q, Ratio(bits), m))
      && (t.fsm == IDLE && !MasterAck(bits, s, i) && s.fsm == WRITE ==> IsPrefix(bits, mem0, q, s.counter, m))
  {
    if s.fsm == WRITE {
      WriteGoesOn(bits, mem0, q, s, mem, i);
    } else if Taken(s, i) {
      forall k: nat | k <= s.counter
        ensures ShiftReg(s, i)[Ratio(bits) - s.counter - 1 + k] == SubWord(bits, mem0, q.adr, k)
      {
        assert k < s.counter ==> s.cached[Ratio(bits) - s.counter + k] == SubWord(bits, mem0, q.adr, k);
      }
    }
    hide IsPrefix;
  }

  /** A full prefix is one byte-masked wide write, and touches no other wide word. */
  lemma {:induction false} FullPrefixIsWide(bits: nat, mem0: Memory, q: Request, mem: Memory, adr: nat)
    requires |q.dat| == |q.sel| == Ratio(bits) && IsPrefix(bits, mem0, q, Ratio(bits), mem)
    ensures var w, w0 := Wide(bits, mem, adr), Wide(bits, mem0, adr);
      if adr == q.adr then forall k :: 0 <= k < Ratio(bits) ==> w[k] == Merged(w0[k], q.dat[k], q.sel[k]) else w == w0
  {
    PrefixInWide(bits, mem0, q, Ratio(bits), mem, adr);
    if adr != q.adr {
      assert Wide(bits, mem, adr) == Wide(bits, mem0, adr);
    }
  }

  /** A prefix changes the first sub-words of its own wide word only. */
  lemma {:induction false} PrefixInWide(bits: nat, mem0: Memory, q: Request, n: nat, mem: Memory, adr: nat)
    requires n <= |q.dat| == |q.sel| == Ratio(bits) && IsPrefix(bits, mem0, q, n, mem)
    ensures var w, w0 := Wide(bits, mem, adr), Wide(bits, mem0, adr);
      forall k :: 0 <= k < Ratio(bits) ==>
        w[k] == if adr == q.adr && k < n then Merged(w0[k], q.dat[k], q.sel[k]) else w0[k]
  {
    forall k: nat | k < Ratio(bits)
      ensures SubWord(bits, mem, adr, k) ==
        if adr == q.adr && k < n then Merged(SubWord(bits, mem0, adr, k), q.dat[k], q.sel[k])
        else SubWord(bits, mem0, adr, k)
    {
      Apart(bits, adr, q.adr);
      var a := Base(bits, adr) + k;
      assert mem(a) == Prefix(bits, mem0, q, n, a);
    }
  }

  /** Wide words do not overlap. */
  lemma {:induction false} Apart(bits: nat, a: nat, b: nat)
    ensures a < b ==> Base(bits, a) + Ratio(bits) <= Base(bits, b)
    ensures b < a ==> Base(bits, b) + Ratio(bits) <= Base(bits, a)
  {
    if bits > 0 {
      Apart(bits - 1, a, b);
    }
  }

  /** The narrow address of an access: the wide one times the ratio, and as many on as are answered. */
  lemma {:induction false} SlaveAdrIs(bits: nat, s: State, i: Input)
    ensures SlaveAdr(bits, s, i) == Ratio(bits) * i.q.adr + s.counter
  {
    ShlTimes(i.q.adr, bits);
  }

  /** Narrow address a is at place k of wide word w. */
  predicate At(bits: nat, a: nat, w: nat, k: nat) { k < Ratio(bits) && a == Ratio(bits) * w + k }

  /** Every narrow word is in a wide word, */
  lemma {:induction false} SomePlace(bits: nat, a: nat) returns (w: nat, k: nat)
    ensures At(bits, a, w, k)
  {
    hide Pow2;
    w, k := Quotient(a, Ratio(bits));
  }

  /** in only one, at only one place, */
  lemma {:induction false} OnePlace(bits: nat, a: nat, w: nat, k: nat, v: nat, j: nat)
    requires At(bits, a, w, k) && At(bits, a, v, j)
    ensures w == v && k == j
  {
    hide Pow2;
    SameQuotient(Ratio(bits), w, k, v, j);
  }

  lemma Quotient(a: nat, n: nat) returns (q: nat, r: nat)
    requires n > 0
    ensures a == n * q + r && r < n
  {
    q, r := a / n, a % n;
  }

  /** and the wide word has it there. */
  lemma {:induction false} WideHolds(bits: nat, mem: Memory, a: nat, w: nat, k: nat)
    requires At(bits, a, w, k)
    ensures Wide(bits, mem, w)[k] == mem(a)
  {
    ShlTimes(w, bits);
  }

  /** A write made in full changes narrow memory at the addresses of its wide word only, each by its own sub-word. */
  lemma {:induction false} WriteInNarrow(bits: nat, mem0: Memory, q: Request, mem: Memory, a: nat, w: nat, k: nat)
    requires |q.dat| == |q.sel| == Ratio(bits) && IsPrefix(bits, mem0, q, Ratio(bits), mem) && At(bits, a, w, k)
    ensures mem(a) == if w == q.adr then Merged(mem0(a), q.dat[k], q.sel[k]) else mem0(a)
  {
    WideHolds(bits, mem, a, w, k);
    WideHolds(bits, mem0, a, w, k);
    PrefixInWide(bits, mem0, q, Ratio(bits), mem, w);
    hide IsPrefix, Base, At;
  }

  /** Converter and memory after the given cycles. */
  function Run(bits: nat, s: State, mem: Memory, ins: seq<Input>): (r: (State, Memory))
    requires Shaped(bits, s) && forall t :: 0 <= t < |ins| ==> Fits(bits, ins[t])
    ensures Shaped(bits, r.0)
  {
    if |ins| == 0 then (s, mem)
    else
      var n := |ins| - 1;
      var r := Run(bits, s, mem, ins[..n]);
      (Step(bits, r.0, ins[n]), MemNext(bits, r.1, r.0, ins[n]))
  }

  /** The cycles of one access: busy before each, the request held, the slave honest. */
  predicate Access(bits: nat, q: Request, s: State, mem: Memory, ins: seq<Input>)
    requires Shaped(bits, s) && forall t :: 0 <= t < |ins| ==> Fits(bits, ins[t])
  {
    |ins| > 0 ==>
      var n := |ins| - 1;
      var r := Run(bits, s, mem, ins[..n]);
      Access(bits, q, s, mem, ins[..n]) && r.0.fsm != IDLE && EnvOk(bits, q, r.0, r.1, ins[n])
  }

  lemma {:induction false} Reachable(bits: nat, mem0: Memory, q: Request, s: State, mem: Memory, ins: seq<Input>)
    requires Inv(bits, mem0, q, s, mem) && (forall t :: 0 <= t < |ins| ==> Fits(bits, ins[t]))
    requires Access(bits, q, s, mem, ins)
    ensures var r := Run(bits, s, mem, ins); Inv(bits, mem0, q, r.0, r.1)
  {
    if |ins| > 0 {
      var n := |ins| - 1;
      Reachable(bits, mem0, q, s, mem, ins[..n]);
      var r := Run(bits, s, mem, ins[..n]);
      hide Inv, Step, MemNext, EnvOk, IsPrefix, MasterAck, ShiftReg, Wide;
      StepKeeps(bits, mem0, q, r.0, r.1, ins[n]);
    }
  }

  /** What an access must come to when it ends. */
  ghost predicate Outcome(bits: nat, mem0: Memory, start: Input, acked: bool, datR: seq<Bytes>, mem: Memory)
    requires Fits(bits, start)
  {
    if !start.we then Same(mem, mem0) && (acked ==> datR == Wide(bits, mem0, start.q.adr))
    else if acked then IsPrefix(bits, mem0, start.q, Ratio(bits), mem)
    else exists n :: 0 <= n < Ratio(bits) && IsPrefix(bits, mem0, start.q, n, mem)
  }

  lemma {:induction false} Ends(bits: nat, mem0: Memory, start: Input, s: State, mem: Memory, i: Input)
    requires Fits(bits, start) && Inv(bits, mem0, start.q, s, mem) && EnvOk(bits, start.q, s, mem, i)
    requires s.fsm == (if start.we then WRITE else READ) && Step(bits, s, i).fsm == IDLE
    ensures Outcome(bits, mem0, start, MasterAck(bits, s, i), ShiftReg(s, i), MemNext(bits, mem, s, i))
  {
    StepKeeps(bits, mem0, start.q, s, mem, i);
    hide IsPrefix, Same, MemNext;
  }

  lemma {:induction false} SameKind(bits: nat, q: Request, s: State, mem: Memory, ins: seq<Input>)
    requires Shaped(bits, s) && (forall t :: 0 <= t < |ins| ==> Fits(bits, ins[t])) && Access(bits, q, s, mem, ins)
    ensures var r := Run(bits, s, mem, ins); r.0.fsm != IDLE ==> r.0.fsm == s.fsm
  {
    if |ins| > 0 {
      SameKind(bits, q, s, mem, ins[..|ins| - 1]);
    }
  }

  /** A request, and nothing else, starts an access, of its own kind. */
  lemma {:induction false} Starts(bits: nat, s: State, i: Input)
    requires Shaped(bits, s) && s.fsm == IDLE
    ensures Step(bits, s, i).fsm != IDLE <==> i.stb && i.cyc
    ensures i.stb && i.cyc ==> (Step(bits, s, i).fsm == WRITE <==> i.we) && Step(bits, s, i).counter == 0
  {
  }

  /** How many sub-words the slave has answered. */
  function Answered(bits: nat, s: State, mem: Memory, ins: seq<Input>): nat
    requires Shaped(bits, s) && forall t :: 0 <= t < |ins| ==> Fits(bits, ins[t])
  {
    if |ins| == 0 then 0
    else
      var n := |ins| - 1;
      Answered(bits, s, mem, ins[..n]) + if Taken(Run(bits, s, mem, ins[..n]).0, ins[n]) then 1 else 0
  }

  /** The counter counts them. */
  lemma {:induction false} Counts(bits: nat, q: Request, s: State, mem: Memory, ins: seq<Input>)
    requires Shaped(bits, s) && (forall t :: 0 <= t < |ins| ==> Fits(bits, ins[t])) && Access(bits, q, s, mem, ins)
    ensures var r := Run(bits, s, mem, ins);
      && (r.0.fsm != IDLE ==> r.0.counter == s.counter + Answered(bits, s, mem, ins))
      && (|ins| > 0 ==>
            (MasterAck(bits, Run(bits, s, mem, ins[..|ins| - 1]).0, ins[|ins| - 1]) <==>
             s.counter + Answered(bits, s, mem, ins) == Ratio(bits)))
  {
    if |ins| > 0 {
      Counts(bits, q, s, mem, ins[..|ins| - 1]);
    }
    hide MemNext, EnvOk;
  }

  /** Every access, for any power-of-two ratio and any wait states: a completed read is the wide read, a
      completed write the wide write, an abandoned write leaves a proper prefix of the sub-words written; and it is
      completed exactly when the slave has answered for every sub-word. */
  lemma {:induction false} AccessIsWide(bits: nat, mem0: Memory, s: State, start: Input, ins: seq<Input>)
    requires Shaped(bits, s) && s.fsm == IDLE && Fits(bits, start) && start.stb && start.cyc && |ins| > 0
    requires forall t :: 0 <= t < |ins| ==> Fits(bits, ins[t])
    requires var s1, m1 := Step(bits, s, start), MemNext(bits, mem0, s, start);
      Access(bits, start.q, s1, m1, ins) && Run(bits, s1, m1, ins).0.fsm == IDLE
    ensures var s1, m1, n := Step(bits, s, start), MemNext(bits, mem0, s, start), |ins| - 1;
      var last := Run(bits, s1, m1, ins[..n]).0;
      && Outcome(bits, mem0, start, MasterAck(bits, last, ins[n]), ShiftReg(last, ins[n]), Run(bits, s1, m1, ins).1)
      && (MasterAck(bits, last, ins[n]) <==> Answered(bits, s1, m1, ins) == Ratio(bits))
  {
    var s1, m1, n := Step(bits, s, start), MemNext(bits, mem0, s, start), |ins| - 1;
    Begins(bits, mem0, s, start);
    Reachable(bits, mem0, start.q, s1, m1, ins[..n]);
    SameKind(bits, start.q, s1, m1, ins[..n]);
    Counts(bits, start.q, s1, m1, ins);
    var r := Run(bits, s1, m1, ins[..n]);
    assert s1.fsm == (if start.we then WRITE else READ);
    hide Inv, Step, MemNext, EnvOk, Outcome, MasterAck, ShiftReg;
    Ends(bits, mem0, start, r.0, r.1, ins[n]);
  }
}
