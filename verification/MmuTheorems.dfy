/** The walker over whole services: from an accepted request to the idle state. */
module MmuTheorems {
  import opened Words
  import opened Mmu
  import opened MmuProof

  datatype Input = Input(l: LoadStore, d: DCache)

  /** The register stage after the given cycles. */
  function Run(r: Reg, ins: seq<Input>): Reg {
    if |ins| == 0 then r else Step(Run(r, ins[..|ins| - 1]), ins[|ins| - 1].l, ins[|ins| - 1].d)
  }

  predicate Truthful(env: Env, r: Reg, ins: seq<Input>) {
    forall t :: 0 <= t < |ins| ==> Answers(env, Run(r, ins[..t]), ins[t].d)
  }

  function JobAfter(env: Env, r: Reg, j: Job, ins: seq<Input>): Job {
    if |ins| == 0 then j
    else
      var pre := ins[..|ins| - 1];
      NextJob(env, Run(r, pre), Run(r, ins), JobAfter(env, r, j, pre), ins[|ins| - 1].l)
  }

  /** Whatever is asked, in whatever order, the invariant holds throughout. */
  lemma {:induction false} Reachable(env: Env, r: Reg, j: Job, ins: seq<Input>)
    requires Inv(env, r, j) && Truthful(env, r, ins)
    ensures Inv(env, Run(r, ins), JobAfter(env, r, j, ins))
  {
    if |ins| > 0 {
      var pre, n := ins[..|ins| - 1], |ins| - 1;
      assert forall t :: 0 <= t < |pre| ==> pre[t] == ins[t] && pre[..t] == ins[..t];
      Reachable(env, r, j, pre);
      assert Answers(env, Run(r, ins[..n]), ins[n].d);
      hide Inv, Answers, Step;
      StepKeeps(env, Run(r, pre), JobAfter(env, r, j, pre), ins[n].l, ins[n].d);
    }
  }

  lemma {:induction false} ResetOk(env: Env)
    ensures Inv(env, Reset, None)
  {
  }

  /** Root cache: after any run from reset, with any mtspr and tlbie in it, a root cached as valid is the
      process-table entry of the current registers, so a walk from it is the walk that refetches it. */
  lemma {:induction false} CachedRoot(env: Env, ins: seq<Input>, a: Access)
    requires Truthful(env, Reset, ins)
    ensures var c := Run(Reset, ins).roots;
      && RootsOk(env, c)
      && ((if Quadrant3(a.addr) then c.pt3Valid else c.pt0Valid) ==>
            FromTable(env, a, if Quadrant3(a.addr) then c.pgtbl3 else c.pgtbl0) == Translate(env, c.prtbl, c.pid, a))
  {
    ResetOk(env);
    Reachable(env, Reset, None, ins);
    hide Run, FromTable;
  }

  /** What the pulse says is what the request must come to. */
  predicate Tells(r: Reg, result: Result) {
    match result
    case Translated(_) => r.done && !r.err && !r.flags.Any()
    case Failed(why) => r.err && !r.done && r.flags == why
  }

  lemma {:induction false} PulseTells(env: Env, r: Reg, j: Job)
    requires Inv(env, r, j) && j.Job? && (r.done || r.err)
    ensures Tells(r, j.result)
    ensures r.state == RADIX_LOAD_TLB ==> j.result == Translated(Pte(r.at.pde, r.req.addr, r.at.shift))
  {
  }

  /** A service ends with its pulse: in a busy state, done or err is up exactly if the next is idle. */
  lemma {:induction false} PulseEnds(env: Env, r: Reg, j: Job, l: LoadStore, d: DCache)
    requires Inv(env, r, j) && Answers(env, r, d) && r.state != IDLE
    ensures r.done || r.err <==> Step(r, l, d).state == IDLE
    ensures !(r.done && r.err)
  {
    hide Bits, Bit, Base, Mbits, OutsideSegment, PermOk, RcOk, Walk, Translate, Checked, FromRoot, CacheRoot, Pte;
  }

  /** Busy in every cycle but perhaps the last. */
  predicate BusyBefore(r: Reg, ins: seq<Input>) {
    forall t :: 0 <= t < |ins| ==> Run(r, ins[..t]).state != IDLE
  }

  lemma {:induction false} LastCycle(env: Env, r: Reg, ins: seq<Input>)
    requires |ins| > 0 && Truthful(env, r, ins) && BusyBefore(r, ins)
    ensures var pre, last := ins[..|ins| - 1], ins[|ins| - 1];
      && Truthful(env, r, pre) && BusyBefore(r, pre) && Answers(env, Run(r, pre), last.d)
      && Run(r, pre).state != IDLE && Run(r, ins) == Step(Run(r, pre), last.l, last.d)
  {
    hide Step, Answers;
    var pre, n := ins[..|ins| - 1], |ins| - 1;
    assert forall t :: 0 <= t < |pre| ==> pre[t] == ins[t] && pre[..t] == ins[..t];
    assert Answers(env, Run(r, ins[..n]), ins[n].d);
    assert Run(r, ins[..n]).state != IDLE;
  }

  lemma {:induction false} SameJob(env: Env, r: Reg, j: Job, ins: seq<Input>)
    requires BusyBefore(r, ins) && Run(r, ins).state != IDLE && j.Job?
    ensures JobAfter(env, r, j, ins).Job? && JobAfter(env, r, j, ins).result == j.result
    ensures JobAfter(env, r, j, ins).a == j.a
  {
    hide Step, Translate;
    if |ins| > 0 {
      var pre := ins[..|ins| - 1];
      assert forall t :: 0 <= t < |pre| ==> pre[..t] == ins[..t];
      assert Run(r, ins[..|ins| - 1]).state != IDLE;
      SameJob(env, r, j, pre);
    }
  }

  /** Every accepted request is served once and rightly: until the service ends no pulse, in its last cycle
      one pulse that tells the result of the recursive walk from a freshly fetched root, never both wires;
      and the only TLB entry loaded on the way is the one translated. */
  lemma {:induction false} ServedOnce(env: Env, r: Reg, first: Input, ins: seq<Input>)
    requires Inv(env, r, None) && Accepts(r, first.l) && Answers(env, r, first.d)
    requires var s := Step(r, first.l, first.d);
      Truthful(env, s, ins) && BusyBefore(s, ins) && |ins| > 0 && Run(s, ins).state == IDLE
    ensures var s, a := Step(r, first.l, first.d), Requested(first.l);
      var result := Translate(env, r.roots.prtbl, r.roots.pid, a);
      && (forall t :: 0 <= t < |ins| - 1 ==> !Run(s, ins[..t]).done && !Run(s, ins[..t]).err)
      && Tells(Run(s, ins[..|ins| - 1]), result)
      && (forall t :: 0 <= t < |ins| && Run(s, ins[..t]).state == RADIX_LOAD_TLB ==>
            result == Translated(Pte(Run(s, ins[..t]).at.pde, a.addr, Run(s, ins[..t]).at.shift)))
  {
    var s := Step(r, first.l, first.d);
    var j := NextJob(env, r, s, None, first.l);
    StepKeeps(env, r, None, first.l, first.d);
    forall t | 0 <= t < |ins|
      ensures t < |ins| - 1 ==> !Run(s, ins[..t]).done && !Run(s, ins[..t]).err
      ensures t == |ins| - 1 ==> Tells(Run(s, ins[..t]), j.result)
      ensures Run(s, ins[..t]).state == RADIX_LOAD_TLB ==>
        j.result == Translated(Pte(Run(s, ins[..t]).at.pde, j.a.addr, Run(s, ins[..t]).at.shift))
    {
      ServiceCycle(env, s, j, ins, t);
    }
  }

  /** Cycle t of a service. */
  lemma {:induction false} ServiceCycle(env: Env, s: Reg, j: Job, ins: seq<Input>, t: nat)
    requires Inv(env, s, j) && j.Job? && Truthful(env, s, ins) && BusyBefore(s, ins) && t < |ins|
    requires Run(s, ins).state == IDLE
    ensures t < |ins| - 1 ==> !Run(s, ins[..t]).done && !Run(s, ins[..t]).err
    ensures t == |ins| - 1 ==> Tells(Run(s, ins[..t]), j.result)
    ensures Run(s, ins[..t]).state == RADIX_LOAD_TLB ==>
      j.result == Translated(Pte(Run(s, ins[..t]).at.pde, j.a.addr, Run(s, ins[..t]).at.shift))
  {
    hide Step, Translate, Answers, Tells, Inv, Pte;
    Prefix(env, s, ins, t);
    var pre, post := ins[..t], ins[..t + 1];
    Reachable(env, s, j, pre);
    SameJob(env, s, j, pre);
    LastCycle(env, s, post);
    assert post[..|post| - 1] == pre && post[t] == ins[t];
    assert t + 1 == |ins| ==> post == ins;
    var e, k := Run(s, pre), JobAfter(env, s, j, pre);
    PulseEnds(env, e, k, ins[t].l, ins[t].d);
    if e.done || e.err {
      PulseTells(env, e, k);
    }
    LoadIsResult(env, e, k);
  }

  lemma {:induction false} Prefix(env: Env, s: Reg, ins: seq<Input>, t: nat)
    requires Truthful(env, s, ins) && BusyBefore(s, ins) && t < |ins|
    ensures Truthful(env, s, ins[..t]) && BusyBefore(s, ins[..t])
    ensures Truthful(env, s, ins[..t + 1]) && BusyBefore(s, ins[..t + 1])
    ensures Run(s, ins[..t]).state != IDLE && (t + 1 < |ins| ==> Run(s, ins[..t + 1]).state != IDLE)
  {
    hide Run, Answers;
    assert forall k :: 0 <= k < t + 1 ==> ins[..t + 1][k] == ins[k] && ins[..t + 1][..k] == ins[..k];
    assert forall k :: 0 <= k < t ==> ins[..t][k] == ins[k] && ins[..t][..k] == ins[..k];
  }

  lemma {:induction false} LoadIsResult(env: Env, r: Reg, j: Job)
    requires Inv(env, r, j) && j.Job?
    ensures j.a == r.req
    ensures r.state == RADIX_LOAD_TLB ==> j.result == Translated(Pte(r.at.pde, r.req.addr, r.at.shift))
  {
  }

  /** The cache makes the walker wait. */
  predicate Waiting(r: Reg, d: DCache) {
    || (r.state == TLB_WAIT && !d.done)
    || (r.state in {PROC_TBL_WAIT, RADIX_READ_WAIT} && !d.done && !d.err)
  }

  /** Termination measure of a service: falls in every cycle the cache does not make it wait. */
  function Rank(r: Reg): nat {
    match r.state
    case IDLE => 0
    case RADIX_FINISH => 1
    case TLB_WAIT => 2
    case DO_TLBIE => 3
    case RADIX_LOAD_TLB => 4
    case RADIX_READ_WAIT => 5 + 2 * r.at.shift
    case RADIX_LOOKUP => 6 + 2 * r.at.shift
    case SEGMENT_CHECK => 107
    case PROC_TBL_WAIT => 108
    case PROC_TBL_READ => 109
  }

  lemma {:induction false} RankFalls(env: Env, r: Reg, j: Job, l: LoadStore, d: DCache)
    requires Inv(env, r, j) && Answers(env, r, d) && r.state != IDLE
    ensures Waiting(r, d) ==> Rank(Step(r, l, d)) == Rank(r)
    ensures !Waiting(r, d) ==> Rank(Step(r, l, d)) < Rank(r)
  {
    hide Bits, Bit, Base, Mbits, Rts, OutsideSegment, PermOk, RcOk, Walk, Translate, Checked, CacheRoot, Pte, RootsOk;
  }

  /** Cycles in which the cache does not make the walker wait. */
  function Working(r: Reg, ins: seq<Input>): nat {
    if |ins| == 0 then 0
    else
      var pre := ins[..|ins| - 1];
      Working(r, pre) + (if Waiting(Run(r, pre), ins[|ins| - 1].d) then 0 else 1)
  }

  lemma {:induction false} RankBound(env: Env, r: Reg, j: Job)
    requires Inv(env, r, j)
    ensures Rank(r) <= 109
  {
    hide RootsOk, Translate, Checked, Walk, Pte;
  }

  lemma {:induction false} RankPaysWork(env: Env, r: Reg, j: Job, ins: seq<Input>)
    requires Inv(env, r, j) && Truthful(env, r, ins) && BusyBefore(r, ins)
    ensures Rank(Run(r, ins)) + Working(r, ins) <= Rank(r)
  {
    hide Inv, Answers, Step, Rank, Waiting, Truthful, BusyBefore;
    if |ins| > 0 {
      var pre, last := ins[..|ins| - 1], ins[|ins| - 1];
      LastCycle(env, r, ins);
      RankPaysWork(env, r, j, pre);
      Reachable(env, r, j, pre);
      RankFalls(env, Run(r, pre), JobAfter(env, r, j, pre), last.l, last.d);
    }
  }

  /** A service ends within 109 working cycles, however long the cache waits in between. */
  lemma {:induction false} Terminates(env: Env, r: Reg, j: Job, ins: seq<Input>)
    requires Inv(env, r, j) && Truthful(env, r, ins) && BusyBefore(r, ins)
    ensures Working(r, ins) <= 109
  {
    hide *;
    RankPaysWork(env, r, j, ins);
    RankBound(env, r, j);
  }

  /** In the walk the bits left and the index widths taken add up to the tree size plus 19, and at most
      ten tables are read. */
  lemma {:induction false} WidthsAddUp(env: Env, r: Reg, j: Job)
    requires Inv(env, r, j) && r.state in {RADIX_LOOKUP, RADIX_READ_WAIT}
    ensures j.Job? && r.at.shift + j.consumed == j.rts + 19 && j.rts <= 31 && j.lookups + 1 <= 10
  {
  }

  /** A table that is not a leaf takes at least five bits, and the six-bit register never wraps. */
  lemma {:induction false} ShiftFalls(env: Env, r: Reg, j: Job, l: LoadStore, d: DCache)
    requires Inv(env, r, j) && Answers(env, r, d) && r.state == RADIX_READ_WAIT
    ensures var t := Step(r, l, d);
      t.state == RADIX_LOOKUP ==> t.at.shift + t.at.maskSize == r.at.shift && 5 <= t.at.maskSize <= 16
  {
    hide Bits, Bit, Base, Mbits, PermOk, RcOk, Walk, Translate, Checked, Pte, RootsOk;
  }

  function Count(r: Reg, ins: seq<Input>, s: Stage): nat {
    (if Run(r, ins).state == s then 1 else 0) + if |ins| == 0 then 0 else Count(r, ins[..|ins| - 1], s)
  }

  /** One service reads the process table at most once and at most ten tree tables. */
  lemma {:induction false} AtMostTenLookups(env: Env, r: Reg, first: Input, ins: seq<Input>)
    requires Inv(env, r, None) && Accepts(r, first.l) && Answers(env, r, first.d)
    requires var s := Step(r, first.l, first.d); Truthful(env, s, ins) && BusyBefore(s, ins)
    ensures var s := Step(r, first.l, first.d);
      Count(s, ins, RADIX_LOOKUP) <= 10 && Count(s, ins, PROC_TBL_READ) <= 1
  {
    var s := Step(r, first.l, first.d);
    var j := NextJob(env, r, s, None, first.l);
    StepKeeps(env, r, None, first.l, first.d);
    AcceptedStages(r, first.l, first.d);
    hide Step;
    CountLookups(env, s, j, ins);
  }

  lemma {:induction false} AcceptedStages(r: Reg, l: LoadStore, d: DCache)
    requires Accepts(r, l)
    ensures Step(r, l, d).state in {PROC_TBL_READ, SEGMENT_CHECK, RADIX_FINISH}
  {
    hide Bits, Bit, Base, Mbits, Rts;
  }

  /** Lookups begun so far, by stage. */
  predicate Tally(s: Reg, j: Job, lookups: nat, fetches: nat) {
    && (s.state == PROC_TBL_READ ==> lookups == 0 && fetches == 1)
    && (s.state in {PROC_TBL_WAIT, SEGMENT_CHECK} ==> lookups == 0 && fetches <= 1)
    && (s.state in {RADIX_LOOKUP, RADIX_READ_WAIT} ==> j.Job? && lookups == j.lookups + 1 && fetches <= 1)
    && lookups <= 10 && fetches <= 1
  }

  /** One cycle of a translation adds the lookup or the fetch it begins. */
  lemma {:induction false} TallyStep(env: Env, r: Reg, j: Job, l: LoadStore, d: DCache, lookups: nat, fetches: nat)
    requires Inv(env, r, j) && Answers(env, r, d) && r.state != IDLE && r.state != DO_TLBIE
    requires Tally(r, j, lookups, fetches)
    ensures var t := Step(r, l, d);
      && Tally(t, NextJob(env, r, t, j, l), lookups + (if t.state == RADIX_LOOKUP then 1 else 0),
               fetches + (if t.state == PROC_TBL_READ then 1 else 0))
      && t.state != DO_TLBIE
  {
    hide Bits, Bit, Base, Mbits, Rts, OutsideSegment, PermOk, RcOk, Walk, Translate, Checked, CacheRoot, Pte, RootsOk;
  }

  lemma {:induction false} CountLookups(env: Env, s: Reg, j: Job, ins: seq<Input>)
    requires Inv(env, s, j) && j.Job? && Truthful(env, s, ins) && BusyBefore(s, ins)
    requires s.state in {PROC_TBL_READ, SEGMENT_CHECK, RADIX_FINISH}
    ensures Tally(Run(s, ins), JobAfter(env, s, j, ins), Count(s, ins, RADIX_LOOKUP), Count(s, ins, PROC_TBL_READ))
    ensures Run(s, ins).state != DO_TLBIE
  {
    hide Inv, Answers, Step, Truthful, BusyBefore;
    if |ins| > 0 {
      hide Tally;
      var pre, last := ins[..|ins| - 1], ins[|ins| - 1];
      LastCycle(env, s, ins);
      CountLookups(env, s, j, pre);
      Reachable(env, s, j, pre);
      TallyStep(env, Run(s, pre), JobAfter(env, s, j, pre), last.l, last.d,
                Count(s, pre, RADIX_LOOKUP), Count(s, pre, PROC_TBL_READ));
    }
  }

  /** A tlbie, or a write to a configuration register, accepted in the idle state. */
  predicate Invalidates(r: Reg, l: LoadStore) { r.state == IDLE && ((l.valid && l.tlbie) || l.mtspr) }

  lemma {:induction false} NoJob(env: Env, r: Reg, ins: seq<Input>)
    requires BusyBefore(r, ins)
    ensures JobAfter(env, r, None, ins) == None
  {
    if |ins| > 0 {
      var pre := ins[..|ins| - 1];
      assert forall t :: 0 <= t < |pre| ==> pre[..t] == ins[..t];
      assert Run(r, ins[..|ins| - 1]).state != IDLE;
      hide Step;
      NoJob(env, r, pre);
    }
  }

  /** Invalidations are served too: the request goes to the caches in the next cycle, for all entries exactly if
      it writes a register or asks for it, and the service ends with one done pulse and never an err. */
  lemma {:induction false} InvalidationServed(env: Env, r: Reg, first: Input, ins: seq<Input>)
    requires Inv(env, r, None) && Invalidates(r, first.l) && Answers(env, r, first.d)
    requires var s := Step(r, first.l, first.d);
      Truthful(env, s, ins) && BusyBefore(s, ins) && |ins| > 0 && Run(s, ins).state == IDLE
    ensures var s := Step(r, first.l, first.d);
      && s.state == DO_TLBIE && (s.invalAll <==> first.l.mtspr || Flush(first.l))
      && (forall t :: 0 <= t < |ins| - 1 ==> !Run(s, ins[..t]).done)
      && (forall t :: 0 <= t < |ins| ==> !Run(s, ins[..t]).err)
      && Run(s, ins[..|ins| - 1]).done
  {
    var s := Step(r, first.l, first.d);
    InvalidationStarts(env, r, first.l, first.d);
    forall t | 0 <= t < |ins|
      ensures !Run(s, ins[..t]).err && (Run(s, ins[..t]).done <==> t == |ins| - 1)
    {
      InvalidationCycle(env, s, ins, t);
    }
  }

  lemma {:induction false} InvalidationStarts(env: Env, r: Reg, l: LoadStore, d: DCache)
    requires Inv(env, r, None) && Invalidates(r, l) && Answers(env, r, d)
    ensures var s := Step(r, l, d);
      s.state == DO_TLBIE && (s.invalAll <==> l.mtspr || Flush(l)) && Inv(env, s, None) && !s.done && !s.err
  {
    StepKeeps(env, r, None, l, d);
    hide Bits, Bit, Base, Mbits, Rts, Flush, RootsOk, Translate;
  }

  lemma {:induction false} InvalidationCycle(env: Env, s: Reg, ins: seq<Input>, t: nat)
    requires Inv(env, s, None) && Truthful(env, s, ins) && BusyBefore(s, ins) && t < |ins| && Run(s, ins).state == IDLE
    ensures !Run(s, ins[..t]).err && (Run(s, ins[..t]).done <==> t == |ins| - 1)
  {
    hide Step, Answers, Inv;
    Prefix(env, s, ins, t);
    var pre, post := ins[..t], ins[..t + 1];
    Reachable(env, s, None, pre);
    NoJob(env, s, pre);
    LastCycle(env, s, post);
    assert post[..|post| - 1] == pre && post[t] == ins[t];
    assert t + 1 == |ins| ==> post == ins;
    PulseEnds(env, Run(s, pre), None, ins[t].l, ins[t].d);
    NoFailure(env, Run(s, pre));
  }

  lemma {:induction false} NoFailure(env: Env, r: Reg)
    requires Inv(env, r, None) && r.state != IDLE
    ensures !r.err
  {
    hide RootsOk;
  }

  /** The configuration registers change only by an mtspr met in the idle state, each by its own number. */
  lemma {:induction false} RegistersFollow(r: Reg, l: LoadStore, d: DCache)
    ensures var c, was := Step(r, l, d).roots, r.roots;
      if r.state == IDLE && l.mtspr then
        if Bit(l.sprn, 9) then c.prtbl == l.rs && c.pid == was.pid
        else c.pid == Bits(l.rs, 0, 32) && c.prtbl == was.prtbl
      else c.prtbl == was.prtbl && c.pid == was.pid
  {
    hide Base, Mbits, Rts, OutsideSegment, PermOk, RcOk, Flush;
  }
}
