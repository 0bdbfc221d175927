/** The walker as its caches see it: what it asks for, and that a service is right if what it asks for is
    answered. */
module MmuBus {
  import opened Words
  import opened Mmu
  import opened MmuProof
  import opened MmuTheorems

  datatype Event = Read(adr: nat) | LoadData(page: nat, pte: nat) | LoadInsn(page: nat, pte: nat)
    | Invalidate(all: bool, addr: nat)

  /** What the wires of one cycle ask for: of the data cache, and of the instruction cache. */
  function Asks(o: Out): seq<Event> {
    (if !o.dcreq then []
     else if o.tlbie then [Invalidate(o.doall, o.addr)]
     else if o.tlbld then [LoadData(o.addr, o.pte)]
     else [Read(o.addr)])
    + if o.itlbld then [LoadInsn(o.addr, o.pte)] else []
  }

  /** Everything asked for in the given cycles. */
  function Sent(index: Index, r: Reg, ins: seq<Input>): seq<Event> {
    if |ins| == 0 then []
    else Sent(index, r, ins[..|ins| - 1]) + Asks(Outputs(index, Run(r, ins[..|ins| - 1])))
  }

  function LastRead(adr: nat, events: seq<Event>): nat {
    if |events| > 0 && events[0].Read? then events[0].adr else adr
  }

  /** The address last read. */
  function Asked(index: Index, adr: nat, r: Reg, ins: seq<Input>): nat {
    if |ins| == 0 then adr
    else
      var pre := ins[..|ins| - 1];
      LastRead(Asked(index, adr, r, pre), Asks(Outputs(index, Run(r, pre))))
  }

  /** The data cache answers the address last read with what memory has there, and never done and err
      together. */
  predicate AnswersTo(env: Env, adr: nat, r: Reg, d: DCache) {
    !(d.done && d.err) && (r.state == PROC_TBL_WAIT || r.state == RADIX_READ_WAIT ==> Truth(env, adr, d))
  }

  predicate Honest(env: Env, adr: nat, r: Reg, ins: seq<Input>) {
    forall t :: 0 <= t < |ins| ==> AnswersTo(env, Asked(env.index, adr, r, ins[..t]), Run(r, ins[..t]), ins[t].d)
  }

  /** The address on the wires is the one the walk needs. */
  predicate AskedOk(env: Env, adr: nat, r: Reg) {
    && (r.state == PROC_TBL_READ ==> r.at.shift == Bits(r.roots.prtbl, 0, 5))
    && (r.state == PROC_TBL_WAIT ==> adr == ProcEntry(r.roots.prtbl, EffPid(r.roots.pid, r.req.addr)))
    && (r.state == RADIX_READ_WAIT ==> adr == Entry(env, r.at.pgbase, r.at.shift, r.at.maskSize, r.req.addr))
  }

  /** Every read asks for the right address: the process-table entry of (prtbl, effective pid), or the entry of
      the current table. */
  lemma {:induction false} AskedKeeps(env: Env, adr: nat, r: Reg, l: LoadStore, d: DCache)
    requires AskedOk(env, adr, r)
    ensures AskedOk(env, LastRead(adr, Asks(Outputs(env.index, r))), Step(r, l, d))
    ensures AnswersTo(env, adr, r, d) ==> Answers(env, r, d)
  {
    hide Bits, Bit, Base, Mbits, Rts, OutsideSegment, PermOk, RcOk, Flush, PrtbAdr, TableAdr, Pte, Page, CacheRoot;
  }

  lemma {:induction false} LastAnswer(env: Env, adr: nat, r: Reg, ins: seq<Input>)
    requires |ins| > 0 && Honest(env, adr, r, ins)
    ensures var pre, last := ins[..|ins| - 1], ins[|ins| - 1];
      Honest(env, adr, r, pre) && AnswersTo(env, Asked(env.index, adr, r, pre), Run(r, pre), last.d)
  {
    hide Run, Asked, AnswersTo;
    var pre, n := ins[..|ins| - 1], |ins| - 1;
    assert forall t :: 0 <= t < |pre| ==> pre[t] == ins[t] && pre[..t] == ins[..t];
    assert AnswersTo(env, Asked(env.index, adr, r, ins[..n]), Run(r, ins[..n]), ins[n].d);
  }

  /** So a data cache that tells the truth about what is asked tells the truth about what the walk needs. */
  lemma {:induction false} AnswersNeeded(env: Env, adr: nat, r: Reg, ins: seq<Input>)
    requires AskedOk(env, adr, r) && Honest(env, adr, r, ins)
    ensures Truthful(env, r, ins) && AskedOk(env, Asked(env.index, adr, r, ins), Run(r, ins))
  {
    hide AskedOk, AnswersTo, Answers, Step, Outputs, Asks, LastRead, Honest;
    if |ins| > 0 {
      var pre, n := ins[..|ins| - 1], |ins| - 1;
      LastAnswer(env, adr, r, ins);
      AnswersNeeded(env, adr, r, pre);
      AskedKeeps(env, Asked(env.index, adr, r, pre), Run(r, pre), ins[n].l, ins[n].d);
      forall t | 0 <= t < |ins|
        ensures Answers(env, Run(r, ins[..t]), ins[t].d)
      {
        if t < n {
          assert pre[..t] == ins[..t] && Answers(env, Run(r, pre[..t]), pre[t].d);
        } else {
          assert ins[..t] == pre;
        }
      }
    }
  }

  /** What a walk asks for: every table's entry in turn, and a load of the leaf into the TLB of the side that
      missed if and only if access is allowed and recorded. */
  function LoadEvent(a: Access, pte: nat): Event {
    if a.iside then LoadInsn(Page(a.addr), pte) else LoadData(Page(a.addr), pte)
  }

  function WalkEvents(env: Env, a: Access, shift: nat, width: nat, base: nat): seq<Event>
    decreases shift, 1
  {
    var adr := Entry(env, base, shift, width, a.addr);
    [Read(adr)] + EntryEvents(env, a, shift, env.mem(adr))
  }

  function EntryEvents(env: Env, a: Access, shift: nat, entry: Resp): seq<Event>
    decreases shift, 0
  {
    if entry.Fault? || !Bit(entry.word, 63) then []
    else if Bit(entry.word, 62) then
      if MayAccess(a, entry.word) && Recorded(a, entry.word) then [LoadEvent(a, Pte(entry.word, a.addr, shift))] else []
    else if 5 <= Mbits(entry.word) <= 16 && Mbits(entry.word) <= shift then
      WalkEvents(env, a, shift - Mbits(entry.word), Mbits(entry.word), Base(entry.word))
    else []
  }

  function CheckedEvents(env: Env, a: Access, rts: nat, width: nat, base: nat): seq<Event> {
    if OutsideSegment(a.addr, rts) || width < 5 || width > 16 || width > rts + 19 then []
    else WalkEvents(env, a, rts + 19 - width, width, base)
  }

  function RootEvents(env: Env, a: Access, root: Resp): seq<Event> {
    if root.Fault? || Mbits(root.word) == 0 then []
    else CheckedEvents(env, a, Rts(root.word), Mbits(root.word), Base(root.word))
  }

  /** A translation reads its process-table entry unless it is cached. */
  function TranslateEvents(env: Env, prtbl: nat, pid: nat, a: Access, cached: bool): seq<Event> {
    var adr := ProcEntry(prtbl, EffPid(pid, a.addr));
    (if cached then [] else [Read(adr)]) + RootEvents(env, a, env.mem(adr))
  }

  predicate IsLoad(e: Event) { e.LoadData? || e.LoadInsn? }

  function Loads(events: seq<Event>): seq<Event> {
    if |events| == 0 then []
    else if IsLoad(events[0]) then [events[0]] + Loads(events[1..]) else Loads(events[1..])
  }

  /** One load if the result is a translation, of that entry, and none otherwise. */
  function LoadsOf(a: Access, result: Result): seq<Event> {
    if result.Translated? then [LoadEvent(a, result.pte)] else []
  }

  lemma {:induction false} WalkLoads(env: Env, a: Access, shift: nat, width: nat, base: nat)
    ensures Loads(WalkEvents(env, a, shift, width, base)) == LoadsOf(a, Walk(env, a, shift, width, base))
    decreases shift
  {
    hide Entry, Bit, Mbits, Base, Pte, Page, MayAccess, Recorded;
    var adr := Entry(env, base, shift, width, a.addr);
    var entry := env.mem(adr);
    var rest := EntryEvents(env, a, shift, entry);
    assert WalkEvents(env, a, shift, width, base)[1..] == rest;
    assert Loads(WalkEvents(env, a, shift, width, base)) == Loads(rest);
    if entry.Data? && Bit(entry.word, 63) && !Bit(entry.word, 62) {
      if 5 <= Mbits(entry.word) <= 16 && Mbits(entry.word) <= shift {
        WalkLoads(env, a, shift - Mbits(entry.word), Mbits(entry.word), Base(entry.word));
      }
    } else if entry.Data? {
      LoadsOne(LoadEvent(a, Pte(entry.word, a.addr, shift)));
    }
  }

  lemma LoadsOne(e: Event)
    requires IsLoad(e)
    ensures Loads([e]) == [e]
  {
    assert [e][1..] == [];
  }

  /** The TLB load of a whole translation is its result. */
  lemma {:induction false} TranslateLoads(env: Env, prtbl: nat, pid: nat, a: Access, cached: bool)
    ensures Loads(TranslateEvents(env, prtbl, pid, a, cached)) == LoadsOf(a, Translate(env, prtbl, pid, a))
  {
    hide Entry, Mbits, Base, Rts, OutsideSegment, WalkEvents, Walk, LoadEvent, ProcEntry;
    var root := env.mem(ProcEntry(prtbl, EffPid(pid, a.addr)));
    var events := RootEvents(env, a, root);
    if root.Data? && 5 <= Mbits(root.word) <= 16 && Mbits(root.word) <= Rts(root.word) + 19 {
      WalkLoads(env, a, Rts(root.word) + 19 - Mbits(root.word), Mbits(root.word), Base(root.word));
    }
    assert !cached ==> TranslateEvents(env, prtbl, pid, a, cached)[1..] == events;
    assert cached ==> TranslateEvents(env, prtbl, pid, a, cached) == events;
  }

  /** What is still to be asked for. */
  function Todo(env: Env, r: Reg): seq<Event> {
    match r.state
    case IDLE => []
    case TLB_WAIT => []
    case RADIX_FINISH => []
    case DO_TLBIE => [Invalidate(r.invalAll, r.req.addr)]
    case PROC_TBL_READ => TranslateEvents(env, r.roots.prtbl, r.roots.pid, r.req, false)
    case PROC_TBL_WAIT => RootEvents(env, r.req, env.mem(ProcEntry(r.roots.prtbl, EffPid(r.roots.pid, r.req.addr))))
    case SEGMENT_CHECK => CheckedEvents(env, r.req, r.at.shift, r.at.maskSize, r.at.pgbase)
    case RADIX_LOOKUP => WalkEvents(env, r.req, r.at.shift, r.at.maskSize, r.at.pgbase)
    case RADIX_READ_WAIT =>
      EntryEvents(env, r.req, r.at.shift, env.mem(Entry(env, r.at.pgbase, r.at.shift, r.at.maskSize, r.req.addr)))
    case RADIX_LOAD_TLB => [LoadEvent(r.req, Pte(r.at.pde, r.req.addr, r.at.shift))]
  }

  /** Each cycle asks for the next thing to be asked for. */
  lemma {:induction false} TodoStep(env: Env, adr: nat, r: Reg, j: Job, l: LoadStore, d: DCache)
    requires Inv(env, r, j) && Answers(env, r, d) && AskedOk(env, adr, r) && r.state != IDLE
    ensures Todo(env, r) == Asks(Outputs(env.index, r)) + Todo(env, Step(r, l, d))
  {
    if r.state == RADIX_READ_WAIT {
      TodoEntry(env, adr, r, j, l, d);
    } else {
      TodoOther(env, adr, r, j, l, d);
    }
  }

  lemma {:induction false} TodoEntry(env: Env, adr: nat, r: Reg, j: Job, l: LoadStore, d: DCache)
    requires Inv(env, r, j) && Answers(env, r, d) && r.state == RADIX_READ_WAIT
    ensures Todo(env, r) == Asks(Outputs(env.index, r)) + Todo(env, Step(r, l, d))
  {
    hide Bits, Bit, Base, Rts, Mbits, Page, Pte, TableAdr, RootsOk, Translate, Checked, Walk, WalkEvents, CheckedEvents,
      RootEvents, TranslateEvents;
  }

  lemma {:induction false} TodoOther(env: Env, adr: nat, r: Reg, j: Job, l: LoadStore, d: DCache)
    requires Inv(env, r, j) && Answers(env, r, d) && AskedOk(env, adr, r)
    requires r.state != IDLE && r.state != RADIX_READ_WAIT
    ensures Todo(env, r) == Asks(Outputs(env.index, r)) + Todo(env, Step(r, l, d))
  {
    hide Bits, Bit, Base, Rts, Mbits, Page, Pte, OutsideSegment, PermOk, RcOk, Flush, PrtbAdr, TableAdr, RootsOk,
      Translate, Checked, Walk, EntryEvents, CacheRoot;
  }

  lemma {:induction false} SentIsTodo(env: Env, adr: nat, r: Reg, j: Job, ins: seq<Input>)
    requires Inv(env, r, j) && AskedOk(env, adr, r) && Honest(env, adr, r, ins) && BusyBefore(r, ins)
    ensures Todo(env, r) == Sent(env.index, r, ins) + Todo(env, Run(r, ins))
  {
    hide Inv, AskedOk, Answers, Step, Outputs, Asks, LastRead, Honest, Todo, BusyBefore, Truthful;
    if |ins| > 0 {
      var pre, last := ins[..|ins| - 1], ins[|ins| - 1];
      AnswersNeeded(env, adr, r, ins);
      LastCycle(env, r, ins);
      LastAnswer(env, adr, r, ins);
      SentIsTodo(env, adr, r, j, pre);
      AnswersNeeded(env, adr, r, pre);
      Reachable(env, r, j, pre);
      TodoStep(env, Asked(env.index, adr, r, pre), Run(r, pre), JobAfter(env, r, j, pre), last.l, last.d);
    }
  }

  /** The cached root of an address is valid. */
  predicate Cached(c: Roots, addr: nat) { if Quadrant3(addr) then c.pt3Valid else c.pt0Valid }

  /** An accepted request leaves all of its translation to be asked for. */
  lemma {:induction false} AcceptedTodo(env: Env, adr: nat, r: Reg, l: LoadStore, d: DCache)
    requires Inv(env, r, None) && Accepts(r, l)
    ensures var s, a := Step(r, l, d), Requested(l);
      && s.state != IDLE && AskedOk(env, adr, s)
      && Todo(env, s) == TranslateEvents(env, r.roots.prtbl, r.roots.pid, a, Cached(r.roots, a.addr))
  {
    hide Bits, Bit, Base, Rts, Mbits, OutsideSegment, Flush, PrtbAdr, Translate, Walk, WalkEvents;
  }

  /** Every accepted request is served once and rightly. The walker asks for exactly what the recursive walk needs,
      in order; if the data cache tells the truth about what it is asked, there is no pulse until the service
      ends and one pulse in its last cycle, which tells the walk's result; and if that is a translation the TLB
      of the side that missed, and no other, is loaded with it, once. */
  lemma {:induction false} ServedRightly(env: Env, adr: nat, r: Reg, first: Input, ins: seq<Input>)
    requires Inv(env, r, None) && Accepts(r, first.l) && !(first.d.done && first.d.err)
    requires var s := Step(r, first.l, first.d);
      Honest(env, adr, s, ins) && BusyBefore(s, ins) && |ins| > 0 && Run(s, ins).state == IDLE
    ensures var s, a := Step(r, first.l, first.d), Requested(first.l);
      var result := Translate(env, r.roots.prtbl, r.roots.pid, a);
      var sent := Sent(env.index, s, ins);
      && (forall t :: 0 <= t < |ins| - 1 ==> !Run(s, ins[..t]).done && !Run(s, ins[..t]).err)
      && Tells(Run(s, ins[..|ins| - 1]), result)
      && sent == TranslateEvents(env, r.roots.prtbl, r.roots.pid, a, Cached(r.roots, a.addr))
      && Loads(sent) == LoadsOf(a, result)
  {
    var s, a := Step(r, first.l, first.d), Requested(first.l);
    hide Inv, Step, Outputs, Translate, TranslateEvents, Loads, Sent, Tells, Honest, BusyBefore, AskedOk, Requested;
    AcceptedTodo(env, adr, r, first.l, first.d);
    IdleAnswers(env, r, first.d);
    AcceptedInv(env, r, first.l, first.d);
    AnswersNeeded(env, adr, s, ins);
    ServedOnce(env, r, first, ins);
    SentIsTodo(env, adr, s, NextJob(env, r, s, None, first.l), ins);
    TranslateLoads(env, r.roots.prtbl, r.roots.pid, a, Cached(r.roots, a.addr));
  }

  lemma IdleAnswers(env: Env, r: Reg, d: DCache)
    requires r.state == IDLE && !(d.done && d.err)
    ensures Answers(env, r, d)
  {
  }

  lemma {:induction false} AcceptedInv(env: Env, r: Reg, l: LoadStore, d: DCache)
    requires Inv(env, r, None) && Answers(env, r, d)
    ensures Inv(env, Step(r, l, d), NextJob(env, r, Step(r, l, d), None, l))
  {
    StepKeeps(env, r, None, l, d);
  }

  /** Root cache: after any run from reset, with any mtspr and tlbie in it, a root cached as valid is the
      process-table entry of the current registers, so a walk from it is the walk that refetches it. */
  lemma {:induction false} CachedRootIsCurrent(env: Env, adr: nat, ins: seq<Input>, a: Access)
    requires Honest(env, adr, Reset, ins)
    ensures var c := Run(Reset, ins).roots;
      && RootsOk(env, c)
      && (Cached(c, a.addr) ==> FromTable(env, a, if Quadrant3(a.addr) then c.pgtbl3 else c.pgtbl0)
                                == Translate(env, c.prtbl, c.pid, a))
  {
    AnswersNeeded(env, adr, Reset, ins);
    CachedRoot(env, ins, a);
    hide Run, FromTable, Translate, RootsOk;
  }

  /** Invalidations are served too: exactly one request, for all entries if the request is an mtspr or asks for
      all, with the address given, and one done pulse at the end. */
  lemma {:induction false} InvalidationSent(env: Env, adr: nat, r: Reg, first: Input, ins: seq<Input>)
    requires Inv(env, r, None) && Invalidates(r, first.l) && !(first.d.done && first.d.err)
    requires var s := Step(r, first.l, first.d);
      Honest(env, adr, s, ins) && BusyBefore(s, ins) && |ins| > 0 && Run(s, ins).state == IDLE
    ensures var s := Step(r, first.l, first.d);
      && Sent(env.index, s, ins) == [Invalidate(first.l.mtspr || Flush(first.l),
                                                if first.l.valid then first.l.addr else r.req.addr)]
      && (forall t :: 0 <= t < |ins| - 1 ==> !Run(s, ins[..t]).done)
      && (forall t :: 0 <= t < |ins| ==> !Run(s, ins[..t]).err)
      && Run(s, ins[..|ins| - 1]).done
  {
    var s := Step(r, first.l, first.d);
    InvalidationTodo(env, adr, r, first.l, first.d);
    IdleAnswers(env, r, first.d);
    AcceptedInv(env, r, first.l, first.d);
    hide Inv, Step, Outputs, Sent, Honest, BusyBefore, AskedOk, Flush;
    AnswersNeeded(env, adr, s, ins);
    InvalidationServed(env, r, first, ins);
    SentIsTodo(env, adr, s, NextJob(env, r, s, None, first.l), ins);
  }

  lemma {:induction false} InvalidationTodo(env: Env, adr: nat, r: Reg, l: LoadStore, d: DCache)
    requires Inv(env, r, None) && Invalidates(r, l)
    ensures var s := Step(r, l, d);
      AskedOk(env, adr, s)
      && Todo(env, s) == [Invalidate(l.mtspr || Flush(l), if l.valid then l.addr else r.req.addr)]
  {
    hide Bits, Bit, Base, Rts, Mbits, Flush, RootsOk;
  }

  /** Any translation ends within 109 cycles in which the data cache does not make it wait, after at most one
      read of the process table and ten of tree tables. */
  lemma {:induction false} ServiceBounded(env: Env, adr: nat, r: Reg, first: Input, ins: seq<Input>)
    requires Inv(env, r, None) && Accepts(r, first.l) && !(first.d.done && first.d.err)
    requires var s := Step(r, first.l, first.d); Honest(env, adr, s, ins) && BusyBefore(s, ins)
    ensures var s := Step(r, first.l, first.d);
      Working(s, ins) <= 109 && Count(s, ins, RADIX_LOOKUP) <= 10 && Count(s, ins, PROC_TBL_READ) <= 1
  {
    var s := Step(r, first.l, first.d);
    hide Inv, Step, Honest, BusyBefore, AskedOk, Working, Count;
    AcceptedTodo(env, adr, r, first.l, first.d);
    IdleAnswers(env, r, first.d);
    AcceptedInv(env, r, first.l, first.d);
    AnswersNeeded(env, adr, s, ins);
    Terminates(env, s, NextJob(env, r, s, None, first.l), ins);
    AtMostTenLookups(env, r, first, ins);
  }

  /** The mask width decides which entries can be told apart: two indices reach one entry if and only if
      they agree in their low `width` bits. */
  lemma {:induction false} EntriesApart(base: nat, i: nat, j: nat, width: nat)
    ensures TableAdr(base, i, width) == TableAdr(base, j, width) <==> Low(i, width) == Low(j, width)
  {
    var b := Bits(base, 3, 19);
    MaskedApart(b, i, j, width);
    ShlApart(Masked(b, i, width), Masked(b, j, width), 3);
    hide Masked, Low, Bits, Shl;
  }

  lemma {:induction false} MaskedApart(a: nat, i: nat, j: nat, width: nat)
    ensures Masked(a, i, width) == Masked(a, j, width) <==> Low(i, width) == Low(j, width)
  {
    if width > 0 {
      MaskedApart(a / 2, i / 2, j / 2, width - 1);
    }
  }

  lemma {:induction false} ShlApart(a: nat, b: nat, s: nat)
    ensures Shl(a, s) == Shl(b, s) <==> a == b
  {
    if s > 0 {
      ShlApart(a, b, s - 1);
    }
  }

  /** The leaf a walk ends in, if it ends in one that is allowed and recorded. */
  predicate LeafOf(a: Access, result: Result, d: nat, shift: nat) { result == Translated(Pte(d, a.addr, shift)) }

  /** With an index wire that says the same for every address, as one that nothing drives does, two accesses of one
      kind fail alike or end in the same leaf, whatever their addresses: pages are not told apart. */
  lemma {:induction false} UndrivenIndex(env: Env, a: Access, b: Access, shift: nat, width: nat, base: nat)
    requires (forall x: nat, y: nat, s: nat :: env.index(x, s) == env.index(y, s)) && b == a.(addr := b.addr)
    ensures var ra, rb := Walk(env, a, shift, width, base), Walk(env, b, shift, width, base);
      if ra.Failed? then ra == rb else exists d, s :: LeafOf(a, ra, d, s) && LeafOf(b, rb, d, s)
    decreases shift
  {
    hide TableAdr, Pte, Base, Mbits, Bit;
    assert Entry(env, base, shift, width, a.addr) == Entry(env, base, shift, width, b.addr);
    match env.mem(Entry(env, base, shift, width, a.addr)) {
      case Fault =>
      case Data(d) =>
        if Bit(d, 63) && !Bit(d, 62) && 5 <= Mbits(d) <= 16 && Mbits(d) <= shift {
          UndrivenIndex(env, a, b, shift - Mbits(d), Mbits(d), Base(d));
        } else if Bit(d, 63) && Bit(d, 62) && MayAccess(a, d) && Recorded(a, d) {
          assert LeafOf(a, Walk(env, a, shift, width, base), d, shift);
          assert LeafOf(b, Walk(env, b, shift, width, base), d, shift);
        }
    }
  }
}
