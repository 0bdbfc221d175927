/** The radix MMU: a page-table walker clocked against a data cache. */
module Mmu {
  import opened Words

  datatype Stage = IDLE | DO_TLBIE | TLB_WAIT | PROC_TBL_READ | PROC_TBL_WAIT | SEGMENT_CHECK
    | RADIX_LOOKUP | RADIX_READ_WAIT | RADIX_LOAD_TLB | RADIX_FINISH

  /** Error flags of one request. */
  datatype Flags = Flags(invalid: bool, badtree: bool, segerror: bool, permErr: bool, rcError: bool) {
    predicate Any() { invalid || badtree || segerror || permErr || rcError }
  }

  const NoFlags := Flags(false, false, false, false, false)
  const Invalid := Flags(true, false, false, false, false)
  const BadTree := Flags(false, true, false, false, false)
  const SegError := Flags(false, false, true, false, false)
  const PermErr := Flags(false, false, false, true, false)
  const RcError := Flags(false, false, false, false, true)

  /** The latched request. */
  datatype Access = Access(addr: nat, iside: bool, store: bool, priv: bool)

  /** Configuration registers, and the process-table entries cached for quadrants 0 and 3. */
  datatype Roots = Roots(prtbl: nat, pid: nat, pgtbl0: nat, pt0Valid: bool, pgtbl3: nat, pt3Valid: bool)

  /** Where the walk is: address bits left, width of the next index, table base, last entry read. */
  datatype Cursor = Cursor(shift: nat, maskSize: nat, pgbase: nat, pde: nat)

  datatype Reg = Reg(state: Stage, valid: bool, invalAll: bool, req: Access, roots: Roots, at: Cursor,
                     done: bool, err: bool, flags: Flags)

  /** Requests from the load/store unit. */
  datatype LoadStore = LoadStore(valid: bool, tlbie: bool, slbia: bool, mtspr: bool, iside: bool,
                                 load: bool, priv: bool, sprn: nat, addr: nat, rs: nat)

  /** Answers of the data cache; `data` is the byte-swapped doubleword. */
  datatype DCache = DCache(done: bool, err: bool, data: nat)

  /** Table fields: radix tree size, width of the first index, base of the next table. */
  function Rts(d: nat): (r: nat)
    ensures r <= 31
  {
    assert Pow2(3) == 8 && Pow2(2) == 4;
    Bits(d, 5, 8) + 8 * Bits(d, 61, 63)
  }

  function Mbits(d: nat): (r: nat)
    ensures r <= 31
  {
    assert Pow2(5) == 32;
    Bits(d, 0, 5)
  }

  function Base(d: nat): nat { Shl(Bits(d, 8, 56), 8) }

  predicate Quadrant3(addr: nat) { Bit(addr, 63) }

  /** The address wire for the process table: the low `width` bits of the effective pid's upper part replace
      those of the table's base. */
  function PrtbAdr(prtbl: nat, effpid: nat, width: nat): nat {
    Shl(Bits(effpid, 0, 8), 4)
      + Shl(Masked(Bits(prtbl, 12, 36), Bits(effpid, 8, 32), width), 12)
      + Shl(Bits(prtbl, 36, 56), 36)
  }

  /** The address of a process-table entry: the width is the size field of the table's register. */
  function ProcEntry(prtbl: nat, effpid: nat): nat { PrtbAdr(prtbl, effpid, Bits(prtbl, 0, 5)) }

  /** The address wire for a tree table: the low `width` bits of the index replace those of the base. */
  function TableAdr(pgbase: nat, index: nat, width: nat): nat {
    Shl(Masked(Bits(pgbase, 3, 19), index, width), 3) + Shl(Bits(pgbase, 19, 56), 19)
  }

  /** The page an address is in. */
  function Page(addr: nat): nat { Shl(Bits(addr, 12, 64), 12) }

  function EffPid(pid: nat, addr: nat): nat { if Quadrant3(addr) then 0 else pid }

  /** The TLB entry of a leaf found with `shift` address bits left. */
  function Pte(pde: nat, addr: nat, shift: nat): nat {
    Bits(pde, 0, 12) + Shl(Masked(Bits(pde, 12, 56), Bits(addr, 12, 56), shift), 12)
  }

  /** The effective address is outside the segment a tree of 2 to the (shift + 31) bytes covers. */
  predicate OutsideSegment(addr: nat, shift: nat) {
    Bit(addr, 63) != Bit(addr, 62) || Shr(Bits(addr, 31, 62), shift) != 0
  }

  predicate PermOk(a: Access, d: nat) {
    (a.priv || !Bit(d, 3))
      && if a.iside then Bit(d, 0) && !Bit(d, 5) else Bit(d, 1) || (Bit(d, 2) && !a.store)
  }

  predicate RcOk(a: Access, d: nat) { Bit(d, 8) && (Bit(d, 7) || !a.store) }

  predicate Flush(l: LoadStore) {
    l.slbia || Bit(l.addr, 11) || Bit(l.addr, 10) || Bit(l.addr, 7) || Bit(l.addr, 6) || Bit(l.addr, 5)
  }

  function Finish(v: Reg, why: Flags): Reg { v.(state := RADIX_FINISH, flags := why) }

  /** The idle state: what the configuration registers and cached roots become. */
  function NextRoots(l: LoadStore, c: Roots): Roots {
    var c1 := if l.valid && l.tlbie && Bit(l.sprn, 3) then c.(pt0Valid := false, pt3Valid := false) else c;
    if !l.mtspr then c1
    else if !Bit(l.sprn, 9) then c1.(pid := Bits(l.rs, 0, 32), pt0Valid := false)
    else c1.(prtbl := l.rs, pt0Valid := false, pt3Valid := false)
  }

  /** The walk starts from a root: the tree's size and its first index. */
  function FromRoot(root: nat, pde: nat): Cursor { Cursor(Rts(root), Mbits(root), Base(root), pde) }

  function RadixTreeIdle(l: LoadStore, r: Reg, v0: Reg): Reg {
    var root := if Quadrant3(l.addr) then r.roots.pgtbl3 else r.roots.pgtbl0;
    var ptValid := if Quadrant3(l.addr) then r.roots.pt3Valid else r.roots.pt0Valid;
    var v := v0.(roots := NextRoots(l, r.roots), at := FromRoot(root, r.at.pde));
    var w := if l.valid then v.(req := Access(l.addr, l.iside, !(l.load || l.iside), l.priv)) else v;
    var x :=
      if !l.valid then w
      else if l.tlbie then w.(invalAll := Flush(l), state := DO_TLBIE)
      else if !ptValid then
        w.(valid := true, at := w.at.(shift := Bits(r.roots.prtbl, 0, 5)), state := PROC_TBL_READ)
      else if Mbits(root) == 0 then Finish(w.(valid := true), Invalid)
      else w.(valid := true, state := SEGMENT_CHECK);
    if l.mtspr then x.(invalAll := true, state := DO_TLBIE) else x
  }

  function CacheRoot(c: Roots, addr: nat, data: nat): Roots {
    if Quadrant3(addr) then c.(pgtbl3 := data, pt3Valid := true) else c.(pgtbl0 := data, pt0Valid := true)
  }

  function ProcTblWait(r: Reg, v0: Reg, data: nat): Reg {
    var v := v0.(roots := CacheRoot(r.roots, r.req.addr, data), at := FromRoot(data, r.at.pde));
    if Mbits(data) != 0 then v.(state := SEGMENT_CHECK) else Finish(v, Invalid)
  }

  function SegmentCheck(r: Reg, v0: Reg): Reg {
    // six-bit register: the subtraction wraps
    var v := v0.(at := r.at.(shift := (r.at.shift + 19 - r.at.maskSize) % 64));
    if OutsideSegment(r.req.addr, r.at.shift) then Finish(v, SegError)
    else if r.at.maskSize < 5 || r.at.maskSize > 16 || r.at.maskSize > r.at.shift + 19 then Finish(v, BadTree)
    else v.(state := RADIX_LOOKUP)
  }

  function RadixReadWait(r: Reg, v0: Reg, data: nat): Reg {
    var v := v0.(at := r.at.(pde := data));
    var mbits := Mbits(data);
    if !Bit(data, 63) then Finish(v, Invalid)
    else if Bit(data, 62) then
      if PermOk(r.req, data) && RcOk(r.req, data) then v.(state := RADIX_LOAD_TLB)
      else Finish(v, Flags(false, false, false, !PermOk(r.req, data), PermOk(r.req, data)))
    else if mbits < 5 || mbits > 16 || mbits > r.at.shift then Finish(v, BadTree)
    else v.(at := Cursor((r.at.shift - mbits) % 64, mbits, Base(data), data), state := RADIX_LOOKUP)
  }

  /** A read error on top of whatever the answer was. */
  function ReadError(v: Reg): Reg { Finish(v, v.flags.(badtree := true)) }

  /** Next state before the completion pulse is added. */
  function Dispatch(r: Reg, l: LoadStore, d: DCache): Reg {
    var v := r.(valid := false, done := false, err := false, flags := NoFlags, invalAll := false);
    match r.state
    case IDLE => RadixTreeIdle(l, r, v)
    case DO_TLBIE => v.(state := TLB_WAIT)
    case TLB_WAIT => if d.done then v.(state := RADIX_FINISH) else v
    case PROC_TBL_READ => v.(state := PROC_TBL_WAIT)
    case PROC_TBL_WAIT =>
      var w := if d.done then ProcTblWait(r, v, d.data) else v;
      if d.err then ReadError(w) else w
    case SEGMENT_CHECK => SegmentCheck(r, v)
    case RADIX_LOOKUP => v.(state := RADIX_READ_WAIT)
    case RADIX_READ_WAIT =>
      var w := if d.done then RadixReadWait(r, v, d.data) else v;
      if d.err then ReadError(w) else w
    case RADIX_LOAD_TLB => v.(state := if r.req.iside then IDLE else TLB_WAIT)
    case RADIX_FINISH => v.(state := IDLE)
  }

  /** The completion pulse, registered with the state that ends the service. */
  function Pulsed(v: Reg, iside: bool): Reg {
    if v.state == RADIX_FINISH || (v.state == RADIX_LOAD_TLB && iside) then
      v.(err := v.flags.Any(), done := !v.flags.Any())
    else v
  }

  function Step(r: Reg, l: LoadStore, d: DCache): Reg {
    Pulsed(Dispatch(r, l, d), r.req.iside)
  }

  const Reset := Reg(IDLE, false, false, Access(0, false, false, false), Roots(0, 0, 0, false, 0, false),
                     Cursor(0, 0, 0, 0), false, false, NoFlags)

  /** The output wires to both caches: a request to the data cache, which is an invalidation, a TLB load or a
      read; and a TLB load for the instruction cache, which sees invalidations too. */
  datatype Out = Out(dcreq: bool, tlbie: bool, tlbld: bool, itlbld: bool, doall: bool, addr: nat, pte: nat)

  /** How the table index is taken from the address is left open: the wire is declared and never driven. */
  type Index = (nat, nat) -> nat

  function Outputs(index: Index, r: Reg): Out {
    var tlbie, tlbld := r.state == DO_TLBIE, r.state == RADIX_LOAD_TLB;
    Out(tlbie || r.state == PROC_TBL_READ || r.state == RADIX_LOOKUP || (tlbld && !r.req.iside),
        tlbie, tlbld, tlbld && r.req.iside, r.invalAll,
        if tlbie then r.req.addr
        else if tlbld then Page(r.req.addr)
        else if r.state == PROC_TBL_READ then PrtbAdr(r.roots.prtbl, EffPid(r.roots.pid, r.req.addr), r.at.shift)
        else TableAdr(r.at.pgbase, index(r.req.addr, r.at.shift), r.at.maskSize),
        if tlbld then Pte(r.at.pde, r.req.addr, r.at.shift) else 0)
  }

  /** The registers, clocked in place. */
  class MMU {
    var state: Stage
    var valid: bool
    var invalAll: bool
    var req: Access
    var roots: Roots
    var at: Cursor
    var done: bool
    var err: bool
    var flags: Flags

    function Snapshot(): Reg
      reads this
    {
      Reg(state, valid, invalAll, req, roots, at, done, err, flags)
    }

    constructor ()
      ensures Snapshot() == Reset
    {
      state, valid, invalAll, req, roots := IDLE, false, false, Reset.req, Reset.roots;
      at, done, err, flags := Reset.at, false, false, NoFlags;
    }

    /** One clock: the wires of the cycle, then the state handler, then the pulse. */
    method Clock(index: Index, l: LoadStore, d: DCache) returns (out: Out)
      modifies this
      ensures Snapshot() == Step(old(Snapshot()), l, d)
      ensures out == Outputs(index, old(Snapshot()))
    {
      hide Outputs, Dispatch;
      out := Outputs(index, Snapshot());
      var iside := req.iside;
      Advance(l, d);
      if state == RADIX_FINISH || (state == RADIX_LOAD_TLB && iside) {
        err := flags.Any();
        done := !err;
      }
    }

    method Advance(l: LoadStore, d: DCache)
      modifies this
      ensures Snapshot() == Dispatch(old(Snapshot()), l, d)
    {
      ghost var r := Snapshot();
      hide RadixTreeIdle, ProcTblWait, SegmentCheck, RadixReadWait;
      valid, done, err, flags, invalAll := false, false, false, NoFlags, false;
      SameSource(l, r, Snapshot(), d.data);
      match state {
        case IDLE => Idle(l);
        case DO_TLBIE => state := TLB_WAIT;
        case TLB_WAIT => if d.done { state := RADIX_FINISH; }
        case PROC_TBL_READ => state := PROC_TBL_WAIT;
        case PROC_TBL_WAIT => RootAnswer(d);
        case SEGMENT_CHECK => CheckSegment();
        case RADIX_LOOKUP => state := RADIX_READ_WAIT;
        case RADIX_READ_WAIT => EntryAnswer(d);
        case RADIX_LOAD_TLB => state := if req.iside then IDLE else TLB_WAIT;
        case RADIX_FINISH => state := IDLE;
      }
    }

    /** The handlers look only at what a new cycle leaves in the registers. */
    static lemma SameSource(l: LoadStore, r: Reg, v: Reg, data: nat)
      requires v.roots == r.roots && v.at == r.at && v.req == r.req
      ensures RadixTreeIdle(l, v, v) == RadixTreeIdle(l, r, v) && ProcTblWait(v, v, data) == ProcTblWait(r, v, data)
      ensures SegmentCheck(v, v) == SegmentCheck(r, v) && RadixReadWait(v, v, data) == RadixReadWait(r, v, data)
    {
      hide Bits, Bit, Mbits, Base, FromRoot, NextRoots, CacheRoot, OutsideSegment, PermOk, RcOk, Flush;
    }

    method RootAnswer(d: DCache)
      modifies this
      ensures var r := old(Snapshot());
        var v := if d.done then ProcTblWait(r, r, d.data) else r;
        Snapshot() == if d.err then ReadError(v) else v
    {
      hide ProcTblWait;
      if d.done { GotRoot(d.data); }
      if d.err { state, flags := RADIX_FINISH, flags.(badtree := true); }
    }

    method EntryAnswer(d: DCache)
      modifies this
      ensures var r := old(Snapshot());
        var v := if d.done then RadixReadWait(r, r, d.data) else r;
        Snapshot() == if d.err then ReadError(v) else v
    {
      hide RadixReadWait;
      if d.done { GotEntry(d.data); }
      if d.err { state, flags := RADIX_FINISH, flags.(badtree := true); }
    }

    method Idle(l: LoadStore)
      requires state == IDLE
      modifies this
      ensures var r := old(Snapshot()); Snapshot() == RadixTreeIdle(l, r, r)
    {
      hide NextRoots, Flush, Bits, Mbits, FromRoot;
      var ptValid := if Quadrant3(l.addr) then roots.pt3Valid else roots.pt0Valid;
      var root := if Quadrant3(l.addr) then roots.pgtbl3 else roots.pgtbl0;
      at := FromRoot(root, at.pde);
      if l.valid {
        req := Access(l.addr, l.iside, !(l.load || l.iside), l.priv);
        if l.tlbie {
          invalAll, state := Flush(l), DO_TLBIE;
        } else {
          valid := true;
          if !ptValid {
            at, state := at.(shift := Bits(roots.prtbl, 0, 5)), PROC_TBL_READ;
          } else if Mbits(root) == 0 {
            state, flags := RADIX_FINISH, Invalid;
          } else {
            state := SEGMENT_CHECK;
          }
        }
      }
      roots := NextRoots(l, roots);
      if l.mtspr {
        invalAll, state := true, DO_TLBIE;
      }
    }

    method GotRoot(data: nat)
      modifies this
      ensures Snapshot() == ProcTblWait(old(Snapshot()), old(Snapshot()), data)
    {
      if Quadrant3(req.addr) {
        roots := roots.(pgtbl3 := data, pt3Valid := true);
      } else {
        roots := roots.(pgtbl0 := data, pt0Valid := true);
      }
      at := FromRoot(data, at.pde);
      if Mbits(data) != 0 {
        state := SEGMENT_CHECK;
      } else {
        state, flags := RADIX_FINISH, Invalid;
      }
    }

    method CheckSegment()
      modifies this
      ensures Snapshot() == SegmentCheck(old(Snapshot()), old(Snapshot()))
    {
      hide OutsideSegment;
      var shift, mbits := at.shift, at.maskSize;
      at := at.(shift := (at.shift + 19 - at.maskSize) % 64);
      if OutsideSegment(req.addr, shift) {
        state, flags := RADIX_FINISH, SegError;
      } else if mbits < 5 || mbits > 16 || mbits > shift + 19 {
        state, flags := RADIX_FINISH, BadTree;
      } else {
        state := RADIX_LOOKUP;
      }
    }

    method GotEntry(data: nat)
      modifies this
      ensures Snapshot() == RadixReadWait(old(Snapshot()), old(Snapshot()), data)
    {
      at := at.(pde := data);
      if !Bit(data, 63) {
        state, flags := RADIX_FINISH, Invalid;
      } else if Bit(data, 62) {
        var permOk, rcOk := PermOk(req, data), RcOk(req, data);
        if permOk && rcOk {
          state := RADIX_LOAD_TLB;
        } else {
          state, flags := RADIX_FINISH, Flags(false, false, false, !permOk, permOk);
        }
      } else if Mbits(data) < 5 || Mbits(data) > 16 || Mbits(data) > at.shift {
        state, flags := RADIX_FINISH, BadTree;
      } else {
        at := Cursor((at.shift - Mbits(data)) % 64, Mbits(data), Base(data), data);
        state := RADIX_LOOKUP;
      }
    }
  }
}

/** What the walker computes: a recursive walk of tables in memory. */
module MmuProof {
  import opened Words
  import opened Mmu

  /** What memory answers to a doubleword read. */
  datatype Resp = Data(word: nat) | Fault

  /** The tables, fixed, and how an index is taken from the address and the bits left. */
  datatype Env = Env(mem: nat -> Resp, index: Index)

  /** The entry a table has for an address. */
  function Entry(env: Env, base: nat, shift: nat, width: nat, addr: nat): nat {
    TableAdr(base, env.index(addr, shift), width)
  }

  datatype Result = Translated(pte: nat) | Failed(why: Flags)

  predicate MayAccess(a: Access, d: nat) {
    (a.priv || !Bit(d, 3))
      && (a.iside ==> Bit(d, 0) && !Bit(d, 5))
      && (!a.iside ==> Bit(d, 1) || (Bit(d, 2) && !a.store))
  }

  predicate Recorded(a: Access, d: nat) { Bit(d, 8) && (a.store ==> Bit(d, 7)) }

  /** One table after the other; every table takes at least five address bits. */
  function Walk(env: Env, a: Access, shift: nat, width: nat, base: nat): (r: Result)
    ensures r.Failed? ==> r.why.Any()
    decreases shift
  {
    match env.mem(Entry(env, base, shift, width, a.addr))
    case Fault => Failed(BadTree)
    case Data(d) =>
      if !Bit(d, 63) then Failed(Invalid)
      else if Bit(d, 62) then
        if !MayAccess(a, d) then Failed(PermErr)
        else if !Recorded(a, d) then Failed(RcError)
        else Translated(Pte(d, a.addr, shift))
      else if 5 <= Mbits(d) <= 16 && Mbits(d) <= shift then Walk(env, a, shift - Mbits(d), Mbits(d), Base(d))
      else Failed(BadTree)
  }

  /** The segment test, then the walk with the first index taken off. */
  function Checked(env: Env, a: Access, rts: nat, width: nat, base: nat): (r: Result)
    ensures r.Failed? ==> r.why.Any()
  {
    if OutsideSegment(a.addr, rts) then Failed(SegError)
    else if 5 <= width <= 16 && width <= rts + 19 then Walk(env, a, rts + 19 - width, width, base)
    else Failed(BadTree)
  }

  function FromTable(env: Env, a: Access, root: nat): (r: Result)
    ensures r.Failed? ==> r.why.Any()
  {
    if Mbits(root) == 0 then Failed(Invalid) else Checked(env, a, Rts(root), Mbits(root), Base(root))
  }

  /** A translation that fetches its process-table entry. */
  function Translate(env: Env, prtbl: nat, pid: nat, a: Access): (r: Result)
    ensures r.Failed? ==> r.why.Any()
  {
    match env.mem(ProcEntry(prtbl, EffPid(pid, a.addr)))
    case Fault => Failed(BadTree)
    case Data(root) => FromTable(env, a, root)
  }

  /** The cache answers the read that is outstanding, truthfully, and never done and err together. */
  predicate Answers(env: Env, r: Reg, d: DCache) {
    && !(d.done && d.err)
    && (r.state == PROC_TBL_WAIT ==> Truth(env, ProcEntry(r.roots.prtbl, EffPid(r.roots.pid, r.req.addr)), d))
    && (r.state == RADIX_READ_WAIT ==> Truth(env, Entry(env, r.at.pgbase, r.at.shift, r.at.maskSize, r.req.addr), d))
  }

  predicate Truth(env: Env, adr: nat, d: DCache) {
    && (d.done ==> env.mem(adr) == Data(d.data))
    && (d.err ==> env.mem(adr) == Fault)
  }

  /** The cached roots are the process-table entries of the current registers. */
  predicate RootsOk(env: Env, c: Roots) {
    && (c.pt0Valid ==> env.mem(ProcEntry(c.prtbl, c.pid)) == Data(c.pgtbl0))
    && (c.pt3Valid ==> env.mem(ProcEntry(c.prtbl, 0)) == Data(c.pgtbl3))
  }

  /** The request being served and what it must come to (`None`: a tlbie or an mtspr), the tree size,
      and the table lookups made and address bits consumed so far. */
  datatype Job = None | Job(a: Access, result: Result, rts: nat, lookups: nat, consumed: nat)

  /** In the walk: bits left plus bits consumed is the tree size, five or more consumed per lookup. */
  predicate Walking(env: Env, c: Cursor, j: Job) {
    && j.Job? && j.result == Walk(env, j.a, c.shift, c.maskSize, c.pgbase)
    && j.rts <= 31 && c.shift + j.consumed == j.rts + 19 && j.consumed >= 5 * (j.lookups + 1)
  }

  /** What is left to do comes to the result the request must have. */
  predicate JobOk(env: Env, r: Reg, j: Job) {
    && (j.Job? ==> j.a == r.req && (j.result.Failed? ==> j.result.why.Any()))
    && match r.state
       case IDLE => j == None
       case DO_TLBIE => j == None
       case TLB_WAIT => j.Job? ==> j.result.Translated? && !r.req.iside
       case PROC_TBL_READ => j.Job? && j.result == Translate(env, r.roots.prtbl, r.roots.pid, j.a) && j.lookups == 0
       case PROC_TBL_WAIT => j.Job? && j.result == Translate(env, r.roots.prtbl, r.roots.pid, j.a) && j.lookups == 0
       case SEGMENT_CHECK => j.Job? && j.rts == r.at.shift <= 31 && j.lookups == 0
           && j.result == Checked(env, j.a, r.at.shift, r.at.maskSize, r.at.pgbase)
       case RADIX_LOOKUP => Walking(env, r.at, j)
       case RADIX_READ_WAIT => Walking(env, r.at, j)
       case RADIX_LOAD_TLB => j.Job? && j.result == Translated(Pte(r.at.pde, r.req.addr, r.at.shift))
       case RADIX_FINISH => j.Job? ==> (if j.result.Translated? then !r.flags.Any() else r.flags == j.result.why)
  }

  /** The pulse is up exactly in the last state of a service; it is err exactly when a flag is up. */
  predicate PulseOk(r: Reg, j: Job) {
    var last := r.state == RADIX_FINISH || (r.state == RADIX_LOAD_TLB && r.req.iside);
    && r.done == (last && !r.flags.Any()) && r.err == (last && r.flags.Any())
    && (r.state == RADIX_LOAD_TLB || (r.state == RADIX_FINISH && j == None) ==> !r.flags.Any())
  }

  predicate Inv(env: Env, r: Reg, j: Job) {
    RootsOk(env, r.roots) && JobOk(env, r, j) && PulseOk(r, j)
  }

  /** A translation request is accepted in the idle state; tlbie and mtspr are not translations. */
  predicate Accepts(r: Reg, l: LoadStore) { r.state == IDLE && l.valid && !l.tlbie && !l.mtspr }

  function Requested(l: LoadStore): Access { Access(l.addr, l.iside, !(l.load || l.iside), l.priv) }

  /** The job after the cycle that takes r to t. */
  function NextJob(env: Env, r: Reg, t: Reg, j: Job, l: LoadStore): Job {
    if Accepts(r, l) then Job(Requested(l), Translate(env, r.roots.prtbl, r.roots.pid, Requested(l)), t.at.shift, 0, 0)
    else if t.state == IDLE then None
    else if j == None then j
    else if r.state == PROC_TBL_WAIT then j.(rts := t.at.shift)
    else if r.state == SEGMENT_CHECK then j.(consumed := r.at.maskSize)
    else if r.state == RADIX_READ_WAIT && t.state == RADIX_LOOKUP then
      j.(lookups := j.lookups + 1, consumed := j.consumed + t.at.maskSize)
    else j
  }

  /** The cached roots stay those of the registers, over every request, mtspr and tlbie. */
  lemma {:induction false} RootsKeep(env: Env, r: Reg, l: LoadStore, d: DCache)
    requires RootsOk(env, r.roots) && Answers(env, r, d)
    ensures RootsOk(env, Step(r, l, d).roots)
  {
    hide Bits, Bit, Base, ProcEntry, Entry, Rts, Mbits, OutsideSegment, PermOk, RcOk, Flush, FromRoot;
  }

  /** Before the pulse is added no pulse is up; a TLB load never carries a failure. */
  lemma {:induction false} DispatchQuiet(r: Reg, l: LoadStore, d: DCache)
    requires r.state == RADIX_LOAD_TLB ==> !r.flags.Any()
    requires !(d.done && d.err)
    ensures var v := Dispatch(r, l, d);
      && !v.done && !v.err && (v.state == RADIX_LOAD_TLB ==> !v.flags.Any() && v.req == r.req)
  {
    hide Bits, Bit, Base, ProcEntry, Entry, Rts, Mbits, OutsideSegment, PermOk, RcOk, Flush;
    hide FromRoot, NextRoots, CacheRoot;
  }

  lemma {:induction false} PulseWires(env: Env, r: Reg, j: Job, l: LoadStore, d: DCache)
    requires PulseOk(r, j) && !(d.done && d.err)
    ensures var t := Step(r, l, d);
      var last := t.state == RADIX_FINISH || (t.state == RADIX_LOAD_TLB && t.req.iside);
      && t.done == (last && !t.flags.Any()) && t.err == (last && t.flags.Any())
      && (t.state == RADIX_LOAD_TLB ==> !t.flags.Any())
  {
    DispatchQuiet(r, l, d);
    hide Dispatch;
  }

  lemma {:induction false} PulseKeep(env: Env, r: Reg, j: Job, l: LoadStore, d: DCache)
    requires PulseOk(r, j) && JobOk(env, r, j) && !(d.done && d.err)
    ensures PulseOk(Step(r, l, d), NextJob(env, r, Step(r, l, d), j, l))
  {
    PulseWires(env, r, j, l, d);
    hide Bits, Bit, Base, ProcEntry, Entry, Rts, Mbits, OutsideSegment, PermOk, RcOk, Flush;
    hide FromRoot, NextRoots, CacheRoot, Translate, Checked, Walk, Pte, MayAccess, Recorded, Requested;
  }

  lemma {:induction false} AcceptKeeps(env: Env, r: Reg, j: Job, l: LoadStore, d: DCache)
    requires RootsOk(env, r.roots) && JobOk(env, r, j) && r.state == IDLE
    ensures JobOk(env, Step(r, l, d), NextJob(env, r, Step(r, l, d), j, l))
  {
    hide Bits, Bit, Base, ProcEntry, Entry, Rts, Mbits, OutsideSegment, PermOk, RcOk, Flush, Checked, Walk;
  }

  lemma {:induction false} WalkKeeps(env: Env, r: Reg, j: Job, l: LoadStore, d: DCache)
    requires JobOk(env, r, j) && Answers(env, r, d) && r.state == RADIX_READ_WAIT
    ensures JobOk(env, Step(r, l, d), NextJob(env, r, Step(r, l, d), j, l))
  {
    hide Bits, Bit, Base, ProcEntry, Entry, Mbits, OutsideSegment, Flush, NextRoots, Translate, Checked, Pte;
  }

  /** Every clock keeps the invariant. */
  lemma {:induction false} StepKeeps(env: Env, r: Reg, j: Job, l: LoadStore, d: DCache)
    requires Inv(env, r, j) && Answers(env, r, d)
    ensures Inv(env, Step(r, l, d), NextJob(env, r, Step(r, l, d), j, l))
  {
    RootsKeep(env, r, l, d);
    PulseKeep(env, r, j, l, d);
    if r.state == IDLE {
      AcceptKeeps(env, r, j, l, d);
    } else if r.state == RADIX_READ_WAIT {
      WalkKeeps(env, r, j, l, d);
    } else {
      OtherKeeps(env, r, j, l, d);
    }
  }

  lemma {:induction false} OtherKeeps(env: Env, r: Reg, j: Job, l: LoadStore, d: DCache)
    requires JobOk(env, r, j) && Answers(env, r, d) && r.state != IDLE && r.state != RADIX_READ_WAIT
    ensures JobOk(env, Step(r, l, d), NextJob(env, r, Step(r, l, d), j, l))
  {
    hide Bits, Bit, Base, ProcEntry, Entry, Rts, Mbits, OutsideSegment, PermOk, RcOk, Flush, NextRoots, Walk, Pte;
  }
}
