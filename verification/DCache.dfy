/** The bus side of the data cache: reloads, stores with several acknowledgements pending, uncached loads. */
module DCache {
  import R = Refill

  datatype Stage = IDLE | RELOAD_WAIT_ACK | STORE_WAIT_ACK | NC_LOAD_WAIT_ACK

  datatype Op = OpNone | LoadHit | LoadMiss | LoadNc | StoreHit | StoreMiss

  predicate IsStore(op: Op) { op.StoreHit? || op.StoreMiss? }

  /** A store as it goes out on the bus. */
  datatype Word = Word(dat: nat, sel: nat)

  /** `f` holds the strobe and the reload rows; `pending` is the three-bit counter, to which `inc` and `dec`
      are added one cycle later. */
  datatype State = State(stage: Stage, cyc: bool, f: R.Refill, word: Word, pending: nat, inc: bool, dec: bool)

  datatype Input = Input(op: Op, dcbz: bool, sameTag: bool, row: nat, word: Word, stall: bool, ack: bool)

  /** The counter with last cycle's events, in three bits. */
  function Adjusted(s: State): nat {
    if s.inc == s.dec then s.pending else if s.inc then (s.pending + 1) % 8 else (s.pending + 7) % 8
  }

  /** A store that joins the ones under way. */
  predicate Joins(s: State, i: Input) { !i.stall && Adjusted(s) < 7 && i.sameTag && IsStore(i.op) }

  predicate StbsDone(s: State, i: Input) { if i.stall then !s.f.stb else !Joins(s, i) }

  predicate TakesStore(s: State, i: Input) {
    match s.stage
    case IDLE => IsStore(i.op) && !i.dcbz
    case STORE_WAIT_ACK => Joins(s, i)
    case _ => false
  }

  function Step(s: State, i: Input): State
    requires i.row < R.ROWS
  {
    match s.stage
    case IDLE =>
      var start := State(IDLE, s.cyc, R.Start(i.row).(stb := s.f.stb), i.word, s.pending, false, false);
      var on := start.(cyc := true, f := R.Start(i.row));
      if i.op.LoadMiss? then on.(stage := RELOAD_WAIT_ACK)
      else if i.op.LoadNc? then on.(stage := NC_LOAD_WAIT_ACK)
      else if IsStore(i.op) && i.dcbz then on.(stage := RELOAD_WAIT_ACK)
      else if IsStore(i.op) then on.(stage := STORE_WAIT_ACK, pending := 1)
      else start
    case RELOAD_WAIT_ACK =>
      var done := R.Completes(s.f, i.stall, i.ack);
      var f := R.Step(s.f, i.stall, i.ack);
      State(if done then IDLE else RELOAD_WAIT_ACK, !done && s.cyc,
            f.(store := if i.ack then R.NextRow(s.f.store) else s.f.store), s.word, s.pending, false, false)
    case STORE_WAIT_ACK =>
      var done := i.ack && StbsDone(s, i) && Adjusted(s) == 1;
      State(if done then IDLE else STORE_WAIT_ACK, !done && s.cyc,
            s.f.(stb := !done && (if i.stall then s.f.stb else Joins(s, i))),
            if !i.stall && !i.op.OpNone? then i.word else s.word, Adjusted(s), Joins(s, i), i.ack)
    case NC_LOAD_WAIT_ACK =>
      State(if i.ack then IDLE else NC_LOAD_WAIT_ACK, !i.ack && s.cyc, s.f.(stb := !i.ack && i.stall && s.f.stb),
            s.word, s.pending, false, false)
  }

  const RESET := State(IDLE, false, R.Refill(false, 0, 0, 0, {}), Word(0, 0), 0, false, false)

  /** The registers, clocked in place. */
  class BusMachine {
    var stage: Stage
    var cyc: bool
    var f: R.Refill
    var word: Word
    var acksPending: nat
    var incAcks: bool
    var decAcks: bool

    function Snapshot(): State
      reads this
    {
      State(stage, cyc, f, word, acksPending, incAcks, decAcks)
    }

    constructor ()
      ensures Snapshot() == RESET
    {
      stage, cyc, f, word := IDLE, false, RESET.f, Word(0, 0);
      acksPending, incAcks, decAcks := 0, false, false;
    }

    method Clock(i: Input)
      requires i.row < R.ROWS
      modifies this
      ensures Snapshot() == Step(old(Snapshot()), i)
    {
      match stage {
        case IDLE =>
          ClockIdle(i);
        case STORE_WAIT_ACK =>
          ClockStores(i);
        case RELOAD_WAIT_ACK =>
          var done := R.Completes(f, i.stall, i.ack);
          var store := if i.ack then R.NextRow(f.store) else f.store;
          f := R.Step(f, i.stall, i.ack).(store := store);
          incAcks, decAcks := false, false;
          if done {
            stage, cyc := IDLE, false;
          }
        case NC_LOAD_WAIT_ACK =>
          if !i.stall || i.ack {
            f := f.(stb := false);
          }
          incAcks, decAcks := false, false;
          if i.ack {
            stage, cyc := IDLE, false;
          }
      }
    }

    method ClockIdle(i: Input)
      requires i.row < R.ROWS && stage == IDLE
      modifies this
      ensures Snapshot() == Step(old(Snapshot()), i)
    {
      f := R.Start(i.row).(stb := f.stb);
      word, incAcks, decAcks := i.word, false, false;
      if i.op.LoadMiss? || i.op.LoadNc? || IsStore(i.op) {
        cyc, f := true, f.(stb := true);
        if i.op.LoadNc? {
          stage := NC_LOAD_WAIT_ACK;
        } else if IsStore(i.op) && !i.dcbz {
          stage, acksPending := STORE_WAIT_ACK, 1;
        } else {
          stage := RELOAD_WAIT_ACK;
        }
      }
    }

    method ClockStores(i: Input)
      requires i.row < R.ROWS && stage == STORE_WAIT_ACK
      modifies this
      ensures Snapshot() == Step(old(Snapshot()), i)
    {
      if incAcks != decAcks {
        acksPending := if incAcks then (acksPending + 1) % 8 else (acksPending + 7) % 8;
      }
      incAcks, decAcks := false, i.ack;
      var stbsDone := !f.stb;
      if !i.stall {
        if !i.op.OpNone? {
          word := i.word;
        }
        stbsDone := !(acksPending < 7 && i.sameTag && IsStore(i.op));
        f, incAcks := f.(stb := !stbsDone), !stbsDone;
      }
      if i.ack && stbsDone && acksPending == 1 {
        stage, cyc, f := IDLE, false, f.(stb := false);
      }
    }
  }
}

/** Nothing is lost, sent twice or left outstanding on the bus. */
module DCacheProof {
  import opened DCache
  import R = Refill

  /** Since the bus cycle began: requests accepted and acknowledged, the row missed, the stores taken from the
      pipeline and those the slave has accepted. */
  datatype Ghost = Ghost(bus: R.Bus, first: nat, taken: seq<Word>, sent: seq<Word>)

  predicate Accepts(s: State, i: Input) { s.stage != IDLE && s.f.stb && !i.stall }

  /** An in-order slave acknowledges no more than it has accepted. */
  predicate EnvOk(s: State, g: Ghost, i: Input) {
    i.row < R.ROWS && (i.ack ==> s.stage != IDLE) && R.MayAck(g.bus, s.f, i.stall, i.ack)
  }

  function NextGhost(s: State, g: Ghost, i: Input): Ghost
    requires i.row < R.ROWS
  {
    if s.stage == IDLE then
      Ghost(R.Bus([], 0), i.row, if TakesStore(s, i) then [i.word] else [], [])
    else
      Ghost(R.NextBus(g.bus, s.f, i.stall, i.ack), g.first,
            if TakesStore(s, i) then g.taken + [i.word] else g.taken,
            if s.stage == STORE_WAIT_ACK && Accepts(s, i) then g.sent + [s.word] else g.sent)
  }

  /** Stores taken and not yet acknowledged. */
  function Outstanding(g: Ghost): int { |g.taken| - g.bus.acked }

  /** The counter and last cycle's events, as unbounded numbers. */
  function Counted(s: State): int { s.pending + (if s.inc then 1 else 0) - (if s.dec then 1 else 0) }

  ghost predicate Inv(s: State, g: Ghost) {
    && (s.cyc <==> s.stage != IDLE)
    && match s.stage
       case IDLE => !s.f.stb && g.sent == g.taken && |g.bus.requested| == g.bus.acked
       case RELOAD_WAIT_ACK => R.Inv(s.f, g.bus, g.first) && g.taken == g.sent == []
       case STORE_WAIT_ACK =>
         && g.taken == g.sent + (if s.f.stb then [s.word] else [])
         && g.bus.acked <= |g.bus.requested| == |g.sent|
         && Counted(s) == Outstanding(g) && 1 <= Outstanding(g) <= 7 && s.pending < 8
       case NC_LOAD_WAIT_ACK =>
         g.taken == g.sent == [] && g.bus.acked == 0 && |g.bus.requested| == (if s.f.stb then 0 else 1)
  }

  /** Every clock keeps the account. A store cycle ends exactly with the acknowledgement that leaves nothing
      outstanding, and then every store taken has been accepted, once and in order. */
  lemma {:induction false} StoreKeeps(s: State, g: Ghost, i: Input)
    requires Inv(s, g) && EnvOk(s, g, i) && s.stage == STORE_WAIT_ACK
    ensures var t, h := Step(s, i), NextGhost(s, g, i);
      && Inv(t, h)
      && (t.stage == IDLE <==> Outstanding(h) == 0)
  {
    var h := NextGhost(s, g, i);
    assert Outstanding(h) == Outstanding(g) + (if Joins(s, i) then 1 else 0) - (if i.ack then 1 else 0);
    if s.f.stb {
      assert |g.taken| == |g.sent| + 1;
      if i.stall {
        assert h.sent == g.sent && h.taken == g.taken;
      } else {
        assert h.sent == g.taken;
      }
    }
  }

  lemma {:induction false} ReloadKeeps(s: State, g: Ghost, i: Input)
    requires Inv(s, g) && EnvOk(s, g, i) && s.stage == RELOAD_WAIT_ACK
    ensures var t, h := Step(s, i), NextGhost(s, g, i);
      && Inv(t, h)
      && (t.stage == IDLE <==> h.bus.acked == R.ROWS)
      && (t.stage == IDLE ==> forall r: nat :: r < R.ROWS ==> r in t.f.rows)
  {
    R.StepKeeps(s.f, g.bus, g.first, i.stall, i.ack);
    hide R.Inv, R.MayAck;
  }

  lemma {:induction false} StepKeeps(s: State, g: Ghost, i: Input)
    requires Inv(s, g) && EnvOk(s, g, i)
    ensures Inv(Step(s, i), NextGhost(s, g, i))
  {
    match s.stage {
      case IDLE => R.StartOk(i.row);
      case RELOAD_WAIT_ACK => ReloadKeeps(s, g, i);
      case STORE_WAIT_ACK => StoreKeeps(s, g, i);
      case NC_LOAD_WAIT_ACK =>
    }
  }

  /** While stores are under way another is taken exactly if the slave is free, it is to the same tag, and fewer than
      seven are outstanding. */
  lemma {:induction false} StoreTaken(s: State, g: Ghost, i: Input)
    requires Inv(s, g) && EnvOk(s, g, i) && s.stage == STORE_WAIT_ACK
    ensures NextGhost(s, g, i).taken == g.taken + [i.word] <==>
      IsStore(i.op) && i.sameTag && !i.stall && Outstanding(g) < 7
  {
  }

  function Run(ins: seq<Input>): State
    requires forall t :: 0 <= t < |ins| ==> ins[t].row < R.ROWS
  {
    if |ins| == 0 then RESET else Step(Run(ins[..|ins| - 1]), ins[|ins| - 1])
  }

  function History(ins: seq<Input>): Ghost
    requires forall t :: 0 <= t < |ins| ==> ins[t].row < R.ROWS
  {
    if |ins| == 0 then Ghost(R.Bus([], 0), 0, [], [])
    else NextGhost(Run(ins[..|ins| - 1]), History(ins[..|ins| - 1]), ins[|ins| - 1])
  }

  predicate Honest(ins: seq<Input>)
    requires forall t :: 0 <= t < |ins| ==> ins[t].row < R.ROWS
  {
    |ins| > 0 ==>
      var pre := ins[..|ins| - 1];
      Honest(pre) && EnvOk(Run(pre), History(pre), ins[|ins| - 1])
  }

  /** A request that needs the bus, and nothing else, starts a bus cycle, with its first request up: a load miss or
      a dcbz from its own row, a store with its own word. */
  lemma {:induction false} RequestStarts(s: State, g: Ghost, i: Input)
    requires Inv(s, g) && i.row < R.ROWS && s.stage == IDLE
    ensures var t := Step(s, i);
      && (t.stage != IDLE <==> i.op.LoadMiss? || i.op.LoadNc? || i.op.StoreHit? || i.op.StoreMiss?)
      && (t.stage != IDLE ==> t.cyc && t.f.stb && t.word == i.word && t.f.req == i.row)
      && (t.stage == STORE_WAIT_ACK <==> IsStore(i.op) && !i.dcbz)
      && (t.stage == NC_LOAD_WAIT_ACK <==> i.op.LoadNc?)
  {
  }

  /** The machine is idle only with nothing outstanding, and while stores are under way the three-bit counter,
      which never wraps, is what is outstanding, between one and seven. */
  predicate AccountOk(s: State, g: Ghost) {
    && (s.stage == IDLE ==> !s.cyc && !s.f.stb && g.sent == g.taken && |g.bus.requested| == g.bus.acked)
    && (s.stage == STORE_WAIT_ACK ==> 1 <= Counted(s) == Adjusted(s) == Outstanding(g) <= 7)
  }

  lemma {:induction false} Account(s: State, g: Ghost)
    requires Inv(s, g)
    ensures AccountOk(s, g)
  {
  }

  /** The account is right in every run. */
  lemma {:induction false} Accounts(ins: seq<Input>)
    requires (forall t :: 0 <= t < |ins| ==> ins[t].row < R.ROWS) && Honest(ins)
    ensures Inv(Run(ins), History(ins)) && AccountOk(Run(ins), History(ins))
  {
    hide Inv, AccountOk, Step, NextGhost, EnvOk;
    if |ins| > 0 {
      var pre := ins[..|ins| - 1];
      Accounts(pre);
      StepKeeps(Run(pre), History(pre), ins[|ins| - 1]);
    } else {
      Start();
    }
    Account(Run(ins), History(ins));
  }

  lemma Start()
    ensures Inv(RESET, Ghost(R.Bus([], 0), 0, [], []))
  {
  }
}
