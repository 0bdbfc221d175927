/** What becomes of a miss of the level-one cache: when it is served, and exactly when it is not. */
module L1CacheService {
  import opened L1Cache
  import opened L1CacheProof

  /** The burst ends in an error, or with the cache flushed in its last cycle. */
  predicate EndsBadly(s: State, i: Input) {
    s.core.busRe && (i.busError || (i.busValid && BusLast(s.core) && i.flush && i.s1.valid))
  }

  /** The burst is over but the pipeline still stalls, and the line it reads is flushed or evicted. */
  predicate TakenAway(s: State, i: Input) {
    && s.core.refill && !s.core.busRe && i.stall && s.s2.re && s.s2.valid
    && ((i.flush && i.s1.valid) || i.evict)
  }

  /** Exactly when the cache and a pipeline that stalls on its miss come to wait for each other. */
  lemma {:induction false} SticksWhen(c: Config, mem: Memory, s: State, i: Input, wr: Write)
    requires Inv(c, mem, s) && EnvOk(c, mem, s, i, wr) && Waits(s) && Stalls(c, s, i) && !Stuck(c, s)
    ensures Stuck(c, Step(c, s, i)) <==> EndsBadly(s, i) || TakenAway(s, i)
  {
    if s.core.busRe {
      BurstEnds(c, mem, s, i, wr);
      LastWord(c, mem, s);
      if !Step(c, s, i).core.busRe {
        SticksExactly(c, mem, s, i, wr);
      }
      hide LinesOk, LineOk, Unique, WayNext;
    } else if s.core.refill && i.stall && s.s2.re && s.s2.valid {
      var w := TheHit(c, mem, s);
      LosesLine(c, mem, s, i, w);
      hide LinesOk, LineOk, Unique, WayNext;
    } else {
      hide LinesOk, LineOk, Unique, WayNext;
    }
  }

  lemma LastWord(c: Config, mem: Memory, s: State)
    requires Inv(c, mem, s) && s.core.busRe
    ensures BusLast(s.core) <==> Place(c, s.core.lastOffs, s.core.busAddr.offset) == c.nwords - 1
  {
    hide LinesOk, Unique;
  }

  /** A state that does not miss hits in one way. */
  lemma TheHit(c: Config, mem: Memory, s: State) returns (w: nat)
    requires Inv(c, mem, s) && !Miss(c, s)
    ensures w < c.nways && WayHit(c, s, w) && OnlyHit(c, s, w)
  {
    w :| 0 <= w < c.nways && OnlyHit(c, s, w);
  }

  /** A stalled hit outside a burst is lost exactly by a flush or an eviction. */
  lemma {:induction false} LosesLine(c: Config, mem: Memory, s: State, i: Input, w: nat)
    requires Inv(c, mem, s) && InRange(c, i.s1.addr) && w < c.nways && WayHit(c, s, w)
    requires !s.core.busRe && i.stall && s.s2.valid
    ensures Miss(c, Step(c, s, i)) <==> (i.flush && i.s1.valid) || i.evict
    ensures !Miss(c, Step(c, s, i)) ==> WayHit(c, Step(c, s, i), w)
  {
    var t := Step(c, s, i);
    HitReadsMemory(c, mem, s, w);
    forall v: nat | v < c.nways
      ensures WayHit(c, t, v) <==> v == w && !(i.flush && i.s1.valid) && !i.evict
    {
      assert OnlyHit(c, s, w);
      assert v != w ==> !WayHit(c, s, v);
    }
    hide LinesOk, LineOk, Unique;
    if !(i.flush && i.s1.valid) && !i.evict {
      assert OnlyHit(c, t, w);
    }
  }

  /** In all these cycles the pipeline stalls on every miss. */
  ghost predicate AlwaysOk(c: Config, mem: Memory, cs: seq<Cycle>)
    requires ConfigOk(c) && forall t :: 0 <= t < |cs| ==> InRange(c, cs[t].i.s1.addr)
  {
    |cs| == 0 ||
    var n := |cs| - 1;
    var r := Run(c, mem, cs[..n]);
    AlwaysOk(c, mem, cs[..n]) && EnvOk(c, r.1, r.0, cs[n].i, cs[n].wr) && AlwaysStalls(c, r.0, cs[n].i)
  }

  /** A burst has ended badly, or a line that was waited for has been taken away. */
  ghost predicate EverBad(c: Config, mem: Memory, cs: seq<Cycle>)
    requires ConfigOk(c) && forall t :: 0 <= t < |cs| ==> InRange(c, cs[t].i.s1.addr)
  {
    |cs| > 0 &&
    var n := |cs| - 1;
    var s := Run(c, mem, cs[..n]).0;
    EverBad(c, mem, cs[..n]) || EndsBadly(s, cs[n].i) || TakenAway(s, cs[n].i)
  }

  /** Over every run of a pipeline that stalls on every miss: they wait for each other, and from then on for good, if
      and only if one of the two has ever happened. */
  lemma {:induction false} SticksInRuns(c: Config, mem: Memory, cs: seq<Cycle>)
    requires ConfigOk(c) && (forall t :: 0 <= t < |cs| ==> InRange(c, cs[t].i.s1.addr)) && AlwaysOk(c, mem, cs)
    ensures var r := Run(c, mem, cs); Inv(c, r.1, r.0) && Waits(r.0) && (Stuck(c, r.0) <==> EverBad(c, mem, cs))
  {
    if |cs| == 0 {
      Start(c, mem);
    } else {
      hide Inv, Waits, Step, EnvOk, Written, Stuck, EndsBadly, TakenAway, Miss;
      var n := |cs| - 1;
      SticksInRuns(c, mem, cs[..n]);
      var r := Run(c, mem, cs[..n]);
      StepKeeps(c, r.1, r.0, cs[n].i, cs[n].wr);
      WaitsKeep(c, r.1, r.0, cs[n].i, cs[n].wr);
      if Stuck(c, r.0) {
        StuckMoves(c, r.1, r.0, cs[n].i, cs[n].wr);
      } else {
        SticksWhen(c, r.1, r.0, cs[n].i, cs[n].wr);
      }
    }
  }

  lemma StuckMoves(c: Config, mem: Memory, s: State, i: Input, wr: Write)
    requires Inv(c, mem, s) && EnvOk(c, mem, s, i, wr) && Stuck(c, s) && AlwaysStalls(c, s, i)
    ensures Stuck(c, Step(c, s, i))
  {
    StuckStays(c, mem, s, i, wr);
    hide Inv, EnvOk, Step, Miss;
  }

  /** A cycle in which the pipeline holds its read and nothing goes wrong. */
  predicate Calm(cy: Cycle) { cy.i.stall && !cy.i.flush && !cy.i.evict && !cy.i.busError && cy.wr.None? }

  /** The bus answers with memory in all these cycles. */
  ghost predicate Answered(c: Config, mem: Memory, s: State, cs: seq<Cycle>)
    requires Shaped(c, s) && forall t :: 0 <= t < |cs| ==> InRange(c, cs[t].i.s1.addr)
  {
    |cs| == 0 ||
    var n := |cs| - 1;
    var r := Onward(c, mem, s, cs[..n]);
    Answered(c, mem, s, cs[..n]) && EnvOk(c, r.1, r.0, cs[n].i, cs[n].wr)
  }

  /** How many words the bus has brought. */
  ghost function Words(c: Config, mem: Memory, s: State, cs: seq<Cycle>): nat
    requires Shaped(c, s) && forall t :: 0 <= t < |cs| ==> InRange(c, cs[t].i.s1.addr)
  {
    if |cs| == 0 then 0
    else
      var n := |cs| - 1;
      Words(c, mem, s, cs[..n]) + if Onward(c, mem, s, cs[..n]).0.core.busRe && cs[n].i.busValid then 1 else 0
  }

  /** A held miss after some cycles and so many words: its own burst still runs, or the read hits. */
  ghost predicate Held(c: Config, mem: Memory, a: Stage, t: State, words: nat) {
    && Inv(c, mem, t) && t.s2 == a && t.core.refill && words <= c.nwords
    && (t.core.busRe <==> words < c.nwords)
    && (t.core.busRe ==>
          t.core.busAddr.(offset := 0) == a.addr.(offset := 0)
          && Place(c, t.core.lastOffs, t.core.busAddr.offset) == words
          && t.core.lastOffs == PrevOffset(c, a.addr.offset))
    && (!t.core.busRe ==> !Miss(c, t))
  }

  lemma {:induction false} HeldStarts(c: Config, mem: Memory, s: State, cy: Cycle)
    requires Inv(c, mem, s) && EnvOk(c, mem, s, cy.i, cy.wr) && Calm(cy)
    requires !s.core.refill && s.s2.re && s.s2.valid && Miss(c, s)
    ensures Held(c, mem, s.s2, Step(c, s, cy.i), 0)
  {
    StepKeeps(c, mem, s, cy.i, cy.wr);
    hide LinesOk, LineOk, Unique, RefillOk, WayNext, Miss;
  }

  lemma {:induction false} HeldGoesOn(c: Config, mem: Memory, a: Stage, s: State, words: nat, cy: Cycle)
    requires Held(c, mem, a, s, words) && EnvOk(c, mem, s, cy.i, cy.wr) && Calm(cy) && a.valid
    ensures Held(c, mem, a, Step(c, s, cy.i), words + if s.core.busRe && cy.i.busValid then 1 else 0)
  {
    StepKeeps(c, mem, s, cy.i, cy.wr);
    if s.core.busRe {
      HeldBurst(c, mem, a, s, words, cy);
    } else {
      var w := TheHit(c, mem, s);
      LosesLine(c, mem, s, cy.i, w);
      hide LinesOk, LineOk, Unique, RefillOk, WayNext, Miss;
    }
  }

  lemma {:induction false} HeldBurst(c: Config, mem: Memory, a: Stage, s: State, words: nat, cy: Cycle)
    requires Held(c, mem, a, s, words) && EnvOk(c, mem, s, cy.i, cy.wr) && Calm(cy) && s.core.busRe
    requires Inv(c, mem, Step(c, s, cy.i))
    ensures Held(c, mem, a, Step(c, s, cy.i), words + if cy.i.busValid then 1 else 0)
  {
    var t := Step(c, s, cy.i);
    BurstEnds(c, mem, s, cy.i, cy.wr);
    WordsInOrder(c, mem, s, cy.i, cy.wr);
    if !t.core.busRe {
      HitReadsMemory(c, mem, t, s.core.lru);
      assert OnlyHit(c, t, s.core.lru);
    }
    hide LinesOk, LineOk, Unique, RefillOk, WayNext;
  }

  lemma {:induction false} HeldRuns(c: Config, mem: Memory, s: State, cs: seq<Cycle>)
    requires Inv(c, mem, s) && !s.core.refill && s.s2.re && s.s2.valid && Miss(c, s) && |cs| > 0
    requires (forall t :: 0 <= t < |cs| ==> InRange(c, cs[t].i.s1.addr) && Calm(cs[t])) && Answered(c, mem, s, cs)
    ensures var r := Onward(c, mem, s, cs); r.1 == mem && Held(c, mem, s.s2, r.0, Words(c, mem, s, cs))
  {
    var n := |cs| - 1;
    var last := cs[n];
    assert Shaped(c, s) && Calm(last);
    hide Inv, Step, EnvOk, Held, Calm, Miss;
    if n > 0 {
      assert forall t :: 0 <= t < n ==> cs[..n][t] == cs[t];
      HeldRuns(c, mem, s, cs[..n]);
      HeldGoesOn(c, mem, s.s2, Onward(c, mem, s, cs[..n]).0, Words(c, mem, s, cs[..n]), last);
    } else {
      assert cs[..0] == [];
      HeldStarts(c, mem, s, last);
    }
    NoWrite(mem, last);
  }

  lemma NoWrite(mem: Memory, cy: Cycle)
    requires Calm(cy)
    ensures Written(mem, cy.wr) == mem
  {
  }

  /** Service: a read miss held by the pipeline, with no error, flush or eviction, is answered by its own burst; it hits
      once the bus has brought as many words as a line has, and not before, and reads what memory holds. */
  lemma {:induction false} MissServed(c: Config, mem: Memory, s: State, cs: seq<Cycle>)
    requires Inv(c, mem, s) && !s.core.refill && s.s2.re && s.s2.valid && Miss(c, s) && |cs| > 0
    requires (forall t :: 0 <= t < |cs| ==> InRange(c, cs[t].i.s1.addr) && Calm(cs[t])) && Answered(c, mem, s, cs)
    ensures var e := Onward(c, mem, s, cs).0;
      && e.s2 == s.s2 && Words(c, mem, s, cs) <= c.nwords
      && (Words(c, mem, s, cs) == c.nwords <==> !Miss(c, e))
      && (Words(c, mem, s, cs) == c.nwords ==>
            exists w: nat :: w < c.nways && OnlyHit(c, e, w) && Rdata(c, e, w) == mem(s.s2.addr))
  {
    HeldRuns(c, mem, s, cs);
    var e := Onward(c, mem, s, cs).0;
    if e.core.busRe {
      StillMissing(c, mem, e);
    } else {
      var w := TheHit(c, mem, e);
      HitReadsMemory(c, mem, e, w);
    }
    hide LinesOk, LineOk, Unique, RefillOk;
  }

  lemma StillMissing(c: Config, mem: Memory, s: State)
    requires Inv(c, mem, s) && s.core.busRe && s.s2.addr.(offset := 0) == s.core.busAddr.(offset := 0)
    ensures Miss(c, s)
  {
    hide LinesOk, LineOk, Unique;
  }

  /** When the pipeline then moves on, the cache is ready again: the next miss starts its own burst at once. */
  lemma {:induction false} NextMissStarts(c: Config, mem: Memory, s: State, i: Input, wr: Write, j: Input)
    requires Inv(c, mem, s) && EnvOk(c, mem, s, i, wr) && s.core.refill && !s.core.busRe && !i.stall
    requires InRange(c, j.s1.addr)
    ensures var t := Step(c, s, i);
      && !t.core.refill && t.s2 == i.s1
      && (t.s2.re && t.s2.valid && Miss(c, t) ==>
            Step(c, t, j).core.busRe && Step(c, t, j).core.busAddr == i.s1.addr)
  {
    hide LinesOk, LineOk, Unique, RefillOk, WayNext, Miss;
  }
}
