/** Line refill over a pipelined bus, critical row first: requests for the rows of one line go out in
    wrapping order from the missed row, acknowledgements come back in order. Shared by the instruction
    and the data cache. */
module Refill {

  /** Rows (bus words) in a cache line. */
  const ROWS: nat := 8

  function NextRow(r: nat): nat { if r + 1 == ROWS then 0 else r + 1 }

  function PrevRow(r: nat): nat { if r == 0 then ROWS - 1 else r - 1 }

  /** `stb`: still requesting; `req`: row of the request on the bus; `store`: row the next
      acknowledgement belongs to; `end`: last row to fetch; `rows`: rows flagged as loaded. */
  datatype Refill = Refill(stb: bool, req: nat, store: nat, end: nat, rows: set<nat>)

  /** Start at the missed row; the last row is the one before it. */
  function Start(row: nat): Refill
    requires row < ROWS
  {
    Refill(true, row, row, PrevRow(row), {})
  }

  predicate Accepted(f: Refill, stall: bool) { f.stb && !stall }

  /** All requests sent, this cycle's last one included. */
  predicate StbsDone(f: Refill, stall: bool) { !f.stb || (Accepted(f, stall) && f.req == f.end) }

  predicate Completes(f: Refill, stall: bool, ack: bool) { ack && StbsDone(f, stall) && f.store == f.end }

  function Step(f: Refill, stall: bool, ack: bool): Refill {
    Refill(f.stb && !(Accepted(f, stall) && f.req == f.end),
           if Accepted(f, stall) then NextRow(f.req) else f.req,
           if ack && !Completes(f, stall, ack) then NextRow(f.store) else f.store,
           f.end,
           if ack then f.rows + {f.store} else f.rows)
  }

  /** The bus so far: rows requested, in order, and how many of them are acknowledged. */
  datatype Bus = Bus(requested: seq<nat>, acked: nat)

  /** What the slave sees: it takes the row it is shown unless it stalls. */
  function NextBus(b: Bus, f: Refill, stall: bool, ack: bool): Bus {
    Bus(if f.stb && !stall then b.requested + [f.req] else b.requested, if ack then b.acked + 1 else b.acked)
  }

  /** An in-order slave only acknowledges a request it has, one taken in this very cycle included. */
  predicate MayAck(b: Bus, f: Refill, stall: bool, ack: bool) {
    ack ==> b.acked < |NextBus(b, f, stall, ack).requested|
  }

  /** The row the next acknowledgement is for. */
  function AckRow(b: Bus, f: Refill, stall: bool): nat
    requires MayAck(b, f, stall, true)
  {
    NextBus(b, f, stall, true).requested[b.acked]
  }

  /** The k-th row in wrapping order from `first`, and the place of a row in that order. */
  function Wrapped(first: nat, k: nat): nat
    requires first < ROWS && k <= ROWS
  {
    if first + k < ROWS then first + k else first + k - ROWS
  }

  function Place(first: nat, r: int): int { if r >= first then r - first else r + ROWS - first }

  ghost predicate Inv(f: Refill, b: Bus, first: nat) {
    && first < ROWS && f.end == PrevRow(first)
    && b.acked <= |b.requested| <= ROWS && b.acked < ROWS
    && (forall k :: 0 <= k < |b.requested| ==> b.requested[k] == Wrapped(first, k))
    && (f.stb <==> |b.requested| < ROWS)
    && f.req == Wrapped(first, |b.requested|)
    && f.store == Wrapped(first, b.acked)
    && (forall r :: r in f.rows <==> 0 <= r < ROWS && Place(first, r) < b.acked)
  }

  lemma {:induction false} StartOk(row: nat)
    requires row < ROWS
    ensures Inv(Start(row), Bus([], 0), row)
  {
  }

  /** One cycle of the refill: the acknowledged row is the one stored to, the machine completes exactly at
      the last acknowledgement of the line, and then nothing is outstanding and every row is flagged. */
  lemma {:induction false} StepKeeps(f: Refill, b: Bus, first: nat, stall: bool, ack: bool)
    requires Inv(f, b, first) && MayAck(b, f, stall, ack)
    ensures ack ==> AckRow(b, f, stall) == f.store && f.store !in f.rows
    ensures Completes(f, stall, ack) <==> NextBus(b, f, stall, ack).acked == ROWS
    ensures !Completes(f, stall, ack) ==> Inv(Step(f, stall, ack), NextBus(b, f, stall, ack), first)
    ensures Completes(f, stall, ack) ==> |NextBus(b, f, stall, ack).requested| == ROWS
    ensures Completes(f, stall, ack) ==> forall r: nat :: r < ROWS ==> r in Step(f, stall, ack).rows
  {
    assert f.stb && f.req == f.end ==> |b.requested| == ROWS - 1;
    assert f.store == f.end <==> b.acked == ROWS - 1;
  }

  datatype Cycle = Cycle(stall: bool, ack: bool)

  /** A refill in progress after the given cycles. */
  function Run(f: Refill, b: Bus, cs: seq<Cycle>): (Refill, Bus) {
    if |cs| == 0 then (f, b)
    else
      var (g, c) := Run(f, b, cs[..|cs| - 1]);
      var x := cs[|cs| - 1];
      (Step(g, x.stall, x.ack), NextBus(c, g, x.stall, x.ack))
  }

  /** The last of the cycles completes the refill. */
  predicate Done(f: Refill, b: Bus, cs: seq<Cycle>) {
    |cs| > 0 && Completes(Run(f, b, cs[..|cs| - 1]).0, cs[|cs| - 1].stall, cs[|cs| - 1].ack)
  }

  /** The slave is in order, and no cycle follows the one that completes the refill. */
  predicate Proper(f: Refill, b: Bus, cs: seq<Cycle>) {
    |cs| > 0 ==>
      var pre, last := cs[..|cs| - 1], cs[|cs| - 1];
      Proper(f, b, pre) && !Done(f, b, pre) && MayAck(Run(f, b, pre).1, Run(f, b, pre).0, last.stall, last.ack)
  }

  lemma {:induction false} RunKeeps(row: nat, cs: seq<Cycle>)
    requires row < ROWS && Proper(Start(row), Bus([], 0), cs) && !Done(Start(row), Bus([], 0), cs)
    ensures var (g, c) := Run(Start(row), Bus([], 0), cs); Inv(g, c, row)
  {
    StartOk(row);
    if |cs| > 0 {
      hide Inv, Step, MayAck, NextBus, Completes;
      var pre, last := cs[..|cs| - 1], cs[|cs| - 1];
      RunKeeps(row, pre);
      var (g, c) := Run(Start(row), Bus([], 0), pre);
      StepKeeps(g, c, row, last.stall, last.ack);
    }
  }

  /** Any refill against any in-order slave: it completes in a cycle exactly if that cycle brings the eighth
      acknowledgement, having requested each row of the line exactly once, in wrapping order from the missed
      row, with nothing left outstanding. */
  lemma {:induction false} RequestsEachRowOnce(row: nat, cs: seq<Cycle>)
    requires row < ROWS && |cs| > 0 && Proper(Start(row), Bus([], 0), cs)
    ensures var b := Run(Start(row), Bus([], 0), cs).1;
      && (Done(Start(row), Bus([], 0), cs) <==> b.acked == ROWS)
      && (b.acked == ROWS ==> |b.requested| == ROWS && forall k :: 0 <= k < ROWS ==> b.requested[k] == Wrapped(row, k))
    ensures forall r: nat :: r < ROWS ==> 0 <= Place(row, r) < ROWS && Wrapped(row, Place(row, r)) == r
  {
    var pre, last := cs[..|cs| - 1], cs[|cs| - 1];
    RunKeeps(row, pre);
    var (g, c) := Run(Start(row), Bus([], 0), pre);
    StepKeeps(g, c, row, last.stall, last.ack);
  }
}
