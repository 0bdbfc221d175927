/** The library parts the scoreboard is wired from: set/reset latches, the priority picker and
    the OR reductions. A bit vector is the set of the indices of its raised bits. */
module Gates {
  import opened Words

  /** Latch output: reset clears, set wins over reset. */
  function Q(held: set<nat>, s: set<nat>, r: set<nat>): set<nat> {
    (held - r) + s
  }

  /** Latch output ORed with the held value, so it stays up in the cycle of the reset. */
  function Qlq(held: set<nat>, s: set<nat>, r: set<nat>): set<nat> {
    held + Q(held, s, r)
  }

  function All(n: nat): (r: set<nat>)
    ensures forall i :: i in r <==> 0 <= i < n
  {
    if n == 0 then {} else All(n - 1) + {n - 1}
  }

  /** One wire repeated over n bits. */
  function Repl(bit: bool, n: nat): set<nat> {
    if bit then All(n) else {}
  }

  /** PriorityPicker: the lowest raised bit of the first n, alone. */
  function Pick(n: nat, req: set<nat>): (o: set<nat>)
    ensures o <= req && forall x :: x in o ==> x < n
    ensures forall x, y :: x in o && y in o ==> x == y
    ensures forall x, i :: x in o && 0 <= i < x ==> i !in req
    ensures o == {} <==> forall i: nat :: i < n ==> i !in req
  {
    if n == 0 then {}
    else
      var low := Pick(n - 1, req);
      if low != {} then low else if n - 1 in req then {n - 1} else {}
  }

  /** Column-wise OR of a stack of n-bit vectors (GlobalPending, Reg_Rsv). */
  function AnyOf(n: nat, lines: seq<set<nat>>): set<nat> {
    set r | r in All(n) && exists y :: 0 <= y < |lines| && r in lines[y]
  }

  /** OR of the lanes whose enable bit is raised; a lane that is not enabled drives zero. */
  function OrSelect(lanes: seq<nat>, enable: set<nat>): nat {
    if |lanes| == 0 then 0
    else
      var k := |lanes| - 1;
      Or(OrSelect(lanes[..k], enable), if k in enable then lanes[k] else 0)
  }

  lemma {:induction false} OrSelectNone(lanes: seq<nat>, enable: set<nat>)
    requires forall i :: 0 <= i < |lanes| ==> i !in enable
    ensures OrSelect(lanes, enable) == 0
  {
    if |lanes| > 0 {
      OrSelectNone(lanes[..|lanes| - 1], enable);
    }
  }

  /** A shared bus carries the value of its only enabled driver. */
  lemma {:induction false} OrSelectOne(lanes: seq<nat>, enable: set<nat>, k: nat)
    requires k < |lanes|
    requires forall i :: 0 <= i < |lanes| ==> (i in enable <==> i == k)
    ensures OrSelect(lanes, enable) == lanes[k]
  {
    if k == |lanes| - 1 {
      OrSelectNone(lanes[..k], enable);
    } else {
      OrSelectOne(lanes[..|lanes| - 1], enable, k);
    }
  }
}
