/** The instruction queue: a ring buffer that takes and gives several instructions in one clock. */
module InstructionQ {
  import opened Words

  /** A pointer of the width of the ring: the sum of a pointer and a count not above the length. */
  function Wrap(cap: nat, x: nat): nat { if x < cap then x else x - cap }

  /** How many are removed: as many as are asked for and held. */
  function Removed(qlen: nat, nSub: nat): (n: nat)
    ensures n <= qlen && n <= nSub && (n == qlen || n == nSub)
  {
    if nSub > qlen then qlen else nSub
  }

  function Least(x: nat, y: nat): nat { if x < y then x else y }

  /** There is something to take in, and room for all of it. */
  predicate Ready(iqlen: nat, qlen: nat, pAdd: nat) { pAdd != 0 && qlen + pAdd <= iqlen }

  /** The specification: one clock of a first-in first-out queue. */
  function Clocked<T>(iqlen: nat, s: seq<T>, added: seq<T>, nSub: nat): seq<T> {
    (if Ready(iqlen, |s|, |added|) then s + added else s)[Removed(|s|, nSub)..]
  }

  /** What a signal of `width` values keeps of a number. */
  function Kept(width: nat, x: nat): (r: nat)
    requires width > 0
    ensures r < width
    decreases x
  {
    if x < width then x else Kept(width, x - width)
  }

  /** The two pointers and the count. */
  datatype Pointers = Pointers(start: nat, end: nat, len: nat)

  predicate PointersOk(cap: nat, p: Pointers) {
    p.start < cap && p.end < cap && p.len <= cap && p.start == Wrap(cap, p.end + p.len)
  }

  /** Where they go when more than the length is taken in: the pointers move on in their own width, the count in one
      and two bits more. */
  function Overran(cap: nat, p: Pointers, pAdd: nat, nSubO: nat): Pointers
    requires cap > 0 && nSubO <= 4 * cap
  {
    Pointers(Kept(cap, p.start + pAdd), Kept(cap, p.end + nSubO),
             Kept(4 * cap, 4 * cap + Kept(2 * cap, p.len + pAdd) - nSubO))
  }

  class InstructionQ<T> {
    const nIn: nat
    const q: array<T>
    var startQ: nat
    var endQ: nat
    var qlen: nat

    ghost predicate Valid()
      reads this
    {
      && nIn <= q.Length && startQ < q.Length && endQ < q.Length && qlen <= q.Length
      && startQ == Wrap(q.Length, endQ + qlen)
    }

    ghost function Contents(): (s: seq<T>)
      requires Valid()
      reads this, q
      ensures |s| == qlen && forall k :: 0 <= k < qlen ==> s[k] == q[Wrap(q.Length, endQ + k)]
    {
      seq(qlen, k requires 0 <= k < qlen && Valid() reads this, q => q[Wrap(q.Length, endQ + k)])
    }

    /** The length is a power of two, so that the pointers wrap where the array ends. */
    constructor (bits: nat, nIn: nat, zero: T)
      requires nIn <= Pow2(bits)
      ensures Valid() && Contents() == [] && q.Length == Pow2(bits) && this.nIn == nIn && fresh(q)
    {
      this.nIn := nIn;
      q := new T[Pow2(bits)](_ => zero);
      startQ, endQ, qlen := 0, 0, 0;
    }

    /** The outputs: the front of the queue. */
    method Outputs(nOut: nat) returns (oData: seq<T>)
      requires Valid() && nOut <= q.Length
      ensures |oData| == nOut && forall i :: 0 <= i < nOut && i < qlen ==> oData[i] == Contents()[i]
    {
      oData := [];
      for i := 0 to nOut
        invariant |oData| == i && forall k :: 0 <= k < i && k < qlen ==> oData[k] == Contents()[k]
      {
        oData := oData + [q[Wrap(q.Length, endQ + i)]];
      }
    }

    /** What the slots from the start on hold once as many inputs are copied as there are: a slot beyond the inputs
        keeps what it held. */
    ghost function Offered(pAdd: nat, iData: seq<T>): (s: seq<T>)
      requires startQ < q.Length && pAdd <= q.Length
      reads this, q
      ensures |s| == pAdd && (pAdd <= |iData| ==> s == iData[..pAdd])
    {
      if pAdd <= |iData| then iData[..pAdd] else iData + Slots(|iData|, pAdd)
    }

    /** What the slot k places from the start holds, and what those from place `lo` to place `hi` hold. */
    ghost function Slot(k: nat): T
      requires startQ < q.Length && k < q.Length
      reads this, q
    {
      q[Wrap(q.Length, startQ + k)]
    }

    ghost function Slots(lo: nat, hi: nat): (s: seq<T>)
      requires startQ < q.Length && lo <= hi <= q.Length
      reads this, q
      ensures |s| == hi - lo && forall k :: lo <= k < hi ==> s[k - lo] == Slot(k)
    {
      if lo == hi then [] else Slots(lo, hi - 1) + [Slot(hi - 1)]
    }

    /** One clock: remove, take in, or both. The count offered is two bits wider than a pointer. Up to the length it
        is a first-in first-out queue of what is offered; above it the room that is left wraps round, so that the
        offer is always taken, and the ring does not hold what was taken in. */
    method Clock(pAdd: nat, iData: seq<T>, nSub: nat) returns (ready: bool, nSubO: nat)
      requires Valid() && |iData| == nIn && pAdd < 4 * q.Length
      modifies this, q
      ensures nSubO <= old(qlen) && nSubO <= nSub && (nSubO == old(qlen) || nSubO == nSub)
      ensures ready <==> Ready(q.Length, old(qlen), pAdd) || pAdd > q.Length
      ensures pAdd <= q.Length ==>
        Valid() && Contents() == Clocked(q.Length, old(Contents()), old(Offered(pAdd, iData)), nSub)
      ensures pAdd > q.Length ==> Registers() == Overran(q.Length, old(Registers()), pAdd, nSubO)
      ensures pAdd > q.Length ==> (Valid() <==> qlen <= q.Length)
      ensures ready ==> (Valid() && qlen == old(qlen) + pAdd - nSubO <==> pAdd <= q.Length)
    {
      var spare := if pAdd <= q.Length then q.Length - pAdd else 5 * q.Length - pAdd;
      nSubO := if nSub > qlen then qlen else nSub;
      ready := qlen <= spare && pAdd != 0;
      if pAdd > q.Length {
        Overrun(pAdd, iData, nSubO);
        return;
      }
      if ready {
        CopyIn(pAdd, iData);
      }
      MoveEnd(nSubO);
    }

    /** One clock in which the given instructions are offered, on as many of the inputs. */
    method Offer(added: seq<T>, nSub: nat, zero: T)
      requires Valid() && |added| <= nIn
      modifies this, q
      ensures Valid() && Contents() == Clocked(q.Length, old(Contents()), added, nSub)
    {
      var pad := seq(nIn - |added|, _ => zero);
      assert (added + pad)[..|added|] == added;
      var _, _ := Clock(|added|, added + pad, nSub);
    }

    function Registers(): Pointers
      reads this
    {
      Pointers(startQ, endQ, qlen)
    }

    method Overrun(pAdd: nat, iData: seq<T>, nSubO: nat)
      requires Valid() && |iData| == nIn && q.Length < pAdd < 4 * q.Length && nSubO <= qlen
      modifies this, q
      ensures Registers() == Overran(q.Length, old(Registers()), pAdd, nSubO) && (Valid() <==> qlen <= q.Length)
    {
      OverranOk(q.Length, Registers(), pAdd, nSubO);
      CopySlots(pAdd, iData);
      startQ, endQ := Kept(q.Length, startQ + pAdd), Kept(q.Length, endQ + nSubO);
      qlen := Kept(4 * q.Length, 4 * q.Length + Kept(2 * q.Length, qlen + pAdd) - nSubO);
    }

    method CopySlots(pAdd: nat, iData: seq<T>)
      requires Valid() && |iData| == nIn
      modifies q
      ensures forall k :: 0 <= k < nIn && k < pAdd ==> Slot(k) == iData[k]
      ensures forall k :: Least(nIn, pAdd) <= k < q.Length ==> Slot(k) == old(Slot(k))
    {
      for i := 0 to nIn
        invariant forall k :: 0 <= k < i && k < pAdd ==> Slot(k) == iData[k]
        invariant forall k :: Least(i, pAdd) <= k < q.Length ==> Slot(k) == old(Slot(k))
      {
        if pAdd > i {
          q[Wrap(q.Length, startQ + i)] := iData[i];
        }
      }
    }

    method CopyIn(pAdd: nat, iData: seq<T>)
      requires Valid() && |iData| == nIn && qlen + pAdd <= q.Length
      modifies this`startQ, this`qlen, q
      ensures Valid() && Contents() == old(Contents()) + old(Offered(pAdd, iData)) && qlen == old(qlen) + pAdd
    {
      ghost var s, added := Contents(), Offered(pAdd, iData);
      CopySlots(pAdd, iData);
      forall k | 0 <= k < qlen
        ensures q[Wrap(q.Length, endQ + k)] == s[k]
      {
        var x := q.Length - qlen + k;
        assert Wrap(q.Length, endQ + k) == Wrap(q.Length, startQ + x);
        assert Slot(x) == old(Slot(x));
      }
      Joined(s, added);
      startQ := Wrap(q.Length, startQ + pAdd);
      qlen := qlen + pAdd;
    }

    method MoveEnd(n: nat)
      requires Valid() && n <= qlen
      modifies this`endQ, this`qlen
      ensures Valid() && Contents() == old(Contents())[n..]
    {
      endQ := Wrap(q.Length, endQ + n);
      qlen := qlen - n;
    }

    /** What was taken in follows what was there. */
    lemma Joined(s: seq<T>, added: seq<T>)
      requires Valid() && |s| == qlen && qlen + |added| <= q.Length
      requires forall k :: 0 <= k < qlen ==> q[Wrap(q.Length, endQ + k)] == s[k]
      requires forall k :: 0 <= k < |added| ==> Slot(k) == added[k]
      ensures forall k :: 0 <= k < qlen + |added| ==> q[Wrap(q.Length, endQ + k)] == (s + added)[k]
    {
      forall k | qlen <= k < qlen + |added|
        ensures q[Wrap(q.Length, endQ + k)] == (s + added)[k]
      {
        assert Slot(k - qlen) == added[k - qlen];
      }
    }
  }

  datatype Cycle<T> = Cycle(added: seq<T>, nSub: nat)

  /** The queue, and all that went in and came out, after the given cycles. */
  function Run<T>(iqlen: nat, cs: seq<Cycle<T>>): seq<T> {
    if |cs| == 0 then [] else Clocked(iqlen, Run(iqlen, cs[..|cs| - 1]), cs[|cs| - 1].added, cs[|cs| - 1].nSub)
  }

  function TakenIn<T>(iqlen: nat, cs: seq<Cycle<T>>): seq<T> {
    if |cs| == 0 then []
    else
      var pre, c := cs[..|cs| - 1], cs[|cs| - 1];
      TakenIn(iqlen, pre) + if Ready(iqlen, |Run(iqlen, pre)|, |c.added|) then c.added else []
  }

  function GivenOut<T>(iqlen: nat, cs: seq<Cycle<T>>): seq<T> {
    if |cs| == 0 then []
    else
      var pre, c := cs[..|cs| - 1], cs[|cs| - 1];
      var s := Run(iqlen, pre);
      GivenOut(iqlen, pre) + s[..Removed(|s|, c.nSub)]
  }

  /** Nothing is lost, doubled or reordered, in any run: what came out, then what is still there, is what
      went in. The queue never holds more than its length. */
  lemma {:induction false} Conserved<T>(iqlen: nat, cs: seq<Cycle<T>>)
    ensures GivenOut(iqlen, cs) + Run(iqlen, cs) == TakenIn(iqlen, cs)
    ensures |Run(iqlen, cs)| <= iqlen
  {
    if |cs| > 0 {
      var pre, c := cs[..|cs| - 1], cs[|cs| - 1];
      Conserved(iqlen, pre);
      var s := Run(iqlen, pre);
      Shifted(GivenOut(iqlen, pre), s, if Ready(iqlen, |s|, |c.added|) then c.added else [], Removed(|s|, c.nSub));
    }
  }

  lemma Shifted<T>(given: seq<T>, s: seq<T>, more: seq<T>, n: nat)
    requires n <= |s|
    ensures (given + s[..n]) + (s + more)[n..] == (given + s) + more
  {
    assert s == s[..n] + s[n..];
    assert (s + more)[n..] == s[n..] + more;
  }

  /** The ring does what the specification does over any run. */
  method Play<T>(bits: nat, nIn: nat, zero: T, cs: seq<Cycle<T>>) returns (queue: InstructionQ<T>)
    requires nIn <= Pow2(bits) && forall t :: 0 <= t < |cs| ==> |cs[t].added| <= nIn
    ensures queue.Valid() && queue.Contents() == Run(Pow2(bits), cs)
  {
    queue := new InstructionQ<T>(bits, nIn, zero);
    for t := 0 to |cs|
      invariant queue.Valid() && queue.q.Length == Pow2(bits) && queue.nIn == nIn && fresh(queue) && fresh(queue.q)
      invariant queue.Contents() == Run(Pow2(bits), cs[..t])
    {
      queue.Offer(cs[t].added, cs[t].nSub, zero);
      assert cs[..t + 1][..t] == cs[..t];
    }
    assert cs[..|cs|] == cs;
  }

  /** The slot of the i-th instruction taken in, and of the k-th one held. */
  function NewSlot(cap: nat, endQ: nat, qlen: nat, i: nat): nat { Wrap(cap, Wrap(cap, endQ + qlen) + i) }

  function OldSlot(cap: nat, endQ: nat, k: nat): nat { Wrap(cap, endQ + k) }

  /** The slots written are not in use. */
  predicate Free(cap: nat, endQ: nat, qlen: nat, pAdd: nat) {
    forall i, k :: 0 <= i < pAdd && 0 <= k < qlen ==> NewSlot(cap, endQ, qlen, i) != OldSlot(cap, endQ, k)
  }

  /** With pointers that wrap at `cap`, a queue admitting up to `iqlen` never overwrites an instruction if and
      only if it admits no more than `cap`: its length must be the power of two the pointers are made for. */
  lemma {:induction false} SafeExactly(cap: nat, iqlen: nat)
    requires 0 < cap <= iqlen
    ensures (forall e, l, p ::
               0 <= e < cap && 0 <= l <= cap && 0 <= p <= cap && Ready(iqlen, l, p) ==> Free(cap, e, l, p))
            <==> iqlen == cap
  {
    if iqlen > cap {
      assert Ready(iqlen, cap, 1);
      assert NewSlot(cap, 0, cap, 0) == OldSlot(cap, 0, 0);
      assert !Free(cap, 0, cap, 1);
    }
  }

  /** A few widths apart. */
  predicate Apart(width: nat, x: nat, y: nat) {
    y == x || y == x + width || y == x + 2 * width || y == x + 3 * width || y == x + 4 * width || y == x + 5 * width
  }

  /** Adding the width changes nothing. */
  lemma {:induction false} KeptAgain(width: nat, x: nat, y: nat)
    requires width > 0 && Apart(width, x, y)
    ensures Kept(width, y) == Kept(width, x)
    decreases y
  {
    if y != x {
      KeptAgain(width, x, y - width);
    }
  }

  /** The count, by how often its two sums go round. */
  lemma {:induction false} OverranLen(cap: nat, p: Pointers, pAdd: nat, nSubO: nat)
    requires PointersOk(cap, p) && cap < pAdd < 4 * cap && nSubO <= p.len
    ensures var len, sum := Overran(cap, p, pAdd, nSubO).len, p.len + pAdd - nSubO;
      len <= cap ==> sum == len + 2 * cap || sum == len + 4 * cap
  {
    SmallKept(2 * cap, p.len + pAdd);
    SmallKept(4 * cap, 4 * cap + Kept(2 * cap, p.len + pAdd) - nSubO);
    hide Kept;
  }

  /** Such pointers agree with the count again if and only if the count is no more than the length. */
  lemma {:induction false} OverranOk(cap: nat, p: Pointers, pAdd: nat, nSubO: nat)
    requires PointersOk(cap, p) && cap < pAdd < 4 * cap && nSubO <= p.len
    ensures PointersOk(cap, Overran(cap, p, pAdd, nSubO)) <==> Overran(cap, p, pAdd, nSubO).len <= cap
  {
    var t := Overran(cap, p, pAdd, nSubO);
    if t.len <= cap {
      OverranLen(cap, p, pAdd, nSubO);
      SmallKept(cap, p.end + nSubO);
      SmallKept(cap, t.end + t.len);
      hide Kept;
      KeptAgain(cap, t.end + t.len, p.start + pAdd);
    }
  }

  /** A number below three widths. */
  lemma {:induction false} SmallKept(width: nat, x: nat)
    requires width > 0 && x < 3 * width
    ensures Kept(width, x) == if x < width then x else if x < 2 * width then x - width else x - 2 * width
  {
    if x >= 2 * width {
      assert Kept(width, x - width) == Kept(width, x - width - width);
    }
  }

  /** They may, with instructions lost: four slots, three held and five offered leave none; and an offer of twice the
      length leaves everything where it was. */
  lemma {:induction false} TakenAndLost(p: Pointers)
    ensures PointersOk(4, p) && p.len == 3 ==> PointersOk(4, Overran(4, p, 5, 0)) && Overran(4, p, 5, 0).len == 0
    ensures PointersOk(8, p) ==> Overran(8, p, 16, 0) == p
  {
    if PointersOk(8, p) {
      KeptAgain(8, p.start, p.start + 16);
      KeptAgain(16, p.len, p.len + 16);
      KeptAgain(32, p.len, 32 + p.len);
    }
  }
}
