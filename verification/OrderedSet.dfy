/** A set that remembers insertion order: a map into the nodes of a circular doubly linked list. */
module OrderedSet {
  import opened Options

  class Node<T> {
    const key: Option<T>
    var prev: Node<T>
    var next: Node<T>

    constructor Sentinel()
      ensures key == None && prev == this && next == this
    {
      key, prev, next := None, this, this;
    }

    constructor (key: T, prev: Node<T>, next: Node<T>)
      ensures this.key == Some(key) && this.prev == prev && this.next == next
    {
      this.key, this.prev, this.next := Some(key), prev, next;
    }
  }

  /** The specification: a sequence without repetition. */
  function Added<T(==)>(s: seq<T>, key: T): seq<T> { if key in s then s else s + [key] }

  function Discarded<T(==)>(s: seq<T>, key: T): seq<T> {
    if |s| == 0 then [] else if s[0] == key then s[1..] else [s[0]] + Discarded(s[1..], key)
  }

  lemma {:induction false} DiscardAbsent<T>(s: seq<T>, key: T)
    requires key !in s
    ensures Discarded(s, key) == s
  {
    if |s| > 0 {
      DiscardAbsent(s[1..], key);
    }
  }

  lemma {:induction false} DiscardAt<T>(s: seq<T>, key: T, k: nat)
    requires k < |s| && s[k] == key && key !in s[..k]
    ensures Discarded(s, key) == s[..k] + s[k + 1..]
  {
    if k > 0 {
      assert s[..k] == [s[0]] + s[1..][..k - 1];
      DiscardAt(s[1..], key, k - 1);
      assert s[1..][k..] == s[k + 1..];
    }
  }

  class OrderedSet<T(==)> {
    const end: Node<T>
    var index: map<T, Node<T>>
    ghost var nodes: seq<Node<T>>
    ghost var contents: seq<T>
    ghost var repr: set<object>

    /** The k-th node of the ring, which starts and ends with the sentinel. */
    ghost function At(k: int): Node<T>
      reads `nodes
    {
      if 1 <= k <= |nodes| then nodes[k - 1] else end
    }

    /** The k-th node and the next one point at each other. */
    ghost predicate LinkAt(k: int)
      reads `nodes, end, nodes
    {
      At(k).next == At(k + 1) && At(k + 1).prev == At(k)
    }

    /** One circular list through the sentinel. */
    ghost predicate Ring()
      reads `nodes, end, nodes
    {
      && end !in nodes && (forall j, k :: 0 <= j < k < |nodes| ==> nodes[j] != nodes[k])
      && (forall k :: 0 <= k <= |nodes| ==> LinkAt(k))
    }

    /** The map leads from each key to its node, and only there. */
    static ghost predicate Indexed(nodes: seq<Node<T>>, contents: seq<T>, index: map<T, Node<T>>) {
      && |nodes| == |contents| && (forall k :: 0 <= k < |nodes| ==> nodes[k].key == Some(contents[k]))
      && (forall k :: 0 <= k < |nodes| ==> contents[k] in index && index[contents[k]] == nodes[k])
      && (forall x :: x in index ==> x in contents)
    }

    ghost predicate Valid()
      reads this, end, nodes, repr
    {
      && this in repr && end in repr && (forall n :: n in nodes ==> n in repr)
      && Ring() && Indexed(nodes, contents, index)
    }

    constructor ()
      ensures Valid() && contents == [] && fresh(repr)
    {
      end := new Node<T>.Sentinel();
      index, nodes, contents, repr := map[], [], [], {this, end};
    }

    /** The list has each key of the map once. */
    lemma KeysOnce()
      requires Valid()
      ensures forall x :: x in contents <==> x in index
      ensures forall j, k :: 0 <= j < k < |contents| ==> contents[j] != contents[k]
      ensures |contents| == |index|
    {
      Distinct(contents, index.Keys);
    }

    static lemma {:induction false} Distinct(s: seq<T>, keys: set<T>)
      requires forall j, k :: 0 <= j < k < |s| ==> s[j] != s[k]
      requires forall x :: x in s <==> x in keys
      ensures |s| == |keys|
    {
      if |s| > 0 {
        assert s == [s[0]] + s[1..];
        Distinct(s[1..], keys - {s[0]});
      } else {
        assert keys == {};
      }
    }

    method Len() returns (n: nat)
      requires Valid()
      ensures n == |contents|
    {
      KeysOnce();
      n := |index|;
    }

    method Contains(key: T) returns (b: bool)
      requires Valid()
      ensures b <==> key in contents
    {
      KeysOnce();
      b := key in index;
    }

    method Add(key: T)
      requires Valid()
      modifies repr
      ensures Valid() && contents == Added(old(contents), key)
      ensures fresh(repr - old(repr))
    {
      KeysOnce();
      if key in index {
        return;
      }
      var node := new Node<T>(key, end.prev, end);
      Append(node);
      index := index[key := node];
      contents := contents + [key];
      repr := repr + {node};
    }

    /** Splice a new node in before the sentinel. */
    method Append(node: Node<T>)
      requires Ring() && node != end && node !in nodes && node.prev == end.prev && node.next == end
      modifies this`nodes, end, nodes
      ensures Ring() && nodes == old(nodes) + [node]
    {
      assert LinkAt(|nodes|);
      var curr := end.prev;
      end.prev := node;
      curr.next := node;
      nodes := nodes + [node];
      forall k | 0 <= k <= |nodes|
        ensures LinkAt(k)
      {
        assert k < |nodes| ==> old(LinkAt(k));
      }
    }

    method Discard(key: T)
      requires Valid()
      modifies repr
      ensures Valid() && contents == Discarded(old(contents), key) && repr == old(repr)
    {
      if key !in index {
        NotThere(key);
        return;
      }
      ghost var k := Find(key);
      Drop(key, k);
    }

    method Drop(key: T, ghost k: nat)
      requires Valid() && key in index && k < |nodes| == |contents| && nodes[k] == index[key]
      requires Indexed(nodes[..k] + nodes[k + 1..], contents[..k] + contents[k + 1..], index - {key})
      modifies repr
      ensures Valid() && contents == old(contents[..k] + contents[k + 1..]) && repr == old(repr)
    {
      hide Indexed;
      Remove(index[key], k);
      index := index - {key};
      contents := contents[..k] + contents[k + 1..];
    }

    lemma NotThere(key: T)
      requires Valid() && key !in index
      ensures Discarded(contents, key) == contents
    {
      KeysOnce();
      DiscardAbsent(contents, key);
    }

    /** The place of a key, and what is left without it. */
    lemma Find(key: T) returns (k: nat)
      requires Valid() && key in index
      ensures k < |nodes| == |contents| && nodes[k] == index[key]
      ensures Indexed(nodes[..k] + nodes[k + 1..], contents[..k] + contents[k + 1..], index - {key})
      ensures Discarded(contents, key) == contents[..k] + contents[k + 1..]
    {
      KeysOnce();
      k :| 0 <= k < |contents| && contents[k] == key;
      IndexWithout(nodes, contents, index, k);
      DiscardAt(contents, key, k);
    }

    static lemma IndexWithout(nodes: seq<Node<T>>, contents: seq<T>, index: map<T, Node<T>>, k: nat)
      requires Indexed(nodes, contents, index) && k < |nodes|
      requires forall i, j :: 0 <= i < j < |contents| ==> contents[i] != contents[j]
      ensures Indexed(nodes[..k] + nodes[k + 1..], contents[..k] + contents[k + 1..], index - {contents[k]})
      ensures contents[k] !in contents[..k] && contents[k] in index && index[contents[k]] == nodes[k]
    {
      var ns, rest := nodes[..k] + nodes[k + 1..], contents[..k] + contents[k + 1..];
      forall j | 0 <= j < |ns|
        ensures ns[j].key == Some(rest[j]) && rest[j] != contents[k] && rest[j] in index && index[rest[j]] == ns[j]
      {
        var i := if j < k then j else j + 1;
        assert ns[j] == nodes[i] && rest[j] == contents[i];
      }
      forall x | x in index && x != contents[k]
        ensures x in rest
      {
        var j :| 0 <= j < |contents| && contents[j] == x;
        assert rest[if j < k then j else j - 1] == x;
      }
    }

    /** Join the neighbours of the k-th node, which keeps its own pointers. */
    method Remove(node: Node<T>, ghost k: nat)
      requires Ring() && k < |nodes| && nodes[k] == node
      modifies this`nodes, end, nodes
      ensures Ring() && nodes == old(nodes[..k] + nodes[k + 1..])
    {
      assert LinkAt(k) && LinkAt(k + 1);
      var prev, next := node.prev, node.next;
      prev.next := next;
      next.prev := prev;
      nodes := nodes[..k] + nodes[k + 1..];
      forall j | 0 <= j <= |nodes|
        ensures LinkAt(j)
      {
        assert old(LinkAt(if j < k then j else j + 1));
      }
    }

    /** Iteration: chase the links from the sentinel until it comes round again. */
    method Iterate() returns (keys: seq<T>)
      requires Valid()
      ensures keys == contents
    {
      keys := [];
      var curr := end.next;
      ghost var k := 1;
      assert LinkAt(0);
      while curr != end
        invariant 1 <= k <= |nodes| + 1 && curr == At(k) && keys == contents[..k - 1]
        decreases |nodes| + 1 - k
      {
        assert LinkAt(k);
        keys := keys + [curr.key.value];
        curr := curr.next;
        k := k + 1;
      }
    }
  }

  datatype Op<T> = AddOp(key: T) | DiscardOp(key: T)

  /** The set after a sequence of operations. */
  function Apply<T(==)>(ops: seq<Op<T>>): seq<T> {
    if |ops| == 0 then []
    else
      var s := Apply(ops[..|ops| - 1]);
      match ops[|ops| - 1]
      case AddOp(key) => Added(s, key)
      case DiscardOp(key) => Discarded(s, key)
  }

  /** Operation t inserts the key for good: it adds it, nothing discards it later, and it was not there. */
  predicate Inserts<T(==)>(ops: seq<Op<T>>, t: nat, key: T) {
    && t < |ops| && ops[t] == AddOp(key) && (forall u :: t < u < |ops| ==> ops[u] != DiscardOp(key))
    && key !in Apply(ops[..t])
  }

  /** The list has no key twice, exactly the keys whose insertion stands, and these in the order of their
      insertions. */
  ghost predicate InOrder<T(!new)>(ops: seq<Op<T>>, s: seq<T>) {
    && (forall j, k :: 0 <= j < k < |s| ==> s[j] != s[k])
    && (forall x :: x in s <==> exists t :: Inserts(ops, t, x))
    && (forall j, k, t, u :: 0 <= j < k < |s| && Inserts(ops, t, s[j]) && Inserts(ops, u, s[k]) ==> t < u)
  }

  lemma {:induction false} OneMore<T(!new)>(ops: seq<Op<T>>, t: nat, x: T)
    requires |ops| > 0
    ensures var n := |ops| - 1;
      Inserts(ops, t, x) <==>
      (ops[n] != DiscardOp(x) && (Inserts(ops[..n], t, x) || (t == n && ops[n] == AddOp(x) && x !in Apply(ops[..n]))))
  {
    var n := |ops| - 1;
    if t < n {
      assert ops[..n][..t] == ops[..t];
    }
  }

  /** After any operations. */
  lemma {:induction false} InInsertionOrder<T(!new)>(ops: seq<Op<T>>)
    ensures InOrder(ops, Apply(ops))
  {
    if |ops| > 0 {
      var n := |ops| - 1;
      var s := Apply(ops[..n]);
      InInsertionOrder(ops[..n]);
      forall t: nat, x {
        OneMore(ops, t, x);
      }
      AddKeeps(ops, s);
      DiscardKeeps(ops, s);
    }
  }

  lemma {:induction false} AddKeeps<T(!new)>(ops: seq<Op<T>>, s: seq<T>)
    requires |ops| > 0 && s == Apply(ops[..|ops| - 1]) && InOrder(ops[..|ops| - 1], s)
    ensures ops[|ops| - 1].AddOp? ==> InOrder(ops, Added(s, ops[|ops| - 1].key))
  {
    var n, key := |ops| - 1, ops[|ops| - 1].key;
    if ops[n].AddOp? {
      var r := Added(s, key);
      forall t: nat, x
        ensures Inserts(ops, t, x) <==> Inserts(ops[..n], t, x) || (t == n && x == key && x !in s)
      {
        OneMore(ops, t, x);
      }
      Before(ops[..n]);
      hide Inserts, Apply;
      forall x
        ensures x in r <==> exists t :: Inserts(ops, t, x)
      {
        if x == key && x !in s {
          assert Inserts(ops, n, x);
        } else if x in s {
          var t :| Inserts(ops[..n], t, x);
          assert Inserts(ops, t, x);
        }
      }
    }
  }

  lemma Before<T(!new)>(ops: seq<Op<T>>)
    ensures forall t: nat, x :: Inserts(ops, t, x) ==> t < |ops|
  {
  }

  lemma {:induction false} DiscardKeeps<T(!new)>(ops: seq<Op<T>>, s: seq<T>)
    requires |ops| > 0 && s == Apply(ops[..|ops| - 1]) && InOrder(ops[..|ops| - 1], s)
    ensures ops[|ops| - 1].DiscardOp? ==> InOrder(ops, Discarded(s, ops[|ops| - 1].key))
  {
    var n, key := |ops| - 1, ops[|ops| - 1].key;
    if ops[n].DiscardOp? {
      hide Inserts, Apply, Discarded, TakenOut, SameBut;
      AfterDiscard(ops, key);
      DistinctIn(ops[..n], s);
      DiscardOnce(s, key);
      hide InOrder;
      Thinned(ops[..n], ops, s, Discarded(s, key), key);
    }
  }

  lemma DistinctIn<T(!new)>(ops: seq<Op<T>>, s: seq<T>)
    requires InOrder(ops, s)
    ensures forall j, k :: 0 <= j < k < |s| ==> s[j] != s[k]
  {
  }

  /** A discard ends the insertions of its key and no other. */
  lemma {:induction false} AfterDiscard<T(!new)>(ops: seq<Op<T>>, key: T)
    requires |ops| > 0 && ops[|ops| - 1] == DiscardOp(key)
    ensures SameBut(ops[..|ops| - 1], ops, key)
  {
    hide Inserts, Apply;
    forall t: nat, x
      ensures Inserts(ops, t, x) <==> Inserts(ops[..|ops| - 1], t, x) && x != key
    {
      OneMore(ops, t, x);
    }
  }

  /** The same insertions stand, but for those of a key. */
  ghost predicate SameBut<T(!new)>(pre: seq<Op<T>>, ops: seq<Op<T>>, key: T) {
    forall t: nat, x :: Inserts(ops, t, x) <==> Inserts(pre, t, x) && x != key
  }

  /** Taking one key out of both sides keeps the order. */
  lemma {:induction false} Thinned<T(!new)>(pre: seq<Op<T>>, ops: seq<Op<T>>, s: seq<T>, r: seq<T>, key: T)
    requires InOrder(pre, s) && SameBut(pre, ops, key)
    requires TakenOut(s, key, r)
    ensures InOrder(ops, r)
  {
    hide Inserts;
    forall x
      ensures x in r <==> exists t :: Inserts(ops, t, x)
    {
      if x in s && x != key {
        var t :| Inserts(pre, t, x);
        assert Inserts(ops, t, x);
      }
    }
    forall j, k, t, u | 0 <= j < k < |r| && Inserts(ops, t, r[j]) && Inserts(ops, u, r[k])
      ensures t < u
    {
      assert InOrderOf(s, r[j], r[k]);
      var p, q :| 0 <= p < q < |s| && r[j] == s[p] && r[k] == s[q];
      assert Inserts(pre, t, s[p]) && Inserts(pre, u, s[q]);
    }
  }

  ghost predicate InOrderOf<T>(s: seq<T>, x: T, y: T) { exists p, q :: 0 <= p < q < |s| && x == s[p] && y == s[q] }

  /** r is s without the key, in the same order. */
  ghost predicate TakenOut<T(!new)>(s: seq<T>, key: T, r: seq<T>) {
    && (forall x :: x in r <==> x in s && x != key)
    && (forall j, k :: 0 <= j < k < |r| ==> r[j] != r[k] && InOrderOf(s, r[j], r[k]))
  }

  /** Discarding takes out the one occurrence and keeps the order of the rest. */
  lemma {:induction false} DiscardOnce<T(!new)>(s: seq<T>, key: T)
    requires forall j, k :: 0 <= j < k < |s| ==> s[j] != s[k]
    ensures TakenOut(s, key, Discarded(s, key))
  {
    hide TakenOut, Discarded;
    if key in s {
      var k :| 0 <= k < |s| && s[k] == key;
      assert forall j :: 0 <= j < k ==> s[j] != key;
      DiscardAt(s, key, k);
      TakenAt(s, k);
    } else {
      DiscardAbsent(s, key);
      NothingTaken(s, key);
    }
  }

  lemma NothingTaken<T(!new)>(s: seq<T>, key: T)
    requires key !in s && forall j, k :: 0 <= j < k < |s| ==> s[j] != s[k]
    ensures TakenOut(s, key, s)
  {
    forall i, j | 0 <= i < j < |s|
      ensures InOrderOf(s, s[i], s[j])
    {
    }
  }

  lemma {:induction false} TakenAt<T(!new)>(s: seq<T>, k: nat)
    requires k < |s| && forall i, j :: 0 <= i < j < |s| ==> s[i] != s[j]
    ensures TakenOut(s, s[k], s[..k] + s[k + 1..])
  {
    var r := s[..k] + s[k + 1..];
    hide InOrderOf;
    forall i, j | 0 <= i < j < |r|
      ensures r[i] != r[j] && InOrderOf(s, r[i], r[j])
    {
      TakenPair(s, k, i, j);
    }
    forall x
      ensures x in r <==> x in s && x != s[k]
    {
      TakenOne(s, k, x);
    }
  }

  lemma TakenPair<T>(s: seq<T>, k: nat, i: nat, j: nat)
    requires k < |s| && i < j < |s| - 1 && forall p, q :: 0 <= p < q < |s| ==> s[p] != s[q]
    ensures var r := s[..k] + s[k + 1..]; r[i] != r[j] && InOrderOf(s, r[i], r[j])
  {
    var r := s[..k] + s[k + 1..];
    var p, q := if i < k then i else i + 1, if j < k then j else j + 1;
    assert r[i] == s[p] && r[j] == s[q] && p < q;
  }

  lemma TakenOne<T>(s: seq<T>, k: nat, x: T)
    requires k < |s| && forall p, q :: 0 <= p < q < |s| ==> s[p] != s[q]
    ensures x in s[..k] + s[k + 1..] <==> x in s && x != s[k]
  {
    var r := s[..k] + s[k + 1..];
    if x in s && x != s[k] {
      var p :| 0 <= p < |s| && s[p] == x;
      assert r[if p < k then p else p - 1] == x;
    }
    if x in r {
      var p :| 0 <= p < |r| && r[p] == x;
      assert s[if p < k then p else p + 1] == x;
    }
  }

  /** The class does any sequence of operations as specified. */
  method Play<T(==)>(ops: seq<Op<T>>) returns (s: OrderedSet<T>, keys: seq<T>)
    ensures s.Valid() && keys == s.contents == Apply(ops)
  {
    s := new OrderedSet<T>();
    for n := 0 to |ops|
      invariant s.Valid() && s.contents == Apply(ops[..n]) && fresh(s.repr)
    {
      match ops[n] {
        case AddOp(key) => s.Add(key);
        case DiscardOp(key) => s.Discard(key);
      }
      assert ops[..n + 1][..n] == ops[..n];
    }
    keys := s.Iterate();
    assert ops[..|ops|] == ops;
  }
}
