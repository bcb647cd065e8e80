// mg_coap_add_option of packages/mongoose-v6.7/mongoose.c: the linked list of a
// message's options stays sorted, stably, with its tail at the end.
module CoapOptions {
  import opened Bytes
  import opened Coap

  // ---------------------------------------------------------- stable sorting

  predicate Sorted(options: seq<Opt>) {
    forall i, j :: 0 <= i < j < |options| ==> options[i].number <= options[j].number
  }

  // The options of one number, in their order.
  function Of(options: seq<Opt>, n: u32): seq<Opt> {
    if options == [] then []
    else (if options[0].number == n then [options[0]] else []) + Of(options[1..], n)
  }

  // Adding options one after the other
  function InsertAll(options: seq<Opt>): seq<Opt> {
    if options == [] then [] else Insert(InsertAll(options[..|options| - 1]), options[|options| - 1])
  }

  lemma {:induction false} InsertSorts(options: seq<Opt>, o: Opt)
    requires Sorted(options)
    ensures Sorted(Insert(options, o))
    ensures forall x :: x in Insert(options, o) ==> x in options || x == o
    decreases |options|
  {
    if options != [] && options[0].number <= o.number {
      var rest := Insert(options[1..], o);
      InsertSorts(options[1..], o);
      assert forall i :: 0 <= i < |rest| ==> rest[i] in rest;
    }
  }

  lemma {:induction false} OfAppend(a: seq<Opt>, b: seq<Opt>, n: u32)
    ensures Of(a + b, n) == Of(a, n) + Of(b, n)
    decreases |a|
  {
    if a == [] {
      assert a + b == b;
    } else {
      var head := if a[0].number == n then [a[0]] else [];
      assert (a + b)[1..] == a[1..] + b && (a + b)[0] == a[0];
      OfAppend(a[1..], b, n);
      assert head + (Of(a[1..], n) + Of(b, n)) == head + Of(a[1..], n) + Of(b, n);
    }
  }

  // None that come later in a sorted list have a smaller number.
  lemma {:induction false} OfBelow(options: seq<Opt>, n: u32)
    requires Sorted(options) && (options != [] ==> options[0].number > n)
    ensures Of(options, n) == []
    decreases |options|
  {
    if options != [] {
      OfBelow(options[1..], n);
    }
  }

  // A new option comes last among those of its number and moves no other.
  lemma {:induction false} InsertStable(options: seq<Opt>, o: Opt, n: u32)
    requires Sorted(options)
    ensures Of(Insert(options, o), n) == Of(options, n) + if o.number == n then [o] else []
    decreases |options|
  {
    if options == [] || options[0].number > o.number {
      if o.number == n {
        OfBelow(options, n);
      }
      assert ([o] + options)[1..] == options;
    } else {
      var rest := Insert(options[1..], o);
      assert ([options[0]] + rest)[1..] == rest;
      InsertStable(options[1..], o, n);
    }
  }

  // Whatever the order of the calls, the list is sorted, and the options of each
  // number stand in the order in which they were added.
  lemma {:induction false} AnyOrderSortsStably(options: seq<Opt>, n: u32)
    ensures Sorted(InsertAll(options)) && Of(InsertAll(options), n) == Of(options, n)
    decreases |options|
  {
    if options != [] {
      var m := |options| - 1;
      AnyOrderSortsStably(options[..m], n);
      InsertSorts(InsertAll(options[..m]), options[m]);
      InsertStable(InsertAll(options[..m]), options[m], n);
      assert options == options[..m] + [options[m]];
      OfAppend(options[..m], [options[m]], n);
    }
  }

  // ---------------------------------------------------------------- the list

  class Node {
    const option: Opt
    var next: Node?

    constructor (option: Opt)
      ensures this.option == option && next == null
    {
      this.option, next := option, null;
    }
  }

  ghost function Values(nodes: seq<Node>): (r: seq<Opt>)
    ensures |r| == |nodes| && forall i :: 0 <= i < |nodes| ==> r[i] == nodes[i].option
  {
    if nodes == [] then [] else [nodes[0].option] + Values(nodes[1..])
  }

  // Where Insert puts an option.
  function Place(options: seq<Opt>, o: Opt): (k: nat)
    ensures k <= |options|
    ensures forall i :: 0 <= i < k ==> options[i].number <= o.number
    ensures k < |options| ==> options[k].number > o.number
  {
    if options == [] || options[0].number > o.number then 0 else 1 + Place(options[1..], o)
  }

  lemma {:induction false} InsertAtPlace(options: seq<Opt>, o: Opt)
    ensures Insert(options, o) == InsertedAt(options, Place(options, o), o)
    decreases |options|
  {
    var k := Place(options, o);
    if k == 0 {
      assert options[..0] == [] && options[0..] == options;
    } else {
      InsertAtPlace(options[1..], o);
      assert options[..k] == [options[0]] + options[1..][..k - 1] && options[k..] == options[1..][k - 1..];
    }
  }

  function InsertedAt<T>(xs: seq<T>, k: nat, x: T): seq<T>
    requires k <= |xs|
  {
    xs[..k] + [x] + xs[k..]
  }

  lemma InsertedNodes(nodes: seq<Node>, k: nat, n: Node)
    requires k <= |nodes| && n !in nodes && forall i, j :: 0 <= i < j < |nodes| ==> nodes[i] != nodes[j]
    ensures var r := InsertedAt(nodes, k, n);
            && |r| == |nodes| + 1 && r[k] == n
            && (forall i :: 0 <= i < k ==> r[i] == nodes[i]) && (forall i :: k < i < |r| ==> r[i] == nodes[i - 1])
            && (forall i, j :: 0 <= i < j < |r| ==> r[i] != r[j])
  {}

  lemma {:induction false} ValuesAppend(a: seq<Node>, b: seq<Node>)
    ensures Values(a + b) == Values(a) + Values(b)
    decreases |a|
  {
    if a == [] {
      assert a + b == b && Values(a) + Values(b) == Values(b);
    } else {
      assert (a + b)[1..] == a[1..] + b && (a + b)[0] == a[0];
      ValuesAppend(a[1..], b);
      assert [a[0].option] + (Values(a[1..]) + Values(b)) == [a[0].option] + Values(a[1..]) + Values(b);
    }
  }

  lemma ValuesOne(n: Node)
    ensures Values([n]) == [n.option]
  {}

  lemma Parts(a: seq<Opt>, b: seq<Opt>)
    ensures (a + b)[..|a|] == a && (a + b)[|a|..] == b
  {}

  lemma InsertedValues(nodes: seq<Node>, k: nat, n: Node)
    requires k <= |nodes|
    ensures Values(InsertedAt(nodes, k, n)) == InsertedAt(Values(nodes), k, n.option)
  {
    hide Values;
    var a, b := nodes[..k], nodes[k..];
    ValuesOne(n);
    ValuesAppend(a, b);
    ValuesAppend(a, [n]);
    ValuesAppend(a + [n], b);
    assert nodes == a + b;
    Parts(Values(a), Values(b));
  }

  class OptionList {
    var options: Node?
    var tail: Node?
    ghost var nodes: seq<Node>

    ghost predicate Linked()
      reads this, nodes
    {
      && options == (if nodes == [] then null else nodes[0])
      && (nodes != [] ==> tail == nodes[|nodes| - 1] && tail.next == null)
      && (forall i :: 0 < i < |nodes| ==> nodes[i - 1].next == nodes[i])
      && (forall i, j :: 0 <= i < j < |nodes| ==> nodes[i] != nodes[j])
    }

    ghost predicate Valid()
      reads this, nodes
    {
      Linked() && Sorted(Values(nodes))
    }

    constructor ()
      ensures Valid() && nodes == []
    {
      options, tail, nodes := null, null, [];
    }

    // mg_coap_free_options
    method Free()
      modifies this
      ensures Valid() && nodes == []
    {
      options, nodes := null, [];
    }

    // The first option, or one behind the tail
    method Append(n: Node)
      requires Linked() && n !in nodes && n.next == null
      modifies this, nodes
      ensures Linked() && nodes == old(nodes) + [n]
    {
      if options == null {
        options, tail := n, n;
      } else {
        tail.next := n;
        tail := n;
      }
      nodes := nodes + [n];
    }

    // The appropriate position: behind the last option whose number is not greater.
    method Find(number: u32) returns (prev: Node?, current: Node?, ghost k: nat)
      requires Linked()
      ensures k <= |nodes| && current == (if k < |nodes| then nodes[k] else null)
      ensures prev == if k == 0 then null else nodes[k - 1]
      ensures forall i :: 0 <= i < k ==> nodes[i].option.number <= number
      ensures k < |nodes| ==> nodes[k].option.number > number
    {
      prev, current, k := null, options, 0;
      while current != null
        invariant k <= |nodes| && current == (if k < |nodes| then nodes[k] else null)
        invariant prev == if k == 0 then null else nodes[k - 1]
        invariant forall i :: 0 <= i < k ==> nodes[i].option.number <= number
        decreases |nodes| - k
      {
        if current.option.number > number {
          break;
        }
        prev := current;
        current := current.next;
        k := k + 1;
      }
    }

    // Between two options, or before the first
    method LinkAt(prev: Node?, current: Node?, n: Node, ghost k: nat)
      requires Linked() && n !in nodes && n.next == null && k < |nodes|
      requires current == nodes[k] && prev == if k == 0 then null else nodes[k - 1]
      modifies this`options, this`nodes, nodes, n
      ensures Linked() && nodes == InsertedAt(old(nodes), k, n)
    {
      hide InsertedAt;
      InsertedNodes(nodes, k, n);
      if prev != null {
        prev.next := n;
        n.next := current;
      } else {
        n.next := options;
        options := n;
      }
      nodes := InsertedAt(nodes, k, n);
    }

    // mg_coap_add_option
    method Add(number: u32, value: seq<byte>) returns (n: Node)
      requires Valid()
      modifies this, nodes
      ensures Valid() && fresh(n) && n.option == Opt(number, value)
      ensures Values(nodes) == Insert(old(Values(nodes)), n.option)
      ensures forall i :: 0 <= i < |nodes| ==> nodes[i] in old(nodes) || nodes[i] == n
    {
      hide Insert, Sorted, Values;
      n := new Node(Opt(number, value));
      ghost var was := nodes;
      Lasts(was);
      InsertSorts(Values(was), n.option);
      if options == null || tail.option.number <= number {
        Append(n);
        AppendedValues(was, n);
      } else {
        var prev, current, k := Find(number);
        FindIsPlace(Values(was), n.option, k);
        InsertedValues(was, k, n);
        LinkAt(prev, current, n, k);
      }
    }
  }

  // No option of a sorted list has a greater number than the last.
  lemma Lasts(nodes: seq<Node>)
    ensures Sorted(Values(nodes)) && nodes != [] ==>
              forall i :: 0 <= i < |nodes| ==> Values(nodes)[i].number <= nodes[|nodes| - 1].option.number
  {}

  lemma AppendedValues(nodes: seq<Node>, n: Node)
    requires forall i :: 0 <= i < |nodes| ==> Values(nodes)[i].number <= n.option.number
    ensures Values(nodes + [n]) == Insert(Values(nodes), n.option)
  {
    InsertLast(Values(nodes), n.option);
  }

  lemma FindIsPlace(options: seq<Opt>, o: Opt, k: nat)
    requires k <= |options| && (forall i :: 0 <= i < k ==> options[i].number <= o.number)
    requires k < |options| ==> options[k].number > o.number
    ensures Insert(options, o) == InsertedAt(options, k, o)
  {
    InsertAtPlace(options, o);
    assert !(k < Place(options, o)) && !(Place(options, o) < k);
  }
}
