// cJSON_Duplicate of packages/cJSON-v1.0.2/cJSON.c: the copy is the same tree
// and shares no item with the original.
module JsonDuplicate {
  import opened Bytes
  import opened JsonList
  import opened JsonPrint

  // What a tree of items holds, apart from where it lies.
  datatype Tree = Tree(kind: nat, number: int, text: Option<seq<byte>>, name: Option<seq<byte>>, kids: seq<Tree>)

  // The flag in type that a copy drops: cJSON_IsReference
  const IS_REFERENCE := 256

  function Unreferenced(kind: nat): nat {
    if kind / IS_REFERENCE % 2 == 1 then kind - IS_REFERENCE else kind
  }

  // The ninth bit is cleared and no other changes.
  lemma FlagDropped(kind: nat)
    ensures var r := Unreferenced(kind); r / 256 % 2 == 0 && r % 256 == kind % 256 && r / 512 == kind / 512
  {}

  function Copied(t: Tree): (r: Tree)
    ensures |r.kids| == |t.kids| && forall i :: 0 <= i < |t.kids| ==> r.kids[i] == Copied(t.kids[i])
  {
    t.(kind := Unreferenced(t.kind), kids := seq(|t.kids|, i requires 0 <= i < |t.kids| => Copied(t.kids[i])))
  }

  // No item of the tree has the flag, its ninth bit.
  predicate OwnsAll(t: Tree) {
    t.kind / 256 % 2 == 0 && forall i :: 0 <= i < |t.kids| ==> OwnsAll(t.kids[i])
  }

  lemma {:induction false} CopyOwnsAll(t: Tree)
    ensures OwnsAll(Copied(t)) && (OwnsAll(t) ==> Copied(t) == t)
  {
    FlagDropped(t.kind);
    forall i | 0 <= i < |t.kids| ensures OwnsAll(Copied(t.kids[i])) && (OwnsAll(t) ==> Copied(t.kids[i]) == t.kids[i]) {
      CopyOwnsAll(t.kids[i]);
    }
  }

  // The trees at these items lie in the set and share nothing.
  ghost predicate Disjoint(items: seq<Node>, all: set<Node>)
    reads items`repr
  {
    && (forall i :: 0 <= i < |items| ==> items[i] in items[i].repr && items[i].repr <= all)
    && (forall i, j :: 0 <= i < j < |items| ==> items[i].repr !! items[j].repr)
  }

  // The links and the sets of items at the root of a tree.
  ghost predicate Shape(n: Node)
    reads n`child, n`items, n`repr, n.items`next, n.items`prev, n.items`repr
  {
    n in n.repr && n.Valid() && Disjoint(n.items, n.repr - {n})
  }

  ghost predicate Root(n: Node, t: Tree)
    reads n`kind, n`number, n`text, n`name
  {
    n.kind == t.kind && n.number == t.number && n.text == t.text && n.name == t.name
  }

  // The item n is the root of the tree t, whose items are n.repr.
  ghost predicate Is(n: Node, t: Tree)
    reads n`child, n`items, n`kind, n`number, n`text, n`name, n`repr, n.repr - {n}
    decreases t
  {
    && (forall i :: 0 <= i < |n.items| ==> n.items[i] in n.repr - {n})
    && (forall i :: 0 <= i < |n.items| ==> n.items[i].repr <= n.repr - {n})
    && Shape(n) && Root(n, t) && |n.items| == |t.kids|
    && (forall i :: 0 <= i < |n.items| ==> Is(n.items[i], t.kids[i]))
  }

  lemma Unfold(n: Node, t: Tree)
    ensures Is(n, t) <==> Shape(n) && Root(n, t) && |n.items| == |t.kids| &&
                          forall i :: 0 <= i < |n.items| ==> Is(n.items[i], t.kids[i])
  {}

  // -------------------------------------------------------- what it means

  const CJSON_FALSE := 0
  const CJSON_TRUE := 1
  const CJSON_NULL := 2
  const CJSON_NUMBER := 3
  const CJSON_STRING := 4
  const CJSON_ARRAY := 5
  const CJSON_OBJECT := 6

  // The JSON value print_value finds in a tree; None where it prints nothing.
  function Meaning(t: Tree): Option<Json> {
    var kind := t.kind % 256;
    if kind == CJSON_NULL then Some(Null)
    else if kind == CJSON_FALSE then Some(False)
    else if kind == CJSON_TRUE then Some(True)
    else if kind == CJSON_NUMBER then Some(Number(t.number, 0))
    else if kind == CJSON_STRING && t.text.Some? then Some(String(t.text.value))
    else if kind == CJSON_ARRAY then
      var items := ItemsOf(t.kids);
      if items.Some? then Some(Array(items.value)) else None
    else if kind == CJSON_OBJECT then
      var members := MembersOf(t.kids);
      if members.Some? then Some(Object(members.value)) else None
    else None
  }

  function ItemsOf(kids: seq<Tree>): Option<Items> {
    if kids == [] then Some(NoItems)
    else
      var head, tail := Meaning(kids[0]), ItemsOf(kids[1..]);
      if head.Some? && tail.Some? then Some(Item(head.value, tail.value)) else None
  }

  function MembersOf(kids: seq<Tree>): Option<Members> {
    if kids == [] then Some(NoMembers)
    else
      var head, tail := Meaning(kids[0]), MembersOf(kids[1..]);
      if kids[0].name.Some? && head.Some? && tail.Some? then Some(Member(kids[0].name.value, head.value, tail.value))
      else None
  }

  // The text print_value makes of a tree; None where it prints nothing, or a number as a double.
  function Printed(t: Tree, fmt: bool): Option<seq<byte>> {
    var v := Meaning(t);
    if v.Some? && Printable(v.value) then Some(Print(v.value, fmt)) else None
  }

  lemma CopyPrintsTheSame(t: Tree, fmt: bool)
    ensures Printed(Copied(t), fmt) == Printed(t, fmt)
    ensures Meaning(t).Some? && Printable(Meaning(t).value) ==>
              && Meaning(Copied(t)).Some? && Printable(Meaning(Copied(t)).value)
              && Print(Meaning(Copied(t)).value, fmt) == Print(Meaning(t).value, fmt)
  {
    CopyMeansTheSame(t);
  }

  // A copy means what the original means, flags of references notwithstanding.
  lemma {:induction false} CopyMeansTheSame(t: Tree)
    ensures Meaning(Copied(t)) == Meaning(t)
    decreases t, 1
  {
    CopiesMeanTheSame(t.kids, Copied(t).kids);
  }

  lemma {:induction false} CopiesMeanTheSame(kids: seq<Tree>, copies: seq<Tree>)
    requires |copies| == |kids| && forall i :: 0 <= i < |kids| ==> copies[i] == Copied(kids[i])
    ensures ItemsOf(copies) == ItemsOf(kids) && MembersOf(copies) == MembersOf(kids)
    decreases kids, 0
  {
    if kids != [] {
      CopyMeansTheSame(kids[0]);
      CopiesMeanTheSame(kids[1..], copies[1..]);
    }
  }

  // -------------------------------------------------------------- the heap

  // No tree of a child reaches the parent or another child.
  ghost predicate Foreign(parent: Node, items: seq<Node>)
    reads items`repr
  {
    forall i :: 0 <= i < |items| ==>
      parent !in items[i].repr && forall n :: n in items[i].repr && n != items[i] ==> n !in items
  }

  lemma KidsForeign(parent: Node, child: Node)
    requires Shape(parent) && Shape(child) && parent.repr !! child.repr
    ensures Foreign(parent, parent.items + [child])
  {
    var xs := parent.items;
    forall i, j | 0 <= i < |xs| && 0 <= j < |xs| && i != j ensures xs[j] !in xs[i].repr {
      assert xs[j] in xs[j].repr;
    }
  }

  lemma OneMore(items: seq<Node>, all: set<Node>, child: Node)
    requires Disjoint(items, all) && child in child.repr && all !! child.repr
    ensures Disjoint(items + [child], all + child.repr)
  {}

  // A new link between siblings leaves their trees what they were.
  method LinkChild(parent: Node, last: Node?, child: Node, ghost kids: seq<Tree>)
    requires parent.Valid() && child !in parent.items && child != parent && child.Unlinked()
    requires last == if parent.items == [] then null else parent.items[|parent.items| - 1]
    requires |kids| == |parent.items| + 1 && Foreign(parent, parent.items + [child]) && Is(child, kids[|kids| - 1])
    requires forall i :: 0 <= i < |parent.items| ==> Is(parent.items[i], kids[i])
    modifies parent`child, parent`items, parent.items`next, child`prev
    ensures parent.Valid() && parent.items == old(parent.items) + [child]
    ensures forall i :: 0 <= i < |parent.items| ==> Is(parent.items[i], kids[i])
  {
    hide Is;
    ghost var all := parent.items + [child];
    parent.Append(last, child);
    forall i | 0 <= i < |all| ensures Is(all[i], kids[i]) {
      ghost var x: Node := all[i];
      assert old(Is(x, kids[i]));
      assert unchanged(x.repr - {x});
    }
  }

  // Crosswire one more child behind the last.
  method Append(parent: Node, last: Node?, child: Node, ghost t: Tree, ghost kid: Tree)
    requires Is(parent, t) && Is(child, kid) && child.Unlinked() && parent.repr !! child.repr
    requires last == if parent.items == [] then null else parent.items[|parent.items| - 1]
    modifies parent`child, parent`items, parent`repr, parent.items`next, child`prev
    ensures Is(parent, t.(kids := t.kids + [kid])) && parent.items == old(parent.items) + [child]
    ensures parent.repr == old(parent.repr) + child.repr
  {
    hide Is, Foreign;
    Unfold(parent, t);
    Unfold(child, kid);
    KidsForeign(parent, child);
    ghost var xs, all := parent.items, parent.repr - {parent};
    LinkChild(parent, last, child, t.kids + [kid]);
    OneMore(xs, all, child);
    parent.repr := parent.repr + child.repr;
    assert parent.repr - {parent} == all + child.repr;
    Unfold(parent, t.(kids := t.kids + [kid]));
  }

  // The fields of the item alone.
  method CopyRoot(item: Node, ghost t: Tree) returns (newitem: Node)
    requires Is(item, t)
    ensures newitem in newitem.repr && fresh(newitem.repr) && newitem.Unlinked() && newitem.items == []
    ensures Is(newitem, Copied(t).(kids := []))
  {
    newitem := new Node();
    newitem.kind := Unreferenced(item.kind);
    newitem.number := item.number;
    newitem.text := item.text;
    newitem.name := item.name;
  }

  // cJSON_Duplicate
  method Duplicate(item: Node, recurse: bool, ghost t: Tree) returns (newitem: Node)
    requires Is(item, t)
    ensures newitem in newitem.repr && fresh(newitem.repr) && newitem.Unlinked()
    ensures Is(newitem, if recurse then Copied(t) else Copied(t).(kids := []))
    decreases t, 1
  {
    hide Is, Copied, Disjoint;
    ghost var copy := Copied(t);
    newitem := CopyRoot(item, t);
    assert copy.kids[..0] == [];
    Unfold(item, t);
    if recurse {
      var cptr := item.child;
      var nptr: Node? := null;
      ghost var k := 0;
      while cptr != null
        invariant k <= |item.items| && cptr == (if k < |item.items| then item.items[k] else null)
        invariant newitem in newitem.repr && fresh(newitem.repr) && fresh(newitem.items) && newitem.Unlinked()
        invariant newitem !in newitem.items
        invariant Is(newitem, copy.(kids := copy.kids[..k]))
        invariant nptr == if newitem.items == [] then null else newitem.items[|newitem.items| - 1]
        decreases |item.items| - k
      {
        assert old(Is(cptr, t.kids[k]));
        nptr := CopyChild(cptr, newitem, nptr, t.kids[k], copy.(kids := copy.kids[..k]));
        assert copy.kids[..k] + [copy.kids[k]] == copy.kids[..k + 1];
        assert k + 1 < |item.items| ==> old(Joined(item.items, k + 1));
        cptr := cptr.next;
        k := k + 1;
      }
      assert copy.kids[..k] == copy.kids;
    }
  }

  // One turn of its loop.
  method CopyChild(cptr: Node, newitem: Node, nptr: Node?, ghost kid: Tree, ghost t: Tree) returns (newchild: Node)
    requires Is(cptr, kid) && Is(newitem, t)
    requires nptr == if newitem.items == [] then null else newitem.items[|newitem.items| - 1]
    modifies newitem`child, newitem`items, newitem`repr, newitem.items`next
    ensures Is(newitem, t.(kids := t.kids + [Copied(kid)])) && newitem.items == old(newitem.items) + [newchild]
    ensures newchild in newchild.repr && fresh(newchild.repr) && newitem.repr == old(newitem.repr) + newchild.repr
    decreases kid, 2
  {
    hide Is;
    newchild := Duplicate(cptr, true, kid);
    Append(newitem, nptr, newchild, t, Copied(kid));
  }
}
