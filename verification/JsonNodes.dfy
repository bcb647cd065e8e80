// From linked items of packages/cJSON-v1.0.2/cJSON.c to text and back: what the
// printers find behind the links of a tree, and the links the parser makes for
// the values it has read.
module JsonNodes {
  import opened Bytes
  import opened JsonPrint
  import opened JsonReader
  import opened JsonList
  import opened JsonDuplicate
  import JsonAlloc
  import JsonReadBack

  // -------------------------------------------------- what the printers walk

  // print_value's choice by the type of an item
  method ReadItem(item: Node, ghost t: Tree) returns (v: Option<Json>)
    requires Is(item, t)
    ensures v == Meaning(t)
    decreases t, 1
  {
    hide Is, ItemsOf, MembersOf;
    Unfold(item, t);
    var kind := item.kind % 256;
    if kind == CJSON_NULL {
      v := Some(Null);
    } else if kind == CJSON_FALSE {
      v := Some(False);
    } else if kind == CJSON_TRUE {
      v := Some(True);
    } else if kind == CJSON_NUMBER {
      v := Some(Number(item.number, 0));
    } else if kind == CJSON_STRING && item.text.Some? {
      v := Some(String(item.text.value));
    } else if kind == CJSON_ARRAY {
      v := ReadArray(item, t);
    } else if kind == CJSON_OBJECT {
      v := ReadObject(item, t);
    } else {
      v := None;
    }
  }

  function InFront(values: seq<Json>, rest: Option<Items>): Option<Items> {
    if rest.None? then None else Some(Linked(values, rest.value))
  }

  lemma InFrontMore(values: seq<Json>, v: Json, rest: Option<Items>)
    ensures InFront(values + [v], rest) == InFront(values, if rest.None? then None else Some(Item(v, rest.value)))
    ensures InFront([], rest) == rest
  {
    assert (values + [v])[..|values|] == values;
  }

  // print_array's walk over the children
  method ReadArray(item: Node, ghost t: Tree) returns (v: Option<Json>)
    requires Is(item, t)
    ensures v == if ItemsOf(t.kids).Some? then Some(Array(ItemsOf(t.kids).value)) else None
    decreases t, 0
  {
    hide Is, Meaning, InFront;
    Unfold(item, t);
    var values: seq<Json> := [];
    var c := item.child;
    ghost var k := 0;
    InFrontMore([], Null, ItemsOf(t.kids));
    assert t.kids[0..] == t.kids;
    while c != null
      invariant k <= |item.items| && c == (if k < |item.items| then item.items[k] else null)
      invariant ItemsOf(t.kids) == InFront(values, ItemsOf(t.kids[k..]))
      decreases |item.items| - k
    {
      var one := ReadItem(c, t.kids[k]);
      ItemsStep(t.kids, k);
      if one.None? {
        NothingInFront(values);
        return None;
      }
      InFrontMore(values, one.value, ItemsOf(t.kids[k + 1..]));
      values := values + [one.value];
      assert k + 1 < |item.items| ==> Joined(item.items, k + 1);
      c := c.next;
      k := k + 1;
    }
    assert t.kids[k..] == [];
    AllInFront(values);
    return Some(Array(Linked(values, NoItems)));
  }

  lemma ItemsStep(kids: seq<Tree>, k: nat)
    requires k < |kids|
    ensures var head, tail := Meaning(kids[k]), ItemsOf(kids[k + 1..]);
            ItemsOf(kids[k..]) == if head.Some? && tail.Some? then Some(Item(head.value, tail.value)) else None
  {
    hide Meaning;
    assert kids[k..][1..] == kids[k + 1..] && kids[k..][0] == kids[k];
  }

  lemma NothingInFront(values: seq<Json>)
    ensures InFront(values, None) == None
  {}

  lemma AllInFront(values: seq<Json>)
    ensures InFront(values, Some(NoItems)) == Some(Linked(values, NoItems))
  {}

  function NamedInFront(children: seq<Child>, rest: Option<Members>): Option<Members> {
    if rest.None? then None else Some(LinkedMembers(children, rest.value))
  }

  lemma NamedInFrontMore(children: seq<Child>, c: Child, rest: Option<Members>)
    ensures NamedInFront(children + [c], rest)
            == NamedInFront(children, if rest.None? then None else Some(Member(c.key, c.value, rest.value)))
    ensures NamedInFront([], rest) == rest
  {
    assert (children + [c])[..|children|] == children;
  }

  // print_object's walk; a child without a name has no text of its own.
  method ReadObject(item: Node, ghost t: Tree) returns (v: Option<Json>)
    requires Is(item, t)
    ensures v == if MembersOf(t.kids).Some? then Some(Object(MembersOf(t.kids).value)) else None
    decreases t, 0
  {
    hide Is, Meaning, NamedInFront;
    Unfold(item, t);
    var children: seq<Child> := [];
    var c := item.child;
    ghost var k := 0;
    NamedInFrontMore([], Child([], Null), MembersOf(t.kids));
    assert t.kids[0..] == t.kids;
    while c != null
      invariant k <= |item.items| && c == (if k < |item.items| then item.items[k] else null)
      invariant MembersOf(t.kids) == NamedInFront(children, MembersOf(t.kids[k..]))
      decreases |item.items| - k
    {
      Unfold(c, t.kids[k]);
      var one := ReadItem(c, t.kids[k]);
      MembersStep(t.kids, k);
      if one.None? || c.name.None? {
        NoneNamedInFront(children);
        return None;
      }
      NamedInFrontMore(children, Child(c.name.value, one.value), MembersOf(t.kids[k + 1..]));
      children := children + [Child(c.name.value, one.value)];
      assert k + 1 < |item.items| ==> Joined(item.items, k + 1);
      c := c.next;
      k := k + 1;
    }
    assert t.kids[k..] == [];
    AllNamedInFront(children);
    return Some(Object(LinkedMembers(children, NoMembers)));
  }

  lemma MembersStep(kids: seq<Tree>, k: nat)
    requires k < |kids|
    ensures var head, tail := Meaning(kids[k]), MembersOf(kids[k + 1..]);
            MembersOf(kids[k..]) ==
            if kids[k].name.Some? && head.Some? && tail.Some?
            then Some(Member(kids[k].name.value, head.value, tail.value)) else None
  {
    hide Meaning;
    assert kids[k..][1..] == kids[k + 1..] && kids[k..][0] == kids[k];
  }

  lemma NoneNamedInFront(children: seq<Child>)
    ensures NamedInFront(children, None) == None
  {}

  lemma AllNamedInFront(children: seq<Child>)
    ensures NamedInFront(children, Some(NoMembers)) == Some(LinkedMembers(children, NoMembers))
  {}

  // cJSON_Print or cJSON_PrintUnformatted on linked items
  method PrintItem(item: Node, ghost t: Tree, fmt: bool) returns (text: array<byte>)
    requires Is(item, t) && Printed(t, fmt).Some?
    ensures fresh(text) && JsonAlloc.Holds(text, Printed(t, fmt).value)
  {
    hide Is, Meaning, Print;
    var v := ReadItem(item, t);
    text := JsonAlloc.PrintAllocated(v.value, fmt);
  }

  // A tree and its recursive duplicate print the same bytes.
  method PrintDuplicate(item: Node, ghost t: Tree, fmt: bool)
    returns (text: array<byte>, copy: Node, again: array<byte>)
    requires Is(item, t) && Printed(t, fmt).Some?
    ensures fresh(text) && fresh(again) && fresh(copy.repr) && Is(copy, Copied(t))
    ensures JsonAlloc.Holds(text, Printed(t, fmt).value) && JsonAlloc.Holds(again, Printed(t, fmt).value)
  {
    hide Is, Printed, Copied;
    CopyPrintsTheSame(t, fmt);
    text := PrintItem(item, t, fmt);
    copy := Duplicate(item, true, t);
    again := PrintItem(copy, Copied(t), fmt);
  }

  // --------------------------------------------------- what the parser links

  // The values of these trees in front of rest
  ghost function Before(kids: seq<Tree>, rest: Items): Option<Items> {
    if kids == [] then Some(rest)
    else
      var head, tail := Meaning(kids[0]), Before(kids[1..], rest);
      if head.Some? && tail.Some? then Some(Item(head.value, tail.value)) else None
  }

  lemma {:induction false} BeforeMore(kids: seq<Tree>, kid: Tree, rest: Items)
    requires Meaning(kid).Some?
    ensures Before(kids + [kid], rest) == Before(kids, Item(Meaning(kid).value, rest))
    decreases |kids|
  {
    hide Meaning;
    if kids == [] {
      assert ([] + [kid])[1..] == [] && ([] + [kid])[0] == kid;
    } else {
      assert (kids + [kid])[1..] == kids[1..] + [kid] && (kids + [kid])[0] == kids[0];
      BeforeMore(kids[1..], kid, rest);
    }
  }

  lemma {:induction false} BeforeNothing(kids: seq<Tree>)
    ensures Before(kids, NoItems) == ItemsOf(kids)
    decreases |kids|
  {
    hide Meaning;
    if kids != [] {
      BeforeNothing(kids[1..]);
    }
  }

  ghost function NamedBefore(kids: seq<Tree>, rest: Members): Option<Members> {
    if kids == [] then Some(rest)
    else
      var head, tail := Meaning(kids[0]), NamedBefore(kids[1..], rest);
      if kids[0].name.Some? && head.Some? && tail.Some? then Some(Member(kids[0].name.value, head.value, tail.value))
      else None
  }

  lemma {:induction false} NamedBeforeMore(kids: seq<Tree>, kid: Tree, rest: Members)
    requires Meaning(kid).Some? && kid.name.Some?
    ensures NamedBefore(kids + [kid], rest) == NamedBefore(kids, Member(kid.name.value, Meaning(kid).value, rest))
    decreases |kids|
  {
    hide Meaning;
    if kids == [] {
      assert ([] + [kid])[1..] == [] && ([] + [kid])[0] == kid;
    } else {
      assert (kids + [kid])[1..] == kids[1..] + [kid] && (kids + [kid])[0] == kids[0];
      NamedBeforeMore(kids[1..], kid, rest);
    }
  }

  lemma {:induction false} NamedBeforeNothing(kids: seq<Tree>)
    ensures NamedBefore(kids, NoMembers) == MembersOf(kids)
    decreases |kids|
  {
    hide Meaning;
    if kids != [] {
      NamedBeforeNothing(kids[1..]);
    }
  }

  // A new item of a type, with what parse_value stores in it
  method NewItem(kind: nat, number: int, text: Option<seq<byte>>) returns (item: Node)
    ensures item.repr == {item} && fresh(item) && item.items == [] && item.Unlinked()
    ensures Is(item, Tree(kind, number, text, None, []))
  {
    item := new Node();
    item.kind, item.number, item.text := kind, number, text;
  }

  // child->string = child->valuestring
  method SetName(child: Node, key: seq<byte>, ghost t: Tree)
    requires Is(child, t)
    modifies child`name
    ensures Is(child, t.(name := Some(key)))
  {
    hide Is;
    Unfold(child, t);
    ghost var was := child.items;
    child.name := Some(key);
    forall i | 0 <= i < |child.items| ensures Is(child.items[i], t.kids[i]) {
      assert old(Is(was[i], t.kids[i]));
      assert child !in was[i].repr;
    }
    Unfold(child, t.(name := Some(key)));
  }

  // The items parse_value makes for a value: linked as its children follow one another.
  method Link(v: Json) returns (item: Node, ghost t: Tree)
    requires Printable(v)
    ensures item in item.repr && fresh(item.repr) && item.Unlinked()
    ensures Is(item, t) && Meaning(t) == Some(v)
    decreases v, 1
  {
    hide Is;
    match v
    case Null => item := NewItem(CJSON_NULL, 0, None); t := Tree(CJSON_NULL, 0, None, None, []);
    case False => item := NewItem(CJSON_FALSE, 0, None); t := Tree(CJSON_FALSE, 0, None, None, []);
    case True => item := NewItem(CJSON_TRUE, 0, None); t := Tree(CJSON_TRUE, 0, None, None, []);
    case Number(n, _) => item := NewItem(CJSON_NUMBER, n, None); t := Tree(CJSON_NUMBER, n, None, None, []);
    case String(s) => item := NewItem(CJSON_STRING, 0, Some(s)); t := Tree(CJSON_STRING, 0, Some(s), None, []);
    case Array(items) => item, t := LinkArray(items);
    case Object(members) => item, t := LinkObject(members);
  }

  // parse_array's loop, on values already read
  method LinkArray(items: Items) returns (item: Node, ghost t: Tree)
    requires PrintableItems(items)
    ensures item in item.repr && fresh(item.repr) && item.Unlinked()
    ensures Is(item, t) && Meaning(t) == Some(Array(items))
    decreases items, 2
  {
    hide Is, Meaning;
    item := NewItem(CJSON_ARRAY, 0, None);
    t := Tree(CJSON_ARRAY, 0, None, None, []);
    var last: Node? := null;
    var rest := items;
    while rest.Item?
      invariant PrintableItems(rest) && (rest == items || rest < items)
      invariant item in item.repr && fresh(item.repr) && fresh(item.items) && item !in item.items && item.Unlinked()
      invariant Is(item, t) && t == Tree(CJSON_ARRAY, 0, None, None, t.kids) && Before(t.kids, rest) == Some(items)
      invariant last == if item.items == [] then null else item.items[|item.items| - 1]
      decreases rest
    {
      var child, kid := Link(rest.head);
      Append(item, last, child, t, kid);
      BeforeMore(t.kids, kid, rest.tail);
      t := t.(kids := t.kids + [kid]);
      last := child;
      rest := rest.tail;
    }
    BeforeNothing(t.kids);
    ArrayMeaning(t);
  }

  lemma ArrayMeaning(t: Tree)
    ensures t.kind == CJSON_ARRAY && ItemsOf(t.kids).Some? ==> Meaning(t) == Some(Array(ItemsOf(t.kids).value))
    ensures t.kind == CJSON_OBJECT && MembersOf(t.kids).Some? ==> Meaning(t) == Some(Object(MembersOf(t.kids).value))
  {
    hide ItemsOf, MembersOf;
  }

  lemma MeaningNamed(t: Tree, key: seq<byte>)
    ensures Meaning(t.(name := Some(key))) == Meaning(t)
  {
    hide ItemsOf, MembersOf;
  }

  // parse_object's loop, likewise
  method LinkObject(members: Members) returns (item: Node, ghost t: Tree)
    requires PrintableMembers(members)
    ensures item in item.repr && fresh(item.repr) && item.Unlinked()
    ensures Is(item, t) && Meaning(t) == Some(Object(members))
    decreases members, 2
  {
    hide Is, Meaning;
    item := NewItem(CJSON_OBJECT, 0, None);
    t := Tree(CJSON_OBJECT, 0, None, None, []);
    var last: Node? := null;
    var rest := members;
    while rest.Member?
      invariant PrintableMembers(rest) && (rest == members || rest < members)
      invariant item in item.repr && fresh(item.repr) && fresh(item.items) && item !in item.items && item.Unlinked()
      invariant Is(item, t) && t == Tree(CJSON_OBJECT, 0, None, None, t.kids)
      invariant NamedBefore(t.kids, rest) == Some(members)
      invariant last == if item.items == [] then null else item.items[|item.items| - 1]
      decreases rest
    {
      var child, kid := Link(rest.value);
      MeaningNamed(kid, rest.key);
      SetName(child, rest.key, kid);
      kid := kid.(name := Some(rest.key));
      Append(item, last, child, t, kid);
      NamedBeforeMore(t.kids, kid, rest.rest);
      t := t.(kids := t.kids + [kid]);
      last := child;
      rest := rest.rest;
    }
    NamedBeforeNothing(t.kids);
    ArrayMeaning(t);
  }

  // Linked items, printed, parsed and linked again: a new tree of items for the same value.
  method PrintParseLink(item: Node, ghost t: Tree, fmt: bool, whole: bool)
    returns (text: array<byte>, again: Node, ghost t': Tree)
    requires Is(item, t) && Printed(t, fmt).Some?
    ensures fresh(text) && JsonAlloc.Holds(text, Printed(t, fmt).value)
    ensures fresh(again.repr) && Is(again, t') && Meaning(t') == Meaning(t)
  {
    hide Is, Meaning, Print;
    var v := ReadItem(item, t);
    var r;
    text, r := JsonReadBack.PrintAndParse(v.value, fmt, whole);
    again, t' := Link(r.value.value);
  }
}
