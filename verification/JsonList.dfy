// The doubly linked child list of a cJSON item in packages/cJSON-v1.0.2/cJSON.c:
// adding, inserting, detaching and replacing children are the matching
// operations on the sequence of children, and keep every link consistent.
module JsonList {
  import opened Bytes

  // ------------------------------------------- the operations on sequences

  // The counting loops stop at once for an index below zero.
  function Place(which: int): nat { if which < 0 then 0 else which }

  function Added<T>(xs: seq<T>, x: T): seq<T> { xs + [x] }

  function Inserted<T>(xs: seq<T>, which: int, x: T): seq<T> {
    if Place(which) < |xs| then xs[..Place(which)] + [x] + xs[Place(which)..] else Added(xs, x)
  }

  function Detached<T>(xs: seq<T>, which: int): seq<T> {
    if Place(which) < |xs| then xs[..Place(which)] + xs[Place(which) + 1..] else xs
  }

  function Replaced<T>(xs: seq<T>, which: int, x: T): seq<T> {
    if Place(which) < |xs| then xs[Place(which) := x] else xs
  }

  // ---------------------------------------------------------------- names

  // cJSON_strcasecmp returns 0; None is a null pointer.
  predicate SameName(a: Option<seq<byte>>, b: seq<byte>) {
    a.Some? && Lowered(a.value) == Lowered(b)
  }

  // cJSON_strcasecmp's loop over two C strings
  method CompareNames(a: Option<seq<byte>>, b: seq<byte>) returns (same: bool)
    requires 0 !in b && (a.Some? ==> 0 !in a.value)
    ensures same == SameName(a, b) == (a.Some? && SameText(a.value, b))
  {
    if a.None? {
      return false;
    }
    var s := a.value;
    LoweredMeans(s, b);
    var i := 0;
    while Lower(if i < |s| then s[i] else 0) == Lower(if i < |b| then b[i] else 0)
      invariant i <= |s| && i <= |b|
      invariant forall k :: 0 <= k < i ==> Lower(s[k]) == Lower(b[k])
      decreases |s| - i
    {
      if i == |s| {
        return true;
      }
      i := i + 1;
    }
    if i < |s| && i < |b| {
      assert Lowered(s)[i] != Lowered(b)[i];
    }
    return false;
  }

  class Node {
    var next: Node?
    var prev: Node?
    var child: Node?
    var kind: nat
    var number: int
    var text: Option<seq<byte>>
    var name: Option<seq<byte>>

    // The children in order, and every item of the tree.
    ghost var items: seq<Node>
    ghost var repr: set<Node>

    // cJSON_New_Item
    constructor ()
      ensures Unlinked() && Valid() && items == [] && repr == {this}
      ensures kind == 0 && number == 0 && text == None && name == None
    {
      next, prev, child := null, null, null;
      kind, number, text, name := 0, 0, None, None;
      items, repr := [], {this};
    }

    ghost predicate Unlinked()
      reads this`next, this`prev
    {
      next == null && prev == null
    }

    // The links of the children.
    ghost predicate Valid()
      reads this`child, this`items, items`next, items`prev
    {
      && child == (if items == [] then null else items[0])
      && this !in items
      && Distinct(items)
      && (items != [] ==> items[0].prev == null && items[|items| - 1].next == null)
      && (forall i :: 0 < i < |items| ==> Joined(items, i))
    }

    // cJSON_GetArrayItem's loop, and that of the operations by index
    method Walk(which: int) returns (c: Node?)
      requires Valid()
      ensures c == if Place(which) < |items| then items[Place(which)] else null
    {
      c := child;
      var left := which;
      ghost var at := 0;
      while c != null && left > 0
        invariant at <= |items| && c == (if at < |items| then items[at] else null)
        invariant at < |items| ==> at + Place(left) == Place(which)
        invariant at == |items| ==> at <= Place(which)
        decreases |items| - at
      {
        assert at + 1 < |items| ==> Joined(items, at + 1);
        c := c.next;
        left := left - 1;
        at := at + 1;
      }
    }

    // suffix_object behind the last child, or the first child of all
    method Append(last: Node?, item: Node)
      requires Valid() && item !in items && item != this && item.Unlinked()
      requires last == if items == [] then null else items[|items| - 1]
      modifies this`child, this`items, items`next, item`prev
      ensures Valid() && items == Added(old(items), item)
    {
      if last == null {
        child := item;
      } else {
        last.next := item;
        item.prev := last;
      }
      ghost var xs := items;
      items := items + [item];
      forall i | 0 < i < |items| ensures Joined(items, i) {
        assert i < |xs| ==> old(Joined(xs, i));
      }
    }

    // cJSON_AddItemToArray
    method Add(item: Node)
      requires Valid() && item !in items && item != this && item.Unlinked()
      modifies this`child, this`items, items`next, item`prev
      ensures Valid() && items == Added(old(items), item)
    {
      var c := child;
      ghost var at := 0;
      while c != null && c.next != null
        invariant items == [] ==> c == null
        invariant items != [] ==> at < |items| && c == items[at]
        decreases |items| - at
      {
        assert at + 1 < |items| ==> Joined(items, at + 1);
        c := c.next;
        at := at + 1;
      }
      assert items != [] && at + 1 < |items| ==> Joined(items, at + 1);
      Append(c, item);
    }

    // cJSON_InsertItemInArray
    method Insert(which: int, newitem: Node)
      requires Valid() && newitem !in items && newitem != this && newitem.Unlinked()
      modifies this`child, this`items, items`next, items`prev, newitem`next, newitem`prev
      ensures Valid() && items == Inserted(old(items), which, newitem)
    {
      var c := Walk(which);
      if c == null {
        Add(newitem);
      } else {
        Link(c, Place(which), newitem);
      }
    }

    method Link(c: Node, ghost at: nat, newitem: Node)
      requires Valid() && at < |items| && c == items[at]
      requires newitem !in items && newitem != this && newitem.Unlinked()
      modifies this`child, this`items, items`next, items`prev, newitem`next, newitem`prev
      ensures Valid() && items == Inserted(old(items), at, newitem)
    {
      hide Inserted;
      ghost var xs := items;
      InsertedNodes(xs, at, newitem);
      assert (at > 0 ==> Joined(xs, at)) && (at + 1 < |xs| ==> Joined(xs, at + 1));
      newitem.next := c;
      newitem.prev := c.prev;
      c.prev := newitem;
      if c == child {
        assert at == 0;
        child := newitem;
      } else {
        newitem.prev.next := newitem;
      }
      items := Inserted(xs, at, newitem);
      forall i | 0 < i < |items| ensures Joined(items, i) {
        assert i < at ==> old(Joined(xs, i));
        assert i > at + 1 ==> old(Joined(xs, i - 1));
      }
    }

    // cJSON_DetachItemFromArray
    method Detach(which: int) returns (c: Node?)
      requires Valid()
      modifies this`child, this`items, items`next, items`prev
      ensures Valid() && items == Detached(old(items), which)
      ensures c == if Place(which) < |old(items)| then old(items)[Place(which)] else null
      ensures c != null ==> c.Unlinked() && c !in items
    {
      c := Walk(which);
      if c != null {
        Unlink(c, Place(which));
      }
    }

    method Unlink(c: Node, ghost at: nat)
      requires Valid() && at < |items| && c == items[at]
      modifies this`child, this`items, items`next, items`prev
      ensures Valid() && items == Detached(old(items), at)
      ensures c.Unlinked() && c !in items
    {
      hide Detached;
      ghost var xs := items;
      DetachedNodes(xs, at);
      assert (at > 0 ==> Joined(xs, at)) && (at + 1 < |xs| ==> Joined(xs, at + 1));
      assert c == child <==> at == 0;
      if c.prev != null {
        c.prev.next := c.next;
      }
      if c.next != null {
        c.next.prev := c.prev;
      }
      if c == child {
        child := c.next;
      }
      c.prev := null;
      c.next := null;
      items := Detached(xs, at);
      forall i | 0 < i < |items| ensures Joined(items, i) {
        assert i < at ==> old(Joined(xs, i));
        assert i > at ==> old(Joined(xs, i + 1));
      }
    }

    // cJSON_ReplaceItemInArray; the old item is freed
    method Replace(which: int, newitem: Node)
      requires Valid() && newitem !in items && newitem != this && newitem.Unlinked()
      modifies this`child, this`items, items`next, items`prev, newitem`next, newitem`prev
      ensures Valid() && items == Replaced(old(items), which, newitem)
      ensures Place(which) < |old(items)| ==> old(items)[Place(which)].Unlinked()
    {
      var c := Walk(which);
      if c == null {
        return;
      }
      ghost var xs, at := items, Place(which);
      assert (at > 0 ==> Joined(xs, at)) && (at + 1 < |xs| ==> Joined(xs, at + 1));
      newitem.next := c.next;
      newitem.prev := c.prev;
      if newitem.next != null {
        newitem.next.prev := newitem;
      }
      if c == child {
        child := newitem;
      } else {
        newitem.prev.next := newitem;
      }
      c.next := null;
      c.prev := null;
      items := Replaced(xs, which, newitem);
      forall i | 0 < i < |items| ensures Joined(items, i) {
        assert old(Joined(xs, i));
      }
    }

    // cJSON_AddItemToObject
    method AddNamed(key: seq<byte>, item: Node)
      requires Valid() && item !in items && item != this && item.Unlinked()
      modifies this`child, this`items, items`next, item`prev, item`name
      ensures Valid() && items == Added(old(items), item) && item.name == Some(key)
    {
      item.name := Some(key);
      Add(item);
    }

    ghost function Names(): (r: seq<Option<seq<byte>>>)
      reads this`items, items`name
      ensures |r| == |items| && forall i :: 0 <= i < |items| ==> r[i] == items[i].name
    {
      NamesOf(items)
    }

    // The loop that counts up to the first child of a name; null when there is none.
    method Find(key: seq<byte>) returns (c: Node?, i: nat)
      requires Valid() && 0 !in key && CNames(Names())
      ensures i == First(Names(), key) && c == if i < |items| then items[i] else null
    {
      i := 0;
      c := child;
      while c != null
        invariant i <= |items| && c == (if i < |items| then items[i] else null)
        invariant forall k :: 0 <= k < i ==> !SameName(items[k].name, key)
        decreases |items| - i
      {
        assert c.name == Names()[i];
        var same := CompareNames(c.name, key);
        if same {
          break;
        }
        assert i + 1 < |items| ==> Joined(items, i + 1);
        i := i + 1;
        c := c.next;
      }
      FirstIs(Names(), key, i);
    }

    // cJSON_DetachItemFromObject
    method DetachNamed(key: seq<byte>) returns (c: Node?)
      requires Valid() && 0 !in key && CNames(Names())
      modifies this`child, this`items, items`next, items`prev
      ensures Valid() && items == Detached(old(items), First(old(Names()), key))
      ensures var i := First(old(Names()), key); c == if i < |old(items)| then old(items)[i] else null
      ensures c != null ==> c.Unlinked() && c !in items
    {
      var i;
      c, i := Find(key);
      if c != null {
        c := Detach(i);
      }
    }

    // cJSON_ReplaceItemInObject
    method ReplaceNamed(key: seq<byte>, newitem: Node)
      requires Valid() && 0 !in key && CNames(Names())
      requires newitem !in items && newitem != this && newitem.Unlinked()
      modifies this`child, this`items, items`next, items`prev, newitem`next, newitem`prev, newitem`name
      ensures Valid() && items == Replaced(old(items), First(old(Names()), key), newitem)
      ensures newitem in items ==> newitem.name == Some(key)
    {
      var c, i := Find(key);
      if c != null {
        newitem.name := Some(key);
        Replace(i, newitem);
      }
    }
  }

  predicate CNames(names: seq<Option<seq<byte>>>) {
    forall i :: 0 <= i < |names| && names[i].Some? ==> 0 !in names[i].value
  }

  // Where the first child of the name is; past the end when there is none.
  function First(names: seq<Option<seq<byte>>>, key: seq<byte>): (i: nat)
    ensures i <= |names| && (i < |names| ==> SameName(names[i], key))
    ensures forall k :: 0 <= k < i ==> !SameName(names[k], key)
  {
    if names == [] || SameName(names[0], key) then 0 else 1 + First(names[1..], key)
  }

  lemma FirstIs(names: seq<Option<seq<byte>>>, key: seq<byte>, i: nat)
    requires i <= |names| && (i < |names| ==> SameName(names[i], key))
    requires forall k :: 0 <= k < i ==> !SameName(names[k], key)
    ensures i == First(names, key)
  {
    assert !(i < First(names, key));
  }

  ghost function NamesOf(items: seq<Node>): (r: seq<Option<seq<byte>>>)
    reads items`name
    ensures |r| == |items| && forall i :: 0 <= i < |items| ==> r[i] == items[i].name
  {
    if items == [] then [] else [items[0].name] + NamesOf(items[1..])
  }

  ghost predicate Distinct(items: seq<Node>) {
    forall i, j :: 0 <= i < j < |items| ==> items[i] != items[j]
  }

  lemma DetachedNodes(xs: seq<Node>, at: nat)
    requires at < |xs| && Distinct(xs)
    ensures var ys := Detached(xs, at);
            Distinct(ys) && xs[at] !in ys && |ys| == |xs| - 1
            && (forall i :: 0 <= i < at ==> ys[i] == xs[i]) && forall i :: at <= i < |ys| ==> ys[i] == xs[i + 1]
  {}

  lemma InsertedNodes(xs: seq<Node>, at: nat, x: Node)
    requires at < |xs| && Distinct(xs) && x !in xs
    ensures var ys := Inserted(xs, at, x);
            Distinct(ys) && |ys| == |xs| + 1 && ys[at] == x
            && (forall i :: 0 <= i < at ==> ys[i] == xs[i]) && forall i :: at < i < |ys| ==> ys[i] == xs[i - 1]
  {}

  // Node i and the one before it point at each other.
  ghost predicate Joined(items: seq<Node>, i: nat)
    requires 0 < i < |items|
    reads items`next, items`prev
  {
    items[i - 1].next == items[i] && items[i].prev == items[i - 1]
  }

  // ------------------------------------------------------------------ runs

  // A child and the name it goes by
  datatype Entry = Entry(node: Node, name: Option<seq<byte>>)

  ghost function Entries(items: seq<Node>): (r: seq<Entry>)
    reads items`name
    ensures |r| == |items| && forall i :: 0 <= i < |items| ==> r[i] == Entry(items[i], items[i].name)
  {
    if items == [] then [] else [Entry(items[0], items[0].name)] + Entries(items[1..])
  }

  function Known(entries: seq<Entry>): (r: seq<Option<seq<byte>>>)
    ensures |r| == |entries| && forall i :: 0 <= i < |r| ==> r[i] == entries[i].name
  {
    if entries == [] then [] else [entries[0].name] + Known(entries[1..])
  }

  datatype Edit =
    | Add(item: Node)
    | Insert(which: int, item: Node)
    | Replace(which: int, item: Node)
    | Detach(which: int)
    | AddNamed(key: seq<byte>, item: Node)
    | ReplaceNamed(key: seq<byte>, item: Node)
    | DetachNamed(key: seq<byte>)

  function Offer(edit: Edit): set<Node> {
    if edit.Detach? || edit.DetachNamed? then {} else {edit.item}
  }

  predicate Keyed(edit: Edit) {
    edit.AddNamed? || edit.ReplaceNamed? || edit.DetachNamed?
  }

  // The sequence operation that an edit stands for.
  ghost function After(entries: seq<Entry>, edit: Edit): seq<Entry>
    reads Offer(edit)`name
  {
    match edit
    case Add(item) => Added(entries, Entry(item, item.name))
    case Insert(which, item) => Inserted(entries, which, Entry(item, item.name))
    case Replace(which, item) => Replaced(entries, which, Entry(item, item.name))
    case Detach(which) => Detached(entries, which)
    case AddNamed(key, item) => Added(entries, Entry(item, Some(key)))
    case ReplaceNamed(key, item) => Replaced(entries, First(Known(entries), key), Entry(item, Some(key)))
    case DetachNamed(key) => Detached(entries, First(Known(entries), key))
  }

  ghost function AfterAll(entries: seq<Entry>, edits: seq<Edit>): seq<Entry>
    reads Offered(edits)`name
  {
    if edits == [] then entries
    else
      OfferedFirst(edits, |edits| - 1);
      After(AfterAll(entries, edits[..|edits| - 1]), edits[|edits| - 1])
  }

  ghost function Offered(edits: seq<Edit>): (r: set<Node>)
    ensures forall i :: 0 <= i < |edits| ==> Offer(edits[i]) <= r
  {
    set i, n | 0 <= i < |edits| && n in Offer(edits[i]) :: n
  }

  lemma OfferedFirst(edits: seq<Edit>, k: nat)
    requires k <= |edits|
    ensures Offered(edits[..k]) <= Offered(edits)
  {}

  predicate CName(name: Option<seq<byte>>) {
    name.Some? ==> 0 !in name.value
  }

  // An unlinked item with a proper name that is not among the children
  ghost predicate Loose(parent: Node, item: Node)
    reads parent`items, item`next, item`prev, item`name
  {
    item.Unlinked() && item != parent && item !in parent.items && CName(item.name)
  }

  ghost predicate Ready(parent: Node, edit: Edit)
    reads parent`items, Offer(edit)`next, Offer(edit)`prev, Offer(edit)`name
  {
    (Keyed(edit) ==> 0 !in edit.key) && forall item :: item in Offer(edit) ==> Loose(parent, item)
  }

  // No item is offered twice.
  ghost predicate Apart(edits: seq<Edit>) {
    forall i, j :: 0 <= i < j < |edits| ==> Offer(edits[i]) !! Offer(edits[j])
  }

  // The entries of a list that has changed by a sequence operation are changed by the same one.
  lemma EntriesAdded(xs: seq<Node>, x: Node)
    ensures Entries(Added(xs, x)) == Added(Entries(xs), Entry(x, x.name))
  {}

  lemma EntriesInserted(xs: seq<Node>, which: int, x: Node)
    ensures Entries(Inserted(xs, which, x)) == Inserted(Entries(xs), which, Entry(x, x.name))
  {}

  lemma EntriesReplaced(xs: seq<Node>, which: int, x: Node)
    ensures Entries(Replaced(xs, which, x)) == Replaced(Entries(xs), which, Entry(x, x.name))
  {}

  lemma EntriesDetached(xs: seq<Node>, which: int)
    ensures Entries(Detached(xs, which)) == Detached(Entries(xs), which)
  {}

  lemma SameNames(xs: seq<Node>)
    ensures Known(Entries(xs)) == NamesOf(xs)
  {}

  lemma ReplacedOrNot<T>(xs: seq<T>, which: nat, x: T)
    ensures if which < |xs| then x in Replaced(xs, which, x) else Replaced(xs, which, x) == xs
  {
    assert which < |xs| ==> xs[which := x][which] == x;
  }

  // One edit by position
  method Perform(parent: Node, edit: Edit)
    requires parent.Valid() && Ready(parent, edit) && !Keyed(edit)
    modifies parent`child, parent`items, parent.items`next, parent.items`prev, Offer(edit)`next, Offer(edit)`prev
    ensures parent.Valid() && Entries(parent.items) == old(After(Entries(parent.items), edit))
  {
    hide Distinct, Joined, Added, Inserted, Replaced, Detached, Entries;
    ghost var xs := parent.items;
    match edit
    case Add(item) =>
      EntriesAdded(xs, item);
      parent.Add(item);
      assert Entries(parent.items) == old(Entries(Added(xs, item)));
    case Insert(which, item) =>
      EntriesInserted(xs, which, item);
      parent.Insert(which, item);
      assert Entries(parent.items) == old(Entries(Inserted(xs, which, item)));
    case Replace(which, item) =>
      EntriesReplaced(xs, which, item);
      parent.Replace(which, item);
      assert Entries(parent.items) == old(Entries(Replaced(xs, which, item)));
    case Detach(which) =>
      EntriesDetached(xs, which);
      var c := parent.Detach(which);
      assert Entries(parent.items) == old(Entries(Detached(xs, which)));
  }

  // One edit by name
  method PerformNamed(parent: Node, edit: Edit)
    requires parent.Valid() && Ready(parent, edit) && Keyed(edit) && CNames(parent.Names())
    modifies parent`child, parent`items, parent.items`next, parent.items`prev
    modifies Offer(edit)`next, Offer(edit)`prev, Offer(edit)`name
    ensures parent.Valid() && Entries(parent.items) == old(After(Entries(parent.items), edit))
  {
    hide Distinct, Joined, Added, Inserted, Replaced, Detached, Entries, First, CNames, NamesOf, Known;
    ghost var xs := parent.items;
    SameNames(xs);
    match edit
    case AddNamed(key, item) =>
      parent.AddNamed(key, item);
      EntriesAdded(xs, item);
    case ReplaceNamed(key, item) =>
      ghost var i := First(parent.Names(), key);
      parent.ReplaceNamed(key, item);
      EntriesReplaced(xs, i, item);
      ReplacedOrNot(xs, i, item);
      ReplacedOrNot(Entries(xs), i, Entry(item, item.name));
      ReplacedOrNot(Entries(xs), i, Entry(item, Some(key)));
      assert Entries(xs) == old(Entries(xs));
    case DetachNamed(key) =>
      EntriesDetached(xs, First(parent.Names(), key));
      var c := parent.DetachNamed(key);
      assert Entries(parent.items) == old(Entries(Detached(xs, First(parent.Names(), key))));
  }

  // Where the entries behind an edit come from
  lemma AfterFrom(entries: seq<Entry>, edit: Edit)
    ensures forall e :: e in After(entries, edit) ==>
              || e in entries
              || (e.node in Offer(edit) && (e.name == e.node.name || (Keyed(edit) && e.name == Some(edit.key))))
  {
    hide Known, First, Place;
  }

  predicate Proper(entries: seq<Entry>) {
    forall e :: e in entries ==> CName(e.name)
  }

  lemma ProperNames(xs: seq<Node>)
    ensures Proper(Entries(xs)) <==> CNames(NamesOf(xs))
    ensures forall n :: n in xs ==> exists e :: e in Entries(xs) && e.node == n
    ensures forall e :: e in Entries(xs) ==> e.node in xs
  {
    forall n | n in xs ensures exists e :: e in Entries(xs) && e.node == n {
      assert Entry(n, n.name) in Entries(xs) by {
        var i :| 0 <= i < |xs| && xs[i] == n;
        assert Entries(xs)[i] == Entry(n, n.name);
      }
    }
    if Proper(Entries(xs)) {
      forall i | 0 <= i < |xs| ensures CName(NamesOf(xs)[i]) {
        assert Entries(xs)[i] in Entries(xs);
      }
    }
  }

  // One edit; what waits to be offered later stays loose.
  method Step(parent: Node, edit: Edit)
    requires parent.Valid() && Ready(parent, edit) && Proper(Entries(parent.items))
    modifies parent`child, parent`items, parent.items`next, parent.items`prev
    modifies Offer(edit)`next, Offer(edit)`prev, Offer(edit)`name
    ensures parent.Valid() && Entries(parent.items) == old(After(Entries(parent.items), edit))
    ensures Proper(Entries(parent.items))
    ensures forall n :: n in parent.items ==> n in old(parent.items) || n in Offer(edit)
    ensures forall e: Edit :: old(allocated(e)) && old(Ready(parent, e)) && Offer(e) !! Offer(edit) ==> Ready(parent, e)
  {
    hide Distinct, Joined, After, Entries, CNames, NamesOf;
    ghost var entries := Entries(parent.items);
    ProperNames(parent.items);
    AfterFrom(entries, edit);
    if Keyed(edit) {
      PerformNamed(parent, edit);
    } else {
      Perform(parent, edit);
    }
    ProperNames(parent.items);
  }

  // Whatever run of edits is made, by position or by name, the links stay consistent and the
  // children with their names are what the sequence operations make of them.
  method Run(parent: Node, edits: seq<Edit>)
    requires parent.Valid() && Proper(Entries(parent.items)) && Apart(edits)
    requires forall i :: 0 <= i < |edits| ==> Ready(parent, edits[i])
    modifies parent`child, parent`items, parent.items`next, parent.items`prev
    modifies Offered(edits)`next, Offered(edits)`prev, Offered(edits)`name
    ensures parent.Valid() && Entries(parent.items) == old(AfterAll(Entries(parent.items), edits))
  {
    hide Distinct, Joined, After, Entries, Ready, Proper;
    for i := 0 to |edits|
      invariant parent.Valid() && Proper(Entries(parent.items))
      invariant forall k :: i <= k < |edits| ==> Ready(parent, edits[k])
      invariant forall k, n :: i <= k < |edits| && n in Offer(edits[k]) ==> n.name == old(n.name)
      invariant forall n :: n in parent.items ==> n in old(parent.items) || n in Offered(edits)
      invariant Entries(parent.items) == old(AfterAll(Entries(parent.items), edits[..i]))
    {
      assert edits[..i + 1][..i] == edits[..i];
      Step(parent, edits[i]);
    }
    assert edits[..|edits|] == edits;
  }
}
