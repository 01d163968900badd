/** The children of an item: a linked list in which the first child's back link leads to the last child. */
module JsonList {
  import opened JsonValue

  class Item {
    var next: Item?
    var prev: Item?
    var child: Item?
    // what the item is, without its children's links
    const content: Pair

    constructor (content: Pair)
      ensures next == null && prev == null && child == null && this.content == content
    {
      next, prev, child := null, null, null;
      this.content := content;
    }
  }

  /** The links of the nodes `s`: forward to a null, backward in the interior, and from the first to the last. */
  ghost predicate Linked(s: seq<Item>)
    reads s
  {
    (forall i | 0 <= i < |s| - 1 :: s[i].next == s[i + 1]) &&
    (forall i | 1 <= i < |s| :: s[i].prev == s[i - 1]) &&
    (s != [] ==> s[|s| - 1].next == null && s[0].prev == s[|s| - 1])
  }

  /** The neighbours of child number `k`. */
  lemma Neighbours(parent: Item, s: seq<Item>, k: nat)
    requires IsList(parent, s) && k < |s|
    ensures s[k].next == if k + 1 < |s| then s[k + 1] else null
    ensures s[k].next == null <==> k + 1 == |s|
    ensures s[k].prev == if k > 0 then s[k - 1] else s[|s| - 1]
    ensures s[k].prev in s && (s[k].next != null ==> s[k].next in s)
    ensures parent.child == s[k] <==> k == 0
    ensures parent.child in s && parent.child == s[0]
  {
  }

  ghost predicate Distinct(s: seq<Item>) {
    forall i, j | 0 <= i < j < |s| :: s[i] != s[j]
  }

  /** The children of `parent` are the nodes `s`, in this order. */
  ghost predicate IsList(parent: Item, s: seq<Item>)
    reads parent, s
  {
    parent !in s && Distinct(s) && Linked(s) && parent.child == if s == [] then null else s[0]
  }

  /** A parent has one list of children: following the links determines it. */
  lemma ListIsUnique(parent: Item, s: seq<Item>, t: seq<Item>)
    requires IsList(parent, s) && IsList(parent, t)
    ensures s == t
  {
    SamePrefix(parent, s, t, |s|);
    SamePrefix(parent, t, s, |t|);
  }

  lemma {:induction false} SamePrefix(parent: Item, s: seq<Item>, t: seq<Item>, n: nat)
    requires IsList(parent, s) && IsList(parent, t) && n <= |s|
    ensures n <= |t| && s[..n] == t[..n]
  {
    if n > 0 {
      SamePrefix(parent, s, t, n - 1);
      if n > 1 {
        assert s[n - 2] == s[..n - 1][n - 2] == t[..n - 1][n - 2] == t[n - 2];
        assert s[n - 1] == t[n - 2].next;
      }
      assert s[..n] == s[..n - 1] + [s[n - 1]] && t[..n] == t[..n - 1] + [t[n - 1]];
    }
  }

  // ---- The same changes on sequences ----

  function Inserted<T>(s: seq<T>, k: nat, x: T): (r: seq<T>)
    ensures |r| == |s| + 1
  {
    if k < |s| then s[..k] + [x] + s[k..] else s + [x]
  }

  function Removed<T>(s: seq<T>, k: nat): (r: seq<T>)
    requires k < |s|
    ensures |r| == |s| - 1
  {
    s[..k] + s[k + 1..]
  }

  // ---- The operations ----

  /** The object a possibly null reference leads to. */
  ghost function Ref(x: Item?): set<Item> {
    if x == null then {} else {x}
  }

  method SuffixObject(prev: Item, item: Item)
    modifies prev`next, item`prev
    ensures prev.next == item && item.prev == prev
  {
    prev.next := item;
    item.prev := prev;
  }

  /** The child number `index`, or null. */
  method GetArrayItem(parent: Item, index: nat, ghost s: seq<Item>) returns (item: Item?)
    requires IsList(parent, s)
    ensures item == if index < |s| then s[index] else null
  {
    item := parent.child;
    var left: nat := index;
    while item != null && left > 0
      invariant left <= index
      invariant item == if index - left < |s| then s[index - left] else null
      invariant item == null <==> index - left >= |s|
    {
      Neighbours(parent, s, index - left);
      left := left - 1;
      item := item.next;
    }
  }

  /**
   Append. The result is a list if and only if the node was not yet a child and either the list was empty or the node
   had no successor: only in the first case is its forward link reset.
   */
  method AddItemToArray(parent: Item?, item: Item?, ghost s: seq<Item>) returns (ok: bool)
    requires parent != null ==> IsList(parent, s)
    modifies Ref(parent)`child, Ref(item)`next, Ref(item)`prev, s`next, s`prev
    ensures ok == (item != null && parent != null && item != parent)
    ensures ok ==> (IsList(parent, s + [item]) <==> item !in s && (s == [] || old(item.next) == null))
    ensures !ok && parent != null ==> IsList(parent, s)
  {
    if item == null || parent == null || parent == item {
      return false;
    }
    if s != [] {
      Neighbours(parent, s, 0);
    }
    var child := parent.child;
    if child == null {
      parent.child := item;
      item.prev := item;
      item.next := null;
    } else {
      if child.prev != null {
        SuffixObject(child.prev, item);
        parent.child.prev := item;
      }
      assert item !in s ==> (s + [item])[|s|].next == old(item.next);
    }
    if item in s {
      RepeatedIsNoList(parent, s, item, |s|);
    }
    ok := true;
  }

  /** A node can stand in a list once only. */
  lemma RepeatedIsNoList(parent: Item, s: seq<Item>, item: Item, k: nat)
    requires k <= |s| && item in s
    ensures !IsList(parent, s[..k] + [item] + s[k..]) && !IsList(parent, s + [item])
  {
    var i :| 0 <= i < |s| && s[i] == item;
    var r := s[..k] + [item] + s[k..];
    assert r[if i < k then i else i + 1] == item && r[k] == item;
    assert (s + [item])[i] == item && (s + [item])[|s|] == item;
  }

  /** Insert in front of child number `which`, or append when there is no such child. */
  method InsertItemInArray(parent: Item?, which: int, newitem: Item?, ghost s: seq<Item>) returns (ok: bool)
    requires parent != null ==> IsList(parent, s)
    modifies Ref(parent)`child, Ref(newitem)`next, Ref(newitem)`prev, s`next, s`prev
    ensures ok == (which >= 0 && parent != null && newitem != null && (which >= |s| ==> newitem != parent))
    ensures ok ==>
      (IsList(parent, Inserted(s, which, newitem)) <==>
       newitem !in s && newitem != parent && (which < |s| || s == [] || old(newitem.next) == null))
    ensures !ok && parent != null ==> IsList(parent, s)
  {
    if which < 0 || newitem == null {
      return false;
    }
    if parent == null {
      ok := AddItemToArray(parent, newitem, s);
      return;
    }
    var afterInserted := GetArrayItem(parent, which, s);
    if afterInserted == null {
      ok := AddItemToArray(parent, newitem, s);
      return;
    }
    Neighbours(parent, s, which);
    if afterInserted != parent.child && afterInserted.prev == null {
      return false;
    }
    LinkBefore(parent, afterInserted, newitem, s, which);
    ok := true;
  }

  lemma InsertedAt(s: seq<Item>, k: nat, x: Item)
    requires k <= |s|
    ensures var r := s[..k] + [x] + s[k..];
      |r| == |s| + 1 && r[k] == x && (forall i | 0 <= i < k :: r[i] == s[i]) &&
      (forall i | k < i <= |s| :: r[i] == s[i - 1])
  {
  }

  /** Link a node in front of child number `k`. */
  method LinkBefore(parent: Item, afterInserted: Item, newitem: Item, ghost s: seq<Item>, ghost k: nat)
    requires IsList(parent, s) && k < |s| && s[k] == afterInserted
    modifies Ref(parent)`child, Ref(newitem)`next, Ref(newitem)`prev, s`next, s`prev
    ensures IsList(parent, s[..k] + [newitem] + s[k..]) <==> newitem !in s && newitem != parent
  {
    Neighbours(parent, s, k);
    newitem.next := afterInserted;
    newitem.prev := afterInserted.prev;
    afterInserted.prev := newitem;
    if afterInserted == parent.child {
      parent.child := newitem;
    } else {
      newitem.prev.next := newitem;
    }
    ghost var r := s[..k] + [newitem] + s[k..];
    InsertedAt(s, k, newitem);
    if newitem in s {
      RepeatedIsNoList(parent, s, newitem, k);
    } else if newitem == parent {
      assert r[k] == parent;
    } else {
      forall i | 0 <= i < |r| - 1 ensures r[i].next == r[i + 1] {
        assert k < i ==> r[i] == s[i - 1] && r[i + 1] == s[i];
      }
      forall i | 1 <= i < |r| ensures r[i].prev == r[i - 1] {
        assert k + 1 < i ==> r[i] == s[i - 1] && r[i - 1] == s[i - 2];
      }
      assert r[|r| - 1] == s[|s| - 1];
    }
  }

  /** Detach child number `k`; afterwards it points nowhere. A node that is in no list is not detached. */
  method DetachItemViaPointer(parent: Item?, item: Item?, ghost s: seq<Item>, ghost k: nat) returns (detached: Item?)
    requires parent != null ==> IsList(parent, s)
    requires parent != null && item != null ==> (k < |s| && s[k] == item) || (item !in s && item.prev == null)
    modifies Ref(parent)`child, Ref(item)`next, Ref(item)`prev, s`next, s`prev
    ensures if parent == null || item == null || item !in s
      then detached == null && (parent != null ==> IsList(parent, s))
      else detached == item && item.next == null && item.prev == null && IsList(parent, Removed(s, k))
  {
    if parent != null && item != null && item in s {
      Neighbours(parent, s, k);
    }
    if parent == null || item == null || (item != parent.child && item.prev == null) {
      return null;
    }
    if item != parent.child {
      item.prev.next := item.next;
    }
    if item.next != null {
      item.next.prev := item.prev;
    }
    if item == parent.child {
      parent.child := item.next;
    } else if item.next == null {
      parent.child.prev := item.prev;
    }
    item.prev := null;
    item.next := null;
    detached := item;
  }

  /** Put another node in the place of child number `k`, which then points nowhere and is given up for deletion. */
  method ReplaceItemViaPointer(parent: Item?, item: Item?, replacement: Item?, ghost s: seq<Item>, ghost k: nat)
      returns (ok: bool, deleted: Item?)
    requires parent != null ==> IsList(parent, s)
    requires parent != null && item != null ==> s == [] || (k < |s| && s[k] == item)
    requires replacement != null && replacement != item ==> replacement !in s && replacement != parent
    modifies Ref(parent)`child, Ref(item)`next, Ref(item)`prev, s`next, s`prev
    modifies Ref(replacement)`next, Ref(replacement)`prev
    ensures ok == (parent != null && item != null && replacement != null && s != [])
    ensures deleted == if ok && replacement != item then item else null
    ensures ok ==> IsList(parent, s[k := replacement])
    ensures ok && replacement != item ==> item.next == null && item.prev == null
    ensures !ok && parent != null ==> IsList(parent, s)
  {
    if parent != null && item != null && s != [] {
      Neighbours(parent, s, k);
    }
    if parent == null || parent.child == null || replacement == null || item == null {
      return false, null;
    }
    if replacement == item {
      assert s[k := replacement] == s;
      return true, null;
    }
    replacement.next := item.next;
    replacement.prev := item.prev;
    if replacement.next != null {
      replacement.next.prev := replacement;
    }
    if parent.child == item {
      if parent.child.prev == parent.child {
        replacement.prev := replacement;
      }
      parent.child := replacement;
    } else {
      if replacement.prev != null {
        replacement.prev.next := replacement;
      }
      if replacement.next == null {
        parent.child.prev := replacement;
      }
    }
    item.next := null;
    item.prev := null;
    ok, deleted := true, item;
  }

  // ---- One operation after the other ----

  /** Inserting a new node and detaching it again restores the list. */
  method InsertThenDetach(parent: Item, which: nat, newitem: Item, ghost s: seq<Item>) returns (detached: Item?)
    requires IsList(parent, s) && newitem !in s && newitem != parent
    requires which < |s| || s == [] || newitem.next == null
    modifies parent`child, newitem`next, newitem`prev, s`next, s`prev
    ensures IsList(parent, s) && detached == newitem && newitem.next == null && newitem.prev == null
  {
    hide IsList;
    ghost var at := if which < |s| then which else |s|;
    ghost var r := Inserted(s, which, newitem);
    var ok := InsertItemInArray(parent, which, newitem, s);
    assert r[at] == newitem && Removed(r, at) == s;
    detached := DetachItemViaPointer(parent, newitem, r, at);
  }

  /** Detaching a child and inserting it again in the same place restores the list. */
  method DetachThenInsert(parent: Item, item: Item, ghost s: seq<Item>, k: nat) returns (ok: bool)
    requires IsList(parent, s) && k < |s| && s[k] == item
    modifies parent`child, s`next, s`prev
    ensures ok && IsList(parent, s)
  {
    ghost var r := Removed(s, k);
    var detached := DetachItemViaPointer(parent, item, s, k);
    RemovedOnce(parent, s, k);
    assert Inserted(r, k, item) == s;
    ok := InsertItemInArray(parent, k, detached, r);
  }

  lemma RemovedOnce(parent: Item, s: seq<Item>, k: nat)
    requires Distinct(s) && parent !in s && k < |s|
    ensures s[k] !in Removed(s, k) && s[k] != parent
    ensures forall x | x in Removed(s, k) :: x in s
  {
  }

  // ---- Lists built from nothing ----

  /** New nodes linked in both directions, except for the link from the first to the last. */
  ghost predicate Chained(s: seq<Item>)
    reads s
  {
    Distinct(s) &&
    (forall i | 0 <= i < |s| - 1 :: s[i].next == s[i + 1]) &&
    (forall i | 1 <= i < |s| :: s[i].prev == s[i - 1]) &&
    (s != [] ==> s[|s| - 1].next == null)
  }

  /** The nodes stand for these children. */
  ghost predicate StandFor(s: seq<Item>, children: seq<Pair>) {
    |s| == |children| && forall i | 0 <= i < |s| :: s[i].content == children[i]
  }

  /** The parser links every child it reads to the one before; the parent comes last. */
  method LinkParsed(parent: Item, children: seq<Pair>) returns (ghost s: seq<Item>)
    modifies parent`child
    ensures IsList(parent, s) && StandFor(s, children) && forall x | x in s :: fresh(x)
  {
    s := [];
    var head: Item?, current: Item? := null, null;
    for i := 0 to |children|
      invariant Chained(s) && StandFor(s, children[..i]) && forall x | x in s :: fresh(x)
      invariant if s == [] then head == current == null else head == s[0] && current == s[|s| - 1]
      invariant head != null ==> head in s && current in s
    {
      var newItem := new Item(children[i]);
      if head == null {
        head := newItem;
      } else {
        current.next := newItem;
        newItem.prev := current;
      }
      current := newItem;
      s := s + [newItem];
    }
    if head != null {
      head.prev := current;
    }
    parent.child := head;
    assert children[..|children|] == children;
  }

  /** The copy enters the first child into the parent at once, and the link to the last child at the end. */
  method LinkDuplicated(parent: Item, children: seq<Pair>) returns (ghost s: seq<Item>)
    requires parent.child == null
    modifies parent`child
    ensures IsList(parent, s) && StandFor(s, children) && forall x | x in s :: fresh(x)
  {
    s := [];
    var next: Item? := null;
    for i := 0 to |children|
      invariant Chained(s) && StandFor(s, children[..i]) && forall x | x in s :: fresh(x)
      invariant if s == [] then parent.child == next == null else parent.child == s[0] && next == s[|s| - 1]
      invariant next != null ==> next in s && parent.child in s
    {
      var newChild := new Item(children[i]);
      if next != null {
        next.next := newChild;
        newChild.prev := next;
      } else {
        parent.child := newChild;
      }
      next := newChild;
      s := s + [newChild];
    }
    if parent.child != null {
      parent.child.prev := next;
    }
    assert children[..|children|] == children;
  }
}
