/**
 * kernel/list.c: doubly linked lists threaded through their items, as every scheduler list is.
 * `items` is what the pointers spell out.
 */
module KernelList {
  class Item {
    var next: Item?
    var prev: Item?
    var value: nat

    constructor ()
      ensures next == null && prev == null && value == 0
    {
      next, prev, value := null, null, 0;
    }
  }

  /** Behind everything that is at most `v`: where `list_insert_sorted` puts a new key. */
  function PlaceBehind(keys: seq<nat>, v: nat): (k: nat)
    ensures k <= |keys| && (forall i | 0 <= i < k :: keys[i] <= v) && (k < |keys| ==> keys[k] > v)
  {
    if keys == [] || keys[0] > v then 0 else 1 + PlaceBehind(keys[1..], v)
  }

  /** Before everything that is at least `v`: where `list_insert_sorted_asc` puts it. */
  function PlaceBefore(keys: seq<nat>, v: nat): (k: nat)
    ensures k <= |keys| && (forall i | 0 <= i < k :: keys[i] < v) && (k < |keys| ==> keys[k] >= v)
  {
    if keys == [] || keys[0] >= v then 0 else 1 + PlaceBefore(keys[1..], v)
  }

  ghost predicate Sorted(keys: seq<nat>) {
    forall i, j | 0 <= i < j < |keys| :: keys[i] <= keys[j]
  }

  function Inserted<T>(q: seq<T>, k: nat, x: T): seq<T>
    requires k <= |q|
  {
    q[..k] + [x] + q[k..]
  }

  /** A key keeps a list sorted wherever no larger key precedes it and no smaller one follows. */
  lemma InsertedSorted(keys: seq<nat>, k: nat, v: nat)
    requires Sorted(keys) && k <= |keys| && (forall i | 0 <= i < k :: keys[i] <= v) && (k < |keys| ==> keys[k] >= v)
    ensures Sorted(Inserted(keys, k, v))
  {
    var r := Inserted(keys, k, v);
    forall i, j | 0 <= i < j < |r|
      ensures r[i] <= r[j]
    {
      var a, b := if i < k then i else i - 1, if j < k then j else j - 1;
      assert i != k ==> r[i] == keys[a];
      assert j != k ==> r[j] == keys[b];
      if i == k { assert keys[k] <= keys[b]; } else if j != k && i != k { assert a < b; }
    }
  }

  /** Both insertions keep a list sorted; they differ in the side of its equals the new key ends up on. */
  lemma InsertKeepsSorted(keys: seq<nat>, v: nat)
    requires Sorted(keys)
    ensures Sorted(Inserted(keys, PlaceBehind(keys, v), v)) && Sorted(Inserted(keys, PlaceBefore(keys, v), v))
    ensures forall i | 0 <= i < |keys| && keys[i] == v :: PlaceBefore(keys, v) <= i < PlaceBehind(keys, v)
  {
    InsertedSorted(keys, PlaceBehind(keys, v), v);
    InsertedSorted(keys, PlaceBefore(keys, v), v);
    assert forall i | PlaceBehind(keys, v) <= i < |keys| :: keys[PlaceBehind(keys, v)] <= keys[i];
  }

  /** The pointers of item `i` lead to its neighbours. */
  ghost predicate Linked(items: seq<Item>, i: nat)
    requires i < |items|
    reads items
  {
    && items[i].next == (if i + 1 < |items| then items[i + 1] else null)
    && items[i].prev == (if i > 0 then items[i - 1] else null)
  }

  ghost predicate Distinct(items: seq<Item>) {
    forall i, j | 0 <= i < j < |items| :: items[i] != items[j]
  }

  function Keys(items: seq<Item>): (k: seq<nat>)
    reads items
    ensures |k| == |items| && forall i | 0 <= i < |items| :: k[i] == items[i].value
  {
    if items == [] then [] else [items[0].value] + Keys(items[1..])
  }

  lemma {:induction false} SameKeys(items: seq<Item>, keys: seq<nat>)
    requires |keys| == |items| && forall i | 0 <= i < |items| :: keys[i] == items[i].value
    ensures Keys(items) == keys
  {
  }

  lemma {:induction false} KeysInserted(items: seq<Item>, k: nat, item: Item)
    requires k <= |items|
    ensures Keys(Inserted(items, k, item)) == Inserted(Keys(items), k, item.value)
  {
  }

  class List {
    var head: Item?
    var tail: Item?
    var count: nat
    ghost var items: seq<Item>

    ghost predicate Valid()
      reads this, items
    {
      && count == |items| && Distinct(items)
      && head == (if items == [] then null else items[0])
      && tail == (if items == [] then null else items[|items| - 1])
      && (forall i: nat {:trigger Linked(items, i)} | i < |items| :: Linked(items, i))
    }

    /** `list_init`. */
    constructor ()
      ensures Valid() && items == []
    {
      head, tail, count, items := null, null, 0, [];
    }

    /** `list_insert_end`. */
    method InsertEnd(item: Item)
      requires Valid() && item !in items
      modifies this, item`next, item`prev, items`next
      ensures Valid() && items == old(items) + [item]
    {
      ghost var was := items;
      item.next := null;
      item.prev := tail;
      if tail != null {
        assert tail in items && Linked(items, |items| - 1);
        tail.next := item;
      } else {
        head := item;
      }
      tail := item;
      count := count + 1;
      items := items + [item];
      forall i: nat | i < |items|
        ensures Linked(items, i)
      {
        assert i < |was| ==> old(Linked(was, i)) && was[i] in was;
      }
    }

    /** The item goes in front of `cur`, which is item `k`. */
    method InsertBefore(item: Item, cur: Item, ghost k: nat)
      requires Valid() && item !in items && k < |items| && cur == items[k]
      modifies this, item`next, item`prev, items`next, items`prev
      ensures Valid() && items == Inserted(old(items), k, item)
    {
      ghost var was := items;
      assert Linked(was, k);
      item.next := cur;
      item.prev := cur.prev;
      if cur.prev != null {
        assert cur.prev == was[k - 1] && Linked(was, k - 1);
        cur.prev.next := item;
      } else {
        head := item;
      }
      cur.prev := item;
      count := count + 1;
      items := Inserted(was, k, item);
      forall i: nat | i < |items|
        ensures Linked(items, i)
      {
        if i != k {
          var j := if i < k then i else i - 1;
          assert old(Linked(was, j)) && items[i] == was[j] && was[j] in was;
        }
      }
    }

    /** `list_remove` of item `k`. */
    method Remove(item: Item, ghost k: nat)
      requires Valid() && k < |items| && item == items[k]
      modifies this, items`next, items`prev
      ensures Valid() && items == old(items)[..k] + old(items)[k + 1..]
      ensures item.next == null && item.prev == null
    {
      ghost var was := items;
      assert Linked(was, k) && (k + 1 < |was| ==> Linked(was, k + 1));
      if item.prev != null {
        assert item.prev == was[k - 1] && Linked(was, k - 1);
        item.prev.next := item.next;
      } else if head == item {
        head := item.next;
      }
      if item.next != null {
        assert item.next == was[k + 1];
        item.next.prev := item.prev;
      } else if tail == item {
        tail := item.prev;
      }
      item.next := null;
      item.prev := null;
      if count > 0 {
        count := count - 1;
      }
      items := was[..k] + was[k + 1..];
      forall i: nat | i < |items|
        ensures Linked(items, i)
      {
        var j := if i < k then i else i + 1;
        assert old(Linked(was, j)) && items[i] == was[j] && was[j] in was;
        assert j + 1 == k ==> was[j].next == if k + 1 < |was| then was[k + 1] else null;
        assert j == k + 1 ==> was[j].prev == if k > 0 then was[k - 1] else null;
      }
    }

    /** The item goes in front of `cur`, or at the end if the walk ran off the list. */
    method Place(item: Item, cur: Item?, ghost k: nat)
      requires Valid() && item !in items && k <= |items| && cur == (if k < |items| then items[k] else null)
      modifies this, item`next, item`prev, items`next, items`prev
      ensures Valid() && items == Inserted(old(items), k, item)
    {
      if cur == null {
        InsertEnd(item);
      } else {
        InsertBefore(item, cur, k);
      }
    }

    method SetKey(item: Item, value: nat)
      requires Valid() && item !in items
      modifies item`value
      ensures Valid() && item.value == value && Keys(items) == old(Keys(items))
    {
      ghost var keys := Keys(items);
      item.value := value;
      SameKeys(items, keys);
    }

    /** The same, and what it does to the keys. */
    method PlaceKeyed(item: Item, cur: Item?, ghost k: nat)
      requires Valid() && item !in items && k <= |items| && cur == (if k < |items| then items[k] else null)
      modifies this, item`next, item`prev, items`next, items`prev
      ensures Valid() && items == Inserted(old(items), k, item) && Keys(items) == Inserted(old(Keys(items)), k, item.value)
    {
      ghost var was, keys := items, Keys(items);
      Place(item, cur, k);
      SameKeys(was, keys);
      KeysInserted(was, k, item);
    }

    /** The walk of `list_insert_sorted`: past everything that is at most `value`. */
    method WalkBehind(value: nat) returns (cur: Item?, ghost k: nat)
      requires Valid()
      ensures k == PlaceBehind(Keys(items), value) && cur == (if k < |items| then items[k] else null)
    {
      cur := head;
      k := 0;
      while cur != null && cur.value <= value
        invariant k <= |items| && cur == (if k < |items| then items[k] else null)
        invariant forall i | 0 <= i < k :: items[i].value <= value
        decreases |items| - k
      {
        assert Linked(items, k);
        cur := cur.next;
        k := k + 1;
      }
      BehindUnique(Keys(items), value, k);
    }

    /** The key is stored in the item, then the walk. */
    method FindBehind(item: Item, value: nat) returns (cur: Item?, ghost k: nat)
      requires Valid() && item !in items
      modifies item`value
      ensures Valid() && item.value == value && Keys(items) == old(Keys(items))
      ensures k == PlaceBehind(Keys(items), value) && cur == (if k < |items| then items[k] else null)
    {
      SetKey(item, value);
      cur, k := WalkBehind(value);
    }

    /** `list_insert_sorted`. */
    method InsertSorted(item: Item, value: nat)
      requires Valid() && item !in items
      modifies this, item, items`next, items`prev
      ensures Valid()
      ensures items == Inserted(old(items), PlaceBehind(old(Keys(items)), value), item)
      ensures Keys(items) == Inserted(old(Keys(items)), PlaceBehind(old(Keys(items)), value), value)
    {
      var cur, k := FindBehind(item, value);
      PlaceKeyed(item, cur, k);
    }

    /** The walk of `list_insert_sorted_asc`: past everything that is less than `value`. */
    method WalkBefore(value: nat) returns (cur: Item?, ghost k: nat)
      requires Valid()
      ensures k == PlaceBefore(Keys(items), value) && cur == (if k < |items| then items[k] else null)
    {
      cur := head;
      k := 0;
      while cur != null && cur.value < value
        invariant k <= |items| && cur == (if k < |items| then items[k] else null)
        invariant forall i | 0 <= i < k :: items[i].value < value
        decreases |items| - k
      {
        assert Linked(items, k);
        cur := cur.next;
        k := k + 1;
      }
      BeforeUnique(Keys(items), value, k);
    }

    /** The key is stored in the item, then the walk. */
    method FindBefore(item: Item, value: nat) returns (cur: Item?, ghost k: nat)
      requires Valid() && item !in items
      modifies item`value
      ensures Valid() && item.value == value && Keys(items) == old(Keys(items))
      ensures k == PlaceBefore(Keys(items), value) && cur == (if k < |items| then items[k] else null)
    {
      SetKey(item, value);
      cur, k := WalkBefore(value);
    }

    /** `list_insert_sorted_asc`. */
    method InsertSortedAsc(item: Item, value: nat)
      requires Valid() && item !in items
      modifies this, item, items`next, items`prev
      ensures Valid()
      ensures items == Inserted(old(items), PlaceBefore(old(Keys(items)), value), item)
      ensures Keys(items) == Inserted(old(Keys(items)), PlaceBefore(old(Keys(items)), value), value)
    {
      var cur, k := FindBefore(item, value);
      PlaceKeyed(item, cur, k);
    }
  }

  lemma {:induction false} BehindUnique(keys: seq<nat>, v: nat, k: nat)
    requires k <= |keys| && (forall i | 0 <= i < k :: keys[i] <= v) && (k < |keys| ==> keys[k] > v)
    ensures PlaceBehind(keys, v) == k
  {
    if k > 0 { BehindUnique(keys[1..], v, k - 1); }
  }

  lemma {:induction false} BeforeUnique(keys: seq<nat>, v: nat, k: nat)
    requires k <= |keys| && (forall i | 0 <= i < k :: keys[i] < v) && (k < |keys| ==> keys[k] >= v)
    ensures PlaceBefore(keys, v) == k
  {
    if k > 0 { BeforeUnique(keys[1..], v, k - 1); }
  }
}
