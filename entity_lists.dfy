/** The list operations both in-memory stores are made of (lib/databaseStore.ts,
    lib/store.ts): `find` by id, `filter` by id or by owning inventory, and
    `map` replacing the elements with a given id. */
module EntityLists {
  import opened Wrappers
  import opened Schemas
  import opened Sorting

  /** `list.find(p)`: the first element satisfying `p`, or undefined. */
  function Find<T(==)>(s: seq<T>, p: T -> bool): (r: Option<T>)
    ensures r.Some? <==> exists i :: 0 <= i < |s| && p(s[i])
    ensures r.Some? ==> exists i :: 0 <= i < |s| && s[i] == r.value && p(s[i]) && forall k :: 0 <= k < i ==> !p(s[k])
  {
    if s == [] then None
    else if p(s[0]) then Some(s[0])
    else
      var r := Find(s[1..], p);
      assert forall i :: 1 <= i < |s| ==> s[i] == s[1..][i - 1];
      if r.Some? then
        var i :| 0 <= i < |s[1..]| && s[1..][i] == r.value && p(s[1..][i]) && forall k :: 0 <= k < i ==> !p(s[1..][k]);
        assert s[i + 1] == r.value && forall k :: 0 <= k < i + 1 ==> !p(s[k]);
        r
      else
        r
  }

  /** `r` is `s` with some elements dropped, the rest in their original order. */
  predicate Subsequence<T(==)>(r: seq<T>, s: seq<T>)
    decreases |s|
  {
    r == [] || (s != [] && ((r[0] == s[0] && Subsequence(r[1..], s[1..])) || Subsequence(r, s[1..])))
  }

  /** A filter keeps the order of what it keeps. */
  lemma {:induction false} FilterIsSubsequence<T>(s: seq<T>, p: T -> bool)
    ensures Subsequence(Filter(s, p), s)
  {
    if s != [] {
      FilterIsSubsequence(s[1..], p);
      var r := Filter(s, p);
      if p(s[0]) {
        assert r == [s[0]] + Filter(s[1..], p);
        assert r[0] == s[0] && r[1..] == Filter(s[1..], p);
      } else {
        assert r == Filter(s[1..], p);
      }
    }
  }

  /** Filtering by `p`, then by a stronger `q`, is filtering by `q` alone. */
  lemma {:induction false} FilterStronger<T>(s: seq<T>, p: T -> bool, q: T -> bool)
    requires forall i :: 0 <= i < |s| && q(s[i]) ==> p(s[i])
    ensures Filter(Filter(s, p), q) == Filter(s, q)
  {
    if s != [] {
      var f := Filter(s, p);
      var tail := Filter(s[1..], p);
      FilterStronger(s[1..], p, q);
      if p(s[0]) {
        assert f == [s[0]] + tail;
        assert f[0] == s[0] && f[1..] == tail;
        calc {
          Filter(f, q);
          (if q(s[0]) then [s[0]] else []) + Filter(tail, q);
          (if q(s[0]) then [s[0]] else []) + Filter(s[1..], q);
          Filter(s, q);
        }
      } else {
        assert f == tail;
        assert !q(s[0]);
        assert Filter(s, q) == Filter(s[1..], q);
      }
    }
  }

  /** `items.filter(item => item.inventoryId === inventoryId)` */
  function ItemsOf(items: seq<Item>, inventoryId: string): (r: seq<Item>)
    ensures forall x :: x in r <==> x in items && x.inventoryId == inventoryId
  {
    Filter(items, (x: Item) => x.inventoryId == inventoryId)
  }

  /** `items.filter(item => item.inventoryId !== inventoryId)` */
  function WithoutItemsOf(items: seq<Item>, inventoryId: string): (r: seq<Item>)
    ensures forall x :: x in r <==> x in items && x.inventoryId != inventoryId
  {
    Filter(items, (x: Item) => x.inventoryId != inventoryId)
  }

  /** `inventories.filter(inv => inv.id !== id)` */
  function WithoutInventory(inventories: seq<Inventory>, id: string): (r: seq<Inventory>)
    ensures forall x :: x in r <==> x in inventories && x.id != id
  {
    Filter(inventories, (x: Inventory) => x.id != id)
  }

  /** `items.filter(item => item.id !== id)` */
  function WithoutItem(items: seq<Item>, id: string): (r: seq<Item>)
    ensures forall x :: x in r <==> x in items && x.id != id
  {
    Filter(items, (x: Item) => x.id != id)
  }

  /** `items.filter(item => item.inventoryId === inventoryId).length`: zero
      exactly when no item belongs to the inventory. */
  function ItemCount(items: seq<Item>, inventoryId: string): (n: nat)
    ensures n <= |items|
    ensures n == 0 <==> forall i :: 0 <= i < |items| ==> items[i].inventoryId != inventoryId
  {
    var r := ItemsOf(items, inventoryId);
    assert r != [] ==> r[0] in r;
    |r|
  }

  /** `inventories.find(inv => inv.id === id)` */
  function FindInventory(inventories: seq<Inventory>, id: string): (r: Option<Inventory>)
    ensures r.Some? <==> exists i :: 0 <= i < |inventories| && inventories[i].id == id
    ensures r.Some? ==> r.value in inventories && r.value.id == id
    ensures r.Some? ==>
      exists i :: 0 <= i < |inventories| && inventories[i] == r.value && forall k :: 0 <= k < i ==> inventories[k].id != id
  {
    Find(inventories, (x: Inventory) => x.id == id)
  }

  /** `items.find(item => item.id === id)` */
  function FindItem(items: seq<Item>, id: string): (r: Option<Item>)
    ensures r.Some? <==> exists i :: 0 <= i < |items| && items[i].id == id
    ensures r.Some? ==> r.value in items && r.value.id == id
    ensures r.Some? ==> exists i :: 0 <= i < |items| && items[i] == r.value && forall k :: 0 <= k < i ==> items[k].id != id
  {
    Find(items, (x: Item) => x.id == id)
  }

  /** `inventories.find(inv => inv.id === currentInventoryId) || null`: the
      selected inventory, or null when nothing is selected or no inventory
      has the selected id. */
  function SelectedInventory(inventories: seq<Inventory>, current: Option<string>): (r: Option<Inventory>)
    ensures r.None? <==> current.None? || forall i :: 0 <= i < |inventories| ==> inventories[i].id != current.value
    ensures r.Some? ==> r.value in inventories && Some(r.value.id) == current
  {
    match current
    case None => None
    case Some(id) => FindInventory(inventories, id)
  }

  /** `items.filter(item => item.inventoryId === currentInventoryId)`: the
      items of the selected inventory, none when nothing is selected (an id
      is never `null`). */
  function SelectedItems(items: seq<Item>, current: Option<string>): (r: seq<Item>)
    ensures forall x :: x in r <==> x in items && Some(x.inventoryId) == current
  {
    match current
    case None => []
    case Some(id) => ItemsOf(items, id)
  }

  /** `inventories.map(inv => inv.id === id ? v : inv)` */
  function ReplaceInventory(inventories: seq<Inventory>, id: string, v: Inventory): (r: seq<Inventory>)
    ensures |r| == |inventories|
    ensures forall i :: 0 <= i < |r| ==> r[i] == if inventories[i].id == id then v else inventories[i]
  {
    seq(|inventories|, i requires 0 <= i < |inventories| => if inventories[i].id == id then v else inventories[i])
  }

  /** `items.map(item => item.id === id ? v : item)` */
  function ReplaceItem(items: seq<Item>, id: string, v: Item): (r: seq<Item>)
    ensures |r| == |items|
    ensures forall i :: 0 <= i < |r| ==> r[i] == if items[i].id == id then v else items[i]
  {
    seq(|items|, i requires 0 <= i < |items| => if items[i].id == id then v else items[i])
  }

  /** After replacing the inventory with id `id` by `v` (which keeps the id),
      looking `id` up finds `v` when it was there, and looking up any other id
      finds what it found before. */
  lemma {:induction false} FindAfterReplaceInventory(inventories: seq<Inventory>, id: string, v: Inventory, k: string)
    requires v.id == id
    ensures FindInventory(ReplaceInventory(inventories, id, v), k) ==
      if k != id then FindInventory(inventories, k)
      else if FindInventory(inventories, id).Some? then Some(v) else None
  {
    if inventories != [] {
      var r := ReplaceInventory(inventories, id, v);
      assert r[1..] == ReplaceInventory(inventories[1..], id, v);
      FindAfterReplaceInventory(inventories[1..], id, v, k);
    }
  }

  /** The same for items. */
  lemma {:induction false} FindAfterReplaceItem(items: seq<Item>, id: string, v: Item, k: string)
    requires v.id == id
    ensures FindItem(ReplaceItem(items, id, v), k) ==
      if k != id then FindItem(items, k)
      else if FindItem(items, id).Some? then Some(v) else None
  {
    if items != [] {
      var r := ReplaceItem(items, id, v);
      assert r[1..] == ReplaceItem(items[1..], id, v);
      FindAfterReplaceItem(items[1..], id, v, k);
    }
  }

  /** Replacing an inventory's items with `fetched`, all of that inventory:
      its listing becomes `fetched` and every other inventory's listing is
      unchanged, order included. */
  lemma ScopedReplace(items: seq<Item>, inventoryId: string, fetched: seq<Item>)
    requires forall i :: 0 <= i < |fetched| ==> fetched[i].inventoryId == inventoryId
    ensures ItemsOf(WithoutItemsOf(items, inventoryId) + fetched, inventoryId) == fetched
    ensures forall other :: other != inventoryId ==>
      ItemsOf(WithoutItemsOf(items, inventoryId) + fetched, other) == ItemsOf(items, other)
  {
    var kept := WithoutItemsOf(items, inventoryId);
    FilterConcat(kept, fetched, (x: Item) => x.inventoryId == inventoryId);
    FilterNone(kept, (x: Item) => x.inventoryId == inventoryId);
    FilterKeepsAll(fetched, (x: Item) => x.inventoryId == inventoryId);
    forall other | other != inventoryId
      ensures ItemsOf(kept + fetched, other) == ItemsOf(items, other)
    {
      FilterConcat(kept, fetched, (x: Item) => x.inventoryId == other);
      FilterNone(fetched, (x: Item) => x.inventoryId == other);
      FilterStronger(items, (x: Item) => x.inventoryId != inventoryId, (x: Item) => x.inventoryId == other);
    }
  }

  /** Dropping an inventory's items leaves it none and leaves every other
      inventory's listing unchanged, order included. */
  lemma DropItemsOf(items: seq<Item>, inventoryId: string)
    ensures ItemsOf(WithoutItemsOf(items, inventoryId), inventoryId) == []
    ensures forall other :: other != inventoryId ==>
      ItemsOf(WithoutItemsOf(items, inventoryId), other) == ItemsOf(items, other)
  {
    ScopedReplace(items, inventoryId, []);
    assert WithoutItemsOf(items, inventoryId) + [] == WithoutItemsOf(items, inventoryId);
  }

  /** The removals keep the survivors in their original order. */
  lemma RemovalsKeepOrder(inventories: seq<Inventory>, items: seq<Item>, id: string)
    ensures Subsequence(WithoutInventory(inventories, id), inventories)
    ensures Subsequence(WithoutItem(items, id), items)
    ensures Subsequence(WithoutItemsOf(items, id), items)
  {
    FilterIsSubsequence(inventories, (x: Inventory) => x.id != id);
    FilterIsSubsequence(items, (x: Item) => x.id != id);
    FilterIsSubsequence(items, (x: Item) => x.inventoryId != id);
  }
}
