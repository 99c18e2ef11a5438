/**
 * `ValueTracker` of gpglib/utils.py: records the start and end of parsed items
 * as a tree. The root dictionary `{'items': [...]}` is represented by the
 * sequence of its top-level items; the `_current` pointer by the path of child
 * indices from the root to the open item.
 */
module ValueTracking {
  import opened Wrappers

  /** One recorded item: its `'info'` and the `'items'` started inside it. */
  datatype Item<T> = Item(info: T, items: seq<Item<T>>)

  /**
   * `_current`: `None` before anything was started (Unset), the root
   * dictionary after a top-level item was closed (Root), or an item.
   */
  datatype Current = Unset | Root | At(path: seq<nat>)

  /** One element of `consumed()`: the pair `(info, children)`. */
  datatype Entry<T> = Entry(info: T, children: seq<Entry<T>>)

  /** The `KeyError` for `'parent'` raised when the root dictionary is closed. */
  datatype TrackerError = MissingParent

  /** `p` leads, one child index at a time, from the root to an existing item. */
  predicate ValidPath<T>(ts: seq<Item<T>>, p: seq<nat>)
    decreases p
  {
    p == [] || (p[0] < |ts| && ValidPath(ts[p[0]].items, p[1..]))
  }

  /** The children of the node at `p` (the top-level items when `p` is the root). */
  function ChildrenAt<T>(ts: seq<Item<T>>, p: seq<nat>): seq<Item<T>>
    requires ValidPath(ts, p)
    decreases p
  {
    if p == [] then ts else ChildrenAt(ts[p[0]].items, p[1..])
  }

  /** The tree with `n` appended as the last child of the node at `p`. */
  function AppendAt<T>(ts: seq<Item<T>>, p: seq<nat>, n: Item<T>): seq<Item<T>>
    requires ValidPath(ts, p)
    decreases p
  {
    if p == [] then ts + [n]
    else ts[p[0] := Item(ts[p[0]].info, AppendAt(ts[p[0]].items, p[1..], n))]
  }

  /** The tree with the last child of the node at `p` removed. */
  function DropLastAt<T>(ts: seq<Item<T>>, p: seq<nat>): seq<Item<T>>
    requires ValidPath(ts, p) && |ChildrenAt(ts, p)| > 0
    decreases p
  {
    if p == [] then ts[..|ts| - 1]
    else ts[p[0] := Item(ts[p[0]].info, DropLastAt(ts[p[0]].items, p[1..]))]
  }

  /**
   * Appending at `p` adds exactly one child there, at the end, keeps every
   * path that existed valid, and changes nothing else: dropping that last
   * child gives back the original tree.
   */
  lemma {:induction false} AppendAtSpec<T>(ts: seq<Item<T>>, p: seq<nat>, n: Item<T>)
    requires ValidPath(ts, p)
    ensures ValidPath(AppendAt(ts, p, n), p)
    ensures ChildrenAt(AppendAt(ts, p, n), p) == ChildrenAt(ts, p) + [n]
    ensures DropLastAt(AppendAt(ts, p, n), p) == ts
    decreases p
  {
    if p != [] {
      AppendAtSpec(ts[p[0]].items, p[1..], n);
      var r := AppendAt(ts, p, n);
      assert r[p[0]].items == AppendAt(ts[p[0]].items, p[1..], n);
      assert DropLastAt(r, p) == ts[p[0] := Item(ts[p[0]].info, ts[p[0]].items)];
    } else {
      assert (ts + [n])[..|ts|] == ts;
    }
  }

  /** A path extended by the index of an existing child is valid. */
  lemma {:induction false} ValidPathExtend<T>(ts: seq<Item<T>>, p: seq<nat>, k: nat)
    requires ValidPath(ts, p) && k < |ChildrenAt(ts, p)|
    ensures ValidPath(ts, p + [k])
    decreases p
  {
    if p == [] {
      assert [k][1..] == [];
    } else {
      ValidPathExtend(ts[p[0]].items, p[1..], k);
      assert (p + [k])[1..] == p[1..] + [k];
    }
  }

  /** The parent of a valid path is valid. */
  lemma {:induction false} ValidPathParent<T>(ts: seq<Item<T>>, p: seq<nat>)
    requires ValidPath(ts, p) && p != []
    ensures ValidPath(ts, p[..|p| - 1])
    decreases p
  {
    if |p| > 1 {
      ValidPathParent(ts[p[0]].items, p[1..]);
      assert p[..|p| - 1][1..] == p[1..][..|p| - 2];
    }
  }

  /** The node `start_item` attaches to: the open item, or the root. */
  function OpenPath(c: Current): seq<nat>
  {
    if c.At? then c.path else []
  }

  /** `_current['parent']` for an open item. */
  function Up(p: seq<nat>): Current
    requires p != []
  {
    if |p| == 1 then Root else At(p[..|p| - 1])
  }

  /** `items(...)` with no keys and no modifiers: `(info, children)` pairs, in insertion order. */
  function Items<T>(ts: seq<Item<T>>): (r: seq<Entry<T>>)
    ensures |r| == |ts|
    ensures forall i :: 0 <= i < |ts| ==> r[i].info == ts[i].info && |r[i].children| == |ts[i].items|
    decreases ts
  {
    if |ts| == 0 then []
    else [Entry(ts[0].info, Items(ts[0].items))] + Items(ts[1..])
  }

  /** Reads a tree back out of `consumed()`'s output. */
  function Rebuild<T>(es: seq<Entry<T>>): (r: seq<Item<T>>)
    decreases es
  {
    if |es| == 0 then []
    else [Item(es[0].info, Rebuild(es[0].children))] + Rebuild(es[1..])
  }

  /** `consumed()` mirrors the tree: every item, every child, every order is recoverable. */
  lemma {:induction false} ItemsMirror<T>(ts: seq<Item<T>>)
    ensures Rebuild(Items(ts)) == ts
    decreases ts
  {
    if |ts| > 0 {
      ItemsMirror(ts[0].items);
      ItemsMirror(ts[1..]);
      var es := Items(ts);
      assert es[1..] == Items(ts[1..]);
      assert ts == [ts[0]] + ts[1..];
    }
  }

  class ValueTracker<T> {
    /** `_items['items']`: the top-level items. */
    var items: seq<Item<T>>
    /** `_current`. */
    var current: Current

    ghost predicate Valid()
      reads this
    {
      current.At? ==> current.path != [] && ValidPath(items, current.path)
    }

    /** `__init__`: an empty root and no current item. */
    constructor ()
      ensures Valid() && items == [] && current == Unset
    {
      items := [];
      current := Unset;
    }

    /**
     * `start_item(item)`: a new item without children becomes the last child
     * of the current item (of the root when there is none) and becomes current.
     */
    method StartItem(item: T)
      requires Valid()
      modifies this
      ensures Valid()
      ensures items == AppendAt(old(items), OpenPath(old(current)), Item(item, []))
      ensures current == At(OpenPath(old(current)) + [|ChildrenAt(old(items), OpenPath(old(current)))|])
    {
      var parent := OpenPath(current);
      var k := |ChildrenAt(items, parent)|;
      AppendAtSpec(items, parent, Item(item, []));
      ValidPathExtend(AppendAt(items, parent, Item(item, [])), parent, k);
      items := AppendAt(items, parent, Item(item, []));
      current := At(parent + [k]);
    }

    /**
     * `end_item()`: a no-op before anything was started; closing an item makes
     * its parent current (the root for a top-level item); closing the root
     * raises `KeyError`, since the root dictionary has no `'parent'`.
     */
    method EndItem() returns (r: Result<(), TrackerError>)
      requires Valid()
      modifies this
      ensures Valid() && items == old(items)
      ensures old(current).Unset? ==> r == Ok(()) && current == Unset
      ensures old(current).Root? ==> r == Err(MissingParent) && current == Root
      ensures old(current).At? ==> r == Ok(()) && current == Up(old(current).path)
    {
      match current
      case Unset =>
        r := Ok(());
      case Root =>
        r := Err(MissingParent);
      case At(p) =>
        ValidPathParent(items, p);
        current := Up(p);
        r := Ok(());
    }

    /** `consumed()` with no keys or modifiers: the whole tree, as `(info, children)` pairs. */
    function Consumed(): (r: seq<Entry<T>>)
      reads this
      ensures Rebuild(r) == items
    {
      ItemsMirror(items);
      Items(items)
    }
  }

  /**
   * A client run: open `a`, open `b` inside it, close both, then close once
   * more (the root has no parent and the call fails) and open `c`, which
   * lands at the top level next to `a`.
   */
  method CloseAtRoot<T>(a: T, b: T, c: T) returns (entries: seq<Entry<T>>, extra: Result<(), TrackerError>)
    ensures extra == Err(MissingParent)
    ensures entries == [Entry(a, [Entry(b, [])]), Entry(c, [])]
  {
    var t := new ValueTracker<T>();
    t.StartItem(a);
    assert t.items == [Item(a, [])] && t.current == At([0]);
    assert [0][1..] == [];
    assert AppendAt([], [], Item(b, [])) == [Item(b, [])];
    assert [Item(a, [])][0 := Item(a, [Item(b, [])])] == [Item(a, [Item(b, [])])];
    assert AppendAt([Item(a, [])], [0], Item(b, [])) == [Item(a, [Item(b, [])])];
    t.StartItem(b);
    assert t.items == [Item(a, [Item(b, [])])];
    assert t.current == At([0, 0]);
    var closeB := t.EndItem();
    var closeA := t.EndItem();
    assert t.current == Root;
    extra := t.EndItem();
    t.StartItem(c);
    assert t.items == [Item(a, [Item(b, [])]), Item(c, [])];
    entries := t.Consumed();
    assert Items([Item(b, [])]) == [Entry(b, [])];
    assert Items([Item(c, [])]) == [Entry(c, [])];
  }
}
