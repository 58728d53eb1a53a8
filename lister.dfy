/**
 * `getInstanceSymbol` and `listRecurse`: a depth-first, pre-order listing of
 * the collection tree as nested arrays of labels.
 */
module Lister {
  import opened Text
  import opened Postman

  /** A JavaScript value inside the listing: a string or an array. */
  datatype Entry = Str(s: string) | Arr(elems: seq<Entry>)

  /** The `parent` argument: an iterable list of resources, or any value that is not iterable. */
  datatype Listable = Iterable(elems: seq<Resource>) | NotIterable

  /**
   * `getInstanceSymbol` without its colouring. The class checks run in the
   * order Collection, ItemGroup, Item, Response, so a collection, although an
   * ItemGroup, is marked `C`.
   */
  function Symbol(r: Resource): (s: string)
    ensures |s| == 1
    ensures s != "?" <==> r.Known()
  {
    if r.IsCollection() then "C"
    else if r.IsItemGroup() then "F"
    else if r.IsItem() then "R"
    else if r.IsResponse() then "E"
    else "?"
  }

  /** Each of the five symbols marks exactly one kind of value. */
  lemma SymbolKinds(r: Resource)
    ensures Symbol(r) == "C" <==> r.IsCollection()
    ensures Symbol(r) == "F" <==> r.IsItemGroup() && !r.IsCollection()
    ensures Symbol(r) == "R" <==> r.IsItem()
    ensures Symbol(r) == "E" <==> r.IsResponse()
    ensures Symbol(r) == "?" <==> !r.Known()
  {
  }

  /** `[getInstanceSymbol(item), item.name].join(' ')`. */
  function Label(r: Resource): string
  {
    Symbol(r) + " " + r.name
  }

  /** The array `listRecurse` pushes for `r`: its label, then one array per child. */
  function EntryOf(r: Resource): Entry
    decreases r, 1
  {
    Arr([Str(Label(r))] + ChildEntries(r))
  }

  function ChildEntries(r: Resource): seq<Entry>
    decreases r, 0
  {
    if r.IsItemGroup() then Listing(r.items)
    else if r.IsItem() then Listing(r.responses)
    else []
  }

  /** The arrays appended for a list of resources, one per element, in stored order. */
  function Listing(items: seq<Resource>): (es: seq<Entry>)
    ensures |es| == |items|
    decreases items
  {
    if |items| == 0 then [] else [EntryOf(items[0])] + Listing(items[1..])
  }

  /** Entry `i` of the listing is the array of element `i`. */
  lemma {:induction false} ListingAt(items: seq<Resource>, i: nat)
    requires i < |items|
    ensures Listing(items)[i] == EntryOf(items[i])
    decreases i
  {
    if i > 0 {
      ListingAt(items[1..], i - 1);
    }
  }

  /** The caller-owned JavaScript array that `listRecurse` pushes into. */
  class Names {
    var entries: seq<Entry>

    constructor ()
      ensures entries == []
    {
      entries := [];
    }

    /** `names.push(e)` */
    method Push(e: Entry)
      modifies this
      ensures entries == old(entries) + [e]
    {
      entries := entries + [e];
    }
  }

  /**
   * `listRecurse(parent, args, names)`: a non-iterable `parent` adds nothing;
   * otherwise one array per element is appended, in order, and earlier
   * entries stay as they were.
   */
  method ListRecurse(parent: Listable, names: Names)
    modifies names
    ensures parent.NotIterable? ==> names.entries == old(names.entries)
    ensures parent.Iterable? ==> names.entries == old(names.entries) + Listing(parent.elems)
    decreases if parent.Iterable? then NodeCount(parent.elems) else 0, 1
  {
    if parent.Iterable? {
      var items := parent.elems;
      var i := 0;
      while i < |items|
        invariant 0 <= i <= |items|
        invariant names.entries == old(names.entries) + Listing(items[..i])
      {
        TreeBelowForest(items, i);
        Visit(items[i], names);
        ListingSnoc(items, i);
        i := i + 1;
      }
      assert items[..i] == items;
    }
  }

  /**
   * The `forEach` callback of `listRecurse`: push a new array, fill it with
   * the label, then list the children into it.
   */
  method Visit(item: Resource, names: Names)
    modifies names
    ensures names.entries == old(names.entries) + [EntryOf(item)]
    decreases TreeSize(item), 0
  {
    // names.push([]); const store = names.at(-1): the array is filled here and
    // appended once complete
    var store := new Names();
    var iter: seq<Resource> := [];
    if item.IsItemGroup() {
      iter := item.items;
    } else if item.IsItem() {
      iter := item.responses;
    }
    assert iter == Children(item);
    TreeSizeChildren(item);
    store.Push(Str(Label(item)));
    ListRecurse(Iterable(iter), store);
    ChildEntriesListChildren(item);
    assert Arr(store.entries) == EntryOf(item);
    names.Push(Arr(store.entries));
  }

  lemma ChildEntriesListChildren(r: Resource)
    ensures ChildEntries(r) == Listing(Children(r))
  {
  }

  lemma {:induction false} ListingSnoc(items: seq<Resource>, i: nat)
    requires i < |items|
    ensures Listing(items[..i + 1]) == Listing(items[..i]) + [EntryOf(items[i])]
  {
    assert items[..i + 1] == items[..i] + [items[i]];
    ListingAppend(items[..i], [items[i]]);
    assert [items[i]][1..] == [];
  }

  lemma {:induction false} ListingAppend(a: seq<Resource>, b: seq<Resource>)
    ensures Listing(a + b) == Listing(a) + Listing(b)
    decreases a
  {
    if |a| == 0 {
      assert a + b == b;
    } else {
      assert (a + b)[0] == a[0] && (a + b)[1..] == a[1..] + b;
      ListingAppend(a[1..], b);
    }
  }

  // ---------------------------------------------------------------------
  // What the listing holds

  /** The number of arrays, at any depth, in a list of entries. */
  function Arrays(es: seq<Entry>): nat
    decreases es
  {
    if |es| == 0 then 0
    else (if es[0].Arr? then 1 + Arrays(es[0].elems) else 0) + Arrays(es[1..])
  }

  /** The strings of a list of entries, at any depth, in pre-order. */
  function Strings(es: seq<Entry>): seq<string>
    decreases es
  {
    if |es| == 0 then []
    else (if es[0].Arr? then Strings(es[0].elems) else [es[0].s]) + Strings(es[1..])
  }

  /** The labels of a forest, each node before its children, siblings in stored order. */
  function PreOrder(items: seq<Resource>): seq<string>
    decreases items
  {
    if |items| == 0 then []
    else
      var r := items[0];
      [Label(r)] +
      (if r.IsItemGroup() then PreOrder(r.items) else if r.IsItem() then PreOrder(r.responses) else []) +
      PreOrder(items[1..])
  }

  /** The listing holds exactly one array per node of the tree. */
  lemma {:induction false} ListingCountsNodes(items: seq<Resource>)
    ensures Arrays(Listing(items)) == NodeCount(items)
    decreases items
  {
    if |items| > 0 {
      var r := items[0];
      var l := Listing(items);
      assert l[0] == EntryOf(r) && l[1..] == Listing(items[1..]);
      ListingCountsNodes(items[1..]);
      var inner := [Str(Label(r))] + ChildEntries(r);
      assert inner[0] == Str(Label(r)) && inner[1..] == ChildEntries(r);
      assert EntryOf(r) == Arr(inner);
      assert Arrays(l) == 1 + Arrays(inner) + Arrays(l[1..]);
      assert Arrays(inner) == Arrays(ChildEntries(r));
      if r.IsItemGroup() {
        ListingCountsNodes(r.items);
      } else if r.IsItem() {
        ListingCountsNodes(r.responses);
      }
    }
  }

  /** Read in pre-order, the listing names every node once, parents before children, in stored order. */
  lemma {:induction false} ListingIsPreOrder(items: seq<Resource>)
    ensures Strings(Listing(items)) == PreOrder(items)
    decreases items
  {
    if |items| > 0 {
      var r := items[0];
      var l := Listing(items);
      assert l[0] == EntryOf(r) && l[1..] == Listing(items[1..]);
      ListingIsPreOrder(items[1..]);
      var inner := [Str(Label(r))] + ChildEntries(r);
      assert inner[0] == Str(Label(r)) && inner[1..] == ChildEntries(r);
      assert EntryOf(r) == Arr(inner);
      assert Strings(l) == Strings(inner) + Strings(l[1..]);
      assert Strings(inner) == [Label(r)] + Strings(ChildEntries(r));
      if r.IsItemGroup() {
        ListingIsPreOrder(r.items);
      } else if r.IsItem() {
        ListingIsPreOrder(r.responses);
      }
    }
  }
}
