/**
 * `showList`: turns the nested listing into text, one line per array, with a
 * shared `tab` counter for the indentation.
 */
module Rendering {
  import opened Text
  import opened Postman
  import opened Lister

  /** `String(v)` of a listing value: a string is itself, an array joins its elements with commas. */
  function JsString(e: Entry): string
    decreases e, 1
  {
    match e
    case Str(s) => s
    case Arr(xs) => JoinStrings(xs)
  }

  function JoinStrings(xs: seq<Entry>): string
    decreases xs, 0
  {
    if |xs| == 0 then ""
    else if |xs| == 1 then JsString(xs[0])
    else JsString(xs[0]) + "," + JoinStrings(xs[1..])
  }

  /** `'' + e[0]`: the first element as text, `undefined` when the array is empty. */
  function First(xs: seq<Entry>): string
  {
    if |xs| == 0 then "undefined" else JsString(xs[0])
  }

  /**
   * When the walk lowers `tab` after element `i`: as written, whenever the element
   * is deep-equal to the last one (`_.isEqual(array.at(-1), e)`); the corrected
   * rule, only at the last position.
   */
  datatype Closing = DeepEqual | LastPosition

  predicate Closes(mode: Closing, xs: seq<Entry>, i: nat)
    requires i < |xs|
  {
    match mode
    case DeepEqual => xs[|xs| - 1] == xs[i]
    case LastPosition => i == |xs| - 1
  }

  /** The `tab` and `result` variables, or the RangeError `'\t'.repeat` throws for a negative count. */
  datatype State = Running(tab: int, out: string) | Thrown

  /** The `forEach` of `recurse(xs)` from element `i` on. */
  function Each(mode: Closing, xs: seq<Entry>, i: nat, st: State): State
    requires i <= |xs|
    decreases xs, |xs| - i
  {
    if i == |xs| || st.Thrown? then st
    else
      var e := xs[i];
      var afterArray :=
        if !e.Arr? then st
        else if st.tab + 1 < 0 then Thrown
        else Each(mode, e.elems, 0, Running(st.tab + 1, st.out + Tabs(st.tab + 1) + " " + First(e.elems) + "\n"));
      var afterClose :=
        if afterArray.Running? && Closes(mode, xs, i) then Running(afterArray.tab - 1, afterArray.out)
        else afterArray;
      Each(mode, xs, i + 1, afterClose)
  }

  /** What `showList` returns, or that it throws. */
  datatype Rendered = Printed(text: string) | RangeError

  function Run(mode: Closing, names: seq<Entry>): Rendered
  {
    match Each(mode, names, 0, Running(0, ""))
    case Running(_, out) => Printed(out)
    case Thrown => RangeError
  }

  /** `showList` as written. */
  function Show(names: seq<Entry>): Rendered
  {
    Run(DeepEqual, names)
  }

  /** `showList` with the evidently intended rule: close an array at its last position. */
  function ShowByPosition(names: seq<Entry>): Rendered
  {
    Run(LastPosition, names)
  }

  /** The mutable state of one `showList` call. */
  class Renderer {
    var tab: int
    var result: string
    /** Set once `'\t'.repeat` has thrown; nothing runs after it. */
    var threw: bool

    ghost function Current(): State
      reads this
    {
      if threw then Thrown else Running(tab, result)
    }

    constructor ()
      ensures Current() == Running(0, "")
    {
      tab, result, threw := 0, "", false;
    }

    /** `recurse(array)`. */
    method Recurse(xs: seq<Entry>)
      requires !threw
      modifies this
      ensures Current() == Each(DeepEqual, xs, 0, old(Current()))
      decreases xs
    {
      var i := 0;
      while i < |xs|
        invariant 0 <= i <= |xs| && !threw
        invariant Each(DeepEqual, xs, i, Current()) == Each(DeepEqual, xs, 0, old(Current()))
      {
        var e := xs[i];
        if e.Arr? {
          tab := tab + 1;
          if tab < 0 {
            threw := true;
            return;
          }
          result := result + Tabs(tab) + " " + First(e.elems) + "\n";
          Recurse(e.elems);
          if threw {
            return;
          }
        }
        if xs[|xs| - 1] == e {
          tab := tab - 1;
        }
        i := i + 1;
      }
    }
  }

  /** `showList(names)`: the text, or the RangeError it throws. */
  method ShowList(names: seq<Entry>) returns (r: Rendered)
    ensures r == Show(names)
  {
    var renderer := new Renderer();
    renderer.Recurse(names);
    if renderer.threw {
      return RangeError;
    }
    return Printed(renderer.result);
  }

  // ---------------------------------------------------------------------
  // Indentation by depth

  /** The intended text: one line per array, indented by its nesting depth `depth`. */
  function Lines(xs: seq<Entry>, depth: nat): string
    decreases xs
  {
    if |xs| == 0 then ""
    else
      (if xs[0].Arr? then Tabs(depth) + " " + First(xs[0].elems) + "\n" + Lines(xs[0].elems, depth + 1) else "") +
      Lines(xs[1..], depth)
  }

  /** Every array, at any depth, has an element. */
  ghost predicate Filled(xs: seq<Entry>)
    decreases xs
  {
    forall i :: 0 <= i < |xs| ==> xs[i].Arr? ==> |xs[i].elems| > 0 && Filled(xs[i].elems)
  }

  /** In every array, at any depth, no element before the last is deep-equal to the last. */
  ghost predicate Tidy(xs: seq<Entry>)
    decreases xs
  {
    (forall j :: 0 <= j < |xs| - 1 ==> xs[j] != xs[|xs| - 1]) &&
    (forall i :: 0 <= i < |xs| ==> xs[i].Arr? ==> Tidy(xs[i].elems))
  }

  lemma {:induction false} LinesStep(xs: seq<Entry>, i: nat, depth: nat)
    requires i < |xs|
    ensures Lines(xs[i..], depth) ==
      (if xs[i].Arr? then Tabs(depth) + " " + First(xs[i].elems) + "\n" + Lines(xs[i].elems, depth + 1) else "") +
      Lines(xs[i + 1..], depth)
  {
    assert xs[i..][0] == xs[i] && xs[i..][1..] == xs[i + 1..];
  }

  /**
   * From element `i` on, with the counter at `t`, the walk prints the lines of
   * `xs[i..]` at depth `t + 1` and ends one below `t` - provided the arrays are
   * filled and either the corrected rule is used or no array holds a copy of
   * its last element.
   */
  lemma {:induction false} EachIndents(mode: Closing, xs: seq<Entry>, i: nat, t: int, out: string)
    requires i <= |xs| && t >= -1
    requires Filled(xs) && (mode == LastPosition || Tidy(xs))
    ensures Each(mode, xs, i, Running(t, out)) ==
            Running(if i < |xs| then t - 1 else t, out + Lines(xs[i..], t + 1))
    decreases xs, |xs| - i
  {
    if i == |xs| {
      assert xs[i..] == [];
      assert out + "" == out;
    } else {
      var e := xs[i];
      LinesStep(xs, i, t + 1);
      var printed := if e.Arr? then Tabs(t + 1) + " " + First(e.elems) + "\n" + Lines(e.elems, t + 2) else "";
      if e.Arr? {
        ArrayLine(mode, e.elems, t, out);
      } else {
        assert out + printed == out;
      }
      assert Closes(mode, xs, i) <==> i == |xs| - 1;
      if i == |xs| - 1 {
        assert xs[i + 1..] == [];
        assert out + printed + "" == out + printed;
      } else {
        EachIndents(mode, xs, i + 1, t, out + printed);
      }
      assert out + printed + Lines(xs[i + 1..], t + 1) == out + Lines(xs[i..], t + 1);
    }
  }

  /** A nested array: its line at depth `t + 1`, its contents one deeper, and the counter back at `t`. */
  lemma {:induction false} ArrayLine(mode: Closing, elems: seq<Entry>, t: int, out: string)
    requires t >= -1 && |elems| > 0
    requires Filled(elems) && (mode == LastPosition || Tidy(elems))
    ensures Each(mode, elems, 0, Running(t + 1, out + Tabs(t + 1) + " " + First(elems) + "\n")) ==
            Running(t, out + (Tabs(t + 1) + " " + First(elems) + "\n" + Lines(elems, t + 2)))
    decreases elems, |elems| + 1
  {
    var head := out + Tabs(t + 1) + " " + First(elems) + "\n";
    EachIndents(mode, elems, 0, t + 1, head);
    assert elems[0..] == elems;
    assert head + Lines(elems, t + 2) == out + (Tabs(t + 1) + " " + First(elems) + "\n" + Lines(elems, t + 2));
  }

  /** Filled arrays printed by the corrected rule, or tidy ones as written, are indented by depth. */
  lemma {:induction false} RunIndents(mode: Closing, names: seq<Entry>)
    requires Filled(names) && (mode == LastPosition || Tidy(names))
    ensures Run(mode, names) == Printed(Lines(names, 1))
  {
    EachIndents(mode, names, 0, 0, "");
    assert names[0..] == names;
    assert "" + Lines(names, 1) == Lines(names, 1);
  }

  // ---------------------------------------------------------------------
  // Line shape, for every input

  /** The text of each line after its tabs: one per array, in pre-order, a space and the first element. */
  function Bare(xs: seq<Entry>): seq<string>
    decreases xs
  {
    if |xs| == 0 then []
    else (if xs[0].Arr? then [" " + First(xs[0].elems)] + Bare(xs[0].elems) else []) + Bare(xs[1..])
  }

  /** Lines, each preceded by its own number of tabs and followed by a newline. */
  function Indented(lines: seq<string>, tabs: seq<nat>): string
    requires |tabs| == |lines|
    decreases lines
  {
    if |lines| == 0 then "" else Tabs(tabs[0]) + lines[0] + "\n" + Indented(lines[1..], tabs[1..])
  }

  lemma {:induction false} IndentedAppend(a: seq<string>, ta: seq<nat>, b: seq<string>, tb: seq<nat>)
    requires |ta| == |a| && |tb| == |b|
    ensures Indented(a + b, ta + tb) == Indented(a, ta) + Indented(b, tb)
    decreases a
  {
    if |a| == 0 {
      assert a + b == b && ta + tb == tb;
    } else {
      assert (a + b)[0] == a[0] && (a + b)[1..] == a[1..] + b;
      assert (ta + tb)[0] == ta[0] && (ta + tb)[1..] == ta[1..] + tb;
      IndentedAppend(a[1..], ta[1..], b, tb);
    }
  }

  /** Once thrown, nothing more runs. */
  lemma {:induction false} ThrownStays(mode: Closing, xs: seq<Entry>, i: nat)
    requires i <= |xs|
    ensures Each(mode, xs, i, Thrown) == Thrown
  {
  }

  lemma {:induction false} BareStep(xs: seq<Entry>, i: nat)
    requires i < |xs|
    ensures Bare(xs[i..]) ==
            (if xs[i].Arr? then [" " + First(xs[i].elems)] + Bare(xs[i].elems) else []) + Bare(xs[i + 1..])
  {
    assert xs[i..][0] == xs[i] && xs[i..][1..] == xs[i + 1..];
  }

  /** One line in front of two runs of indented lines. */
  lemma {:induction false} IndentedCons(line: string, n: nat, a: seq<string>, ta: seq<nat>, b: seq<string>, tb: seq<nat>)
    requires |ta| == |a| && |tb| == |b|
    ensures Indented([line] + a + b, [n] + ta + tb) == Tabs(n) + line + "\n" + Indented(a, ta) + Indented(b, tb)
  {
    IndentedAppend([line], [n], a, ta);
    IndentedAppend([line] + a, [n] + ta, b, tb);
    assert [line][1..] == [] && [n][1..] == [];
    assert Indented([line], [n]) == Tabs(n) + line + "\n" + "";
    assert Tabs(n) + line + "\n" + "" == Tabs(n) + line + "\n";
  }

  /**
   * Whatever the counter does, a walk that does not throw appends exactly the
   * lines of `Bare(xs[i..])`, in order, each with some number of tabs.
   */
  lemma {:induction false} EachShape(mode: Closing, xs: seq<Entry>, i: nat, t: int, out: string)
    returns (tabs: seq<nat>)
    requires i <= |xs| && Each(mode, xs, i, Running(t, out)).Running?
    ensures |tabs| == |Bare(xs[i..])|
    ensures Each(mode, xs, i, Running(t, out)).out == out + Indented(Bare(xs[i..]), tabs)
    decreases xs, |xs| - i, 1
  {
    if i == |xs| {
      tabs := [];
      assert xs[i..] == [];
      assert out + "" == out;
    } else if xs[i].Arr? {
      tabs := ArrayShape(mode, xs, i, t, out);
    } else {
      BareStep(xs, i);
      var afterClose := if Closes(mode, xs, i) then Running(t - 1, out) else Running(t, out);
      assert Each(mode, xs, i, Running(t, out)) == Each(mode, xs, i + 1, afterClose);
      tabs := EachShape(mode, xs, i + 1, afterClose.tab, out);
      assert [] + Bare(xs[i + 1..]) == Bare(xs[i + 1..]);
    }
  }

  /** The step of `EachShape` at a nested array: its own line, its contents, then the rest. */
  lemma {:induction false} ArrayShape(mode: Closing, xs: seq<Entry>, i: nat, t: int, out: string)
    returns (tabs: seq<nat>)
    requires i < |xs| && xs[i].Arr? && Each(mode, xs, i, Running(t, out)).Running?
    ensures |tabs| == |Bare(xs[i..])|
    ensures Each(mode, xs, i, Running(t, out)).out == out + Indented(Bare(xs[i..]), tabs)
    ensures |tabs| > 0 && tabs[0] == t + 1
    decreases xs, |xs| - i, 0
  {
    var elems := xs[i].elems;
    var line := " " + First(elems);
    var n: nat := EachAtArray(mode, xs, i, t, out);
    var inner := Each(mode, elems, 0, Running(n, out + (Tabs(n) + line + "\n")));
    var innerTabs := EachShape(mode, elems, 0, n, out + (Tabs(n) + line + "\n"));
    assert elems[0..] == elems;
    var afterClose := if Closes(mode, xs, i) then Running(inner.tab - 1, inner.out) else inner;
    var restTabs := EachShape(mode, xs, i + 1, afterClose.tab, inner.out);
    tabs := [n] + innerTabs + restTabs;
    BareStep(xs, i);
    IndentedCons(line, n, Bare(elems), innerTabs, Bare(xs[i + 1..]), restTabs);
    Assoc(out, Tabs(n) + line + "\n", Indented(Bare(elems), innerTabs), Indented(Bare(xs[i + 1..]), restTabs));
  }

  /**
   * A walk that reaches a nested array without throwing prints its line at
   * `tab + 1 = n` and walks the array from there.
   */
  lemma {:induction false} EachAtArray(mode: Closing, xs: seq<Entry>, i: nat, t: int, out: string) returns (n: nat)
    requires i < |xs| && xs[i].Arr? && Each(mode, xs, i, Running(t, out)).Running?
    ensures n == t + 1
    ensures var inner := Each(mode, xs[i].elems, 0, Running(n, out + (Tabs(n) + (" " + First(xs[i].elems)) + "\n")));
            && inner.Running?
            && Each(mode, xs, i, Running(t, out)) ==
               Each(mode, xs, i + 1, if Closes(mode, xs, i) then Running(inner.tab - 1, inner.out) else inner)
  {
    ThrownStays(mode, xs, i + 1);
    n := t + 1;
    var e := xs[i];
    assert out + Tabs(n) + " " + First(e.elems) + "\n" == out + (Tabs(n) + (" " + First(e.elems)) + "\n");
  }

  lemma Assoc(a: string, b: string, c: string, d: string)
    ensures a + b + c + d == a + (b + c + d)
  {
  }

  /**
   * Every text `showList` returns, duplicates or not, is one line per array in
   * pre-order, each a space and the array's first element after some tabs:
   * only the counts of tabs can be wrong.
   */
  lemma {:induction false} ShowKeepsLines(names: seq<Entry>)
    requires Show(names).Printed?
    ensures exists tabs: seq<nat> :: |tabs| == |Bare(names)| && Show(names).text == Indented(Bare(names), tabs)
  {
    var tabs := EachShape(DeepEqual, names, 0, 0, "");
    assert names[0..] == names;
    assert "" + Indented(Bare(names), tabs) == Indented(Bare(names), tabs);
  }

  // ---------------------------------------------------------------------
  // Rendering a listing

  /** The tree as indented lines: each node's label at its depth, before its children. */
  function Outline(items: seq<Resource>, depth: nat): string
    decreases items
  {
    if |items| == 0 then ""
    else
      var r := items[0];
      Tabs(depth) + " " + Label(r) + "\n" +
      (if r.IsItemGroup() then Outline(r.items, depth + 1)
       else if r.IsItem() then Outline(r.responses, depth + 1)
       else "") +
      Outline(items[1..], depth)
  }

  /** No two siblings, at any level, carry the same label. */
  ghost predicate DistinctSiblings(items: seq<Resource>)
    decreases items
  {
    (forall j, k :: 0 <= j < k < |items| ==> Label(items[j]) != Label(items[k])) &&
    (forall i :: 0 <= i < |items| ==> items[i].IsItemGroup() ==> DistinctSiblings(items[i].items)) &&
    (forall i :: 0 <= i < |items| ==> items[i].IsItem() ==> DistinctSiblings(items[i].responses))
  }

  lemma {:induction false} ListingLines(items: seq<Resource>, depth: nat)
    ensures Lines(Listing(items), depth) == Outline(items, depth)
    decreases items
  {
    if |items| > 0 {
      var r := items[0];
      var l := Listing(items);
      assert l[0] == EntryOf(r) && l[1..] == Listing(items[1..]);
      ListingLines(items[1..], depth);
      var inner := [Str(Label(r))] + ChildEntries(r);
      assert EntryOf(r) == Arr(inner) && First(inner) == Label(r);
      if r.IsItemGroup() {
        ListingLines(r.items, depth + 1);
      } else if r.IsItem() {
        ListingLines(r.responses, depth + 1);
      }
      assert Lines(inner, depth + 1) == Lines(ChildEntries(r), depth + 1) by {
        assert inner[1..] == ChildEntries(r);
      }
    }
  }

  lemma {:induction false} ListingFilled(items: seq<Resource>)
    ensures Filled(Listing(items))
    decreases items, 1
  {
    var l := Listing(items);
    forall i | 0 <= i < |l| ensures l[i].Arr? ==> |l[i].elems| > 0 && Filled(l[i].elems) {
      ListingAt(items, i);
      EntryFilled(items[i]);
    }
  }

  lemma {:induction false} EntryFilled(r: Resource)
    ensures |EntryOf(r).elems| > 0 && Filled(EntryOf(r).elems)
    decreases r, 0
  {
    var kids := ChildEntries(r);
    var inner := [Str(Label(r))] + kids;
    assert EntryOf(r).elems == inner;
    if r.IsItemGroup() {
      ListingFilled(r.items);
    } else if r.IsItem() {
      ListingFilled(r.responses);
    }
    assert Filled(kids);
    forall k | 0 <= k < |inner| ensures inner[k].Arr? ==> |inner[k].elems| > 0 && Filled(inner[k].elems) {
      if k > 0 {
        assert inner[k] == kids[k - 1];
      }
    }
  }

  lemma {:induction false} ListingTidy(items: seq<Resource>)
    requires DistinctSiblings(items)
    ensures Tidy(Listing(items))
    decreases items, 1
  {
    var l := Listing(items);
    forall j | 0 <= j < |l| - 1 ensures l[j] != l[|l| - 1] {
      ListingAt(items, j);
      ListingAt(items, |l| - 1);
      assert l[j].elems[0] == Str(Label(items[j]));
      assert l[|l| - 1].elems[0] == Str(Label(items[|l| - 1]));
    }
    forall i | 0 <= i < |l| ensures l[i].Arr? ==> Tidy(l[i].elems) {
      ListingAt(items, i);
      EntryTidy(items[i]);
    }
  }

  lemma {:induction false} EntryTidy(r: Resource)
    requires r.IsItemGroup() ==> DistinctSiblings(r.items)
    requires r.IsItem() ==> DistinctSiblings(r.responses)
    ensures Tidy(EntryOf(r).elems)
    decreases r, 0
  {
    var kids := ChildEntries(r);
    var inner := [Str(Label(r))] + kids;
    assert EntryOf(r).elems == inner;
    if r.IsItemGroup() {
      ListingTidy(r.items);
    } else if r.IsItem() {
      ListingTidy(r.responses);
    }
    assert Tidy(kids);
    forall j | 0 <= j < |inner| - 1 ensures inner[j] != inner[|inner| - 1] {
      assert inner[|inner| - 1] == kids[|kids| - 1];
      if j > 0 {
        assert inner[j] == kids[j - 1];
      } else {
        ChildEntriesListChildren(r);
        ListingAt(Children(r), |kids| - 1);
      }
    }
    forall k | 0 <= k < |inner| ensures inner[k].Arr? ==> Tidy(inner[k].elems) {
      if k > 0 {
        assert inner[k] == kids[k - 1];
      }
    }
  }

  /**
   * When no two siblings share a label, `showList` of the listing indents every
   * line by the depth of its node: top-level nodes by one tab.
   */
  lemma ShowListIndentsByDepth(items: seq<Resource>)
    requires DistinctSiblings(items)
    ensures Show(Listing(items)) == Printed(Outline(items, 1))
  {
    ListingFilled(items);
    ListingTidy(items);
    RunIndents(DeepEqual, Listing(items));
    ListingLines(items, 1);
  }

  /** With the corrected closing rule, every listing is indented by depth, duplicates or not. */
  lemma ShowByPositionIndentsByDepth(items: seq<Resource>)
    ensures ShowByPosition(Listing(items)) == Printed(Outline(items, 1))
  {
    ListingFilled(items);
    RunIndents(LastPosition, Listing(items));
    ListingLines(items, 1);
  }

  /** Each label with the space `showList` puts before it. */
  function Spaced(labels: seq<string>): (r: seq<string>)
    ensures |r| == |labels|
    decreases labels
  {
    if |labels| == 0 then [] else [" " + labels[0]] + Spaced(labels[1..])
  }

  lemma {:induction false} SpacedAppend(a: seq<string>, b: seq<string>)
    ensures Spaced(a + b) == Spaced(a) + Spaced(b)
    decreases a
  {
    if |a| == 0 {
      assert a + b == b;
    } else {
      assert (a + b)[0] == a[0] && (a + b)[1..] == a[1..] + b;
      SpacedAppend(a[1..], b);
    }
  }

  /** The line texts of a listing are its labels in pre-order. */
  lemma {:induction false} BareListing(items: seq<Resource>)
    ensures Bare(Listing(items)) == Spaced(PreOrder(items))
    decreases items
  {
    if |items| > 0 {
      var r := items[0];
      var l := Listing(items);
      assert l[0] == EntryOf(r) && l[1..] == Listing(items[1..]);
      var kids := ChildEntries(r);
      var inner := [Str(Label(r))] + kids;
      assert EntryOf(r) == Arr(inner) && First(inner) == Label(r);
      assert inner[0] == Str(Label(r)) && inner[1..] == kids;
      assert Bare(inner) == Bare(kids);
      assert Bare(l) == [" " + Label(r)] + Bare(kids) + Bare(l[1..]);
      BareListing(items[1..]);
      var below := if r.IsItemGroup() then PreOrder(r.items) else if r.IsItem() then PreOrder(r.responses) else [];
      if r.IsItemGroup() {
        BareListing(r.items);
      } else if r.IsItem() {
        BareListing(r.responses);
      }
      assert Bare(kids) == Spaced(below);
      assert PreOrder(items) == [Label(r)] + below + PreOrder(items[1..]);
      SpacedAppend([Label(r)] + below, PreOrder(items[1..]));
      SpacedAppend([Label(r)], below);
      assert Spaced([Label(r)]) == [" " + Label(r)];
    }
  }

  /**
   * Every text `showList` returns for a listing, duplicate siblings or not, has
   * one line per node in pre-order, each a space and the node's label after
   * some tabs: only the counts of tabs can be wrong.
   */
  lemma {:induction false} ShowListKeepsLabels(items: seq<Resource>)
    requires Show(Listing(items)).Printed?
    ensures exists tabs: seq<nat> :: |tabs| == |PreOrder(items)| &&
              Show(Listing(items)).text == Indented(Spaced(PreOrder(items)), tabs)
  {
    var tabs := EachShape(DeepEqual, Listing(items), 0, 0, "");
    var names := Listing(items);
    assert names[0..] == names;
    BareListing(items);
    assert "" + Indented(Bare(names), tabs) == Indented(Bare(names), tabs);
  }

  // ---------------------------------------------------------------------
  // Duplicate siblings, as written

  /** One childless node's array `[text]` at position `i`: a line at `tab + 1`, then the closing test. */
  lemma {:induction false} LeafStep(mode: Closing, xs: seq<Entry>, i: nat, t: int, out: string, text: string)
    requires i < |xs| && xs[i] == Arr([Str(text)]) && t + 1 >= 0
    ensures Each(mode, xs, i, Running(t, out)) ==
            Each(mode, xs, i + 1, Running(if Closes(mode, xs, i) then t - 1 else t, out + Tabs(t + 1) + " " + text + "\n"))
  {
    var inner := [Str(text)];
    var line := out + Tabs(t + 1) + " " + First(inner) + "\n";
    assert First(inner) == text;
    assert Closes(mode, inner, 0);
    assert Each(mode, inner, 1, Running(t, line)) == Running(t, line);
    assert Each(mode, inner, 0, Running(t + 1, line)) == Running(t, line);
  }

  /** The listing of `n` copies of a childless node. */
  lemma {:induction false} LeafListing(r: Resource)
    requires Children(r) == []
    ensures EntryOf(r) == Arr([Str(Label(r))])
    ensures Listing([r]) == [EntryOf(r)]
    ensures Listing([r, r]) == [EntryOf(r), EntryOf(r)]
    ensures Listing([r, r, r]) == [EntryOf(r), EntryOf(r), EntryOf(r)]
  {
    assert ChildEntries(r) == [];
    assert [r][1..] == [];
    assert [r, r][1..] == [r];
    assert [r, r, r][1..] == [r, r];
  }

  /** Two identical childless siblings: the second line loses its indentation. */
  lemma DuplicatePairMisindents(r: Resource)
    requires Children(r) == []
    ensures Show(Listing([r, r])) == Printed("\t " + Label(r) + "\n" + " " + Label(r) + "\n")
    ensures Show(Listing([r, r])) != Printed(Outline([r, r], 1))
  {
    LeafListing(r);
    var text := Label(r);
    var xs := [Arr([Str(text)]), Arr([Str(text)])];
    var once := "\t " + text + "\n";
    var twice := once + " " + text + "\n";
    LeafStep(DeepEqual, xs, 0, 0, "", text);
    assert "" + Tabs(1) + " " + text + "\n" == once;
    LeafStep(DeepEqual, xs, 1, -1, once, text);
    assert once + Tabs(0) + " " + text + "\n" == twice;
    assert Each(DeepEqual, xs, 2, Running(-2, twice)) == Running(-2, twice);
    // the intended text, by the corrected rule
    LeafStep(LastPosition, xs, 0, 0, "", text);
    LeafStep(LastPosition, xs, 1, 0, once, text);
    var intended := once + Tabs(1) + " " + text + "\n";
    assert Each(LastPosition, xs, 2, Running(-1, intended)) == Running(-1, intended);
    ShowByPositionIndentsByDepth([r, r]);
    TabsSmall();
    assert twice[|once|] == ' ' && intended[|once|] == '\t';
  }

  /** Three identical childless siblings: the counter reaches -1 and `'\t'.repeat(-1)` throws. */
  lemma TripleDuplicateThrows(r: Resource)
    requires Children(r) == []
    ensures Show(Listing([r, r, r])) == RangeError
  {
    LeafListing(r);
    var text := Label(r);
    var xs := [Arr([Str(text)]), Arr([Str(text)]), Arr([Str(text)])];
    var once := "\t " + text + "\n";
    var twice := once + Tabs(0) + " " + text + "\n";
    LeafStep(DeepEqual, xs, 0, 0, "", text);
    assert "" + Tabs(1) + " " + text + "\n" == once;
    LeafStep(DeepEqual, xs, 1, -1, once, text);
    assert Each(DeepEqual, xs, 2, Running(-2, twice)) == Thrown;
  }
}
