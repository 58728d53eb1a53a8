/**
 * `findRecurse`: follows a path of names from a collection down to a folder,
 * request or example, one segment per step.
 */
module Resolver {
  import opened Text
  import opened Postman

  /**
   * What the loop searches in. `Members` is a PropertyList or an Array, which
   * have `find`; `Lone` is a resource object standing in for a list (the
   * resolver moves there after matching an example), which has no `find`.
   */
  datatype Scope = Members(list: seq<Resource>) | Lone(node: Resource)

  /** A resolved node, the untouched root items (empty path), or an `Error`. */
  datatype Outcome = Node(node: Resource) | Items(items: seq<Resource>) | Error(message: string)

  /** The `find` predicate: only the candidate's name is lower-cased. */
  predicate Matches(segment: string, r: Resource)
  {
    ToLower(r.name) == segment
  }

  /** `find` over a list: the position of the first element that matches. */
  function FirstMatch(segment: string, list: seq<Resource>): (k: Option<nat>)
    ensures k.Some? ==> k.value < |list| && Matches(segment, list[k.value])
    ensures k.Some? ==> forall j :: 0 <= j < k.value ==> !Matches(segment, list[j])
    ensures k.None? ==> forall j :: 0 <= j < |list| ==> !Matches(segment, list[j])
  {
    if |list| == 0 then None
    else if Matches(segment, list[0]) then Some(0)
    else
      match FirstMatch(segment, list[1..])
      case None => None
      case Some(i) => Some(i + 1)
  }

  /** `findNext`: nothing when the scope has no `find`, else the first match. */
  function FindNext(segment: string, scope: Scope): (r: Option<Resource>)
    ensures scope.Lone? ==> r.None?
    ensures r.Some? ==> r.value in scope.list && Matches(segment, r.value)
    ensures scope.Members? && r.None? ==> forall x :: x in scope.list ==> !Matches(segment, x)
  {
    if !scope.Members? then None
    else
      match FirstMatch(segment, scope.list)
      case None => None
      case Some(k) => Some(scope.list[k])
  }

  function NotFoundText(segment: string, container: string): string
  {
    Quoted(segment) + " not found in " + Quoted(container) + "."
  }

  function UnknownText(segment: string): string
  {
    "Found unknown instance " + Quoted(segment) + "."
  }

  /** The message of a failed lookup: the scope's name if it is an ItemGroup, else the root's. */
  function NotFoundMessage(segment: string, scope: Scope, rootName: string): string
  {
    if scope.Lone? && scope.node.IsItemGroup() then NotFoundText(segment, scope.node.name)
    else NotFoundText(segment, rootName)
  }

  /** The scope after matching `r`: its items, its responses, or `r` itself. */
  function NextScope(r: Resource): Scope
  {
    if r.IsItemGroup() then Members(r.items)
    else if r.IsItem() then Members(r.responses)
    else Lone(r)
  }

  /** The rest of the loop, from `scope` with `path` still to match. */
  function Descend(rootName: string, scope: Scope, path: seq<string>): Outcome
    requires |path| > 0
    decreases |path|
  {
    var name := path[0];
    match FindNext(name, scope)
    case None => Error(NotFoundMessage(name, scope, rootName))
    case Some(found) =>
      if !found.Known() then Error(UnknownText(name))
      else if |path| == 1 then Node(found)
      else Descend(rootName, NextScope(found), path[1..])
  }

  /** What `findRecurse(root, path)` returns. */
  function Resolve(root: Resource, path: seq<string>): Outcome
    requires root.IsItemGroup()
  {
    if |path| == 0 then Items(root.items)
    else Descend(root.name, Members(root.items), path)
  }

  /** The walk from segment `k` on, one step unfolded. */
  lemma {:induction false} DescendAt(rootName: string, scope: Scope, args: seq<string>, k: nat)
    requires k < |args|
    ensures Descend(rootName, scope, args[k..]) ==
      match FindNext(args[k], scope)
      case None => Error(NotFoundMessage(args[k], scope, rootName))
      case Some(found) =>
        if !found.Known() then Error(UnknownText(args[k]))
        else if k + 1 == |args| then Node(found)
        else Descend(rootName, NextScope(found), args[k + 1..])
  {
    assert args[k..][0] == args[k] && args[k..][1..] == args[k + 1..];
  }

  /** One matched segment of a known kind, with more to come, moves the walk into that node's scope. */
  lemma {:induction false} DescendStep(rootName: string, scope: Scope, args: seq<string>, k: nat, found: Resource)
    requires k + 1 < |args| && FindNext(args[k], scope) == Some(found) && found.Known()
    ensures Descend(rootName, scope, args[k..]) == Descend(rootName, NextScope(found), args[k + 1..])
  {
    assert args[k..][0] == args[k] && args[k..][1..] == args[k + 1..];
  }

  /**
   * The loop of `findRecurse`. `currDepth` is advanced only by the inlined
   * `isLast()`, and `examined` counts the scopes searched.
   */
  method FindRecurse(parent: Resource, args: seq<string>) returns (r: Outcome, ghost examined: nat)
    requires parent.IsItemGroup()
    ensures r == Resolve(parent, args)
    ensures examined <= |args|
    ensures r.Node? ==> examined == |args|
  {
    var resource := Members(parent.items);
    var currDepth := 0;
    var maxDepth := |args|;
    examined := 0;
    while currDepth < maxDepth
      invariant maxDepth == |args|
      invariant currDepth < maxDepth || (currDepth == 0 && maxDepth == 0)
      invariant examined == currDepth
      invariant currDepth == 0 ==> resource == Members(parent.items)
      invariant maxDepth > 0 ==> Descend(parent.name, resource, args[currDepth..]) == Resolve(parent, args)
      decreases maxDepth - currDepth
    {
      var name := args[currDepth];
      var tmp := FindNext(name, resource);
      DescendAt(parent.name, resource, args, currDepth);
      examined := examined + 1;
      if tmp.None? {
        var msg := if resource.Lone? && resource.node.IsItemGroup()
          then NotFoundText(name, resource.node.name)
          else NotFoundText(name, parent.name);
        return Error(msg), examined;
      }
      var found := tmp.value;
      if found.IsItemGroup() {
        currDepth := currDepth + 1;  // isLast()
        if currDepth == maxDepth { return Node(found), examined; }
        resource := Members(found.items);
      } else if found.IsItem() {
        currDepth := currDepth + 1;  // isLast()
        if currDepth == maxDepth { return Node(found), examined; }
        resource := Members(found.responses);
      } else if found.IsResponse() {
        currDepth := currDepth + 1;  // isLast()
        if currDepth == maxDepth { return Node(found), examined; }
        resource := Lone(found);
      } else {
        return Error(UnknownText(name)), examined;
      }
    }
    r := Items(resource.list);
  }

  // ---------------------------------------------------------------------
  // The matching rule

  /** `FindNext` returns the first element, in stored order, whose lower-cased name is the segment. */
  lemma {:induction false} FindNextIsFirstMatch(segment: string, scope: Scope, r: Resource)
    requires FindNext(segment, scope) == Some(r)
    ensures scope.Members? && Matches(segment, r)
    ensures exists k :: 0 <= k < |scope.list| && scope.list[k] == r &&
                        forall j :: 0 <= j < k ==> !Matches(segment, scope.list[j])
  {
    var k := FirstMatch(segment, scope.list).value;
    assert scope.list[k] == r;
  }

  /** `FindNext` finds nothing exactly when no element matches or the scope has no `find`. */
  lemma {:induction false} FindNextNone(segment: string, scope: Scope)
    ensures FindNext(segment, scope).None? <==>
            (scope.Lone? || forall j :: 0 <= j < |scope.list| ==> !Matches(segment, scope.list[j]))
  {
    if scope.Members? && FindNext(segment, scope).Some? {
      var k := FirstMatch(segment, scope.list).value;
      assert Matches(segment, scope.list[k]);
    }
  }

  /** A segment holding an upper-case letter matches nothing: the segment is never lower-cased. */
  lemma {:induction false} UpperCaseSegmentMatchesNothing(segment: string, scope: Scope)
    requires HasUpper(segment)
    ensures FindNext(segment, scope) == None
  {
    if FindNext(segment, scope).Some? {
      var r := FindNext(segment, scope).value;
      FindNextIsFirstMatch(segment, scope, r);
      LowerHasNoUpper(r.name);
    }
  }

  // ---------------------------------------------------------------------
  // Trails: an independent description of a successful walk

  /** The scope searched for segment `i` of a walk whose matched nodes so far are `trail[..i]`. */
  function ScopeAt(start: Scope, trail: seq<Resource>, i: nat): Scope
    requires i <= |trail|
  {
    if i == 0 then start else NextScope(trail[i - 1])
  }

  /**
   * `trail[i]` is the node segment `path[i]` picks in the scope the previous
   * node opened, and every node on the way is one of the recognised kinds.
   */
  ghost predicate IsTrail(start: Scope, path: seq<string>, trail: seq<Resource>)
  {
    |trail| == |path| &&
    forall i {:trigger ScopeAt(start, trail, i)} :: 0 <= i < |path| ==>
      trail[i].Known() && FindNext(path[i], ScopeAt(start, trail, i)) == Some(trail[i])
  }

  lemma {:induction false} TrailTail(start: Scope, path: seq<string>, trail: seq<Resource>)
    requires |path| > 0 && IsTrail(start, path, trail)
    ensures IsTrail(NextScope(trail[0]), path[1..], trail[1..])
  {
    var next, path', trail' := NextScope(trail[0]), path[1..], trail[1..];
    forall i | 0 <= i < |path'|
      ensures trail'[i].Known() && FindNext(path'[i], ScopeAt(next, trail', i)) == Some(trail'[i])
    {
      assert ScopeAt(next, trail', i) == ScopeAt(start, trail, i + 1);
      assert path'[i] == path[i + 1] && trail'[i] == trail[i + 1];
    }
  }

  lemma {:induction false} TrailCons(start: Scope, path: seq<string>, first: Resource, rest: seq<Resource>)
    requires |path| > 0 && first.Known() && FindNext(path[0], start) == Some(first)
    requires IsTrail(NextScope(first), path[1..], rest)
    ensures IsTrail(start, path, [first] + rest)
  {
    var trail := [first] + rest;
    forall i | 0 <= i < |path|
      ensures trail[i].Known() && FindNext(path[i], ScopeAt(start, trail, i)) == Some(trail[i])
    {
      if i == 0 {
        assert trail[0] == first && ScopeAt(start, trail, 0) == start;
      } else {
        assert trail[i] == rest[i - 1] && path[i] == path[1..][i - 1];
        assert ScopeAt(start, trail, i) == ScopeAt(NextScope(first), rest, i - 1);
        assert rest[i - 1].Known() &&
               FindNext(path[1..][i - 1], ScopeAt(NextScope(first), rest, i - 1)) == Some(rest[i - 1]);
      }
    }
  }

  lemma {:induction false} DescendGivesTrail(rootName: string, start: Scope, path: seq<string>, n: Resource)
    returns (trail: seq<Resource>)
    requires |path| > 0 && Descend(rootName, start, path) == Node(n)
    ensures IsTrail(start, path, trail) && trail[|path| - 1] == n
    decreases |path|
  {
    var found := FindNext(path[0], start).value;
    if |path| == 1 {
      trail := [found];
      assert IsTrail(NextScope(found), path[1..], []);
      TrailCons(start, path, found, []);
    } else {
      var rest := DescendGivesTrail(rootName, NextScope(found), path[1..], n);
      TrailCons(start, path, found, rest);
      trail := [found] + rest;
    }
  }

  lemma {:induction false} TrailGivesDescend(rootName: string, start: Scope, path: seq<string>, trail: seq<Resource>)
    requires |path| > 0 && IsTrail(start, path, trail)
    ensures Descend(rootName, start, path) == Node(trail[|path| - 1])
    decreases |path|
  {
    assert FindNext(path[0], ScopeAt(start, trail, 0)) == Some(trail[0]) && trail[0].Known();
    if |path| > 1 {
      TrailTail(start, path, trail);
      TrailGivesDescend(rootName, NextScope(trail[0]), path[1..], trail[1..]);
    }
  }

  /**
   * Successful resolution: `findRecurse` returns node `n` exactly when the path
   * is non-empty and some trail through the tree ends in `n`.
   */
  lemma {:induction false} ResolvedIffTrail(root: Resource, path: seq<string>, n: Resource)
    requires root.IsItemGroup()
    ensures Resolve(root, path) == Node(n) <==>
            |path| > 0 && exists trail :: IsTrail(Members(root.items), path, trail) && trail[|path| - 1] == n
  {
    if Resolve(root, path) == Node(n) {
      var trail := DescendGivesTrail(root.name, Members(root.items), path, n);
    }
    if |path| > 0 && exists trail :: IsTrail(Members(root.items), path, trail) && trail[|path| - 1] == n {
      var trail :| IsTrail(Members(root.items), path, trail) && trail[|path| - 1] == n;
      TrailGivesDescend(root.name, Members(root.items), path, trail);
    }
  }

  /**
   * On success, the node's lower-cased name is the last segment, and every
   * earlier segment matched a folder or a request whose children were searched next.
   */
  lemma {:induction false} ResolvedShape(root: Resource, path: seq<string>, n: Resource)
    requires root.IsItemGroup() && Resolve(root, path) == Node(n)
    ensures |path| > 0 && ToLower(n.name) == path[|path| - 1] && n.Known()
    ensures exists trail: seq<Resource> :: IsTrail(Members(root.items), path, trail) && trail[|path| - 1] == n &&
              forall i :: 0 <= i < |path| - 1 ==> (trail[i].IsItemGroup() || trail[i].IsItem())
  {
    var trail := DescendGivesTrail(root.name, Members(root.items), path, n);
    var start := Members(root.items);
    FindNextIsFirstMatch(path[|path| - 1], ScopeAt(start, trail, |path| - 1), n);
    forall i | 0 <= i < |path| - 1 ensures trail[i].IsItemGroup() || trail[i].IsItem() {
      assert FindNext(path[i + 1], ScopeAt(start, trail, i + 1)) == Some(trail[i + 1]);
    }
  }

  /** A path with an upper-case letter in any segment never resolves to a node. */
  lemma {:induction false} UpperCaseSegmentNeverResolves(root: Resource, path: seq<string>, k: nat)
    requires root.IsItemGroup() && k < |path| && HasUpper(path[k])
    ensures !Resolve(root, path).Node?
  {
    if Resolve(root, path).Node? {
      var trail := DescendGivesTrail(root.name, Members(root.items), path, Resolve(root, path).node);
      UpperCaseSegmentMatchesNothing(path[k], ScopeAt(Members(root.items), trail, k));
    }
  }

  // ---------------------------------------------------------------------
  // Failures

  /** Segment `segment` stops the walk in `scope` with message `msg`. */
  ghost predicate StopsWith(segment: string, scope: Scope, rootName: string, msg: string)
  {
    match FindNext(segment, scope)
    case None => msg == NotFoundText(segment, rootName)
    case Some(found) => !found.Known() && msg == UnknownText(segment)
  }

  /** No scope the walk reaches is an ItemGroup standing alone. */
  ghost predicate Reachable(scope: Scope)
  {
    !(scope.Lone? && scope.node.IsItemGroup())
  }

  lemma {:induction false} DescendErrorStops(rootName: string, start: Scope, path: seq<string>, msg: string)
    returns (k: nat, trail: seq<Resource>)
    requires |path| > 0 && Reachable(start) && Descend(rootName, start, path) == Error(msg)
    ensures k < |path| && IsTrail(start, path[..k], trail)
    ensures StopsWith(path[k], ScopeAt(start, trail, k), rootName, msg)
    decreases |path|
  {
    match FindNext(path[0], start)
    case None =>
      k, trail := 0, [];
    case Some(found) =>
      if !found.Known() {
        k, trail := 0, [];
      } else {
        var k', rest := DescendErrorStops(rootName, NextScope(found), path[1..], msg);
        assert path[1..][..k'] == path[..k' + 1][1..];
        TrailCons(start, path[..k' + 1], found, rest);
        k, trail := k' + 1, [found] + rest;
        assert ScopeAt(start, trail, k) == ScopeAt(NextScope(found), rest, k');
      }
  }

  lemma {:induction false} StopsGiveDescendError(rootName: string, start: Scope, path: seq<string>, k: nat, trail: seq<Resource>, msg: string)
    requires k < |path| && Reachable(start) && IsTrail(start, path[..k], trail)
    requires StopsWith(path[k], ScopeAt(start, trail, k), rootName, msg)
    ensures Descend(rootName, start, path) == Error(msg)
    decreases k
  {
    if k > 0 {
      assert FindNext(path[..k][0], ScopeAt(start, trail, 0)) == Some(trail[0]) && trail[0].Known();
      TrailTail(start, path[..k], trail);
      assert path[..k][1..] == path[1..][..k - 1];
      assert ScopeAt(start, trail, k) == ScopeAt(NextScope(trail[0]), trail[1..], k - 1);
      StopsGiveDescendError(rootName, NextScope(trail[0]), path[1..], k - 1, trail[1..], msg);
    }
  }

  /**
   * Failure: `findRecurse` returns `Error(msg)` exactly when some segment,
   * reached along a trail, either matches nothing (the message names that
   * segment and the ROOT) or matches a node of unknown kind.
   */
  lemma {:induction false} ErrorIffStopped(root: Resource, path: seq<string>, msg: string)
    requires root.IsItemGroup()
    ensures Resolve(root, path) == Error(msg) <==>
            exists k: nat, trail :: k < |path| && IsTrail(Members(root.items), path[..k], trail) &&
              StopsWith(path[k], ScopeAt(Members(root.items), trail, k), root.name, msg)
  {
    var start := Members(root.items);
    if Resolve(root, path) == Error(msg) {
      var k, trail := DescendErrorStops(root.name, start, path, msg);
    }
    if exists k: nat, trail :: k < |path| && IsTrail(start, path[..k], trail) &&
         StopsWith(path[k], ScopeAt(start, trail, k), root.name, msg) {
      var k: nat, trail :| k < |path| && IsTrail(start, path[..k], trail) &&
        StopsWith(path[k], ScopeAt(start, trail, k), root.name, msg);
      StopsGiveDescendError(root.name, start, path, k, trail, msg);
    }
  }

  /** Any segment after a matched example fails, naming that segment and the root. */
  lemma {:induction false} PastExampleFails(root: Resource, path: seq<string>, trail: seq<Resource>, extra: seq<string>)
    requires root.IsItemGroup() && |path| > 0 && IsTrail(Members(root.items), path, trail)
    requires trail[|path| - 1].IsResponse() && |extra| > 0
    ensures Resolve(root, path + extra) == Error(NotFoundText(extra[0], root.name))
  {
    var full := path + extra;
    assert full[..|path|] == path;
    assert full[|path|] == extra[0];
    StopsGiveDescendError(root.name, Members(root.items), full, |path|, trail, NotFoundText(extra[0], root.name));
  }

  /** The empty path, and only it, returns the root's items unchanged. */
  lemma {:induction false} ItemsOnlyForEmptyPath(root: Resource, path: seq<string>)
    requires root.IsItemGroup()
    ensures Resolve(root, path).Items? <==> |path| == 0
    ensures |path| == 0 ==> Resolve(root, path) == Items(root.items)
  {
    if |path| > 0 {
      DescendNeverItems(root.name, Members(root.items), path);
    }
  }

  lemma {:induction false} DescendNeverItems(rootName: string, scope: Scope, path: seq<string>)
    requires |path| > 0
    ensures !Descend(rootName, scope, path).Items?
    decreases |path|
  {
    match FindNext(path[0], scope)
    case None =>
    case Some(found) =>
      if found.Known() && |path| > 1 {
        DescendNeverItems(rootName, NextScope(found), path[1..]);
      }
  }

  // ---------------------------------------------------------------------
  // A small tree: collection "c" holding folder "f1" > request "r1" > example "e1"

  function SampleTree(): Resource
  {
    Collection("c", [Folder("f1", [Request("r1", None, [Example("e1", None)])])])
  }

  /** The full path reaches the example. */
  lemma SampleResolvesExample()
    ensures Resolve(SampleTree(), ["f1", "r1", "e1"]) == Node(Example("e1", None))
  {
    var path := ["f1", "r1", "e1"];
    var e1 := Example("e1", None);
    var r1 := Request("r1", None, [e1]);
    var f1 := Folder("f1", [r1]);
    assert Matches("f1", f1) && Matches("r1", r1) && Matches("e1", e1);
    DescendAt("c", Members([f1]), path, 0);
    DescendAt("c", Members([r1]), path, 1);
    DescendAt("c", Members([e1]), path, 2);
  }

  /** A missing child of "f1" is reported against the collection "c", not against "f1". */
  lemma SampleMissingNamesRoot(missing: string)
    requires missing != "r1"
    ensures Resolve(SampleTree(), ["f1", missing]) == Error(NotFoundText(missing, "c"))
  {
    var path := ["f1", missing];
    var r1 := Request("r1", None, [Example("e1", None)]);
    var f1 := Folder("f1", [r1]);
    assert Matches("f1", f1);
    DescendAt("c", Members([f1]), path, 0);
    DescendAt("c", Members([r1]), path, 1);
    assert !Matches(missing, r1) by {
      assert ToLower("r1") == "r1";
    }
  }

  /** Mixed case never matches, although the stored names are lower case already. */
  lemma SampleUpperCaseFails()
    ensures Resolve(SampleTree(), ["F1"]) == Error(NotFoundText("F1", "c"))
  {
    assert HasUpper("F1") by { assert IsUpper("F1"[0]); }
    UpperCaseSegmentMatchesNothing("F1", Members(SampleTree().items));
  }

  /** Any segment after the example fails, and again names the collection. */
  lemma SampleExtraAfterExample(extra: string)
    ensures Resolve(SampleTree(), ["f1", "r1", "e1", extra]) == Error(NotFoundText(extra, "c"))
  {
    var path := ["f1", "r1", "e1"];
    SampleResolvesExample();
    var trail := DescendGivesTrail("c", Members(SampleTree().items), path, Example("e1", None));
    PastExampleFails(SampleTree(), path, trail, [extra]);
    assert path + [extra] == ["f1", "r1", "e1", extra];
  }
}
