/** The transitive closure of Smithy shapes, collected by a depth-bounded search
    that shares one visited set.

    Hash-map iteration order is arbitrary but fixed within a run, so a structure or
    union holds its member targets as a sequence: the order of this run. */
module Shapes {
  import opened Wrappers

  type Id = string

  const MAX_RESOLVE_DEPTH := 15

  datatype Shape =
    | Structure(members: seq<Id>)
    | Union(members: seq<Id>)
    | Operation(input: Option<Id>, output: Option<Id>)
    | List(member: Id)
    | Map(key: Id, value: Id)
    | Str(streaming: bool)
    | Blob(streaming: bool)
    | Boolean
    | Integer
    | Long
    | Timestamp
    | Double
    | Float
    | Enum
    | Other

  type Model = map<Id, Shape>

  predicate Builtin(id: Id) { "smithy.api#" <= id }

  /** What the search goes on to from `id`, in order. */
  function Targets(model: Model, id: Id): seq<Id> {
    if id !in model then []
    else match model[id]
      case Structure(members) => members
      case Union(members) => members
      case List(member) => [member]
      case Map(key, value) => [key, value]
      case _ => []
  }

  function Visit(model: Model, id: Id, visited: set<Id>, depth: nat): (after: set<Id>)
    ensures visited <= after
    decreases if depth > MAX_RESOLVE_DEPTH then 0 else MAX_RESOLVE_DEPTH + 1 - depth, 0
  {
    if depth > MAX_RESOLVE_DEPTH || id in visited || Builtin(id) then visited
    else VisitAll(model, Targets(model, id), visited + {id}, depth + 1)
  }

  function VisitAll(model: Model, ids: seq<Id>, visited: set<Id>, depth: nat): (after: set<Id>)
    ensures visited <= after
    decreases if depth > MAX_RESOLVE_DEPTH then 0 else MAX_RESOLVE_DEPTH + 1 - depth, |ids| + 1
  {
    if ids == [] then visited
    else VisitAll(model, ids[1..], Visit(model, ids[0], visited, depth), depth)
  }

  method CollectReferencedShapes(model: Model, id: Id, before: set<Id>, depth: nat) returns (visited: set<Id>)
    ensures visited == Visit(model, id, before, depth)
    decreases if depth > MAX_RESOLVE_DEPTH then 0 else MAX_RESOLVE_DEPTH + 1 - depth
  {
    visited := before;
    if depth > MAX_RESOLVE_DEPTH || id in visited || Builtin(id) { return; }
    visited := visited + {id};
    if id !in model { return; }
    match model[id] {
      case Structure(members) =>
        for i := 0 to |members|
          invariant VisitAll(model, members[i..], visited, depth + 1) == Visit(model, id, before, depth)
        {
          visited := CollectReferencedShapes(model, members[i], visited, depth + 1);
        }
      case List(member) =>
        visited := CollectReferencedShapes(model, member, visited, depth + 1);
        assert VisitAll(model, [member], before + {id}, depth + 1) == visited;
      case Map(key, value) =>
        visited := CollectReferencedShapes(model, key, visited, depth + 1);
        assert [key, value][1..] == [value];
        ghost var half := visited;
        visited := CollectReferencedShapes(model, value, visited, depth + 1);
        assert VisitAll(model, [value], half, depth + 1) == visited;
      case Union(members) =>
        for i := 0 to |members|
          invariant VisitAll(model, members[i..], visited, depth + 1) == Visit(model, id, before, depth)
        {
          visited := CollectReferencedShapes(model, members[i], visited, depth + 1);
        }
      case _ =>
    }
  }

  // ---- Walks through the model ----

  predicate Edge(model: Model, a: Id, b: Id) {
    b in Targets(model, a) && !Builtin(b)
  }

  ghost predicate Walk(model: Model, path: seq<Id>) {
    && path != [] && !Builtin(path[0])
    && forall i, j | 0 <= i < j < |path| && j == i + 1 :: Edge(model, path[i], path[j])
  }

  predicate Distinct(path: seq<Id>) {
    forall i, j | 0 <= i < j < |path| :: path[i] != path[j]
  }

  ghost predicate Joins(model: Model, path: seq<Id>, a: Id, b: Id) {
    Walk(model, path) && path[0] == a && path[|path| - 1] == b
  }

  ghost predicate Reachable(model: Model, a: Id, b: Id) {
    exists path :: Joins(model, path, a, b)
  }

  ghost predicate ReachableWithin(model: Model, a: Id, b: Id, nodes: nat) {
    exists path :: Joins(model, path, a, b) && |path| <= nodes
  }

  /** No map on the path has the path's last id as its key and goes on through its value. */
  ghost predicate KeyFree(model: Model, path: seq<Id>)
    requires path != []
  {
    forall i, j | 0 <= i < j < |path| && j == i + 1 && path[i] in model && model[path[i]].Map? ::
      path[j] == model[path[i]].key || model[path[i]].key != path[|path| - 1]
  }

  /** A simple path with one edge more than the bound. Its last id is not a key that a
      map on the way would have collected before. */
  ghost predicate Overlong(model: Model, root: Id, path: seq<Id>) {
    && Walk(model, path) && path[0] == root && Distinct(path)
    && |path| == MAX_RESOLVE_DEPTH + 2 && KeyFree(model, path)
  }

  ghost predicate WithinBound(model: Model, root: Id) {
    forall path :: !Overlong(model, root, path)
  }

  /** The depth guard turns away an id that has not been visited. */
  predicate Cuts(model: Model, id: Id, visited: set<Id>, depth: nat)
    decreases if depth > MAX_RESOLVE_DEPTH then 0 else MAX_RESOLVE_DEPTH + 1 - depth, 0
  {
    && id !in visited && !Builtin(id)
    && (depth > MAX_RESOLVE_DEPTH || CutsAll(model, Targets(model, id), visited + {id}, depth + 1))
  }

  predicate CutsAll(model: Model, ids: seq<Id>, visited: set<Id>, depth: nat)
    decreases if depth > MAX_RESOLVE_DEPTH then 0 else MAX_RESOLVE_DEPTH + 1 - depth, |ids| + 1
  {
    && ids != []
    && (Cuts(model, ids[0], visited, depth)
        || CutsAll(model, ids[1..], Visit(model, ids[0], visited, depth), depth))
  }

  lemma WalkOn(model: Model, path: seq<Id>, next: Id)
    requires Walk(model, path) && Edge(model, path[|path| - 1], next)
    ensures Joins(model, path + [next], path[0], next)
  {}

  // ---- What is collected, whatever the model ----

  /** Every id added lies on a walk within the bound. */
  lemma {:induction false} AddedWithin(model: Model, id: Id, visited: set<Id>, depth: nat, stack: seq<Id>, x: Id)
    requires |stack| == depth
    requires Builtin(id) || Walk(model, stack + [id])
    requires x in Visit(model, id, visited, depth) && x !in visited
    ensures !Builtin(x) && ReachableWithin(model, (stack + [id])[0], x, MAX_RESOLVE_DEPTH + 1)
    decreases if depth > MAX_RESOLVE_DEPTH then 0 else MAX_RESOLVE_DEPTH + 1 - depth, 0
  {
    var path := stack + [id];
    if x == id {
      assert Joins(model, path, path[0], x) && |path| <= MAX_RESOLVE_DEPTH + 1;
    } else {
      AllAddedWithin(model, Targets(model, id), visited + {id}, depth + 1, path, x);
    }
  }

  lemma {:induction false} AllAddedWithin(model: Model, ids: seq<Id>, visited: set<Id>, depth: nat, stack: seq<Id>,
                        x: Id)
    requires |stack| == depth && Walk(model, stack)
    requires forall i | 0 <= i < |ids| :: ids[i] in Targets(model, stack[depth - 1])
    requires x in VisitAll(model, ids, visited, depth) && x !in visited
    ensures !Builtin(x) && ReachableWithin(model, stack[0], x, MAX_RESOLVE_DEPTH + 1)
    decreases if depth > MAX_RESOLVE_DEPTH then 0 else MAX_RESOLVE_DEPTH + 1 - depth, |ids| + 1
  {
    if x in Visit(model, ids[0], visited, depth) {
      if !Builtin(ids[0]) { WalkOn(model, stack, ids[0]); }
      AddedWithin(model, ids[0], visited, depth, stack, x);
    } else {
      AllAddedWithin(model, ids[1..], Visit(model, ids[0], visited, depth), depth, stack, x);
    }
  }

  // ---- What is collected when nothing is cut ----

  predicate Expanded(model: Model, id: Id, visited: set<Id>) {
    forall t | t in Targets(model, id) && !Builtin(t) :: t in visited
  }

  /** Everything visited is expanded, but for the ids still being visited. */
  predicate ExpandedBut(model: Model, visited: set<Id>, stack: seq<Id>) {
    forall id {:trigger Expanded(model, id, visited)} | id in visited && id !in stack :: Expanded(model, id, visited)
  }

  predicate ClosedUnder(model: Model, visited: set<Id>) {
    forall id {:trigger Expanded(model, id, visited)} | id in visited :: Expanded(model, id, visited)
  }

  predicate AllVisited(stack: seq<Id>, visited: set<Id>) {
    forall i | 0 <= i < |stack| :: stack[i] in visited
  }

  lemma DistinctOn(stack: seq<Id>, visited: set<Id>, id: Id)
    requires Distinct(stack) && id !in visited && AllVisited(stack, visited)
    ensures Distinct(stack + [id]) && AllVisited(stack + [id], visited + {id})
  {}

  lemma Marked(model: Model, visited: set<Id>, stack: seq<Id>, id: Id)
    requires ExpandedBut(model, visited, stack)
    ensures ExpandedBut(model, visited + {id}, stack + [id])
  {
    forall v | v in visited + {id} && v !in stack + [id] ensures Expanded(model, v, visited + {id}) {
      assert (stack + [id])[|stack|] == id;
      assert v !in stack && Expanded(model, v, visited);
    }
  }

  lemma Unmarked(model: Model, visited: set<Id>, stack: seq<Id>, id: Id)
    requires ExpandedBut(model, visited, stack + [id]) && Expanded(model, id, visited)
    ensures ExpandedBut(model, visited, stack)
  {}

  lemma {:induction false} VisitExpands(model: Model, id: Id, visited: set<Id>, depth: nat, stack: seq<Id>)
    requires !Cuts(model, id, visited, depth) && ExpandedBut(model, visited, stack)
    ensures ExpandedBut(model, Visit(model, id, visited, depth), stack)
    ensures Builtin(id) || id in Visit(model, id, visited, depth)
    decreases if depth > MAX_RESOLVE_DEPTH then 0 else MAX_RESOLVE_DEPTH + 1 - depth, 0
  {
    if id !in visited && !Builtin(id) {
      var all := VisitAll(model, Targets(model, id), visited + {id}, depth + 1);
      assert Visit(model, id, visited, depth) == all && id in all;
      Marked(model, visited, stack, id);
      VisitAllExpands(model, Targets(model, id), visited + {id}, depth + 1, stack + [id]);
      assert Expanded(model, id, all);
      Unmarked(model, all, stack, id);
    }
  }

  lemma {:induction false} VisitAllExpands(model: Model, ids: seq<Id>, visited: set<Id>, depth: nat, stack: seq<Id>)
    requires !CutsAll(model, ids, visited, depth) && ExpandedBut(model, visited, stack)
    ensures ExpandedBut(model, VisitAll(model, ids, visited, depth), stack)
    ensures forall t | t in ids && !Builtin(t) :: t in VisitAll(model, ids, visited, depth)
    decreases if depth > MAX_RESOLVE_DEPTH then 0 else MAX_RESOLVE_DEPTH + 1 - depth, |ids| + 1
  {
    if ids != [] {
      VisitExpands(model, ids[0], visited, depth, stack);
      VisitAllExpands(model, ids[1..], Visit(model, ids[0], visited, depth), depth, stack);
    }
  }

  lemma {:induction false} ClosedHolds(model: Model, visited: set<Id>, path: seq<Id>)
    requires ClosedUnder(model, visited) && Walk(model, path) && path[0] in visited
    ensures path[|path| - 1] in visited
    decreases |path|
  {
    if |path| > 1 {
      ClosedHolds(model, visited, path[..|path| - 1]);
      assert Edge(model, path[|path| - 2], path[|path| - 1]) && Expanded(model, path[|path| - 2], visited);
    }
  }

  /** Added to a closed set, a search that cuts nothing gives exactly what is reachable. */
  lemma CollectedUncut(model: Model, root: Id, visited: set<Id>)
    requires ClosedUnder(model, visited) && !Cuts(model, root, visited, 0)
    ensures ClosedUnder(model, Visit(model, root, visited, 0))
    ensures forall x :: x in Visit(model, root, visited, 0) <==> x in visited || Reachable(model, root, x)
  {
    var all := Visit(model, root, visited, 0);
    assert [] + [root] == [root];
    VisitExpands(model, root, visited, 0, []);
    forall x ensures x in all <==> x in visited || Reachable(model, root, x) {
      if x in all && x !in visited {
        AddedWithin(model, root, visited, 0, [], x);
      }
      if Reachable(model, root, x) {
        var path :| Joins(model, path, root, x);
        ClosedHolds(model, all, path);
      }
    }
  }

  // ---- A cut leaves an overlong path ----

  /** A map whose value the path goes on to has had its key visited. */
  ghost predicate KeysSeen(model: Model, path: seq<Id>, visited: set<Id>) {
    forall i, j | 0 <= i < j < |path| && j == i + 1 && path[i] in model && model[path[i]].Map? ::
      var key := model[path[i]].key;
      path[j] == key || key in visited || Builtin(key)
  }

  /** The targets before the k-th are done with. */
  ghost predicate Seen(ids: seq<Id>, k: nat, visited: set<Id>)
    requires k <= |ids|
  {
    forall i | 0 <= i < k :: ids[i] in visited || Builtin(ids[i])
  }

  lemma KeysSeenOn(model: Model, path: seq<Id>, visited: set<Id>, k: nat)
    requires path != [] && k < |Targets(model, path[|path| - 1])|
    requires KeysSeen(model, path, visited) && Seen(Targets(model, path[|path| - 1]), k, visited)
    ensures KeysSeen(model, path + [Targets(model, path[|path| - 1])[k]], visited)
  {
    var targets := Targets(model, path[|path| - 1]);
    if k > 0 { assert targets[0] in visited || Builtin(targets[0]); }
  }

  lemma {:induction false} CutFound(model: Model, id: Id, visited: set<Id>, depth: nat, stack: seq<Id>)
    returns (path: seq<Id>)
    requires |stack| == depth <= MAX_RESOLVE_DEPTH + 1 && Cuts(model, id, visited, depth)
    requires Walk(model, stack + [id]) && Distinct(stack) && AllVisited(stack, visited)
    requires KeysSeen(model, stack + [id], visited)
    ensures Overlong(model, (stack + [id])[0], path)
    decreases if depth > MAX_RESOLVE_DEPTH then 0 else MAX_RESOLVE_DEPTH + 1 - depth, 0
  {
    DistinctOn(stack, visited, id);
    path := stack + [id];
    if depth <= MAX_RESOLVE_DEPTH {
      path := CutFoundAll(model, 0, visited + {id}, depth + 1, path);
    }
  }

  lemma {:induction false} CutFoundAll(model: Model, k: nat, visited: set<Id>, depth: nat, stack: seq<Id>)
    returns (path: seq<Id>)
    requires 0 < |stack| == depth <= MAX_RESOLVE_DEPTH + 1
    requires Walk(model, stack) && Distinct(stack) && AllVisited(stack, visited) && KeysSeen(model, stack, visited)
    requires k <= |Targets(model, stack[depth - 1])| && Seen(Targets(model, stack[depth - 1]), k, visited)
    requires CutsAll(model, Targets(model, stack[depth - 1])[k..], visited, depth)
    ensures Overlong(model, stack[0], path)
    decreases if depth > MAX_RESOLVE_DEPTH then 0 else MAX_RESOLVE_DEPTH + 1 - depth,
              |Targets(model, stack[depth - 1])| - k + 1
  {
    var targets := Targets(model, stack[depth - 1]);
    var ids := targets[k..];
    if Cuts(model, targets[k], visited, depth) {
      WalkOn(model, stack, targets[k]);
      KeysSeenOn(model, stack, visited, k);
      path := CutFound(model, targets[k], visited, depth, stack);
    } else {
      var after := Visit(model, targets[k], visited, depth);
      assert ids[1..] == targets[k + 1..];
      assert Seen(targets, k + 1, after);
      path := CutFoundAll(model, k + 1, after, depth, stack);
    }
  }

  lemma NothingCut(model: Model, root: Id, visited: set<Id>)
    requires WithinBound(model, root)
    ensures !Cuts(model, root, visited, 0)
  {
    if Cuts(model, root, visited, 0) {
      assert [] + [root] == [root];
      var path := CutFound(model, root, visited, 0, []);
      assert false;
    }
  }

  /** Added to a closed set, the search within the bound gives exactly what is reachable. */
  lemma CollectedExactly(model: Model, root: Id, visited: set<Id>)
    requires ClosedUnder(model, visited) && WithinBound(model, root)
    ensures ClosedUnder(model, Visit(model, root, visited, 0))
    ensures forall x :: x in Visit(model, root, visited, 0) <==> x in visited || Reachable(model, root, x)
  {
    NothingCut(model, root, visited);
    CollectedUncut(model, root, visited);
  }

  // ---- What the four kinds of shape collect ----

  /** The id is built in, or collected. */
  predicate Got(visited: set<Id>, id: Id) {
    Builtin(id) || id in visited
  }

  /** `x` is a member of a collected structure or union, of a collected list, or the key or
      value of a collected map. */
  ghost predicate Held(model: Model, visited: set<Id>, x: Id) {
    || (exists id :: id in visited && id in model && model[id].Structure? && x in model[id].members)
    || (exists id :: id in visited && id in model && model[id].Union? && x in model[id].members)
    || (exists id :: id in visited && id in model && model[id].List? && x == model[id].member)
    || (exists id :: id in visited && id in model && model[id].Map? && (x == model[id].key || x == model[id].value))
  }

  /** Whatever a shape of one of the four kinds refers to is collected. */
  predicate Whole(shape: Shape, visited: set<Id>) {
    match shape
    case Structure(members) => forall m | m in members :: Got(visited, m)
    case Union(members) => forall m | m in members :: Got(visited, m)
    case List(member) => Got(visited, member)
    case Map(key, value) => Got(visited, key) && Got(visited, value)
    case _ => true
  }

  lemma ExpandedWhole(model: Model, visited: set<Id>, id: Id)
    requires ClosedUnder(model, visited) && id in visited && id in model
    ensures Whole(model[id], visited)
  {
    assert Expanded(model, id, visited);
    if model[id].Map? {
      assert Targets(model, id)[0] == model[id].key && Targets(model, id)[1] == model[id].value;
    }
  }

  lemma CollectedHeld(model: Model, root: Id, x: Id)
    requires WithinBound(model, root) && x in Visit(model, root, {}, 0)
    ensures !Builtin(x) && (x == root || Held(model, Visit(model, root, {}, 0), x))
  {
    var all := Visit(model, root, {}, 0);
    CollectedExactly(model, root, {});
    var path :| Joins(model, path, root, x);
    if |path| > 1 {
      var owner := path[|path| - 2];
      assert Edge(model, owner, x);
      WalkPrefix(model, path);
      assert Joins(model, path[..|path| - 1], root, owner);
    }
  }

  lemma WalkPrefix(model: Model, path: seq<Id>)
    requires Walk(model, path) && |path| > 1
    ensures Walk(model, path[..|path| - 1])
  {
    var front := path[..|path| - 1];
    forall i, j | 0 <= i < j < |front| && j == i + 1 ensures Edge(model, front[i], front[j]) {
      assert Edge(model, path[i], path[j]);
    }
  }

  /** Within the bound the search collects the root, every member of a collected structure or
      union, the member of a collected list, and the key and value of a collected map, built-in
      ids aside; and it collects nothing that is not the root or held in that way. */
  lemma CollectedKinds(model: Model, root: Id)
    requires WithinBound(model, root)
    ensures Got(Visit(model, root, {}, 0), root)
    ensures forall id | id in Visit(model, root, {}, 0) && id in model :: Whole(model[id], Visit(model, root, {}, 0))
    ensures forall x | x in Visit(model, root, {}, 0) ::
              !Builtin(x) && (x == root || Held(model, Visit(model, root, {}, 0), x))
  {
    var all := Visit(model, root, {}, 0);
    CollectedExactly(model, root, {});
    if !Builtin(root) { assert Joins(model, [root], root, root); }
    forall id | id in all && id in model ensures Whole(model[id], all) { ExpandedWhole(model, all, id); }
    forall x | x in all ensures !Builtin(x) && (x == root || Held(model, all, x)) { CollectedHeld(model, root, x); }
  }

  // ---- Independence of the iteration order ----

  predicate Shuffled(a: Shape, b: Shape) {
    || a == b
    || (a.Structure? && b.Structure? && multiset(a.members) == multiset(b.members))
    || (a.Union? && b.Union? && multiset(a.members) == multiset(b.members))
  }

  /** The same model, read by a run whose hash maps iterate in another order. */
  predicate Reordered(a: Model, b: Model) {
    a.Keys == b.Keys && forall id | id in a :: Shuffled(a[id], b[id])
  }

  lemma SameTargets(a: Model, b: Model, id: Id, t: Id)
    requires Reordered(a, b)
    ensures t in Targets(a, id) <==> t in Targets(b, id)
  {
    if id in a && a[id] != b[id] {
      assert t in a[id].members <==> t in multiset(a[id].members);
      assert t in b[id].members <==> t in multiset(b[id].members);
    }
  }

  lemma SameWalks(a: Model, b: Model)
    requires Reordered(a, b)
    ensures forall path :: Walk(a, path) <==> Walk(b, path)
    ensures forall x, y :: Reachable(a, x, y) <==> Reachable(b, x, y)
    ensures forall root, path :: Overlong(a, root, path) <==> Overlong(b, root, path)
    ensures forall root :: WithinBound(a, root) <==> WithinBound(b, root)
  {
    forall path ensures Walk(a, path) <==> Walk(b, path) {
      forall i, j | 0 <= i < j < |path| ensures Edge(a, path[i], path[j]) <==> Edge(b, path[i], path[j]) {
        SameTargets(a, b, path[i], path[j]);
      }
    }
    forall x, y ensures Reachable(a, x, y) <==> Reachable(b, x, y) {
      if Reachable(a, x, y) {
        var path :| Joins(a, path, x, y);
        assert Joins(b, path, x, y);
      }
      if Reachable(b, x, y) {
        var path :| Joins(b, path, x, y);
        assert Joins(a, path, x, y);
      }
    }
    forall root, path ensures Overlong(a, root, path) <==> Overlong(b, root, path) {
      if path != [] { assert KeyFree(a, path) <==> KeyFree(b, path); }
    }
    forall root ensures WithinBound(a, root) <==> WithinBound(b, root) {
      if WithinBound(a, root) { assert forall path :: !Overlong(a, root, path); }
      if WithinBound(b, root) { assert forall path :: !Overlong(b, root, path); }
    }
  }

  lemma OrderIndependent(a: Model, b: Model, root: Id, visited: set<Id>)
    requires Reordered(a, b) && WithinBound(a, root) && ClosedUnder(a, visited)
    ensures Visit(a, root, visited, 0) == Visit(b, root, visited, 0)
  {
    SameWalks(a, b);
    forall id | id in visited ensures Expanded(b, id, visited) {
      assert Expanded(a, id, visited);
      forall t | t in Targets(b, id) && !Builtin(t) ensures t in visited { SameTargets(a, b, id, t); }
    }
    CollectedExactly(a, root, visited);
    CollectedExactly(b, root, visited);
  }

  // ---- Closures over all operations ----

  const UNIT: Id := "smithy.api#Unit"

  function Present(target: Option<Id>): (ids: set<Id>)
    ensures |ids| <= 1
  {
    if target.Some? && target.value != UNIT then {target.value} else {}
  }

  /** The input shapes, or the output shapes, of the named operations. */
  function Roots(model: Model, names: seq<Id>, inputs: bool): set<Id> {
    if names == [] then {}
    else
      var last := names[|names| - 1];
      var rest := Roots(model, names[..|names| - 1], inputs);
      if last in model && model[last].Operation? then
        rest + Present(if inputs then model[last].input else model[last].output)
      else rest
  }

  /** The roots of one side are exactly the inputs, or the outputs, of the named operations. */
  lemma {:induction false} RootsExact(model: Model, names: seq<Id>, x: Id)
    ensures x in Roots(model, names, true) <==>
            x != UNIT && exists i :: 0 <= i < |names| && names[i] in model && model[names[i]].Operation?
                                     && model[names[i]].input == Some(x)
    ensures x in Roots(model, names, false) <==>
            x != UNIT && exists i :: 0 <= i < |names| && names[i] in model && model[names[i]].Operation?
                                     && model[names[i]].output == Some(x)
  {
    if names != [] {
      var front := names[..|names| - 1];
      RootsExact(model, front, x);
      forall i | 0 <= i < |front| ensures front[i] == names[i] {}
    }
  }

  ghost predicate AllWithinBound(model: Model, roots: set<Id>) {
    forall root | root in roots :: WithinBound(model, root)
  }

  ghost predicate ReachedFrom(model: Model, roots: set<Id>, x: Id) {
    exists root :: root in roots && Reachable(model, root, x)
  }

  /** `visited` is the union of the closures of the roots. */
  ghost predicate Closure(model: Model, roots: set<Id>, visited: set<Id>) {
    && ClosedUnder(model, visited)
    && forall x :: x in visited <==> ReachedFrom(model, roots, x)
  }

  lemma ClosureGrows(model: Model, roots: set<Id>, visited: set<Id>, root: Id)
    requires Closure(model, roots, visited) && WithinBound(model, root)
    ensures Closure(model, roots + {root}, Visit(model, root, visited, 0))
  {
    var all := Visit(model, root, visited, 0);
    CollectedExactly(model, root, visited);
    forall x ensures x in all <==> ReachedFrom(model, roots + {root}, x) {
      if x in visited {
        var r :| r in roots && Reachable(model, r, x);
        assert r in roots + {root};
      } else if x in all {
        assert root in roots + {root};
      }
    }
  }

  lemma ClosureSplits(model: Model, inputs: set<Id>, outputs: set<Id>, all: set<Id>, fromInputs: set<Id>,
                      fromOutputs: set<Id>)
    requires Closure(model, inputs + outputs, all)
    requires Closure(model, inputs, fromInputs) && Closure(model, outputs, fromOutputs)
    ensures all == fromInputs + fromOutputs
  {}

  method ReferencedBy(model: Model, roots: set<Id>) returns (visited: set<Id>)
    ensures AllWithinBound(model, roots) ==> Closure(model, roots, visited)
  {
    visited := {};
    var rest := roots;
    while rest != {}
      invariant rest <= roots
      invariant AllWithinBound(model, roots) ==> Closure(model, roots - rest, visited)
      decreases |rest|
    {
      var root :| root in rest;
      if AllWithinBound(model, roots) {
        ClosureGrows(model, roots - rest, visited, root);
        assert roots - (rest - {root}) == (roots - rest) + {root};
      }
      visited := CollectReferencedShapes(model, root, visited, 0);
      rest := rest - {root};
    }
    assert roots - rest == roots;
  }

  datatype Referenced = Referenced(all: set<Id>, inputs: set<Id>, outputs: set<Id>)

  ghost predicate Complete(model: Model, roots: set<Id>, all: set<Id>) {
    AllWithinBound(model, roots) ==> Closure(model, roots, all)
  }

  method CollectTarget(model: Model, target: Option<Id>, before: set<Id>, ghost roots: set<Id>) returns (all: set<Id>)
    requires Complete(model, roots, before)
    ensures Complete(model, roots + Present(target), all)
  {
    all := before;
    if target.Some? && target.value != UNIT {
      all := CollectReferencedShapes(model, target.value, before, 0);
      var grown := roots + {target.value};
      if AllWithinBound(model, grown) {
        assert AllWithinBound(model, roots);
        ClosureGrows(model, roots, before, target.value);
      }
    } else {
      assert roots + Present(target) == roots;
    }
  }

  predicate AllOperations(model: Model, names: seq<Id>) {
    forall i | 0 <= i < |names| :: names[i] in model && model[names[i]].Operation?
  }

  /** What has been found once the named operations are walked. */
  ghost predicate FoundBy(model: Model, names: seq<Id>, found: Referenced) {
    && found.inputs == Roots(model, names, true)
    && found.outputs == Roots(model, names, false)
    && Complete(model, found.inputs + found.outputs, found.all)
  }

  method CollectOperation(model: Model, name: Id, ghost names: seq<Id>, before: Referenced) returns (r: Referenced)
    requires name in model && model[name].Operation? && FoundBy(model, names, before)
    ensures FoundBy(model, names + [name], r)
  {
    var op := model[name];
    ghost var roots := before.inputs + before.outputs;
    var all := CollectTarget(model, op.input, before.all, roots);
    all := CollectTarget(model, op.output, all, roots + Present(op.input));
    r := Referenced(all, before.inputs + Present(op.input), before.outputs + Present(op.output));
    assert r.inputs + r.outputs == roots + Present(op.input) + Present(op.output);
    assert (names + [name])[..|names|] == names;
  }

  /** Walk the operations with one shared visited set. */
  method CollectOperations(model: Model, names: seq<Id>) returns (r: Option<Referenced>)
    ensures r.Some? <==> AllOperations(model, names)
    ensures r.Some? ==> FoundBy(model, names, r.value)
  {
    var found := Referenced({}, {}, {});
    for i := 0 to |names|
      invariant AllOperations(model, names[..i]) && FoundBy(model, names[..i], found)
    {
      if names[i] !in model || !model[names[i]].Operation? { return None; }
      found := CollectOperation(model, names[i], names[..i], found);
      assert names[..i + 1] == names[..i] + [names[i]];
    }
    assert names[..|names|] == names;
    return Some(found);
  }

  /** Steps 1 and 3 of resolving a model: what all operations reference is what the
      inputs reference and what the outputs reference. */
  method ResolveReferences(model: Model, names: seq<Id>)
    returns (r: Option<Referenced>, fromInputs: set<Id>, fromOutputs: set<Id>)
    ensures r.Some? && AllWithinBound(model, r.value.inputs + r.value.outputs) ==>
              r.value.all == fromInputs + fromOutputs
    ensures r.Some? && AllWithinBound(model, r.value.inputs + r.value.outputs) ==>
              && Closure(model, Roots(model, names, true), fromInputs)
              && Closure(model, Roots(model, names, false), fromOutputs)
  {
    fromInputs, fromOutputs := {}, {};
    r := CollectOperations(model, names);
    if r.None? { return; }
    fromInputs := ReferencedBy(model, r.value.inputs);
    fromOutputs := ReferencedBy(model, r.value.outputs);
    if AllWithinBound(model, r.value.inputs + r.value.outputs) {
      assert AllWithinBound(model, r.value.inputs) && AllWithinBound(model, r.value.outputs);
      ClosureSplits(model, r.value.inputs, r.value.outputs, r.value.all, fromInputs, fromOutputs);
    }
  }

  // ---- An overlong path is cut in some order ----

  /** Smithy keys are strings: a map's key refers to nothing. */
  predicate LeafKeys(model: Model) {
    forall id | id in model && model[id].Map? :: Targets(model, model[id].key) == []
  }

  /** What follows `id` on the path. */
  function NextOn(path: seq<Id>, id: Id): Option<Id> {
    if |path| < 2 then None
    else if path[0] == id then Some(path[1])
    else NextOn(path[1..], id)
  }

  lemma {:induction false} NextAt(path: seq<Id>, i: nat)
    requires i + 1 < |path| && Distinct(path)
    ensures NextOn(path, path[i]) == Some(path[i + 1])
  {
    if i > 0 {
      assert path[1..][i - 1] == path[i] && path[1..][i] == path[i + 1];
      NextAt(path[1..], i - 1);
    }
  }

  function Without(ids: seq<Id>, t: Id): (r: seq<Id>)
    requires t in ids
    ensures multiset(r) == multiset(ids) - multiset{t}
  {
    assert ids == [ids[0]] + ids[1..];
    if ids[0] == t then ids[1..] else [ids[0]] + Without(ids[1..], t)
  }

  function Front(ids: seq<Id>, t: Option<Id>): (r: seq<Id>)
    ensures multiset(r) == multiset(ids)
    ensures t.Some? && t.value in ids ==> r != [] && r[0] == t.value
  {
    if t.Some? && t.value in ids then [t.value] + Without(ids, t.value) else ids
  }

  /** The model in the order that puts the path's next id first, wherever it can. */
  function PathFirst(model: Model, path: seq<Id>): (other: Model)
    ensures Reordered(other, model)
  {
    map id | id in model ::
      match model[id]
      case Structure(members) => Structure(Front(members, NextOn(path, id)))
      case Union(members) => Union(Front(members, NextOn(path, id)))
      case shape => shape
  }

  /** From its i-th id the path still lies ahead. */
  predicate Ahead(path: seq<Id>, i: nat, visited: set<Id>) {
    forall j | i <= j < |path| :: path[j] !in visited
  }

  /** Only the key of a map, which adds itself alone, is visited before the path goes on. */
  lemma StepsOn(model: Model, path: seq<Id>, i: nat, visited: set<Id>) returns (k: nat)
    requires path != [] && Overlong(model, path[0], path) && LeafKeys(model)
    requires i <= MAX_RESOLVE_DEPTH && Ahead(path, i, visited)
    ensures var other := PathFirst(model, path);
            var ids := Targets(other, path[i]);
            var marked := visited + {path[i]};
            && k < |ids| && ids[k] == path[i + 1]
            && (k == 0 || (k == 1 && ids[0] != path[MAX_RESOLVE_DEPTH + 1]
                           && Ahead(path, i + 1, Visit(other, ids[0], marked, i + 1))))
  {
    var other := PathFirst(model, path);
    var marked := visited + {path[i]};
    assert Edge(model, path[i], path[i + 1]);
    NextAt(path, i);
    k := 0;
    if model[path[i]].Map? && path[i + 1] != model[path[i]].key {
      k := 1;
      var key := model[path[i]].key;
      assert other[path[i]] == model[path[i]];
      forall j | i + 1 <= j < |path| ensures path[j] != key {
        if j < |path| - 1 { assert Edge(model, path[j], path[j + 1]); }
      }
      assert Targets(other, key) == [] by {
        if Targets(other, key) != [] { SameTargets(other, model, key, Targets(other, key)[0]); }
      }
      assert Visit(other, key, marked, i + 1) <= marked + {key};
    }
  }

  lemma {:induction false} PathCut(model: Model, path: seq<Id>, i: nat, visited: set<Id>)
    requires path != [] && Overlong(model, path[0], path) && LeafKeys(model)
    requires i < |path| && Ahead(path, i, visited)
    ensures Cuts(PathFirst(model, path), path[i], visited, i)
    decreases |path| - i
  {
    assert path[i] !in visited;
    if i == 0 { assert !Builtin(path[i]); } else { assert Edge(model, path[i - 1], path[i]); }
    if i <= MAX_RESOLVE_DEPTH {
      var other := PathFirst(model, path);
      var marked := visited + {path[i]};
      var ids := Targets(other, path[i]);
      var k := StepsOn(model, path, i, visited);
      var before := if k == 0 then marked else Visit(other, ids[0], marked, i + 1);
      PathCut(model, path, i + 1, before);
      assert CutsAll(other, ids[k..], before, i + 1);
      assert CutsAll(other, ids, marked, i + 1);
    }
  }

  /** Some order of the members makes the depth guard turn away an unvisited id exactly
      when a simple path from the root is longer than the bound. */
  lemma CutExactly(model: Model, root: Id)
    requires LeafKeys(model)
    ensures (exists other :: Reordered(other, model) && Cuts(other, root, {}, 0)) <==> !WithinBound(model, root)
  {
    if other :| Reordered(other, model) && Cuts(other, root, {}, 0) {
      SameWalks(other, model);
      if WithinBound(model, root) { NothingCut(other, root, {}); }
    }
    if !WithinBound(model, root) {
      var path :| Overlong(model, root, path);
      PathCut(model, path, 0, {});
      assert Reordered(PathFirst(model, path), model);
    }
  }

  // ---- An id that is missed ----

  lemma {:induction false} PastBound(model: Model, ids: seq<Id>, visited: set<Id>, depth: nat)
    requires depth > MAX_RESOLVE_DEPTH
    ensures VisitAll(model, ids, visited, depth) == visited
    decreases |ids|
  {
    if ids != [] { PastBound(model, ids[1..], visited, depth); }
  }

  /** Only `only` refers to `x`. */
  ghost predicate OnlyFrom(model: Model, only: Id, x: Id) {
    forall id | x in Targets(model, id) :: id == only
  }

  /** Once its one referrer is visited without it, an id is not added any more. */
  lemma {:induction false} NeverAdded(model: Model, id: Id, visited: set<Id>, depth: nat, only: Id, x: Id)
    requires OnlyFrom(model, only, x) && only in visited && x !in visited && id != x
    ensures x !in Visit(model, id, visited, depth)
    decreases if depth > MAX_RESOLVE_DEPTH then 0 else MAX_RESOLVE_DEPTH + 1 - depth, 0
  {
    if depth <= MAX_RESOLVE_DEPTH && id !in visited && !Builtin(id) {
      NeverAddedAll(model, Targets(model, id), visited + {id}, depth + 1, only, x);
    }
  }

  lemma {:induction false} NeverAddedAll(model: Model, ids: seq<Id>, visited: set<Id>, depth: nat, only: Id, x: Id)
    requires OnlyFrom(model, only, x) && only in visited && x !in visited && x !in ids
    ensures x !in VisitAll(model, ids, visited, depth)
    decreases if depth > MAX_RESOLVE_DEPTH then 0 else MAX_RESOLVE_DEPTH + 1 - depth, |ids| + 1
  {
    if ids != [] {
      NeverAdded(model, ids[0], visited, depth, only, x);
      NeverAddedAll(model, ids[1..], Visit(model, ids[0], visited, depth), depth, only, x);
    }
  }

  lemma {:induction false} PathMissed(model: Model, path: seq<Id>, i: nat, visited: set<Id>)
    requires path != [] && Overlong(model, path[0], path) && LeafKeys(model)
    requires OnlyFrom(PathFirst(model, path), path[MAX_RESOLVE_DEPTH], path[MAX_RESOLVE_DEPTH + 1])
    requires i <= MAX_RESOLVE_DEPTH && Ahead(path, i, visited)
    ensures var after := Visit(PathFirst(model, path), path[i], visited, i);
            path[MAX_RESOLVE_DEPTH] in after && path[MAX_RESOLVE_DEPTH + 1] !in after
    decreases |path| - i
  {
    var other := PathFirst(model, path);
    var marked := visited + {path[i]};
    var ids := Targets(other, path[i]);
    var only, x := path[MAX_RESOLVE_DEPTH], path[MAX_RESOLVE_DEPTH + 1];
    assert path[i] !in visited && path[MAX_RESOLVE_DEPTH + 1] !in visited;
    if i == 0 { assert !Builtin(path[i]); } else { assert Edge(model, path[i - 1], path[i]); }
    if i == MAX_RESOLVE_DEPTH {
      PastBound(other, ids, marked, i + 1);
    } else {
      var k := StepsOn(model, path, i, visited);
      var before := if k == 0 then marked else Visit(other, ids[0], marked, i + 1);
      PathMissed(model, path, i + 1, before);
      var after := Visit(other, path[i + 1], before, i + 1);
      assert x !in ids;
      NeverAddedAll(other, ids[k..][1..], after, i + 1, only, x);
      assert VisitAll(other, ids[k..], before, i + 1) == VisitAll(other, ids[k..][1..], after, i + 1);
    }
  }

  /** If a path is overlong and its last id is referred to from the path alone, some order
      misses that id, though it is reachable. */
  lemma MissedInSomeOrder(model: Model, root: Id, path: seq<Id>)
    requires Overlong(model, root, path) && LeafKeys(model)
    requires OnlyFrom(model, path[MAX_RESOLVE_DEPTH], path[MAX_RESOLVE_DEPTH + 1])
    ensures exists other :: Reordered(other, model)
                         && Reachable(other, root, path[MAX_RESOLVE_DEPTH + 1])
                         && path[MAX_RESOLVE_DEPTH + 1] !in Visit(other, root, {}, 0)
  {
    var other := PathFirst(model, path);
    var x := path[MAX_RESOLVE_DEPTH + 1];
    SameWalks(other, model);
    assert Joins(other, path, root, x);
    forall id | x in Targets(other, id) ensures id == path[MAX_RESOLVE_DEPTH] { SameTargets(other, model, id, x); }
    PathMissed(model, path, 0, {});
  }

  /** An order that visits `only` and misses what it refers to was cut right there. */
  lemma {:induction false} MissedFound(model: Model, id: Id, visited: set<Id>, depth: nat, stack: seq<Id>, only: Id,
                        x: Id)
    returns (path: seq<Id>)
    requires |stack| == depth <= MAX_RESOLVE_DEPTH + 1
    requires Builtin(id) || (Walk(model, stack + [id]) && KeysSeen(model, stack + [id], visited))
    requires Distinct(stack) && AllVisited(stack, visited)
    requires Edge(model, only, x) && only !in visited && only in Visit(model, id, visited, depth)
    requires x !in Visit(model, id, visited, depth)
    ensures Overlong(model, (stack + [id])[0], path)
    ensures path[MAX_RESOLVE_DEPTH] == only && path[MAX_RESOLVE_DEPTH + 1] == x
    decreases if depth > MAX_RESOLVE_DEPTH then 0 else MAX_RESOLVE_DEPTH + 1 - depth, 0
  {
    DistinctOn(stack, visited, id);
    path := stack + [id];
    var marked := visited + {id};
    if id == only {
      if depth < MAX_RESOLVE_DEPTH {
        TargetVisited(model, Targets(model, id), marked, depth + 1, x);
        assert false;
      }
      assert x !in marked;
      DistinctOn(path, marked, x);
      WalkOn(model, path, x);
      path := path + [x];
    } else {
      path := MissedFoundAll(model, 0, marked, depth + 1, path, only, x);
    }
  }

  lemma {:induction false} MissedFoundAll(model: Model, k: nat, visited: set<Id>, depth: nat, stack: seq<Id>,
                        only: Id, x: Id)
    returns (path: seq<Id>)
    requires 0 < |stack| == depth <= MAX_RESOLVE_DEPTH + 1
    requires Walk(model, stack) && Distinct(stack) && AllVisited(stack, visited) && KeysSeen(model, stack, visited)
    requires k <= |Targets(model, stack[depth - 1])|
    requires depth <= MAX_RESOLVE_DEPTH ==> Seen(Targets(model, stack[depth - 1]), k, visited)
    requires Edge(model, only, x) && only !in visited
    requires only in VisitAll(model, Targets(model, stack[depth - 1])[k..], visited, depth)
    requires x !in VisitAll(model, Targets(model, stack[depth - 1])[k..], visited, depth)
    ensures Overlong(model, stack[0], path)
    ensures path[MAX_RESOLVE_DEPTH] == only && path[MAX_RESOLVE_DEPTH + 1] == x
    decreases if depth > MAX_RESOLVE_DEPTH then 0 else MAX_RESOLVE_DEPTH + 1 - depth,
              |Targets(model, stack[depth - 1])| - k + 1
  {
    var targets := Targets(model, stack[depth - 1]);
    var ids := targets[k..];
    PastBoundIf(model, ids, visited, depth);
    var after := Visit(model, targets[k], visited, depth);
    assert ids[1..] == targets[k + 1..];
    if only in after {
      if !Builtin(targets[k]) {
        WalkOn(model, stack, targets[k]);
        KeysSeenOn(model, stack, visited, k);
      }
      path := MissedFound(model, targets[k], visited, depth, stack, only, x);
    } else {
      assert Seen(targets, k + 1, after);
      path := MissedFoundAll(model, k + 1, after, depth, stack, only, x);
    }
  }

  lemma PastBoundIf(model: Model, ids: seq<Id>, visited: set<Id>, depth: nat)
    ensures depth > MAX_RESOLVE_DEPTH ==> VisitAll(model, ids, visited, depth) == visited
  {
    if depth > MAX_RESOLVE_DEPTH { PastBound(model, ids, visited, depth); }
  }

  lemma {:induction false} TargetVisited(model: Model, ids: seq<Id>, visited: set<Id>, depth: nat, x: Id)
    requires depth <= MAX_RESOLVE_DEPTH && x in ids && !Builtin(x)
    ensures x in VisitAll(model, ids, visited, depth)
    decreases |ids|
  {
    if ids[0] == x {
      assert x in Visit(model, x, visited, depth);
    } else {
      TargetVisited(model, ids[1..], Visit(model, ids[0], visited, depth), depth, x);
    }
  }

  /** An id with one referrer is missed by some order that visits the referrer if and only
      if an overlong path ends with the two. */
  lemma MissedExactly(model: Model, root: Id, only: Id, x: Id)
    requires LeafKeys(model) && Edge(model, only, x) && OnlyFrom(model, only, x)
    ensures (exists other :: Reordered(other, model) && only in Visit(other, root, {}, 0)
                          && x !in Visit(other, root, {}, 0))
       <==> exists path :: Overlong(model, root, path) && path[MAX_RESOLVE_DEPTH] == only
                        && path[MAX_RESOLVE_DEPTH + 1] == x
  {
    if other :| Reordered(other, model) && only in Visit(other, root, {}, 0) && x !in Visit(other, root, {}, 0) {
      SameWalks(other, model);
      SameTargets(other, model, only, x);
      assert [] + [root] == [root];
      var path := MissedFound(other, root, {}, 0, [], only, x);
      assert Overlong(model, root, path);
    }
    if path :| Overlong(model, root, path) && path[MAX_RESOLVE_DEPTH] == only && path[MAX_RESOLVE_DEPTH + 1] == x {
      var other := PathFirst(model, path);
      forall id | x in Targets(other, id) ensures id == only { SameTargets(other, model, id, x); }
      PathMissed(model, path, 0, {});
      assert Reordered(other, model);
    }
  }

  // ---- A structure in a union ----

  lemma VisitLeaf(model: Model, id: Id, visited: set<Id>, depth: nat)
    requires id in model && model[id] == Structure([]) && depth <= MAX_RESOLVE_DEPTH && !Builtin(id)
    ensures Visit(model, id, visited, depth) == visited + {id}
  {}

  /** An input whose one member is a union of one structure: all three are collected. */
  lemma UnionCollected(input: Id, union: Id, leaf: Id)
    requires input != union && union != leaf && input != leaf
    requires !Builtin(input) && !Builtin(union) && !Builtin(leaf)
    ensures var model := map[input := Structure([union]), union := Union([leaf]), leaf := Structure([])];
            Visit(model, input, {}, 0) == {input, union, leaf}
  {
    var model := map[input := Structure([union]), union := Union([leaf]), leaf := Structure([])];
    var one, two := {} + {input}, {} + {input} + {union};
    VisitLeaf(model, leaf, two, 2);
    assert VisitAll(model, [leaf], two, 2) == two + {leaf};
    assert Visit(model, union, one, 1) == two + {leaf};
    assert VisitAll(model, [union], one, 1) == two + {leaf};
  }

  // ---- One model, read in two orders ----

  /** The id of the i-th node of a chain. */
  function Name(i: nat): (id: Id)
    ensures |id| == i + 1 && !Builtin(id)
  {
    var id := seq(i + 1, _ => 'a');
    assert id[0] != "smithy.api#"[0];
    id
  }

  /** A chain of seventeen shapes whose first also refers to the sixteenth, in
      either order. */
  function Shortcut(chainFirst: bool): Model {
    var near, far := Name(1), Name(MAX_RESOLVE_DEPTH);
    var ids := set i | 0 <= i <= MAX_RESOLVE_DEPTH + 1 :: Name(i);
    map id | id in ids ::
      if |id| == 1 then Structure(if chainFirst then [near, far] else [far, near])
      else if |id| <= MAX_RESOLVE_DEPTH + 1 then List(Name(|id|))
      else Enum
  }

  /** From node i at depth i, the chain is followed to the bound and no further. */
  lemma {:induction false} ChainCut(i: nat, visited: set<Id>)
    requires 0 < i <= MAX_RESOLVE_DEPTH + 1
    requires forall k | i <= k <= MAX_RESOLVE_DEPTH + 1 :: Name(k) !in visited
    ensures Name(MAX_RESOLVE_DEPTH + 1) !in Visit(Shortcut(true), Name(i), visited, i)
    ensures i <= MAX_RESOLVE_DEPTH ==> Name(MAX_RESOLVE_DEPTH) in Visit(Shortcut(true), Name(i), visited, i)
    decreases MAX_RESOLVE_DEPTH + 1 - i
  {
    if i <= MAX_RESOLVE_DEPTH {
      var model := Shortcut(true);
      assert Name(i) in model;
      assert Targets(model, Name(i)) == [Name(i + 1)];
      var marked := visited + {Name(i)};
      assert forall k | i < k <= MAX_RESOLVE_DEPTH + 1 :: |Name(k)| != |Name(i)|;
      ChainCut(i + 1, marked);
      assert Visit(model, Name(i), visited, i) == Visit(model, Name(i + 1), marked, i + 1) by {
        assert VisitAll(model, [Name(i + 1)], marked, i + 1) == Visit(model, Name(i + 1), marked, i + 1);
      }
    }
  }

  lemma SameShortcut()
    ensures Reordered(Shortcut(true), Shortcut(false))
  {
    var a, b := Shortcut(true), Shortcut(false);
    var near, far := Name(1), Name(MAX_RESOLVE_DEPTH);
    assert multiset([near, far]) == multiset{near, far} == multiset([far, near]);
  }

  lemma VisitTwo(model: Model, root: Id, first: Id, second: Id)
    requires Targets(model, root) == [first, second] && !Builtin(root)
    ensures Visit(model, root, {}, 0) == Visit(model, second, Visit(model, first, {root}, 1), 1)
  {
    assert {} + {root} == {root};
    assert [first, second][1..] == [second];
    var after := Visit(model, first, {root}, 1);
    assert VisitAll(model, [second], after, 1) == Visit(model, second, after, 1);
  }

  lemma ChainFirst()
    ensures Name(MAX_RESOLVE_DEPTH + 1) !in Visit(Shortcut(true), Name(0), {}, 0)
  {
    var a := Shortcut(true);
    var root, near, far, last := Name(0), Name(1), Name(MAX_RESOLVE_DEPTH), Name(MAX_RESOLVE_DEPTH + 1);
    assert Targets(a, root) == [near, far];
    assert Targets(a, far) == [last];
    // The sixteenth id is visited at the bound, and not again.
    ChainCut(1, {root});
    VisitTwo(a, root, near, far);
  }

  lemma ShortcutFirst()
    ensures Name(MAX_RESOLVE_DEPTH + 1) in Visit(Shortcut(false), Name(0), {}, 0)
  {
    var b := Shortcut(false);
    var root, near, far, last := Name(0), Name(1), Name(MAX_RESOLVE_DEPTH), Name(MAX_RESOLVE_DEPTH + 1);
    assert Targets(b, root) == [far, near];
    assert Targets(b, far) == [last] && Targets(b, last) == [];
    VisitTwo(b, root, far, near);
    assert last in VisitAll(b, [last], {root} + {far}, 2);
  }

  lemma ShortcutReaches()
    ensures Reachable(Shortcut(true), Name(0), Name(MAX_RESOLVE_DEPTH + 1))
  {
    var a := Shortcut(true);
    var root, near, far, last := Name(0), Name(1), Name(MAX_RESOLVE_DEPTH), Name(MAX_RESOLVE_DEPTH + 1);
    assert Targets(a, root) == [near, far] && Targets(a, far) == [last];
    assert Joins(a, [root, far, last], root, last);
  }

  /** Beyond the bound the order counts: one model, read in two orders, with an id
      reachable in both that only one of them collects. */
  lemma BoundMatters()
    ensures var a, b, root, id := Shortcut(true), Shortcut(false), Name(0), Name(MAX_RESOLVE_DEPTH + 1);
            && Reordered(a, b) && Reachable(a, root, id) && Reachable(b, root, id)
            && id !in Visit(a, root, {}, 0) && id in Visit(b, root, {}, 0)
  {
    SameShortcut();
    SameWalks(Shortcut(true), Shortcut(false));
    ShortcutReaches();
    ChainFirst();
    ShortcutFirst();
  }
}
