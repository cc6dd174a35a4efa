/**
 The dependency check of the resolver (`_blocked_dependency_ids`, backend/app/effective_state/resolver.py).

 Every fact is the root of a bounded depth-first traversal.  The traversal never looks at paths; `Tree`
 does: a root passes when no two paths from it end in the same fact and at most 128 facts are reached.
 */
module FactGraph {

  const MAX_REACHED: nat := 128

  /** A listed dependency either parses to an identifier or does not. */
  datatype Reference = Parsed(id: string) | Malformed

  datatype Dependent = Dependent(id: string, dependencies: seq<Reference>)

  type Graph = map<string, set<string>>

  type Path = seq<string>

  type Paths = map<string, Path>

  function Ids(facts: seq<Dependent>): set<string> {
    set i | 0 <= i < |facts| :: facts[i].id
  }

  function Listed(dependencies: seq<Reference>): set<string> {
    set i | 0 <= i < |dependencies| && dependencies[i].Parsed? :: dependencies[i].id
  }

  /** Later facts overwrite earlier ones of the same identifier, as dictionary assignment does. */
  function GraphOf(facts: seq<Dependent>): Graph {
    if facts == [] then map[]
    else
      var last := facts[|facts| - 1];
      GraphOf(facts[..|facts| - 1])[last.id := Listed(last.dependencies)]
  }

  /** Some listed dependency does not parse or is not among the facts. */
  predicate Broken(fact: Dependent, ids: set<string>) {
    exists i :: 0 <= i < |fact.dependencies| && BrokenReference(fact.dependencies[i], ids)
  }

  predicate BrokenReference(r: Reference, ids: set<string>) {
    r == Malformed || r.id !in ids
  }

  predicate IsPath(g: Graph, p: seq<string>) {
    && p != []
    && (forall k :: 0 <= k < |p| ==> p[k] in g)
    && (forall k :: 0 < k < |p| ==> p[k] in g[p[k - 1]])
  }

  function Last(p: seq<string>): string
    requires p != []
  {
    p[|p| - 1]
  }

  ghost predicate PathFrom(g: Graph, root: string, p: seq<string>) {
    p != [] && IsPath(g, p) && p[0] == root
  }

  ghost predicate Reaches(g: Graph, root: string, x: string) {
    exists p :: PathFrom(g, root, p) && Last(p) == x
  }

  ghost function Reached(g: Graph, root: string): set<string> {
    set x | x in g && Reaches(g, root, x)
  }

  ghost predicate UniquePaths(g: Graph, root: string) {
    forall p, q :: PathFrom(g, root, p) && PathFrom(g, root, q) && Last(p) == Last(q) ==> p == q
  }

  /** What the graph reachable from `root` must look like for the root to pass. */
  ghost predicate Tree(g: Graph, root: string) {
    UniquePaths(g, root) && |Reached(g, root)| <= MAX_REACHED
  }

  ghost predicate Blocked(facts: seq<Dependent>, id: string) {
    || (exists i :: 0 <= i < |facts| && facts[i].id == id && Broken(facts[i], Ids(facts)))
    || (id in Ids(facts) && !Tree(GraphOf(facts), id))
  }

  // ---------------------------------------------------------------- the traversal

  /** The ghost record of a traversal: one path per seen fact and per stack entry. */
  ghost predicate Explored(g: Graph, root: string, seen: Paths, stack: seq<Path>, rootHit: bool) {
    && SeenPaths(g, root, seen)
    && StackPaths(g, root, seen, stack)
    && Closed(g, root, seen, stack)
    && Distinct(seen, stack)
    && (rootHit <==> exists x :: x in seen && x in g && root in g[x])
  }

  ghost predicate SeenPaths(g: Graph, root: string, seen: Paths) {
    && (forall x :: x in seen ==> PathFrom(g, root, seen[x]) && Last(seen[x]) == x)
    && (forall x :: x in seen ==> if x == root then seen[x] == [root] else Extends(seen, seen[x]))
  }

  ghost predicate StackPaths(g: Graph, root: string, seen: Paths, stack: seq<Path>) {
    && (forall k :: 0 <= k < |stack| ==> PathFrom(g, root, stack[k]))
    && (forall k :: 0 <= k < |stack| ==> stack[k] == [root] || (Last(stack[k]) != root && Extends(seen, stack[k])))
  }

  ghost predicate Closed(g: Graph, root: string, seen: Paths, stack: seq<Path>) {
    forall x, y :: x in seen && x in g && y in g[x] && y in g && y != root ==> Found(seen, stack, seen[x] + [y])
  }

  ghost predicate Distinct(seen: Paths, stack: seq<Path>) {
    && (forall x, k :: x in seen && 0 <= k < |stack| ==> stack[k] != seen[x])
    && (forall a, b :: 0 <= a < b < |stack| ==> stack[a] != stack[b])
  }

  ghost predicate Extends(seen: Paths, p: seq<string>) {
    p != [] && |p| > 1 && p[|p| - 2] in seen && p[..|p| - 1] == seen[p[|p| - 2]]
  }

  ghost predicate Found(seen: Paths, stack: seq<Path>, p: seq<string>)
    requires p != []
  {
    (Last(p) in seen && seen[Last(p)] == p) || p in stack
  }

  ghost predicate Named(via: seq<Path>, stack: seq<string>) {
    |via| == |stack| && forall k :: 0 <= k < |stack| ==> via[k] != [] && Last(via[k]) == stack[k]
  }

  lemma NamedSteps(via: seq<Path>, stack: seq<string>, pushed: seq<string>)
    requires Named(via, stack) && stack != []
    ensures Named(via[..|via| - 1] + Steps(via[|via| - 1], pushed), stack[..|stack| - 1] + pushed)
  {
    var path, n := via[|via| - 1], |via| - 1;
    var via', stack' := via[..n] + Steps(path, pushed), stack[..n] + pushed;
    forall k | 0 <= k < |stack'|
      ensures via'[k] != [] && Last(via'[k]) == stack'[k]
    {
      if k < n {
        assert via'[k] == via[k] && stack'[k] == stack[k];
      } else {
        assert via'[k] == path + [pushed[k - n]];
      }
    }
  }

  /** The loop of the source for one root: does it leave the root unblocked? */
  method Traverse(g: Graph, root: string) returns (clean: bool)
    requires root in g
    ensures clean <==> Tree(g, root)
  {
    hide Explored, Tree, Named, Steps;
    var seen: set<string> := {};
    var stack := [root];
    var rootHit := false;
    ghost var via := [[root]];
    ghost var paths: Paths := map[];
    Start(g, root);
    while stack != []
      invariant Named(via, stack) && Explored(g, root, paths, via, rootHit)
      invariant seen == paths.Keys && |seen| <= MAX_REACHED
      invariant if seen == {} then stack == [root] else root in seen
      decreases MAX_REACHED - |seen|, |stack|
    {
      var current := stack[|stack| - 1];
      TopIsNamed(g, root, paths, via, rootHit, stack);
      if current in seen {
        Revisited(g, root, paths, via, rootHit);
        return false;
      }
      if |seen| >= MAX_REACHED {
        TooMany(g, root, paths, via, rootHit);
        return false;
      }
      seen := seen + {current};
      ghost var before := stack;
      var pushed, hit;
      stack, pushed, hit := PushDependencies(g, root, current, stack[..|stack| - 1]);
      Expand(g, root, paths, via, rootHit, pushed, hit);
      NamedSteps(via, before, pushed);
      paths := paths[current := via[|via| - 1]];
      via := via[..|via| - 1] + Steps(via[|via| - 1], pushed);
      rootHit := rootHit || hit;
    }
    if rootHit {
      RootIsRevisited(g, root, paths, via);
      return false;
    }
    EmptyIsNamed(via);
    Finished(g, root, paths);
    return true;
  }

  lemma TopIsNamed(g: Graph, root: string, seen: Paths, via: seq<Path>, rootHit: bool, stack: seq<string>)
    requires Named(via, stack) && stack != [] && Explored(g, root, seen, via, rootHit)
    ensures via != [] && via[|via| - 1] != [] && Last(via[|via| - 1]) == stack[|stack| - 1] && stack[|stack| - 1] in g
  {
    hide Explored;
    StackStaysInside(g, root, seen, via, rootHit);
  }

  lemma EmptyIsNamed(via: seq<Path>)
    requires Named(via, [])
    ensures via == []
  {
  }

  /** The inner loop of the source: dependencies present in the graph are pushed, in any order. */
  method PushDependencies(g: Graph, root: string, current: string, stack: seq<string>)
    returns (stack': seq<string>, pushed: seq<string>, hit: bool)
    requires current in g
    ensures stack' == stack + pushed
    ensures forall y :: y in pushed <==> y in g[current] && y in g && y != root
    ensures forall a, b :: 0 <= a < b < |pushed| ==> pushed[a] != pushed[b]
    ensures hit <==> root in g[current]
  {
    pushed, hit := [], false;
    var rest := g[current];
    while rest != {}
      invariant rest <= g[current]
      invariant forall y :: y in pushed <==> y in g[current] - rest && y in g && y != root
      invariant forall a, b :: 0 <= a < b < |pushed| ==> pushed[a] != pushed[b]
      invariant hit <==> root in g[current] - rest
      decreases rest
    {
      var dependency :| dependency in rest;
      rest := rest - {dependency};
      if dependency == root {
        hit := true;
      } else if dependency in g {
        pushed := pushed + [dependency];
      }
    }
    stack' := stack + pushed;
  }

  ghost function Steps(path: seq<string>, pushed: seq<string>): seq<Path> {
    seq(|pushed|, k requires 0 <= k < |pushed| => path + [pushed[k]])
  }

  /** Seeing the top of the stack and pushing its dependencies keeps the record. */
  lemma Expand(g: Graph, root: string, seen: Paths, stack: seq<Path>, rootHit: bool,
               pushed: seq<string>, hit: bool)
    requires Explored(g, root, seen, stack, rootHit) && stack != [] && stack[|stack| - 1] != []
    requires Last(stack[|stack| - 1]) in g
    requires var path := stack[|stack| - 1];
             && Last(path) !in seen
             && (forall y :: y in pushed <==> y in g[Last(path)] && y in g && y != root)
             && (forall a, b :: 0 <= a < b < |pushed| ==> pushed[a] != pushed[b])
             && (hit <==> root in g[Last(path)])
    ensures var path := stack[|stack| - 1];
            Explored(g, root, seen[Last(path) := path], stack[..|stack| - 1] + Steps(path, pushed), rootHit || hit)
  {
    hide IsPath, Extends, Found;
    var path := stack[|stack| - 1];
    var current := Last(path);
    var seen' := seen[current := path];
    var stack' := stack[..|stack| - 1] + Steps(path, pushed);
    ExtendsKept(seen, current, path);
    assert SeenPaths(g, root, seen');
    ExpandStack(g, root, seen, stack, pushed);
    ExpandClosed(g, root, seen, stack, pushed);
    ExpandDistinct(g, root, seen, stack, pushed);
    assert rootHit || hit <==> exists x :: x in seen' && x in g && root in g[x] by {
      if hit {
        assert current in seen' && root in g[current];
      }
      if rootHit {
        var x :| x in seen && x in g && root in g[x];
        assert x in seen';
      }
    }
  }

  lemma StackStaysInside(g: Graph, root: string, seen: Paths, stack: seq<Path>, rootHit: bool)
    requires Explored(g, root, seen, stack, rootHit)
    ensures forall k :: 0 <= k < |stack| ==> stack[k] != [] && Last(stack[k]) in g
  {
    hide Closed, Distinct, SeenPaths;
  }

  lemma PathStaysInside(g: Graph, root: string, p: seq<string>)
    requires PathFrom(g, root, p)
    ensures Last(p) in g
  {
  }

  lemma ExtendsKept(seen: Paths, current: string, path: seq<string>)
    requires current !in seen
    ensures forall p :: Extends(seen, p) ==> Extends(seen[current := path], p)
  {
  }

  lemma ExpandStack(g: Graph, root: string, seen: Paths, stack: seq<Path>, pushed: seq<string>)
    requires StackPaths(g, root, seen, stack) && stack != []
    requires var current := Last(stack[|stack| - 1]);
             current !in seen && current in g && forall y :: y in pushed ==> y in g[current] && y in g && y != root
    ensures var path := stack[|stack| - 1];
            StackPaths(g, root, seen[Last(path) := path], stack[..|stack| - 1] + Steps(path, pushed))
  {
    hide Extends;
    var path := stack[|stack| - 1];
    var current := Last(path);
    var rest := stack[..|stack| - 1];
    var stack' := rest + Steps(path, pushed);
    ExtendsKept(seen, current, path);
    forall k | 0 <= k < |stack'|
      ensures PathFrom(g, root, stack'[k])
      ensures stack'[k] == [root] || (Last(stack'[k]) != root && Extends(seen[current := path], stack'[k]))
    {
      if k < |rest| {
        assert stack'[k] == stack[k];
      } else {
        var y := pushed[k - |rest|];
        assert y in pushed && stack'[k] == path + [y];
        Step(g, root, seen, path, y);
      }
    }
  }

  lemma Step(g: Graph, root: string, seen: Paths, path: seq<string>, y: string)
    requires PathFrom(g, root, path) && y in g[Last(path)] && y in g
    ensures PathFrom(g, root, path + [y]) && Extends(seen[Last(path) := path], path + [y])
  {
    assert (path + [y])[..|path|] == path;
  }

  lemma ExpandClosed(g: Graph, root: string, seen: Paths, stack: seq<Path>, pushed: seq<string>)
    requires Closed(g, root, seen, stack) && stack != [] && (forall k :: 0 <= k < |stack| ==> stack[k] != [])
    requires var current := Last(stack[|stack| - 1]);
             current !in seen && current in g && forall y :: y in g[current] && y in g && y != root ==> y in pushed
    ensures var path := stack[|stack| - 1];
            Closed(g, root, seen[Last(path) := path], stack[..|stack| - 1] + Steps(path, pushed))
  {
    var path := stack[|stack| - 1];
    var current := Last(path);
    var rest := stack[..|stack| - 1];
    var stack' := rest + Steps(path, pushed);
    var seen' := seen[current := path];
    forall x, y | x in seen' && x in g && y in g[x] && y in g && y != root
      ensures Found(seen', stack', seen'[x] + [y])
    {
      var p := seen'[x] + [y];
      if x == current {
        var k :| 0 <= k < |pushed| && pushed[k] == y;
        assert stack'[|rest| + k] == p;
      } else {
        assert Found(seen, stack, p);
        if p in stack && p != path {
          var k :| 0 <= k < |stack| && stack[k] == p;
          assert stack'[k] == p;
        }
      }
    }
  }

  lemma ExpandDistinct(g: Graph, root: string, seen: Paths, stack: seq<Path>, pushed: seq<string>)
    requires SeenPaths(g, root, seen) && StackPaths(g, root, seen, stack) && Distinct(seen, stack) && stack != []
    requires Last(stack[|stack| - 1]) !in seen
    requires forall a, b :: 0 <= a < b < |pushed| ==> pushed[a] != pushed[b]
    ensures var path := stack[|stack| - 1];
            Distinct(seen[Last(path) := path], stack[..|stack| - 1] + Steps(path, pushed))
  {
    hide Extends;
    var path := stack[|stack| - 1];
    var current := Last(path);
    var rest := stack[..|stack| - 1];
    var stack' := rest + Steps(path, pushed);
    var seen' := seen[current := path];
    forall x, k | x in seen' && 0 <= k < |stack'|
      ensures stack'[k] != seen'[x]
    {
      if k < |rest| {
        assert stack'[k] == stack[k];
      } else {
        StepIsNew(root, seen, path, pushed[k - |rest|], seen'[x]);
      }
    }
    forall a, b | 0 <= a < b < |stack'|
      ensures stack'[a] != stack'[b]
    {
      if b < |rest| {
        assert stack'[a] == stack[a] && stack'[b] == stack[b];
      } else if a < |rest| {
        assert stack'[a] == stack[a];
        StepIsNew(root, seen, path, pushed[b - |rest|], stack[a]);
      } else {
        assert stack'[a][|path|] == pushed[a - |rest|] && stack'[b][|path|] == pushed[b - |rest|];
      }
    }
  }

  /** A step from a fact not seen before is on no recorded path. */
  lemma StepIsNew(root: string, seen: Paths, path: seq<string>, y: string, p: seq<string>)
    requires path != [] && Last(path) !in seen && (p == [root] || p == path || Extends(seen, p))
    ensures path + [y] != p
  {
    var q := path + [y];
    assert |q| > 1 && q[|q| - 2] == Last(path);
  }

  lemma Start(g: Graph, root: string)
    requires root in g
    ensures Explored(g, root, map[], [[root]], false) && Named([[root]], [root])
  {
  }

  /** A stack entry whose fact was seen is a second path to it. */
  lemma Revisited(g: Graph, root: string, seen: Paths, stack: seq<Path>, rootHit: bool)
    requires Explored(g, root, seen, stack, rootHit) && stack != []
    requires stack[|stack| - 1] != [] && Last(stack[|stack| - 1]) in seen
    ensures !Tree(g, root)
  {
    hide Closed, Extends, IsPath;
    var path := stack[|stack| - 1];
    assert PathFrom(g, root, path) && PathFrom(g, root, seen[Last(path)]);
  }

  /** A dependency on the root is a second path to it. */
  lemma RootIsRevisited(g: Graph, root: string, seen: Paths, stack: seq<Path>)
    requires root in g && Explored(g, root, seen, stack, true)
    ensures !Tree(g, root)
  {
    hide Closed, Distinct, StackPaths, Extends;
    var x :| x in seen && x in g && root in g[x];
    var p := seen[x] + [root];
    Step(g, root, seen, seen[x], root);
    assert PathFrom(g, root, p) && PathFrom(g, root, [root]) && Last(p) == Last([root]);
  }

  /** 128 seen facts and one more on the stack are too many. */
  lemma TooMany(g: Graph, root: string, seen: Paths, stack: seq<Path>, rootHit: bool)
    requires Explored(g, root, seen, stack, rootHit) && stack != [] && stack[|stack| - 1] != []
    requires Last(stack[|stack| - 1]) !in seen && |seen.Keys| >= MAX_REACHED
    ensures !Tree(g, root)
  {
    hide Closed, Distinct, Extends, IsPath;
    var path := stack[|stack| - 1];
    var found := seen.Keys + {Last(path)};
    forall x | x in found
      ensures x in Reached(g, root)
    {
      var p := if x in seen then seen[x] else path;
      assert PathFrom(g, root, p) && Last(p) == x;
      PathStaysInside(g, root, p);
    }
    SubsetIsSmaller(found, Reached(g, root));
  }

  lemma SubsetIsSmaller<T>(a: set<T>, b: set<T>)
    requires a <= b
    ensures |a| <= |b|
  {
    assert b == a + (b - a);
  }

  /** Once the stack is empty the recorded paths are all the paths there are. */
  lemma Finished(g: Graph, root: string, seen: Paths)
    requires root in seen && Explored(g, root, seen, [], false) && |seen.Keys| <= MAX_REACHED
    ensures Tree(g, root)
  {
    forall p | PathFrom(g, root, p)
      ensures Last(p) in seen && seen[Last(p)] == p
    {
      RecordedPath(g, root, seen, p);
    }
    assert Reached(g, root) <= seen.Keys;
    SubsetIsSmaller(Reached(g, root), seen.Keys);
  }

  lemma {:induction false} RecordedPath(g: Graph, root: string, seen: Paths, p: seq<string>)
    requires root in seen && Explored(g, root, seen, [], false) && PathFrom(g, root, p)
    ensures Last(p) in seen && seen[Last(p)] == p
  {
    if |p| > 1 {
      var q := p[..|p| - 1];
      assert PathFrom(g, root, q);
      RecordedPath(g, root, seen, q);
      assert q + [Last(p)] == p && Last(p) in g[Last(q)];
      assert Found(seen, [], seen[Last(q)] + [Last(p)]);
    }
  }

  // ---------------------------------------------------------------- the whole check

  lemma {:induction false} GraphKeys(facts: seq<Dependent>)
    ensures GraphOf(facts).Keys == Ids(facts)
  {
    if facts != [] {
      var init, last := facts[..|facts| - 1], facts[|facts| - 1];
      GraphKeys(init);
      assert facts == init + [last];
      assert Ids(facts) == Ids(init) + {last.id} by {
        assert forall x :: x in Ids(init) ==> x in Ids(facts) by {
          forall x | x in Ids(init)
            ensures x in Ids(facts)
          {
            var i :| 0 <= i < |init| && init[i].id == x;
            assert facts[i].id == x;
          }
        }
      }
    }
  }

  /** `_blocked_dependency_ids`. */
  method BlockedDependencyIds(facts: seq<Dependent>) returns (blocked: set<string>)
    ensures forall id :: id in blocked <==> Blocked(facts, id)
  {
    var ids := Ids(facts);
    var graph: Graph := map[];
    blocked := {};
    for n := 0 to |facts|
      invariant graph == GraphOf(facts[..n])
      invariant forall id :: id in blocked <==> exists i :: 0 <= i < n && facts[i].id == id && Broken(facts[i], ids)
    {
      var fact := facts[n];
      var dependencies: set<string> := {};
      var broken := false;
      for k := 0 to |fact.dependencies|
        invariant dependencies == Listed(fact.dependencies[..k])
        invariant broken <==> exists i :: 0 <= i < k && BrokenReference(fact.dependencies[i], ids)
      {
        ListedSnoc(fact.dependencies, k);
        match fact.dependencies[k] {
          case Malformed => broken := true;
          case Parsed(id) =>
            dependencies := dependencies + {id};
            if id !in ids {
              broken := true;
            }
        }
      }
      assert fact.dependencies[..|fact.dependencies|] == fact.dependencies;
      if broken {
        blocked := blocked + {fact.id};
      }
      graph := graph[fact.id := dependencies];
      assert facts[..n + 1][..n] == facts[..n];
    }
    assert facts[..|facts|] == facts;
    GraphKeys(facts);
    ghost var broken := blocked;
    var roots := graph.Keys;
    while roots != {}
      invariant roots <= graph.Keys
      invariant forall id :: id in blocked <==> id in broken || (id in graph && id !in roots && !Tree(graph, id))
      decreases roots
    {
      var root :| root in roots;
      roots := roots - {root};
      var clean := Traverse(graph, root);
      if !clean {
        blocked := blocked + {root};
      }
    }
  }

  lemma ListedSnoc(dependencies: seq<Reference>, k: nat)
    requires k < |dependencies|
    ensures Listed(dependencies[..k + 1]) ==
            Listed(dependencies[..k]) + if dependencies[k].Parsed? then {dependencies[k].id} else {}
  {
    var more, less := dependencies[..k + 1], dependencies[..k];
    forall x
      ensures x in Listed(more) <==> x in Listed(less) || (dependencies[k].Parsed? && x == dependencies[k].id)
    {
      if x in Listed(less) {
        var i :| 0 <= i < |less| && less[i].Parsed? && less[i].id == x;
        assert more[i] == less[i];
      }
      if dependencies[k].Parsed? && x == dependencies[k].id {
        assert more[k] == dependencies[k];
      }
    }
  }

  // ---------------------------------------------------------------- what the check means

  /** Cycles block everything that leads to them. */
  lemma CycleBlocks(g: Graph, root: string, p: seq<string>, c: seq<string>)
    requires PathFrom(g, root, p) && IsPath(g, c) && |c| > 1 && c[0] == Last(p) && Last(c) == c[0]
    ensures !Tree(g, root)
  {
    var q := p + c[1..];
    forall k | 0 < k < |q|
      ensures q[k] in g[q[k - 1]]
    {
      if k >= |p| {
        assert q[k] == c[k - |p| + 1];
        assert q[k - 1] == if k == |p| then Last(p) else c[k - |p|];
      }
    }
    assert PathFrom(g, root, q) && Last(q) == Last(c) && |q| > |p|;
  }

  function Fact(id: string, dependencies: seq<string>): Dependent {
    Dependent(id, seq(|dependencies|, k requires 0 <= k < |dependencies| => Parsed(dependencies[k])))
  }

  lemma {:induction false} GraphOfDistinct(facts: seq<Dependent>, i: nat)
    requires i < |facts| && DistinctIds(facts)
    ensures facts[i].id in GraphOf(facts) && GraphOf(facts)[facts[i].id] == Listed(facts[i].dependencies)
  {
    var init := facts[..|facts| - 1];
    if i < |init| {
      GraphOfDistinct(init, i);
      assert init[i] == facts[i];
    }
  }

  ghost predicate DistinctIds(facts: seq<Dependent>) {
    forall a, b :: 0 <= a < b < |facts| ==> facts[a].id != facts[b].id
  }

  /** The outcome does not depend on the order of the facts when identifiers are distinct. */
  lemma BlockedIsOrderFree(facts: seq<Dependent>, facts': seq<Dependent>, id: string)
    requires DistinctIds(facts) && DistinctIds(facts') && forall f :: f in facts <==> f in facts'
    ensures Blocked(facts, id) <==> Blocked(facts', id)
  {
    hide Tree, Broken;
    SameIds(facts, facts');
    SameIds(facts', facts);
    GraphKeys(facts);
    GraphKeys(facts');
    forall x | x in Ids(facts)
      ensures GraphOf(facts)[x] == GraphOf(facts')[x]
    {
      var i :| 0 <= i < |facts| && facts[i].id == x;
      var j := Position(facts', facts[i]);
      GraphOfDistinct(facts, i);
      GraphOfDistinct(facts', j);
    }
    assert GraphOf(facts) == GraphOf(facts');
    if exists i :: 0 <= i < |facts| && facts[i].id == id && Broken(facts[i], Ids(facts)) {
      SameBroken(facts, facts', Ids(facts), id);
    }
    if exists i :: 0 <= i < |facts'| && facts'[i].id == id && Broken(facts'[i], Ids(facts)) {
      SameBroken(facts', facts, Ids(facts), id);
    }
  }

  lemma Position(facts: seq<Dependent>, f: Dependent) returns (j: nat)
    requires f in facts
    ensures j < |facts| && facts[j] == f
  {
    j :| 0 <= j < |facts| && facts[j] == f;
  }

  lemma SameIds(facts: seq<Dependent>, facts': seq<Dependent>)
    requires forall f :: f in facts ==> f in facts'
    ensures Ids(facts) <= Ids(facts')
  {
    forall i | 0 <= i < |facts|
      ensures facts[i].id in Ids(facts')
    {
      var j := Position(facts', facts[i]);
      assert facts'[j].id in Ids(facts');
    }
  }

  lemma SameBroken(facts: seq<Dependent>, facts': seq<Dependent>, ids: set<string>, id: string)
    requires forall f :: f in facts ==> f in facts'
    requires exists i :: 0 <= i < |facts| && facts[i].id == id && Broken(facts[i], ids)
    ensures exists i :: 0 <= i < |facts'| && facts'[i].id == id && Broken(facts'[i], ids)
  {
    var i :| 0 <= i < |facts| && facts[i].id == id && Broken(facts[i], ids);
    assert facts[i] in facts && facts[i] in facts';
    var j :| 0 <= j < |facts'| && facts'[j] == facts[i];
  }

  /** Two ways to one dependency, with no cycle and nothing missing, still block the fact. */
  lemma DiamondIsBlocked(facts: seq<Dependent>)
    requires facts == [Fact("a", ["b", "c"]), Fact("b", ["d"]), Fact("c", ["d"]), Fact("d", [])]
    ensures Blocked(facts, "a")
    ensures forall i :: 0 <= i < |facts| ==> !Broken(facts[i], Ids(facts))
  {
    var g := GraphOf(facts);
    GraphOfDistinct(facts, 0);
    GraphOfDistinct(facts, 1);
    GraphOfDistinct(facts, 2);
    GraphOfDistinct(facts, 3);
    assert facts[0].id in Ids(facts) && facts[1].id in Ids(facts) && facts[2].id in Ids(facts)
        && facts[3].id in Ids(facts);
    assert facts[0].dependencies[0] == Parsed("b") && facts[0].dependencies[1] == Parsed("c");
    assert facts[1].dependencies[0] == Parsed("d") && facts[2].dependencies[0] == Parsed("d");
    assert "b" in g["a"] && "c" in g["a"] && "d" in g["b"] && "d" in g["c"];
    assert PathFrom(g, "a", ["a", "b", "d"]) && PathFrom(g, "a", ["a", "c", "d"]);
    assert Last(["a", "b", "d"]) == Last(["a", "c", "d"]);
    assert ["a", "b", "d"][1] != ["a", "c", "d"][1];
  }

  function At(p: Path, k: nat): string {
    if k < |p| then p[k] else ""
  }

  /** A dependency that is itself blocked for missing evidence does not block the fact above it. */
  lemma MissingEvidenceDoesNotSpread(facts: seq<Dependent>)
    requires facts == [Fact("a", ["b"]), Fact("b", ["lost"])]
    ensures Blocked(facts, "b") && !Blocked(facts, "a")
  {
    var g := GraphOf(facts);
    GraphOfDistinct(facts, 0);
    GraphOfDistinct(facts, 1);
    GraphKeys(facts);
    assert Ids(facts) == {"a", "b"} by {
      assert facts[0].id in Ids(facts) && facts[1].id in Ids(facts);
    }
    assert facts[0].dependencies[0] == Parsed("b") && facts[1].dependencies[0] == Parsed("lost");
    assert BrokenReference(facts[1].dependencies[0], Ids(facts));
    assert g["a"] == {"b"} && g["b"] == {"lost"};
    forall p | PathFrom(g, "a", p)
      ensures p == ["a"] || p == ["a", "b"]
    {
      var second, third := At(p, 1), At(p, 2);
      assert |p| > 1 ==> p[1] in g[p[0]];
    }
    assert Reached(g, "a") <= {"a", "b"};
    SubsetIsSmaller(Reached(g, "a"), {"a", "b"});
  }
}
