/** `ModuleRegistry.get_load_order`: a depth-first topological sort of the requested
    module names over their declared dependencies, restricted to the request, with
    cycle detection on the current DFS path.

    Names that are requested but not registered have no dependencies and still
    appear in the order; dependencies outside the request are ignored. */
module LoadOrder {
  import opened Common
  import opened Registry

  /** The dependency list the sort reads for a node (`graph.get(node, [])`). */
  function Deps(r: Registry, node: string): seq<string> {
    if node in r.modules then r.modules[node].dependencies else []
  }

  /** `b` is a requested dependency of `a`: an edge the sort follows. */
  predicate Edge(r: Registry, req: seq<string>, a: string, b: string) {
    b in req && b in Deps(r, a)
  }

  function Elems(s: seq<string>): set<string> {
    set x | x in s
  }

  /** Every requested dependency of a name comes before it. */
  ghost predicate Ordered(r: Registry, req: seq<string>, order: seq<string>) {
    forall i, d :: 0 <= i < |order| && Edge(r, req, order[i], d) ==> d in order[..i]
  }

  /** Consecutive names of `c` are joined by edges. */
  predicate IsWalk(r: Registry, req: seq<string>, c: seq<string>) {
    forall k :: 0 <= k < |c| - 1 ==> Edge(r, req, c[k], c[k + 1])
  }

  /** A closed walk of at least one edge from `n` back to `n`. */
  predicate IsCycleThrough(r: Registry, req: seq<string>, c: seq<string>, n: string) {
    |c| >= 2 && c[0] == n && c[|c| - 1] == n && IsWalk(r, req, c)
  }

  ghost predicate HasCycle(r: Registry, req: seq<string>) {
    exists c: seq<string>, n: string :: IsCycleThrough(r, req, c, n)
  }

  /** The DFS state: the visited set and the finished nodes in finishing order. */
  datatype St = St(visited: set<string>, stack: seq<string>)

  /** What the traversal keeps true: visited nodes are exactly the finished ones and
      those on the current path, each finished once, finished nodes ordered. */
  ghost predicate Valid(r: Registry, req: seq<string>, path: seq<string>, st: St) {
    && st.visited == Elems(st.stack) + Elems(path)
    && Elems(st.stack) !! Elems(path)
    && Distinct(st.stack)
    && st.visited <= Elems(req)
    && Ordered(r, req, st.stack)
  }

  lemma FewerUnvisited(u: set<string>, v: set<string>, w: set<string>)
    requires v <= w
    ensures |u - w| <= |u - v|
  {
    assert u - w <= u - v;
    SubsetCard(u - w, u - v);
  }

  lemma {:induction false} SubsetCard(a: set<string>, b: set<string>)
    requires a <= b
    ensures |a| <= |b|
    decreases |b|
  {
    if b != {} {
      var x :| x in b;
      SubsetCard(a - {x}, b - {x});
    }
  }

  lemma OneFewerUnvisited(u: set<string>, v: set<string>, x: string)
    requires x in u && x !in v
    ensures |u - (v + {x})| < |u - v|
  {
    assert u - (v + {x}) == (u - v) - {x};
  }

  /** `visit(node, path)`: an error names a node met again on the current path;
      otherwise the node and everything it requires are finished. */
  function Visit(r: Registry, req: seq<string>, node: string, path: seq<string>, st: St): (res: Result<St, string>)
    requires node in req && Valid(r, req, path, st)
    requires Distinct(path)
    ensures res.Ok? ==> Valid(r, req, path, res.value)
    ensures res.Ok? ==> st.visited <= res.value.visited && |st.stack| <= |res.value.stack|
    ensures res.Ok? ==> res.value.stack[..|st.stack|] == st.stack && node in res.value.stack
    decreases |Elems(req) - st.visited|, 0
  {
    if node in path then Err(node)
    else if node in st.visited then Ok(st)
    else
      var st1 := St(st.visited + {node}, st.stack);
      OneFewerUnvisited(Elems(req), st.visited, node);
      StartKeepsValid(r, req, node, path, st);
      match VisitDeps(r, req, node, 0, path + [node], st1)
      case Err(e) => Err(e)
      case Ok(s) =>
        FinishKeepsValid(r, req, node, path, s);
        AppendKeepsPrefix(st.stack, s.stack, node);
        Ok(St(s.visited, s.stack + [node]))
  }

  /** `for dep in graph.get(node, []): if dep in module_names: visit(dep, path)`,
      from the `i`-th dependency on; `path` ends with `node`. */
  function VisitDeps(r: Registry, req: seq<string>, node: string, i: nat, path: seq<string>, st: St): (res: Result<St, string>)
    requires i <= |Deps(r, node)|
    requires Valid(r, req, path, st) && Distinct(path)
    requires path != [] && path[|path| - 1] == node
    ensures res.Ok? ==> Valid(r, req, path, res.value)
    ensures res.Ok? ==> st.visited <= res.value.visited && |st.stack| <= |res.value.stack|
    ensures res.Ok? ==> res.value.stack[..|st.stack|] == st.stack
    ensures res.Ok? ==> forall j :: i <= j < |Deps(r, node)| && Deps(r, node)[j] in req ==> Deps(r, node)[j] in res.value.stack
    decreases |Elems(req) - st.visited|, 1, |Deps(r, node)| - i
  {
    var deps := Deps(r, node);
    if i == |deps| then Ok(st)
    else if deps[i] !in req then VisitDeps(r, req, node, i + 1, path, st)
    else
      match Visit(r, req, deps[i], path, st)
      case Err(e) => Err(e)
      case Ok(s) =>
        FewerUnvisited(Elems(req), st.visited, s.visited);
        var res := VisitDeps(r, req, node, i + 1, path, s);
        if res.Ok? then
          StackPrefixTransitive(st.stack, s.stack, res.value.stack);
          res
        else res
  }

  /** Entering an unvisited node keeps the state valid with the node on the path. */
  lemma StartKeepsValid(r: Registry, req: seq<string>, node: string, path: seq<string>, st: St)
    requires node in req && node !in st.visited && node !in path
    requires Valid(r, req, path, st) && Distinct(path)
    ensures Valid(r, req, path + [node], St(st.visited + {node}, st.stack))
    ensures Distinct(path + [node])
  {
    assert Elems(path + [node]) == Elems(path) + {node};
    assert forall i :: 0 <= i < |path| ==> (path + [node])[i] == path[i];
  }

  lemma AppendKeepsPrefix(a: seq<string>, b: seq<string>, x: string)
    requires |a| <= |b| && b[..|a|] == a
    ensures (b + [x])[..|a|] == a
  {
    assert (b + [x])[..|a|] == b[..|a|];
  }

  lemma StackPrefixTransitive(a: seq<string>, b: seq<string>, c: seq<string>)
    requires |a| <= |b| <= |c| && b[..|a|] == a && c[..|b|] == b
    ensures c[..|a|] == a
  {
    assert c[..|a|] == c[..|b|][..|a|];
  }

  /** Appending a node whose requested dependencies are all finished keeps the
      state valid once the node leaves the path. */
  lemma FinishKeepsValid(r: Registry, req: seq<string>, node: string, path: seq<string>, s: St)
    requires node in req && node !in path
    requires Valid(r, req, path + [node], s)
    requires forall j :: 0 <= j < |Deps(r, node)| && Deps(r, node)[j] in req ==> Deps(r, node)[j] in s.stack
    ensures Valid(r, req, path, St(s.visited, s.stack + [node]))
  {
    var stack' := s.stack + [node];
    assert Elems(path + [node]) == Elems(path) + {node};
    assert Elems(stack') == Elems(s.stack) + {node};
    assert node !in s.stack;
    assert Distinct(stack') by {
      forall i, j | 0 <= i < j < |stack'|
        ensures stack'[i] != stack'[j]
      {
        if j == |s.stack| { assert stack'[i] == s.stack[i]; }
      }
    }
    forall i, d | 0 <= i < |stack'| && Edge(r, req, stack'[i], d)
      ensures d in stack'[..i]
    {
      if i < |s.stack| {
        assert stack'[i] == s.stack[i];
        assert s.stack[..i] == stack'[..i];
      } else {
        assert stack'[..i] == s.stack;
        var j :| 0 <= j < |Deps(r, node)| && Deps(r, node)[j] == d;
      }
    }
  }

  /** `get_load_order(module_names)` from the `i`-th requested name on. */
  function VisitAll(r: Registry, req: seq<string>, i: nat, st: St): (res: Result<St, string>)
    requires i <= |req| && Valid(r, req, [], st)
    requires forall j :: 0 <= j < i ==> req[j] in st.stack
    ensures res.Ok? ==> Valid(r, req, [], res.value) && Elems(res.value.stack) == Elems(req)
    decreases |req| - i
  {
    if i == |req| then
      assert Elems(st.stack) == Elems(req) by {
        forall x | x in Elems(req) ensures x in Elems(st.stack) {
          var j :| 0 <= j < |req| && req[j] == x;
        }
      }
      Ok(st)
    else if req[i] in st.visited then VisitAll(r, req, i + 1, st)
    else
      match Visit(r, req, req[i], [], st)
      case Err(e) => Err(e)
      case Ok(s) =>
        assert forall j :: 0 <= j < i ==> req[j] in s.stack by {
          forall j | 0 <= j < i ensures req[j] in s.stack {
            assert req[j] in st.stack;
            var k :| 0 <= k < |st.stack| && st.stack[k] == req[j];
            assert s.stack[k] == st.stack[k];
          }
        }
        VisitAll(r, req, i + 1, s)
  }

  /** `get_load_order(module_names)`: the names in dependency order, or the name at
      which a circular dependency was detected. */
  function GetLoadOrder(r: Registry, req: seq<string>): (res: Result<seq<string>, string>)
    ensures res.Ok? ==> Distinct(res.value) && Elems(res.value) == Elems(req)
    ensures res.Ok? ==> Ordered(r, req, res.value)
  {
    match VisitAll(r, req, 0, St({}, []))
    case Err(e) => Err(e)
    case Ok(s) => Ok(s.stack)
  }

  /** A failing visit from a walk names a node that lies on a cycle. */
  lemma {:induction false} VisitErrIsCycle(r: Registry, req: seq<string>, node: string, path: seq<string>, st: St)
    returns (c: seq<string>)
    requires node in req && Valid(r, req, path, st) && Distinct(path)
    requires IsWalk(r, req, path) && (path != [] ==> Edge(r, req, path[|path| - 1], node))
    ensures Visit(r, req, node, path, st).Err? ==> IsCycleThrough(r, req, c, Visit(r, req, node, path, st).error)
    decreases |Elems(req) - st.visited|, 0
  {
    c := [];
    if node in path {
      c := PathCycle(r, req, path, node);
    } else if node !in st.visited {
      var st1 := St(st.visited + {node}, st.stack);
      OneFewerUnvisited(Elems(req), st.visited, node);
      StartKeepsValid(r, req, node, path, st);
      WalkExtend(r, req, path, node);
      c := VisitDepsErrIsCycle(r, req, node, 0, path + [node], st1);
    }
  }

  /** Meeting a node of the current path again closes a cycle through it. */
  lemma PathCycle(r: Registry, req: seq<string>, path: seq<string>, node: string) returns (c: seq<string>)
    requires node in path
    requires IsWalk(r, req, path) && Edge(r, req, path[|path| - 1], node)
    ensures IsCycleThrough(r, req, c, node)
  {
    var k :| 0 <= k < |path| && path[k] == node;
    c := path[k..] + [node];
    forall j | 0 <= j < |c| - 1
      ensures Edge(r, req, c[j], c[j + 1])
    {
      if k + j + 1 < |path| {
        assert c[j] == path[k + j] && c[j + 1] == path[k + j + 1];
      }
    }
  }

  lemma WalkExtend(r: Registry, req: seq<string>, path: seq<string>, node: string)
    requires IsWalk(r, req, path) && (path != [] ==> Edge(r, req, path[|path| - 1], node))
    ensures IsWalk(r, req, path + [node])
  {
    var p := path + [node];
    forall k | 0 <= k < |p| - 1
      ensures Edge(r, req, p[k], p[k + 1])
    {
      if k + 1 < |path| { assert p[k] == path[k] && p[k + 1] == path[k + 1]; }
    }
  }

  lemma {:induction false} VisitDepsErrIsCycle(r: Registry, req: seq<string>, node: string, i: nat, path: seq<string>, st: St)
    returns (c: seq<string>)
    requires i <= |Deps(r, node)|
    requires Valid(r, req, path, st) && Distinct(path)
    requires path != [] && path[|path| - 1] == node && IsWalk(r, req, path)
    ensures VisitDeps(r, req, node, i, path, st).Err? ==> IsCycleThrough(r, req, c, VisitDeps(r, req, node, i, path, st).error)
    decreases |Elems(req) - st.visited|, 1, |Deps(r, node)| - i
  {
    c := [];
    var deps := Deps(r, node);
    if i < |deps| {
      if deps[i] !in req {
        c := VisitDepsErrIsCycle(r, req, node, i + 1, path, st);
      } else {
        c := VisitErrIsCycle(r, req, deps[i], path, st);
        var v := Visit(r, req, deps[i], path, st);
        if v.Ok? {
          FewerUnvisited(Elems(req), st.visited, v.value.visited);
          c := VisitDepsErrIsCycle(r, req, node, i + 1, path, v.value);
        }
      }
    }
  }

  lemma {:induction false} VisitAllErrIsCycle(r: Registry, req: seq<string>, i: nat, st: St)
    returns (c: seq<string>)
    requires i <= |req| && Valid(r, req, [], st)
    requires forall j :: 0 <= j < i ==> req[j] in st.stack
    ensures VisitAll(r, req, i, st).Err? ==> IsCycleThrough(r, req, c, VisitAll(r, req, i, st).error)
    decreases |req| - i
  {
    c := [];
    if i < |req| {
      if req[i] in st.visited {
        c := VisitAllErrIsCycle(r, req, i + 1, st);
      } else {
        c := VisitErrIsCycle(r, req, req[i], [], st);
        var v := Visit(r, req, req[i], [], st);
        if v.Ok? {
          var s := v.value;
          assert forall j :: 0 <= j < i ==> req[j] in s.stack by {
            forall j | 0 <= j < i ensures req[j] in s.stack {
              var k :| 0 <= k < |st.stack| && st.stack[k] == req[j];
              assert s.stack[k] == st.stack[k];
            }
          }
          c := VisitAllErrIsCycle(r, req, i + 1, s);
        }
      }
    }
  }

  /** Position of a name in a sequence that holds it. */
  function IndexOf(s: seq<string>, x: string): (k: nat)
    requires x in s
    ensures k < |s| && s[k] == x
  {
    if s[0] == x then 0 else 1 + IndexOf(s[1..], x)
  }

  /** Along a walk inside an ordered sequence, positions strictly decrease. */
  lemma {:induction false} WalkDescends(r: Registry, req: seq<string>, order: seq<string>, c: seq<string>, k: nat)
    requires Ordered(r, req, order) && Distinct(order)
    requires IsWalk(r, req, c) && |c| >= 2 && c[0] in order
    requires 1 <= k < |c|
    ensures c[k] in order && IndexOf(order, c[k]) < IndexOf(order, c[0])
    decreases k
  {
    var prev := c[k - 1];
    if k > 1 {
      WalkDescends(r, req, order, c, k - 1);
    }
    assert prev in order;
    var p := IndexOf(order, prev);
    assert Edge(r, req, c[k - 1], c[k]);
    assert c[k] in order[..p];
    var q :| 0 <= q < p && order[q] == c[k];
    assert IndexOf(order, c[k]) == q;
  }

  /** An order in which every requested dependency comes first admits no cycle
      among the names it holds. */
  lemma OrderedHasNoCycle(r: Registry, req: seq<string>, order: seq<string>)
    requires Ordered(r, req, order) && Distinct(order) && Elems(order) == Elems(req)
    ensures !HasCycle(r, req)
  {
    if HasCycle(r, req) {
      var c, n :| IsCycleThrough(r, req, c, n);
      assert Edge(r, req, c[|c| - 2], c[|c| - 1]);
      assert c[0] in Elems(req);
      WalkDescends(r, req, order, c, |c| - 1);
      assert false;
    }
  }

  /** The load order fails exactly when the requested modules' dependencies form a
      cycle, and the name it reports lies on one. */
  lemma LoadOrderFailsIffCycle(r: Registry, req: seq<string>)
    ensures GetLoadOrder(r, req).Err? <==> HasCycle(r, req)
    ensures GetLoadOrder(r, req).Err? ==> exists c :: IsCycleThrough(r, req, c, GetLoadOrder(r, req).error)
  {
    var c := VisitAllErrIsCycle(r, req, 0, St({}, []));
    var res := GetLoadOrder(r, req);
    if res.Ok? {
      OrderedHasNoCycle(r, req, res.value);
    } else {
      assert IsCycleThrough(r, req, c, res.error);
    }
  }

  function Module(deps: seq<string>): ModuleInfo {
    ModuleInfo([], map[], deps, "No description provided")
  }

  function Chain(): Registry {
    Registry(map["A" := Module([]), "B" := Module(["A"]), "C" := Module(["B"])], map[])
  }

  lemma ChainFacts()
    ensures Deps(Chain(), "A") == [] && Deps(Chain(), "B") == ["A"] && Deps(Chain(), "C") == ["B"]
    ensures Elems(["C", "A", "B"]) == {"A", "B", "C"}
    ensures Elems(["C", "B"]) == {"C", "B"} && Elems(["C"]) == {"C"} && Elems(["C", "B", "A"]) == {"C", "B", "A"}
    ensures Elems(["A"]) == {"A"} && Elems(["A", "B"]) == {"A", "B"} && Elems(["A", "B", "C"]) == {"A", "B", "C"}
    ensures ["C", "B"] + ["A"] == ["C", "B", "A"] && ["C"] + ["B"] == ["C", "B"] && [] + ["C"] == ["C"]
    ensures {"C", "B"} + {"A"} == {"C", "B", "A"} && {"C"} + {"B"} == {"C", "B"}
    ensures [] + ["A"] == ["A"] && ["A"] + ["B"] == ["A", "B"] && ["A", "B"] + ["C"] == ["A", "B", "C"]
  {
  }

  lemma ChainVisitA()
    ensures Visit(Chain(), ["C", "A", "B"], "A", ["C", "B"], St({"C", "B"}, [])) == Ok(St({"C", "B", "A"}, ["A"]))
  {
    ChainFacts();
    var sA := St({"C", "B", "A"}, []);
    assert VisitDeps(Chain(), ["C", "A", "B"], "A", 0, ["C", "B", "A"], sA) == Ok(sA);
  }

  lemma ChainVisitB()
    ensures Visit(Chain(), ["C", "A", "B"], "B", ["C"], St({"C"}, [])) == Ok(St({"C", "B", "A"}, ["A", "B"]))
  {
    ChainFacts();
    ChainVisitA();
    var sB := St({"C", "B", "A"}, ["A"]);
    assert VisitDeps(Chain(), ["C", "A", "B"], "B", 1, ["C", "B"], sB) == Ok(sB);
    assert VisitDeps(Chain(), ["C", "A", "B"], "B", 0, ["C", "B"], St({"C", "B"}, [])) == Ok(sB);
  }

  lemma ChainVisitC()
    ensures Visit(Chain(), ["C", "A", "B"], "C", [], St({}, [])) == Ok(St({"C", "B", "A"}, ["A", "B", "C"]))
  {
    ChainFacts();
    ChainVisitB();
    var none: set<string> := {};
    assert none + {"C"} == {"C"};
    var sC := St({"C", "B", "A"}, ["A", "B"]);
    assert VisitDeps(Chain(), ["C", "A", "B"], "C", 1, ["C"], sC) == Ok(sC);
    assert VisitDeps(Chain(), ["C", "A", "B"], "C", 0, ["C"], St({"C"}, [])) == Ok(sC);
  }

  /** A chain C -> B -> A requested as [C, A, B] loads as [A, B, C]. */
  lemma ChainLoadsDependenciesFirst()
    ensures GetLoadOrder(Chain(), ["C", "A", "B"]) == Ok(["A", "B", "C"])
  {
    ChainFacts();
    ChainVisitC();
    var req := ["C", "A", "B"];
    var done := St({"C", "B", "A"}, ["A", "B", "C"]);
    assert VisitAll(Chain(), req, 3, done) == Ok(done);
    assert VisitAll(Chain(), req, 2, done) == Ok(done);
    assert VisitAll(Chain(), req, 1, done) == Ok(done);
  }

  /** Two modules depending on each other are refused, naming the first one. */
  lemma MutualDependencyFails()
    ensures
      var r := Registry(map["A" := Module(["B"]), "B" := Module(["A"])], map[]);
      GetLoadOrder(r, ["A", "B"]) == Err("A")
  {
    var r := Registry(map["A" := Module(["B"]), "B" := Module(["A"])], map[]);
    var req := ["A", "B"];
    assert Deps(r, "A") == ["B"] && Deps(r, "B") == ["A"];
    assert Elems(req) == {"A", "B"} && Elems(["A"]) == {"A"} && Elems(["A", "B"]) == {"A", "B"};
    assert [] + ["A"] == ["A"] && ["A"] + ["B"] == ["A", "B"] && {"A"} + {"B"} == {"A", "B"};
    var none: set<string> := {};
    assert none + {"A"} == {"A"};
    assert Visit(r, req, "A", ["A", "B"], St({"A", "B"}, [])) == Err("A");
    assert VisitDeps(r, req, "B", 0, ["A", "B"], St({"A", "B"}, [])) == Err("A");
    assert Visit(r, req, "B", ["A"], St({"A"}, [])) == Err("A");
    assert VisitDeps(r, req, "A", 0, ["A"], St({"A"}, [])) == Err("A");
    assert Visit(r, req, "A", [], St({}, [])) == Err("A");
  }

  function Partial(): Registry {
    Registry(map["B" := Module(["A", "Z"])], map[])
  }

  lemma PartialVisitB()
    ensures Visit(Partial(), ["B", "X"], "B", [], St({}, [])) == Ok(St({"B"}, ["B"]))
  {
    var r := Partial();
    var req := ["B", "X"];
    assert Deps(r, "B") == ["A", "Z"];
    assert Elems(req) == {"B", "X"} && Elems(["B"]) == {"B"};
    assert [] + ["B"] == ["B"];
    var none: set<string> := {};
    assert none + {"B"} == {"B"};
    var sB := St({"B"}, []);
    assert VisitDeps(r, req, "B", 2, ["B"], sB) == Ok(sB);
    assert VisitDeps(r, req, "B", 1, ["B"], sB) == Ok(sB);
    assert VisitDeps(r, req, "B", 0, ["B"], sB) == Ok(sB);
  }

  lemma PartialVisitX()
    ensures Visit(Partial(), ["B", "X"], "X", [], St({"B"}, ["B"])) == Ok(St({"B", "X"}, ["B", "X"]))
  {
    var r := Partial();
    var req := ["B", "X"];
    assert Deps(r, "X") == [];
    assert Elems(req) == {"B", "X"} && Elems(["B"]) == {"B"} && Elems(["X"]) == {"X"};
    assert [] + ["X"] == ["X"] && ["B"] + ["X"] == ["B", "X"] && {"B"} + {"X"} == {"B", "X"};
    var sX := St({"B", "X"}, ["B"]);
    assert VisitDeps(r, req, "X", 0, ["X"], sX) == Ok(sX);
  }

  /** A dependency outside the request is ignored, and a requested name that is
      not registered still appears. */
  lemma UnrequestedDependencyIgnored()
    ensures GetLoadOrder(Partial(), ["B", "X"]) == Ok(["B", "X"])
  {
    PartialVisitB();
    PartialVisitX();
    var s2 := St({"B", "X"}, ["B", "X"]);
    assert VisitAll(Partial(), ["B", "X"], 2, s2) == Ok(s2);
    assert VisitAll(Partial(), ["B", "X"], 1, St({"B"}, ["B"])) == Ok(s2);
  }
}
