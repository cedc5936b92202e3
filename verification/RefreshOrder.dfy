/** The order in which batch_materialized_views.py refreshes views: depth-first,
    with a visited set and a path set that breaks cycles. */
module RefreshOrder {
  /** Each view's dependencies, in the order the source's set happens to be iterated. */
  type Graph = map<string, seq<string>>

  datatype Order = Order(visited: set<string>, result: seq<string>)

  const Nothing := Order({}, [])

  /** `visit`: a name on the path closes a cycle and is skipped. */
  function Visit(graph: Graph, name: string, path: set<string>, o: Order): Order
    decreases graph.Keys - path, 0
  {
    if name in path || name in o.visited then o
    else
      var o1 := if name in graph then
        assert name in graph.Keys - path;
        VisitAll(graph, graph[name], path + {name}, o) else o;
      Order(o1.visited + {name}, o1.result + [name])
  }

  /** `visit`'s loop: only dependencies that are views themselves. */
  function VisitAll(graph: Graph, deps: seq<string>, path: set<string>, o: Order): Order
    decreases graph.Keys - path, |deps|
  {
    if deps == [] then o
    else VisitAll(graph, deps[1..], path, if deps[0] in graph then Visit(graph, deps[0], path, o) else o)
  }

  function SortFrom(graph: Graph, names: seq<string>, o: Order): Order {
    if names == [] then o
    else SortFrom(graph, names[1..], if names[0] !in o.visited then Visit(graph, names[0], {}, o) else o)
  }

  function Sort(graph: Graph, names: seq<string>): seq<string> {
    SortFrom(graph, names, Nothing).result
  }

  // ---- Every view exactly once ----

  ghost predicate Distinct(s: seq<string>) {
    forall i, j :: 0 <= i < j < |s| ==> s[i] != s[j]
  }

  ghost predicate Consistent(o: Order) {
    Distinct(o.result) && forall x :: x in o.result <==> x in o.visited
  }

  /** o' continues o with names of the graph or `name`, none of them on the path. */
  ghost predicate Continues(graph: Graph, names: set<string>, path: set<string>, o: Order, o': Order) {
    && Consistent(o') && o.result <= o'.result && path !! o'.visited
    && o.visited <= o'.visited <= o.visited + graph.Keys + names
  }

  lemma {:induction false} VisitContinues(graph: Graph, name: string, path: set<string>, o: Order)
    requires Consistent(o) && path !! o.visited
    ensures Continues(graph, {name}, path, o, Visit(graph, name, path, o))
    ensures name in path || name in Visit(graph, name, path, o).visited
    decreases graph.Keys - path, 0
  {
    if name !in path && name !in o.visited {
      if name in graph {
        assert name in graph.Keys - path;
        VisitAllContinues(graph, graph[name], path + {name}, o);
      }
    }
  }

  lemma {:induction false} VisitAllContinues(graph: Graph, deps: seq<string>, path: set<string>, o: Order)
    requires Consistent(o) && path !! o.visited
    ensures Continues(graph, {}, path, o, VisitAll(graph, deps, path, o))
    ensures forall d :: d in deps && d in graph ==> d in path || d in VisitAll(graph, deps, path, o).visited
    decreases graph.Keys - path, |deps|
  {
    hide Distinct;
    if deps != [] {
      if deps[0] in graph {
        VisitContinues(graph, deps[0], path, o);
        VisitAllContinues(graph, deps[1..], path, Visit(graph, deps[0], path, o));
      } else {
        VisitAllContinues(graph, deps[1..], path, o);
      }
    }
  }

  lemma {:induction false} SortFromContinues(graph: Graph, names: seq<string>, o: Order)
    requires Consistent(o)
    ensures var all := set x | x in names; Continues(graph, all, {}, o, SortFrom(graph, names, o))
    ensures forall x :: x in names ==> x in SortFrom(graph, names, o).visited
    decreases |names|
  {
    hide Distinct, Visit;
    if names != [] {
      VisitContinues(graph, names[0], {}, o);
      SortFromContinues(graph, names[1..], if names[0] !in o.visited then Visit(graph, names[0], {}, o) else o);
    }
  }

  /** Whatever cycles there are, each view is listed exactly once and nothing else is. */
  lemma ListsEachViewOnce(graph: Graph, names: seq<string>, x: string)
    requires forall v :: v in graph ==> v in names
    ensures Distinct(Sort(graph, names)) && (x in Sort(graph, names) <==> x in names)
  {
    SortFromContinues(graph, names, Nothing);
  }

  // ---- Dependencies first ----

  predicate Edge(graph: Graph, a: string, b: string) {
    a in graph && b in graph[a] && b in graph
  }

  /** w follows edges from a to b. */
  predicate Walk(graph: Graph, w: seq<string>, a: string, b: string) {
    w != [] && w[0] == a && w[|w| - 1] == b && forall i :: 0 <= i < |w| - 1 ==> Edge(graph, w[i], w[i + 1])
  }

  ghost predicate Reaches(graph: Graph, a: string, b: string) {
    exists w :: Walk(graph, w, a, b)
  }

  ghost predicate Before(s: seq<string>, b: string, a: string) {
    exists i, j :: 0 <= j < i < |s| && s[j] == b && s[i] == a
  }

  /** A listed view comes after each dependency, unless that dependency needs the view itself. */
  ghost predicate DependenciesFirst(graph: Graph, s: seq<string>) {
    forall a, b :: a in s && Edge(graph, a, b) ==> Before(s, b, a) || Reaches(graph, b, a)
  }

  lemma ReachesSelf(graph: Graph, a: string)
    ensures Reaches(graph, a, a)
  {
    assert Walk(graph, [a], a, a);
  }

  lemma ReachesStep(graph: Graph, a: string, b: string, c: string)
    requires Reaches(graph, a, b) && Edge(graph, b, c)
    ensures Reaches(graph, a, c)
  {
    hide Edge;
    var w :| Walk(graph, w, a, b);
    assert Walk(graph, w + [c], a, c);
  }

  lemma BeforeGrows(s: seq<string>, t: seq<string>, b: string, a: string)
    requires Before(s, b, a) && s <= t
    ensures Before(t, b, a)
  {
    var i, j :| 0 <= j < i < |s| && s[j] == b && s[i] == a;
    assert t[j] == b && t[i] == a;
  }

  /** Appending a name whose dependencies are all listed or reach it. */
  lemma AppendKeeps(graph: Graph, s: seq<string>, name: string)
    requires DependenciesFirst(graph, s)
    requires forall b :: Edge(graph, name, b) ==> b in s || Reaches(graph, b, name)
    ensures DependenciesFirst(graph, s + [name])
  {
    hide Reaches, Edge;
    var t := s + [name];
    forall a, b | a in t && Edge(graph, a, b) ensures Before(t, b, a) || Reaches(graph, b, a) {
      if a in s {
        if Before(s, b, a) {
          BeforeGrows(s, t, b, a);
        }
      } else if b in s {
        var j :| 0 <= j < |s| && s[j] == b;
        assert t[j] == b && t[|s|] == name;
      }
    }
  }

  lemma {:induction false} VisitOrders(graph: Graph, name: string, path: set<string>, o: Order)
    requires Consistent(o) && path !! o.visited && DependenciesFirst(graph, o.result)
    requires forall p :: p in path ==> Reaches(graph, p, name)
    ensures DependenciesFirst(graph, Visit(graph, name, path, o).result)
    decreases graph.Keys - path, 0
  {
    hide Reaches, DependenciesFirst, Distinct;
    if name !in path && name !in o.visited {
      ReachesSelf(graph, name);
      if name in graph {
        assert name in graph.Keys - path;
        forall p, d | p in path + {name} && d in graph[name] && d in graph ensures Reaches(graph, p, d) {
          ReachesStep(graph, p, name, d);
        }
        VisitAllOrders(graph, graph[name], path + {name}, o);
        VisitAllContinues(graph, graph[name], path + {name}, o);
        AppendKeeps(graph, VisitAll(graph, graph[name], path + {name}, o).result, name);
      } else {
        AppendKeeps(graph, o.result, name);
      }
    }
  }

  lemma {:induction false} VisitAllOrders(graph: Graph, deps: seq<string>, path: set<string>, o: Order)
    requires Consistent(o) && path !! o.visited && DependenciesFirst(graph, o.result)
    requires forall p, d :: p in path && d in deps && d in graph ==> Reaches(graph, p, d)
    ensures DependenciesFirst(graph, VisitAll(graph, deps, path, o).result)
    decreases graph.Keys - path, |deps|
  {
    hide Reaches, DependenciesFirst, Distinct;
    if deps != [] {
      if deps[0] in graph {
        VisitOrders(graph, deps[0], path, o);
        VisitContinues(graph, deps[0], path, o);
        VisitAllOrders(graph, deps[1..], path, Visit(graph, deps[0], path, o));
      } else {
        VisitAllOrders(graph, deps[1..], path, o);
      }
    }
  }

  lemma {:induction false} SortFromOrders(graph: Graph, names: seq<string>, o: Order)
    requires Consistent(o) && DependenciesFirst(graph, o.result)
    ensures DependenciesFirst(graph, SortFrom(graph, names, o).result)
    decreases |names|
  {
    hide Reaches, DependenciesFirst, Distinct, Visit;
    if names != [] {
      VisitOrders(graph, names[0], {}, o);
      VisitContinues(graph, names[0], {}, o);
      SortFromOrders(graph, names[1..], if names[0] !in o.visited then Visit(graph, names[0], {}, o) else o);
    }
  }

  /** In any graph, a dependency that is not part of a cycle with the view comes before it. */
  lemma DependencyBefore(graph: Graph, names: seq<string>, a: string, b: string)
    requires Edge(graph, a, b) && a in names && !Reaches(graph, b, a)
    ensures Before(Sort(graph, names), b, a)
  {
    hide Reaches;
    SortFromContinues(graph, names, Nothing);
    SortFromOrders(graph, names, Nothing);
  }

  ghost predicate Acyclic(graph: Graph) {
    forall a, b :: Edge(graph, a, b) ==> !Reaches(graph, b, a)
  }

  /** Along a walk every view comes after the ones it leads to. */
  lemma {:induction false} WalkDescends(graph: Graph, s: seq<string>, w: seq<string>, a: string, b: string)
    requires Walk(graph, w, a, b) && Distinct(s) && |w| > 1
    requires forall x, y :: Edge(graph, x, y) ==> Before(s, y, x)
    ensures Before(s, b, a)
    decreases |w|
  {
    hide Edge;
    assert Edge(graph, w[0], w[1]);
    if |w| > 2 {
      forall i | 0 <= i < |w[1..]| - 1 ensures Edge(graph, w[1..][i], w[1..][i + 1]) {
        assert Edge(graph, w[i + 1], w[i + 2]);
      }
      WalkDescends(graph, s, w[1..], w[1], b);
    }
  }

  /** All dependencies come first exactly when the graph has no cycle. */
  lemma DependenciesFirstIffAcyclic(graph: Graph, names: seq<string>)
    requires forall v :: v in graph ==> v in names
    ensures (forall a, b :: Edge(graph, a, b) ==> Before(Sort(graph, names), b, a)) <==> Acyclic(graph)
  {
    hide Reaches, Sort;
    var s := Sort(graph, names);
    if Acyclic(graph) {
      forall a, b | Edge(graph, a, b) ensures Before(s, b, a) {
        DependencyBefore(graph, names, a, b);
      }
    }
    if forall a, b :: Edge(graph, a, b) ==> Before(s, b, a) {
      ListsEachViewOnce(graph, names, "");
      forall a, b | Edge(graph, a, b) ensures !Reaches(graph, b, a) {
        EdgeClosesNoWalk(graph, s, a, b);
      }
    }
  }

  lemma BeforeOneWay(s: seq<string>, a: string, b: string)
    requires Distinct(s) && Before(s, b, a)
    ensures !Before(s, a, b)
  {
  }

  lemma EdgeClosesNoWalk(graph: Graph, s: seq<string>, a: string, b: string)
    requires Edge(graph, a, b) && Distinct(s)
    requires forall x, y :: Edge(graph, x, y) ==> Before(s, y, x)
    ensures !Reaches(graph, b, a)
  {
    hide Distinct, Before, Edge;
    BeforeOneWay(s, a, b);
    forall w ensures !Walk(graph, w, b, a) {
      if Walk(graph, w, b, a) && |w| > 1 {
        WalkDescends(graph, s, w, b, a);
        assert false;
      }
    }
  }

  // ---- The source's closure over shared state ----

  class Sorter {
    var visited: set<string>
    var result: seq<string>
    const graph: Graph

    ghost function State(): Order
      reads this
    {
      Order(visited, result)
    }

    constructor (graph: Graph)
      ensures State() == Nothing && this.graph == graph
    {
      this.graph := graph;
      visited, result := {}, [];
    }

    method VisitView(name: string, path: set<string>)
      modifies this
      ensures State() == Visit(graph, name, path, old(State()))
      decreases graph.Keys - path
    {
      if name in path {
        return;
      }
      if name in visited {
        return;
      }
      var extended := path + {name};
      if name in graph {
        assert name in graph.Keys - path;
        var deps := graph[name];
        var i := 0;
        while i < |deps|
          invariant i <= |deps|
          invariant VisitAll(graph, deps[i..], extended, State()) == VisitAll(graph, deps, extended, old(State()))
        {
          assert deps[i..][1..] == deps[i + 1..];
          if deps[i] in graph {
            VisitView(deps[i], extended);
          }
          i := i + 1;
        }
      }
      visited := visited + {name};
      result := result + [name];
    }

    method SortViews(names: seq<string>)
      requires State() == Nothing
      modifies this
      ensures result == Sort(graph, names)
    {
      var i := 0;
      while i < |names|
        invariant i <= |names|
        invariant SortFrom(graph, names[i..], State()) == SortFrom(graph, names, Nothing)
      {
        assert names[i..][1..] == names[i + 1..];
        if names[i] !in visited {
          VisitView(names[i], {});
        }
        i := i + 1;
      }
    }
  }

  /** The dependency graph of the named views; a name without a view has no entry. */
  function Dependencies(names: seq<string>, queries: map<string, string>,
                        extract: string -> seq<string>): (graph: Graph)
    ensures forall v :: v in graph ==> v in names && v in queries && graph[v] == extract(queries[v])
    ensures forall v :: v in names && v in queries ==> v in graph
  {
    map v | v in names && v in queries :: extract(queries[v])
  }

  /** `_sort_by_dependencies`. */
  method SortByDependencies(names: seq<string>, queries: map<string, string>, extract: string -> seq<string>)
    returns (order: seq<string>)
    ensures order == Sort(Dependencies(names, queries, extract), names)
  {
    var graph: Graph := map[];
    var i := 0;
    while i < |names|
      invariant i <= |names|
      invariant graph == Dependencies(names[..i], queries, extract)
    {
      if names[i] in queries {
        graph := graph[names[i] := extract(queries[names[i]])];
      }
      i := i + 1;
    }
    assert names[..i] == names;
    var sorter := new Sorter(graph);
    sorter.SortViews(names);
    order := sorter.result;
  }
}
