/**
 * Mission plan validation: unique keys and positions, known dependencies, and a
 * depth-first search that rejects dependency cycles.
 */
module MissionDag {
  import opened Options

  datatype Step = Step(key: string, position: int, dependsOn: seq<string>)

  datatype PlanError =
    | DuplicateKeys
    | DuplicatePositions
    | SelfDependency
    | UnknownDependencies
    | CycleDetected

  type Graph = map<string, set<string>>

  // ---------------------------------------------------------------- the plan as a graph

  function Keys(steps: seq<Step>): (keys: seq<string>)
    ensures |keys| == |steps| && forall i :: 0 <= i < |steps| ==> keys[i] == steps[i].key
  {
    seq(|steps|, i requires 0 <= i < |steps| => steps[i].key)
  }

  function Positions(steps: seq<Step>): (positions: seq<int>)
    ensures |positions| == |steps| && forall i :: 0 <= i < |steps| ==> positions[i] == steps[i].position
  {
    seq(|steps|, i requires 0 <= i < |steps| => steps[i].position)
  }

  /** The dictionary of dependencies; a later step with the same key replaces an earlier one. */
  function Dependencies(steps: seq<Step>): Graph {
    if steps == [] then map[]
    else
      var last := steps[|steps| - 1];
      Dependencies(steps[..|steps| - 1])[last.key := set d | d in last.dependsOn]
  }

  lemma {:induction false} DependenciesOfUniqueKeys(steps: seq<Step>)
    requires Distinct(Keys(steps))
    ensures Dependencies(steps).Keys == Elements(Keys(steps))
    ensures forall i :: 0 <= i < |steps| ==>
      steps[i].key in Dependencies(steps) &&
      Dependencies(steps)[steps[i].key] == set d | d in steps[i].dependsOn
  {
    if steps != [] {
      var n := |steps| - 1;
      var front := steps[..n];
      assert Keys(steps) == Keys(front) + [steps[n].key];
      forall i, j | 0 <= i < j < n ensures Keys(front)[i] != Keys(front)[j] {
        assert Keys(steps)[i] != Keys(steps)[j];
      }
      DependenciesOfUniqueKeys(front);
      forall i | 0 <= i < n ensures steps[i].key != steps[n].key {
        assert Keys(steps)[i] != Keys(steps)[n];
      }
      forall i | 0 <= i < |steps|
        ensures steps[i].key in Dependencies(steps)
        ensures Dependencies(steps)[steps[i].key] == set d | d in steps[i].dependsOn
      {
        if i < n {
          assert front[i] == steps[i];
        }
      }
    }
  }

  /** Every dependency is itself a step. */
  ghost predicate Closed(g: Graph) {
    forall k :: k in g ==> g[k] <= g.Keys
  }

  /** Every node of the path depends on the next one. */
  ghost predicate IsPath(g: Graph, path: seq<string>) {
    && (forall i :: 0 <= i < |path| ==> path[i] in g)
    && (forall i :: 0 <= i < |path| - 1 ==> path[i + 1] in g[path[i]])
  }

  ghost predicate IsCycle(g: Graph, path: seq<string>) {
    |path| >= 2 && IsPath(g, path) && path[0] == path[|path| - 1]
  }

  ghost predicate Acyclic(g: Graph) {
    forall path :: !IsCycle(g, path)
  }

  /** Each element's dependencies all stand strictly before it. */
  ghost predicate Topological(g: Graph, order: seq<string>) {
    && Distinct(order)
    && forall i :: 0 <= i < |order| ==> order[i] in g && g[order[i]] <= Elements(order[..i])
  }

  /** What an acceptable plan is, with no reference to how it is checked. */
  ghost predicate IsDagPlan(steps: seq<Step>) {
    && Distinct(Keys(steps))
    && Distinct(Positions(steps))
    && Closed(Dependencies(steps))
    && Acyclic(Dependencies(steps))
  }

  // ---------------------------------------------------------------- topological orders

  lemma {:induction false} PathDescends(g: Graph, order: seq<string>, path: seq<string>, at: nat) returns (end: nat)
    requires Topological(g, order) && IsPath(g, path) && path != []
    requires at < |order| && order[at] == path[0]
    ensures end < |order| && order[end] == path[|path| - 1]
    ensures end <= at && (|path| >= 2 ==> end < at)
    decreases |path|
  {
    if |path| == 1 {
      end := at;
    } else {
      assert path[1] in g[path[0]];
      assert path[1] in Elements(order[..at]);
      var next :| 0 <= next < at && order[next] == path[1];
      assert IsPath(g, path[1..]) by {
        forall i | 0 <= i < |path[1..]| - 1 ensures path[1..][i + 1] in g[path[1..][i]] {
          assert path[i + 2] in g[path[i + 1]];
        }
      }
      end := PathDescends(g, order, path[1..], next);
    }
  }

  /** A dependency relation that can be listed in topological order has no cycle. */
  lemma TopologicalOrderMeansAcyclic(g: Graph, order: seq<string>)
    requires Topological(g, order) && Elements(order) == g.Keys
    ensures Acyclic(g)
  {
    forall path ensures !IsCycle(g, path) {
      if IsCycle(g, path) {
        assert path[0] in Elements(order);
        var at :| 0 <= at < |order| && order[at] == path[0];
        var end := PathDescends(g, order, path, at);
        assert false;
      }
    }
  }

  lemma TopologicalSnoc(g: Graph, order: seq<string>, key: string)
    requires Topological(g, order) && key in g && key !in order && g[key] <= Elements(order)
    ensures Topological(g, order + [key])
    ensures Elements(order + [key]) == Elements(order) + {key}
  {
    var longer := order + [key];
    forall i | 0 <= i < |longer| ensures longer[i] in g && g[longer[i]] <= Elements(longer[..i]) {
      if i < |order| {
        assert longer[..i] == order[..i];
      } else {
        assert longer[..i] == order;
      }
    }
  }

  /** If `key` is already on the path that leads to it, the tail of the path is a cycle. */
  lemma RevisitIsCycle(g: Graph, trail: seq<string>, key: string) returns (path: seq<string>)
    requires IsPath(g, trail + [key]) && key in trail
    ensures IsCycle(g, path)
  {
    var whole := trail + [key];
    var i :| 0 <= i < |trail| && trail[i] == key;
    path := whole[i..];
    forall j | 0 <= j < |path| - 1 ensures path[j + 1] in g[path[j]] {
      assert whole[i + j + 1] in g[whole[i + j]];
    }
  }

  lemma StepAlong(g: Graph, trail: seq<string>, key: string, dependency: string)
    requires Closed(g) && IsPath(g, trail + [key]) && key in g && dependency in g[key]
    ensures IsPath(g, trail + [key] + [dependency])
  {
    var whole := trail + [key] + [dependency];
    forall i | 0 <= i < |whole| ensures whole[i] in g {
      assert i <= |trail| ==> whole[i] == (trail + [key])[i];
    }
    forall i | 0 <= i < |whole| - 1 ensures whole[i + 1] in g[whole[i]] {
      if i < |trail| {
        assert whole[i + 1] == (trail + [key])[i + 1] && whole[i] == (trail + [key])[i];
      }
    }
  }

  /** Without cycles, following dependencies that are not done ends at a key with nothing left to wait for. */
  lemma {:induction false} FollowToReady(g: Graph, done: set<string>, trail: seq<string>, key: string) returns (ready: string)
    requires Closed(g) && Acyclic(g) && IsPath(g, trail + [key]) && key !in done
    ensures ready in g && ready !in done && g[ready] <= done
    decreases g.Keys - Elements(trail)
  {
    if key in trail {
      var cycle := RevisitIsCycle(g, trail, key);
      assert false;
    }
    assert (trail + [key])[|trail|] == key;
    if g[key] <= done {
      ready := key;
    } else {
      var dependency :| dependency in g[key] && dependency !in done;
      StepAlong(g, trail, key, dependency);
      assert key in Elements(trail + [key]) && Elements(trail) <= Elements(trail + [key]);
      ready := FollowToReady(g, done, trail + [key], dependency);
    }
  }

  lemma {:induction false} CompleteOrder(g: Graph, order: seq<string>) returns (full: seq<string>)
    requires Closed(g) && Acyclic(g) && Topological(g, order)
    ensures Topological(g, full) && Elements(full) == g.Keys
    decreases g.Keys - Elements(order)
  {
    if g.Keys <= Elements(order) {
      full := order;
    } else {
      var key :| key in g && key !in order;
      assert [] + [key] == [key];
      var ready := FollowToReady(g, Elements(order), [], key);
      TopologicalSnoc(g, order, ready);
      full := CompleteOrder(g, order + [ready]);
    }
  }

  /** A closed dependency relation has no cycle exactly when all of it can be listed in topological order. */
  lemma AcyclicExactly(g: Graph)
    requires Closed(g)
    ensures Acyclic(g) <==> exists order :: Topological(g, order) && Elements(order) == g.Keys
  {
    if Acyclic(g) {
      var order := CompleteOrder(g, []);
    }
    if order :| Topological(g, order) && Elements(order) == g.Keys {
      TopologicalOrderMeansAcyclic(g, order);
    }
  }

  // ---------------------------------------------------------------- the search

  /** The state of one depth-first search. `order` records when keys enter `visited`. */
  class Search {
    const graph: Graph
    var visiting: set<string>
    var visited: set<string>
    ghost var order: seq<string>

    ghost predicate Valid()
      reads this
    {
      && Closed(graph)
      && Topological(graph, order)
      && Elements(order) == visited
      && visiting !! visited
      && visiting + visited <= graph.Keys
    }

    constructor (graph: Graph)
      requires Closed(graph)
      ensures Valid() && this.graph == graph && visiting == {} && visited == {} && order == []
    {
      this.graph, visiting, visited, order := graph, {}, {}, [];
    }

    /**
     * `trail` is the chain of calls that led here: a dependency path whose nodes are exactly the
     * keys being visited. A refusal comes with a cycle; an acceptance has appended `key`,
     * behind all its dependencies, to the topological order and restored `visiting`.
     */
    method Visit(key: string, ghost trail: seq<string>) returns (ok: bool, ghost cycle: seq<string>)
      requires Valid() && key in graph
      requires Elements(trail) == visiting && IsPath(graph, trail + [key])
      modifies this
      ensures ok ==> Valid() && visiting == old(visiting)
      ensures ok ==> old(order) <= order && key in visited
      ensures !ok ==> IsCycle(graph, cycle)
      decreases graph.Keys - visiting
    {
      cycle := [];
      if key in visiting {
        cycle := RevisitIsCycle(graph, trail, key);
        return false, cycle;
      }
      if key in visited {
        return true, cycle;
      }
      visiting := visiting + {key};
      ghost var deeper := trail + [key];
      assert Elements(deeper) == visiting;
      var remaining := graph[key];
      while remaining != {}
        invariant Valid() && visiting == old(visiting) + {key}
        invariant old(order) <= order
        invariant remaining <= graph[key] && graph[key] - remaining <= visited
        decreases remaining
      {
        var dependency :| dependency in remaining;
        assert IsPath(graph, deeper + [dependency]) by {
          var whole := deeper + [dependency];
          forall i | 0 <= i < |whole| - 1 ensures whole[i + 1] in graph[whole[i]] {
            if i < |trail| {
              assert whole[i + 1] == deeper[i + 1] && whole[i] == deeper[i];
            }
          }
        }
        ok, cycle := Visit(dependency, deeper);
        if !ok {
          return;
        }
        remaining := remaining - {dependency};
      }
      TopologicalSnoc(graph, order, key);
      visiting := visiting - {key};
      visited := visited + {key};
      order := order + [key];
      ok := true;
    }
  }

  /**
   * Accepts exactly the plans that are dependency DAGs, and reports the first broken rule in the
   * order in which the rules are checked.
   */
  method ValidateMissionSteps(steps: seq<Step>) returns (error: Option<PlanError>)
    ensures error == None <==> IsDagPlan(steps)
    ensures error == Some(DuplicateKeys) <==> !Distinct(Keys(steps))
    ensures error == Some(DuplicatePositions) <==> Distinct(Keys(steps)) && !Distinct(Positions(steps))
    ensures error == Some(CycleDetected) ==>
      Closed(Dependencies(steps)) && !Acyclic(Dependencies(steps))
    ensures error == Some(UnknownDependencies) ==> !Closed(Dependencies(steps))
    ensures error == Some(SelfDependency) ==> exists k :: IsCycle(Dependencies(steps), [k, k])
  {
    var keys := Keys(steps);
    var duplicated := HasDuplicate(keys);
    if duplicated {
      return Some(DuplicateKeys);
    }
    var positions := Positions(steps);
    duplicated := HasDuplicate(positions);
    if duplicated {
      return Some(DuplicatePositions);
    }
    var dependencies := Dependencies(steps);
    DependenciesOfUniqueKeys(steps);
    error := CheckDependencies(dependencies, keys);
    if error.Some? {
      return;
    }
    assert Closed(dependencies);
    var acyclic := SearchAll(dependencies, keys);
    error := if acyclic then None else Some(CycleDetected);
  }

  /** Each step's own dependencies: not itself, and only steps of the plan. */
  method CheckDependencies(dependencies: Graph, keys: seq<string>) returns (error: Option<PlanError>)
    requires forall i :: 0 <= i < |keys| ==> keys[i] in dependencies
    ensures error == None ==> forall i :: 0 <= i < |keys| ==> dependencies[keys[i]] <= dependencies.Keys
    ensures error == Some(SelfDependency) ==> exists k :: IsCycle(dependencies, [k, k])
    ensures error == Some(UnknownDependencies) ==> !Closed(dependencies)
    ensures error in {None, Some(SelfDependency), Some(UnknownDependencies)}
  {
    for i := 0 to |keys|
      invariant forall j :: 0 <= j < i ==> dependencies[keys[j]] <= dependencies.Keys
    {
      if keys[i] in dependencies[keys[i]] {
        assert IsCycle(dependencies, [keys[i], keys[i]]);
        return Some(SelfDependency);
      }
      if !(dependencies[keys[i]] <= dependencies.Keys) {
        return Some(UnknownDependencies);
      }
    }
    error := None;
  }

  method SearchAll(dependencies: Graph, keys: seq<string>) returns (acyclic: bool)
    requires Closed(dependencies) && Elements(keys) == dependencies.Keys
    ensures acyclic <==> Acyclic(dependencies)
  {
    assert forall i :: 0 <= i < |keys| ==> keys[i] in Elements(keys);
    var search := new Search(dependencies);
    for i := 0 to |keys|
      invariant search.graph == dependencies && search.Valid() && search.visiting == {}
      invariant forall j :: 0 <= j < i ==> keys[j] in search.visited
      invariant fresh(search)
    {
      ghost var before := search.order;
      label beforeVisit:
      assert Elements<string>([]) == {};
      assert [] + [keys[i]] == [keys[i]];
      var ok, cycle := search.Visit(keys[i], []);
      if !ok {
        return false;
      }
      assert before <= search.order;
      assert old@beforeVisit(search.visited) <= search.visited;
    }
    assert search.visited == dependencies.Keys;
    TopologicalOrderMeansAcyclic(dependencies, search.order);
    acyclic := true;
  }

  /** `len(items) != len(set(items))`. */
  method HasDuplicate<T(==)>(items: seq<T>) returns (found: bool)
    ensures found <==> !Distinct(items)
  {
    DistinctCount(items);
    found := |items| != |(set x | x in items)|;
  }

  lemma {:induction false} DistinctCount<T>(items: seq<T>)
    ensures |Elements(items)| <= |items|
    ensures Distinct(items) <==> |Elements(items)| == |items|
  {
    if items != [] {
      var n := |items| - 1;
      var front := items[..n];
      DistinctCount(front);
      assert items == front + [items[n]];
      assert Elements(items) == Elements(front) + {items[n]};
      if Distinct(items) {
        assert Distinct(front) && items[n] !in front;
      } else if Distinct(front) {
        assert items[n] in front by {
          var i, j :| 0 <= i < j < |items| && items[i] == items[j];
          assert j == n && front[i] == items[n];
        }
        assert Elements(items) == Elements(front);
      }
    }
  }
}
