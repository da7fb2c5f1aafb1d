/** The fleet's dependency graph and the repositories whose movement disturbs a pull request
    (src/depgraph.ts; `disturbedSince` in src/reconcile.ts). */
module DepGraph {
  import opened Wrappers

  type Repo = string

  /** `source` declares a dependency on `target`. */
  datatype DepEdge = DepEdge(source: Repo, target: Repo)

  datatype Graph = Graph(forward: map<Repo, set<Repo>>, reverse: map<Repo, set<Repo>>)

  /** Milliseconds; a timestamp that does not parse has none and compares with nothing. */
  type Time = Option<int>

  function Neighbours(table: map<Repo, set<Repo>>, n: Repo): set<Repo> {
    if n in table then table[n] else {}
  }

  function DependenciesOf(g: Graph, n: Repo): set<Repo> {
    Neighbours(g.forward, n)
  }

  function DependentsOf(g: Graph, n: Repo): set<Repo> {
    Neighbours(g.reverse, n)
  }

  /** An edge between two different repositories; a repository does not depend on itself. */
  predicate Depends(edges: seq<DepEdge>, a: Repo, b: Repo) {
    a != b && DepEdge(a, b) in edges
  }

  /** The tables list exactly the edges, in both directions. */
  ghost predicate Represents(g: Graph, edges: seq<DepEdge>) {
    (forall a, b :: b in DependenciesOf(g, a) <==> Depends(edges, a, b))
    && (forall a, b :: a in DependentsOf(g, b) <==> Depends(edges, a, b))
  }

  function Added(table: map<Repo, set<Repo>>, key: Repo, member: Repo): map<Repo, set<Repo>> {
    table[key := Neighbours(table, key) + {member}]
  }

  lemma DependsOnOneMore(edges: seq<DepEdge>, e: DepEdge, a: Repo, b: Repo)
    ensures Depends(edges + [e], a, b) <==> Depends(edges, a, b) || (a != b && e == DepEdge(a, b))
  {
  }

  lemma AddedEdge(g: Graph, edges: seq<DepEdge>, e: DepEdge)
    requires Represents(g, edges)
    ensures e.source == e.target ==> Represents(g, edges + [e])
    ensures e.source != e.target ==>
      Represents(Graph(Added(g.forward, e.source, e.target), Added(g.reverse, e.target, e.source)), edges + [e])
  {
    forall a, b
      ensures Depends(edges + [e], a, b) <==> Depends(edges, a, b) || (a != b && e == DepEdge(a, b))
    {
      DependsOnOneMore(edges, e, a, b);
    }
  }

  method BuildGraph(edges: seq<DepEdge>) returns (g: Graph)
    ensures Represents(g, edges)
  {
    var forward: map<Repo, set<Repo>>, reverse: map<Repo, set<Repo>> := map[], map[];
    for i := 0 to |edges|
      invariant Represents(Graph(forward, reverse), edges[..i])
    {
      var e := edges[i];
      assert edges[..i + 1] == edges[..i] + [e];
      AddedEdge(Graph(forward, reverse), edges[..i], e);
      if e.source == e.target {
        continue;
      }
      forward := Added(forward, e.source, e.target);
      reverse := Added(reverse, e.target, e.source);
    }
    assert edges[..|edges|] == edges;
    g := Graph(forward, reverse);
  }

  /** A direct dependency, a direct dependent, or a dependent of a dependent. */
  ghost predicate Disturbs(edges: seq<DepEdge>, x: Repo, n: Repo) {
    x != n && (Depends(edges, n, x) || Depends(edges, x, n)
               || exists m :: Depends(edges, m, n) && Depends(edges, x, m))
  }

  method DisturbanceSet(g: Graph, n: Repo, ghost edges: seq<DepEdge>) returns (out: set<Repo>)
    requires Represents(g, edges)
    ensures forall x :: x in out <==> Disturbs(edges, x, n)
  {
    out := DependenciesOf(g, n);
    var todo := DependentsOf(g, n);
    while todo != {}
      invariant todo <= DependentsOf(g, n)
      invariant forall x :: x in out <==>
        Depends(edges, n, x)
        || exists m :: m in DependentsOf(g, n) && m !in todo && (x == m || x in DependentsOf(g, m))
      decreases todo
    {
      var d :| d in todo;
      out := out + {d} + DependentsOf(g, d);
      todo := todo - {d};
    }
    out := out - {n};
  }

  /** `pushed !== undefined && pushed > since`, where a missing time on either side compares false. */
  predicate PushedAfter(pushedAt: map<Repo, Time>, x: Repo, since: Time) {
    x in pushedAt && pushedAt[x].Some? && since.Some? && pushedAt[x].value > since.value
  }

  /** The repositories that disturb `n` and were pushed after the pull request last moved. */
  ghost function Moved(edges: seq<DepEdge>, n: Repo, updatedAt: Time, pushedAt: map<Repo, Time>): set<Repo> {
    set x | x in pushedAt && PushedAfter(pushedAt, x, updatedAt) && Disturbs(edges, x, n)
  }

  method DisturbedSince(g: Graph, n: Repo, updatedAt: Time, pushedAt: map<Repo, Time>, ghost edges: seq<DepEdge>)
      returns (moved: set<Repo>)
    requires Represents(g, edges)
    ensures moved == Moved(edges, n, updatedAt, pushedAt)
  {
    var neighbours := DisturbanceSet(g, n, edges);
    moved := set x | x in neighbours && PushedAfter(pushedAt, x, updatedAt);
  }
}
