/** The cycle check of the work-plan script: a coloured depth-first search over the work packages
    that have a block, recording the first cycle it meets. */
module PlanCheck {
  import opened Machine

  type Graph = map<string, seq<string>>

  datatype Color = White | Gray | Black

  /** The search's mutable state; `raised` says that `path.index` found nothing and the
      exception left the script. */
  datatype Search = Search(color: map<string, Color>, path: seq<string>, cycle: seq<string>, raised: bool)

  function Whites(color: map<string, Color>): set<string> {
    set n | n in color && color[n] == White
  }

  function IndexIn(path: seq<string>, node: string): (r: Option<nat>)
    ensures r.Some? <==> node in path
    ensures r.Some? ==> r.value < |path| && path[r.value] == node
  {
    if path == [] then None
    else if path[0] == node then Some(0)
    else match IndexIn(path[1..], node)
         case None => None
         case Some(i) => Some(i + 1)
  }

  /** `dfs(node, path)` on a node that is still white. */
  function Visit(g: Graph, node: string, s: Search): (r: Search)
    requires s.color.Keys == g.Keys && node in g && s.color[node] == White
    ensures r.color.Keys == g.Keys && Whites(r.color) <= Whites(s.color) && |r.path| >= |s.path|
    decreases Whites(s.color), 0
  {
    if s.cycle != [] then s
    else
      var entered := s.(color := s.color[node := Gray], path := s.path + [node]);
      assert node in Whites(s.color) && Whites(entered.color) == Whites(s.color) - {node};
      var (done, returned) := VisitAll(g, g[node], entered);
      if returned then done
      else done.(path := done.path[..|done.path| - 1], color := done.color[node := Black])
  }

  /** The loop over successors; the flag says that it ended in an early return or an exception. */
  function VisitAll(g: Graph, succs: seq<string>, s: Search): (r: (Search, bool))
    requires s.color.Keys == g.Keys
    ensures r.0.color.Keys == g.Keys && Whites(r.0.color) <= Whites(s.color) && |r.0.path| >= |s.path|
    decreases Whites(s.color), |succs| + 1
  {
    if s.raised then (s, true)
    else if succs == [] then (s, false)
    else
      var next := succs[0];
      if next !in s.color then VisitAll(g, succs[1..], s)
      else match s.color[next]
           case Gray => (Recorded(s, next), true)
           case White => VisitAll(g, succs[1..], Visit(g, next, s))
           case Black => VisitAll(g, succs[1..], s)
  }

  function Recorded(s: Search, next: string): Search {
    match IndexIn(s.path, next)
    case None => s.(raised := true)
    case Some(i) => s.(cycle := s.cycle + (s.path[i..] + [next]))
  }

  /** The outer loop: every package in `order`, each white one started on an empty path. */
  function VisitRoots(g: Graph, order: seq<string>, s: Search): (r: Search)
    requires s.color.Keys == g.Keys && forall i :: 0 <= i < |order| ==> order[i] in g
    ensures r.color.Keys == g.Keys
    decreases |order|
  {
    if order == [] || s.raised then s
    else if s.color[order[0]] == White
    then VisitRoots(g, order[1..], Visit(g, order[0], s.(path := [])))
    else VisitRoots(g, order[1..], s)
  }

  function StartSearch(g: Graph): Search {
    Search(map n | n in g :: White, [], [], false)
  }

  // --- Paths ---------------------------------------------------------------

  /** An edge between two known packages. */
  predicate Edge(g: Graph, a: string, b: string) {
    a in g && b in g && b in g[a]
  }

  predicate Chain(g: Graph, p: seq<string>) {
    forall i :: 0 <= i < |p| - 1 ==> Edge(g, p[i], p[i + 1])
  }

  predicate ClosedPath(g: Graph, p: seq<string>) {
    |p| >= 2 && p[0] == p[|p| - 1] && Chain(g, p)
  }

  ghost predicate Acyclic(g: Graph) {
    forall p :: !ClosedPath(g, p)
  }

  // --- Before anything is recorded -----------------------------------------

  predicate OnPath(s: Search) {
    && (forall n :: n in s.color ==> (s.color[n] == Gray <==> n in s.path))
    && (forall i :: 0 <= i < |s.path| ==> s.path[i] in s.color)
  }

  /** Black packages lead only to black packages, and no closed path starts at one. */
  ghost predicate Settled(g: Graph, color: map<string, Color>) {
    && (forall a, b :: Edge(g, a, b) && a in color && b in color && color[a] == Black ==> color[b] == Black)
    && (forall p :: ClosedPath(g, p) && p[0] in color ==> color[p[0]] != Black)
  }

  ghost predicate Clean(g: Graph, s: Search) {
    && s.color.Keys == g.Keys
    && s.cycle == [] && !s.raised
    && OnPath(s) && Chain(g, s.path)
    && Settled(g, s.color)
  }

  /** The first list recorded is a genuine closed path; later ones only follow it. */
  ghost predicate Genuine(g: Graph, cycle: seq<string>) {
    exists k :: 0 <= k <= |cycle| && ClosedPath(g, cycle[..k])
  }

  /** Colours only move forward, white to gray to black, and gray only on the path. */
  predicate Later(before: Search, after: Search) {
    && before.color.Keys == after.color.Keys
    && after.path == before.path
    && forall n :: n in before.color && before.color[n] != White ==> after.color[n] == before.color[n]
  }

  lemma GenuineExtends(g: Graph, cycle: seq<string>, more: seq<string>)
    requires Genuine(g, cycle)
    ensures Genuine(g, cycle + more)
  {
    var k :| 0 <= k <= |cycle| && ClosedPath(g, cycle[..k]);
    assert (cycle + more)[..k] == cycle[..k];
  }

  /** After the first recording every list keeps what was recorded as a prefix. */
  lemma {:induction false} VisitAllKeepsGenuine(g: Graph, succs: seq<string>, s: Search)
    requires s.color.Keys == g.Keys && s.cycle != [] && Genuine(g, s.cycle)
    ensures VisitAll(g, succs, s).0.cycle != [] && Genuine(g, VisitAll(g, succs, s).0.cycle)
    decreases |succs|
  {
    if !s.raised && succs != [] {
      var next := succs[0];
      if next in s.color && s.color[next] == Gray {
        if IndexIn(s.path, next).Some? {
          GenuineExtends(g, s.cycle, s.path[IndexIn(s.path, next).value..] + [next]);
        }
      } else {
        VisitAllKeepsGenuine(g, succs[1..], s);
      }
    }
  }

  lemma {:induction false} BlackStaysBlack(g: Graph, color: map<string, Color>, p: seq<string>, i: nat)
    requires color.Keys == g.Keys && Chain(g, p) && i < |p| && p[i] in g && color[p[i]] == Black
    requires forall a, b :: Edge(g, a, b) && color[a] == Black ==> color[b] == Black
    ensures p[|p| - 1] in g && color[p[|p| - 1]] == Black
    decreases |p| - i
  {
    if i < |p| - 1 {
      assert Edge(g, p[i], p[i + 1]);
      BlackStaysBlack(g, color, p, i + 1);
    }
  }

  /** Blackening a package all of whose successors are black closes no cycle. */
  lemma Blacken(g: Graph, color: map<string, Color>, node: string)
    requires color.Keys == g.Keys && Settled(g, color) && node in g && color[node] == Gray
    requires forall n :: n in g[node] && n in g ==> color[n] == Black
    ensures Settled(g, color[node := Black])
  {
    forall p | ClosedPath(g, p) && p[0] in color ensures color[node := Black][p[0]] != Black
    {
      if p[0] == node {
        assert Edge(g, p[0], p[1]);
        BlackStaysBlack(g, color, p, 1);
      }
    }
  }

  lemma RecordIsGenuine(g: Graph, s: Search, next: string)
    requires Clean(g, s) && s.path != [] && Edge(g, s.path[|s.path| - 1], next) && s.color[next] == Gray
    ensures Recorded(s, next).cycle != [] && Genuine(g, Recorded(s, next).cycle)
  {
    assert next in s.path && Chain(g, s.path) && s.cycle == [];
    hide Clean, Chain, ClosedPath, Edge, IndexIn, Genuine;
    var i := IndexIn(s.path, next).value;
    var p := s.path[i..] + [next];
    assert Recorded(s, next).cycle == p;
    SliceCloses(g, s.path, i, next);
    ClosedIsGenuine(g, p);
  }

  lemma ClosedIsGenuine(g: Graph, p: seq<string>)
    requires ClosedPath(g, p)
    ensures p != [] && Genuine(g, p)
  {
    assert p[..|p|] == p;
  }

  lemma SliceCloses(g: Graph, path: seq<string>, i: nat, next: string)
    requires Chain(g, path) && i < |path| && path[i] == next && Edge(g, path[|path| - 1], next)
    ensures ClosedPath(g, path[i..] + [next])
  {
    var p := path[i..] + [next];
    forall k | 0 <= k < |p| - 1 ensures Edge(g, p[k], p[k + 1]) {
      assert k < |p| - 2 ==> Edge(g, path[i + k], path[i + k + 1]);
    }
  }

  lemma EnterClean(g: Graph, node: string, s: Search)
    requires Clean(g, s) && node in g && s.color[node] == White
    requires s.path == [] || Edge(g, s.path[|s.path| - 1], node)
    ensures Clean(g, s.(color := s.color[node := Gray], path := s.path + [node]))
  {
    var entered := s.(color := s.color[node := Gray], path := s.path + [node]);
    assert Settled(g, entered.color) by { hide OnPath, Chain; }
    assert OnPath(entered) by { hide Settled, Chain; }
  }

  lemma LeaveClean(g: Graph, node: string, s: Search, done: Search)
    requires Clean(g, s) && node in g && s.color[node] == White
    requires Clean(g, done) && Later(s.(color := s.color[node := Gray], path := s.path + [node]), done)
    requires forall n :: n in g[node] && n in g ==> done.color[n] == Black
    ensures var r := done.(path := done.path[..|done.path| - 1], color := done.color[node := Black]);
            Clean(g, r) && Later(s, r) && r.color[node] == Black
  {
    Blacken(g, done.color, node);
    hide Settled;
    assert done.path[..|done.path| - 1] == s.path;
    assert node !in s.path;
  }

  predicate Successors(g: Graph, node: string, succs: seq<string>) {
    node in g && forall i :: 0 <= i < |succs| ==> succs[i] in g[node]
  }

  /** From a clean state, a visit either ends clean with the node black, or has recorded a
      genuine cycle; it never raises before recording. */
  lemma {:induction false} VisitClean(g: Graph, node: string, s: Search)
    requires Clean(g, s) && node in g && s.color[node] == White
    requires s.path == [] || Edge(g, s.path[|s.path| - 1], node)
    ensures var r := Visit(g, node, s);
            && (r.cycle == [] ==> Clean(g, r) && Later(s, r) && r.color[node] == Black)
            && (r.cycle != [] ==> Genuine(g, r.cycle))
    decreases Whites(s.color), 0
  {
    var entered := s.(color := s.color[node := Gray], path := s.path + [node]);
    assert node in Whites(s.color) && Whites(entered.color) == Whites(s.color) - {node};
    EnterClean(g, node, s);
    hide OnPath, Settled, Chain, Genuine;
    VisitAllClean(g, node, g[node], entered);
    var (done, returned) := VisitAll(g, g[node], entered);
    if done.cycle == [] {
      LeaveClean(g, node, s, done);
    }
  }

  lemma {:induction false} VisitAllClean(g: Graph, node: string, succs: seq<string>, s: Search)
    requires Clean(g, s) && s.path != [] && s.path[|s.path| - 1] == node && Successors(g, node, succs)
    ensures var (r, returned) := VisitAll(g, succs, s);
            && (r.cycle == [] ==> !returned && Clean(g, r) && Later(s, r)
                                  && forall n :: n in succs && n in g ==> r.color[n] == Black)
            && (r.cycle != [] ==> Genuine(g, r.cycle))
    decreases Whites(s.color), |succs| + 1
  {
    hide OnPath, Settled, Chain, Genuine;
    if succs != [] {
      var next := succs[0];
      assert succs == [next] + succs[1..];
      if next !in s.color || s.color[next] == Black {
        VisitAllClean(g, node, succs[1..], s);
      } else if s.color[next] == Gray {
        RecordIsGenuine(g, s, next);
      } else {
        VisitClean(g, next, s);
        var s' := Visit(g, next, s);
        if s'.cycle == [] {
          VisitAllClean(g, node, succs[1..], s');
        } else {
          VisitAllKeepsGenuine(g, succs[1..], s');
        }
      }
    }
  }

  lemma {:induction false} VisitWhenRecorded(g: Graph, node: string, s: Search)
    requires s.color.Keys == g.Keys && node in g && s.color[node] == White && s.cycle != []
    ensures Visit(g, node, s) == s
  {
  }

  lemma {:induction false} RootsKeepRecorded(g: Graph, order: seq<string>, s: Search)
    requires s.color.Keys == g.Keys && forall i :: 0 <= i < |order| ==> order[i] in g
    requires s.cycle != []
    ensures VisitRoots(g, order, s).cycle == s.cycle
    decreases |order|
  {
    if order != [] && !s.raised {
      if s.color[order[0]] == White {
        VisitWhenRecorded(g, order[0], s.(path := []));
        RootsKeepRecorded(g, order[1..], s.(path := []));
      } else {
        RootsKeepRecorded(g, order[1..], s);
      }
    }
  }

  lemma {:induction false} RootsClean(g: Graph, order: seq<string>, s: Search)
    requires Clean(g, s) && s.path == [] && forall i :: 0 <= i < |order| ==> order[i] in g
    ensures var r := VisitRoots(g, order, s);
            && (r.cycle == [] ==> Clean(g, r) && Later(s, r) && forall n :: n in order ==> r.color[n] == Black)
            && (r.cycle != [] ==> Genuine(g, r.cycle))
    decreases |order|
  {
    if order != [] {
      var n := order[0];
      if s.color[n] == White {
        assert s.(path := []) == s;
        VisitClean(g, n, s);
        var s' := Visit(g, n, s);
        if s'.cycle == [] {
          RootsClean(g, order[1..], s');
        } else {
          RootsKeepRecorded(g, order[1..], s');
        }
      } else {
        assert s.color[n] == Black;
        RootsClean(g, order[1..], s);
      }
    }
  }

  /** In any order of the work packages: the check ends normally with an empty list if and only if
      the graph of known packages is acyclic; otherwise its list starts with a closed path of
      dependency edges. */
  lemma {:induction false} CycleListEmptyIffAcyclic(g: Graph, order: seq<string>)
    requires (set n | n in order) == g.Keys
    ensures var r := VisitRoots(g, order, StartSearch(g));
            && (r.cycle == [] <==> Acyclic(g))
            && (r.cycle == [] ==> !r.raised)
            && (r.cycle != [] ==> Genuine(g, r.cycle))
  {
    var s := StartSearch(g);
    assert forall i :: 0 <= i < |order| ==> order[i] in (set n | n in order);
    assert Clean(g, s);
    RootsClean(g, order, s);
    var r := VisitRoots(g, order, s);
    if r.cycle == [] {
      ClosedPathsKnown(g);
      assert forall n :: n in g ==> n in (set n | n in order);
    }
  }

  lemma ClosedPathsKnown(g: Graph)
    ensures forall p :: ClosedPath(g, p) ==> p[0] in g
  {
    forall p | ClosedPath(g, p) ensures p[0] in g {
      assert Edge(g, p[0], p[1]);
    }
  }

  // --- The script's own search ---------------------------------------------

  /** The dictionary, the stack and the list the nested functions share. */
  class CycleFinder {
    const graph: Graph
    var color: map<string, Color>
    var path: seq<string>
    var cycleFound: seq<string>
    var raised: bool

    constructor (g: Graph)
      ensures graph == g && State() == StartSearch(g)
    {
      graph := g;
      color := map n | n in g :: White;
      path := [];
      cycleFound := [];
      raised := false;
    }

    function State(): Search
      reads this
    {
      Search(color, path, cycleFound, raised)
    }

    /** `dfs`. */
    method Dfs(node: string)
      requires color.Keys == graph.Keys && node in graph && color[node] == White && !raised
      modifies this
      ensures State() == Visit(graph, node, old(State()))
      decreases Whites(color), 0
    {
      if cycleFound != [] {
        return;
      }
      color := color[node := Gray];
      path := path + [node];
      ghost var entered := State();
      assert node in old(Whites(color)) && Whites(color) == old(Whites(color)) - {node};
      var succs := graph[node];
      assert succs[0..] == succs;
      for i := 0 to |succs|
        invariant color.Keys == graph.Keys && Whites(color) <= Whites(entered.color)
        invariant |path| >= |entered.path| && !raised
        invariant VisitAll(graph, succs, entered) == VisitAll(graph, succs[i..], State())
      {
        var next := succs[i];
        assert succs[i..][1..] == succs[i + 1..];
        if next !in color {
          continue;
        }
        if color[next] == Gray {
          var at := IndexIn(path, next);
          if at.None? {
            raised := true;
          } else {
            cycleFound := cycleFound + (path[at.value..] + [next]);
          }
          return;
        }
        if color[next] == White {
          ghost var before := State();
          Dfs(next);
          assert State() == Visit(graph, next, before);
          if raised {
            return;
          }
        }
      }
      path := path[..|path| - 1];
      color := color[node := Black];
    }

    /** The outer loop of the check, over the work packages in sorted order. */
    method Check(order: seq<string>)
      requires State() == StartSearch(graph) && (set n | n in order) == graph.Keys
      modifies this
      ensures State() == VisitRoots(graph, order, StartSearch(graph))
      ensures cycleFound == [] <==> Acyclic(graph)
      ensures cycleFound == [] ==> !raised
      ensures cycleFound != [] ==> Genuine(graph, cycleFound)
    {
      hide Visit, Acyclic, Genuine;
      assert forall i :: 0 <= i < |order| ==> order[i] in (set n | n in order);
      assert order[0..] == order;
      CycleListEmptyIffAcyclic(graph, order);
      for i := 0 to |order|
        invariant color.Keys == graph.Keys
        invariant VisitRoots(graph, order, StartSearch(graph)) == VisitRoots(graph, order[i..], State())
      {
        assert order[i..][1..] == order[i + 1..];
        if raised {
          return;
        }
        if color[order[i]] == White {
          path := [];
          Dfs(order[i]);
        }
      }
    }
  }

  const StalePath: Graph := map["A" := ["B", "C"], "B" := ["C"], "C" := ["C"]]

  lemma {:induction false} AtWhite(g: Graph, next: string, rest: seq<string>, s: Search)
    requires s.color.Keys == g.Keys && next in g && s.color[next] == White && !s.raised
    ensures VisitAll(g, [next] + rest, s) == VisitAll(g, rest, Visit(g, next, s))
  {
    assert ([next] + rest)[1..] == rest;
  }

  lemma {:induction false} AtGray(g: Graph, next: string, rest: seq<string>, s: Search)
    requires s.color.Keys == g.Keys && next in g && s.color[next] == Gray && !s.raised
    ensures VisitAll(g, [next] + rest, s) == (Recorded(s, next), true)
  {
  }

  /** The search state when the innermost frame, at "C", looks at its only successor. */
  const AtC: Search := Search(map["A" := Gray, "B" := Gray, "C" := Gray], ["A", "B", "C"], [], false)

  /** The same after "C" recorded its cycle and "B", iterating on, popped "C" and turned black. */
  const BackInA: Search := Search(map["A" := Gray, "B" := Black, "C" := Gray], ["A", "B"], ["C", "C"], false)

  lemma {:induction false} InnerRecords(b: Search)
    requires b == Search(map["A" := Gray, "B" := Gray, "C" := White], ["A", "B"], [], false)
    ensures Visit(StalePath, "C", b) == AtC.(cycle := ["C", "C"])
  {
    hide VisitAll;
    assert "A" != "B" && "B" != "C" && "A" != "C";
    assert b.color["C" := Gray] == AtC.color && b.path + ["C"] == AtC.path;
    assert AtC.path[2..] == ["C"] && forall i :: 0 <= i < 3 && AtC.path[i] == "C" ==> i == 2;
    AtGray(StalePath, "C", [], AtC);
    assert StalePath["C"] == ["C"] + [];
    assert Recorded(AtC, "C").cycle == ["C", "C"];
  }

  lemma {:induction false} MiddleReturns(a: Search)
    requires a == Search(map["A" := Gray, "B" := White, "C" := White], ["A"], [], false)
    ensures Visit(StalePath, "B", a) == BackInA
  {
    assert "A" != "B" && "B" != "C" && "A" != "C";
    var b := Search(map["A" := Gray, "B" := Gray, "C" := White], ["A", "B"], [], false);
    var c := AtC.(cycle := ["C", "C"]);
    InnerRecords(b);
    AtWhite(StalePath, "C", [], b);
    assert VisitAll(StalePath, [], c) == (c, false);
    hide VisitAll;
    assert a.color["B" := Gray] == b.color && a.path + ["B"] == b.path && StalePath["B"] == ["C"] + [];
    assert c.path[..2] == BackInA.path && c.color["B" := Black] == BackInA.color;
  }

  lemma {:induction false} OuterRaises(s: Search)
    requires s == Search(map["A" := White, "B" := White, "C" := White], [], [], false)
    ensures Visit(StalePath, "A", s) == BackInA.(raised := true)
  {
    hide VisitAll;
    assert "A" != "B" && "B" != "C" && "A" != "C";
    var a := Search(map["A" := Gray, "B" := White, "C" := White], ["A"], [], false);
    MiddleReturns(a);
    AtWhite(StalePath, "B", ["C"], a);
    AtGray(StalePath, "C", [], BackInA);
    assert ["C"] + [] == ["C"] && StalePath["A"] == ["B"] + ["C"];
    assert "C" !in BackInA.path;
    assert s.color["A" := Gray] == a.color && s.path + ["A"] == a.path;
  }

  /** Once a cycle is recorded the outer frames keep iterating and pop the wrong entries, so a
      package that is still gray may be gone from the stack: here the script raises instead of
      reporting the cycle it has already found. */
  lemma RaisesAfterRecording()
    ensures var r := VisitRoots(StalePath, ["A", "B", "C"], StartSearch(StalePath));
            r.cycle == ["C", "C"] && r.raised
  {
    hide Visit;
    var s := StartSearch(StalePath);
    assert s.color == map["A" := White, "B" := White, "C" := White];
    assert s.(path := []) == s;
    OuterRaises(s);
    var order := ["A", "B", "C"];
    assert VisitRoots(StalePath, order, s) == VisitRoots(StalePath, order[1..], Visit(StalePath, "A", s));
  }
}
