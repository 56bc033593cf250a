/** When the plan script's search ends in an exception: read off the graph and the order in
    which its packages are started, without the search. */
module PlanRaises {
  import opened Machine
  import opened PlanCheck

  // --- Packages that lead to a cycle ---------------------------------------

  /** A walk along dependency edges that comes back to a package it has passed. */
  predicate Lasso(g: Graph, w: seq<string>, i: nat) {
    |w| >= 2 && Chain(g, w) && i < |w| - 1 && w[i] == w[|w| - 1]
  }

  ghost predicate Doomed(g: Graph, n: string) {
    exists w: seq<string>, i: nat :: Lasso(g, w, i) && w[0] == n
  }

  lemma DoomedIsKnown(g: Graph, n: string)
    requires Doomed(g, n)
    ensures n in g
  {
    var w: seq<string>, i: nat :| Lasso(g, w, i) && w[0] == n;
    assert Edge(g, w[0], w[1]);
  }

  /** A doomed package depends on a doomed one. */
  lemma DoomedNext(g: Graph, n: string) returns (u: string)
    requires Doomed(g, n)
    ensures Edge(g, n, u) && Doomed(g, u)
  {
    var w: seq<string>, i: nat :| Lasso(g, w, i) && w[0] == n;
    u := w[1];
    assert Edge(g, w[0], w[1]);
    if i > 0 {
      TailChain(g, w);
      assert Lasso(g, w[1..], i - 1);
    } else {
      TailChain(g, w);
      var w' := w[1..] + [u];
      forall k | 0 <= k < |w'| - 1 ensures Edge(g, w'[k], w'[k + 1]) {
        assert k < |w| - 2 ==> Edge(g, w[k + 1], w[k + 2]);
      }
      assert Lasso(g, w', 0);
    }
  }

  lemma TailChain(g: Graph, w: seq<string>)
    requires Chain(g, w) && w != []
    ensures Chain(g, w[1..])
  {
    forall k | 0 <= k < |w[1..]| - 1 ensures Edge(g, w[1..][k], w[1..][k + 1]) {
      assert Edge(g, w[k + 1], w[k + 2]);
    }
  }

  lemma DoomedBefore(g: Graph, n: string, u: string)
    requires Edge(g, n, u) && Doomed(g, u)
    ensures Doomed(g, n)
  {
    var w: seq<string>, i: nat :| Lasso(g, w, i) && w[0] == u;
    var w' := [n] + w;
    forall k | 0 <= k < |w'| - 1 ensures Edge(g, w'[k], w'[k + 1]) {
      assert k > 0 ==> Edge(g, w[k - 1], w[k]);
    }
    assert Lasso(g, w', i + 1);
  }

  /** A package on the path whose last package depends on it is doomed, and so is the last. */
  lemma ClosingIsDoomed(g: Graph, path: seq<string>, u: string)
    requires path != [] && Chain(g, path) && u in path && Edge(g, path[|path| - 1], u)
    ensures Doomed(g, u) && Doomed(g, path[|path| - 1])
  {
    var i :| 0 <= i < |path| && path[i] == u;
    SliceCloses(g, path, i, u);
    var w := path[i..] + [u];
    assert Lasso(g, w, 0) && w[0] == u;
    DoomedBefore(g, path[|path| - 1], u);
  }

  lemma BlackIsNotDoomed(g: Graph, color: map<string, Color>, n: string)
    requires color.Keys == g.Keys && Settled(g, color) && n in g && color[n] == Black
    ensures !Doomed(g, n)
  {
    if Doomed(g, n) {
      var w: seq<string>, i: nat :| Lasso(g, w, i) && w[0] == n;
      BlackStaysBlack(g, color, w[..i + 1], 0);
      var c := w[i..];
      assert c[0] == w[..i + 1][|w[..i + 1]| - 1];
      forall k | 0 <= k < |c| - 1 ensures Edge(g, c[k], c[k + 1]) {
        assert Edge(g, w[i + k], w[i + k + 1]);
      }
      assert ClosedPath(g, c);
    }
  }

  // --- The trail: where the search records for the first time ---------------

  /** Position of the first doomed package of a dependency list. */
  ghost function FirstDoomed(g: Graph, succs: seq<string>): (r: Option<nat>)
    ensures r.Some? ==> r.value < |succs| && Doomed(g, succs[r.value])
    ensures r.Some? ==> forall i :: 0 <= i < r.value ==> !Doomed(g, succs[i])
    ensures r.None? ==> forall i :: 0 <= i < |succs| ==> !Doomed(g, succs[i])
  {
    if succs == [] then None
    else if Doomed(g, succs[0]) then Some(0)
    else match FirstDoomed(g, succs[1..])
         case None => None
         case Some(i) => Some(i + 1)
  }

  /** The dependencies listed after the first doomed one. */
  ghost function Rest(g: Graph, n: string): seq<string> {
    if n in g && FirstDoomed(g, g[n]).Some? then g[n][FirstDoomed(g, g[n]).value + 1..] else []
  }

  lemma {:induction false} DoomedHasFirst(g: Graph, n: string)
    requires Doomed(g, n)
    ensures n in g && FirstDoomed(g, g[n]).Some?
  {
    DoomedIsKnown(g, n);
    var u := DoomedNext(g, n);
    var i :| 0 <= i < |g[n]| && g[n][i] == u;
  }

  ghost function Follow(g: Graph, n: string): (u: string)
    requires Doomed(g, n)
    ensures Doomed(g, u) && u in g
  {
    DoomedHasFirst(g, n);
    DoomedIsKnown(g, g[n][FirstDoomed(g, g[n]).value]);
    g[n][FirstDoomed(g, g[n]).value]
  }

  /** The path extended by always taking the first doomed dependency, up to the one that is
      already on it. */
  ghost function Trail(g: Graph, path: seq<string>): (p: seq<string>)
    requires path != [] && Doomed(g, path[|path| - 1])
    ensures path <= p
    decreases g.Keys - (set n | n in path)
  {
    var u := Follow(g, path[|path| - 1]);
    if u in path then path
    else
      assert u in g.Keys - (set n | n in path) && u !in g.Keys - (set n | n in path + [u]);
      Trail(g, path + [u])
  }

  // --- Unwinding it ---------------------------------------------------------

  /** The first member of a set in a list. */
  function First(s: seq<string>, live: set<string>): (r: Option<string>)
    ensures r.Some? ==> r.value in s && r.value in live
    ensures r.Some? <==> exists n :: n in s && n in live
  {
    if s == [] then None
    else if s[0] in live then Some(s[0])
    else First(s[1..], live)
  }

  /** The packages of the trail still gray when the frames from `j` on have ended: those below,
      and of the others those whose frame returned early. */
  ghost function Live(g: Graph, p: seq<string>, j: nat): set<string>
    requires j <= |p|
    decreases |p| - j, 1
  {
    set i | 0 <= i < |p| && (i < j || Kept(g, p, i)) :: p[i]
  }

  /** The frame of `p[j]` returns early: it recorded, or a later dependency is still gray. */
  ghost predicate Kept(g: Graph, p: seq<string>, j: nat)
    requires j < |p|
    decreases |p| - j, 0
  {
    j == |p| - 1 || First(Rest(g, p[j]), Live(g, p, j + 1)).Some?
  }

  /** How many frames from `j` on run to their end and take one package off the path each. */
  ghost function Popped(g: Graph, p: seq<string>, j: nat): (n: nat)
    requires j <= |p|
    ensures n <= |p| - j && (j < |p| ==> n < |p| - j)
    decreases |p| - j
  {
    if j == |p| then 0 else Popped(g, p, j + 1) + if Kept(g, p, j) then 0 else 1
  }

  /** The first gray package the frame of `p[j]` meets while unwinding has been taken off. */
  ghost predicate StaleAt(g: Graph, p: seq<string>, j: nat) {
    && j + 1 < |p|
    && var u := First(Rest(g, p[j]), Live(g, p, j + 1));
       u.Some? && u.value !in p[..|p| - Popped(g, p, j + 1)]
  }

  predicate Distinct(p: seq<string>) {
    forall i, j :: 0 <= i < j < |p| ==> p[i] != p[j]
  }

  lemma {:induction false} TrailDistinct(g: Graph, path: seq<string>)
    requires path != [] && Doomed(g, path[|path| - 1]) && Distinct(path)
    ensures Distinct(Trail(g, path))
    decreases g.Keys - (set n | n in path)
  {
    var u := Follow(g, path[|path| - 1]);
    if u !in path {
      assert u in g.Keys - (set n | n in path) && u !in g.Keys - (set n | n in path + [u]);
      TrailDistinct(g, path + [u]);
    }
  }

  function Grays(color: map<string, Color>): set<string> {
    set n | n in color && color[n] == Gray
  }

  /** After a recording the loop over dependencies does nothing but look for a gray package: the
      first one is looked up on the path, and the search raises exactly when it is not there. */
  lemma {:induction false} RecordedLoop(g: Graph, succs: seq<string>, s: Search)
    requires s.color.Keys == g.Keys && s.cycle != [] && !s.raised
    ensures var (r, returned) := VisitAll(g, succs, s);
            match First(succs, Grays(s.color))
            case None => r == s && !returned
            case Some(u) => r == Recorded(s, u) && returned && (r.raised <==> u !in s.path)
    decreases |succs|
  {
    if succs != [] && succs[0] !in Grays(s.color) {
      if succs[0] in g && s.color[succs[0]] == White {
        VisitWhenRecorded(g, succs[0], s);
      }
      RecordedLoop(g, succs[1..], s);
    }
  }

  /** The frames of the trail from `j` on have ended in state `r`. */
  ghost predicate Unwound(g: Graph, p: seq<string>, j: nat, r: Search)
    requires j <= |p|
  {
    && r.color.Keys == g.Keys && r.cycle != []
    && (r.raised <==> StaleFrom(g, p, j))
    && (!r.raised ==> r.path == p[..|p| - Popped(g, p, j)] && Grays(r.color) == Live(g, p, j))
  }

  /** A package that leads to no cycle is visited without recording. */
  lemma {:induction false} HarmlessVisit(g: Graph, node: string, s: Search)
    requires Clean(g, s) && node in g && s.color[node] == White && !Doomed(g, node)
    requires s.path == [] || Edge(g, s.path[|s.path| - 1], node)
    ensures var r := Visit(g, node, s);
            r.cycle == [] && Clean(g, r) && Later(s, r) && r.color[node] == Black
    decreases Whites(s.color), 0
  {
    var entered := s.(color := s.color[node := Gray], path := s.path + [node]);
    assert node in Whites(s.color) && Whites(entered.color) == Whites(s.color) - {node};
    EnterClean(g, node, s);
    VisitClean(g, node, s);
    hide OnPath, Settled, Chain, Doomed, Clean;
    HarmlessLoop(g, node, g[node], entered);
  }

  lemma CleanKeys(g: Graph, s: Search)
    requires Clean(g, s)
    ensures s.color.Keys == g.Keys && !s.raised && s.cycle == []
  {
  }

  lemma HarmlessNext(g: Graph, node: string, next: string, s: Search)
    requires Clean(g, s) && s.path != [] && s.path[|s.path| - 1] == node && Edge(g, node, next) && !Doomed(g, node)
    ensures !Doomed(g, next) && s.color[next] != Gray
  {
    hide Settled;
    if Doomed(g, next) {
      DoomedBefore(g, node, next);
    }
    if s.color[next] == Gray {
      ClosingIsDoomed(g, s.path, next);
    }
  }

  lemma {:induction false} HarmlessLoop(g: Graph, node: string, succs: seq<string>, s: Search)
    requires Clean(g, s) && s.path != [] && s.path[|s.path| - 1] == node && Successors(g, node, succs)
    requires !Doomed(g, node)
    ensures VisitAll(g, succs, s).0.cycle == []
    decreases Whites(s.color), |succs| + 1
  {
    hide OnPath, Settled, Chain, Doomed, Clean;
    CleanKeys(g, s);
    if succs != [] {
      var next := succs[0];
      if next in g {
        HarmlessNext(g, node, next, s);
      }
      if next !in g || s.color[next] == Black {
        HarmlessLoop(g, node, succs[1..], s);
      } else if s.color[next] == White {
        HarmlessVisit(g, next, s);
        HarmlessLoop(g, node, succs[1..], Visit(g, next, s));
      }
    }
  }

  ghost predicate StaleFrom(g: Graph, p: seq<string>, j: nat) {
    exists i: nat :: j <= i && StaleAt(g, p, i)
  }

  /** The dependency loop of frame `j` has ended in state `r`. */
  ghost predicate LoopEnded(g: Graph, p: seq<string>, j: nat, r: Search, returned: bool)
    requires j < |p|
  {
    && r.color.Keys == g.Keys && r.cycle != []
    && (r.raised <==> StaleFrom(g, p, j))
    && (r.raised ==> returned)
    && (!r.raised ==> (returned <==> Kept(g, p, j)) && r.path == p[..|p| - Popped(g, p, j + 1)]
                      && Grays(r.color) == Live(g, p, j + 1))
  }

  lemma StaleFromStep(g: Graph, p: seq<string>, j: nat)
    ensures StaleFrom(g, p, j) <==> StaleAt(g, p, j) || StaleFrom(g, p, j + 1)
    ensures j + 1 >= |p| ==> !StaleFrom(g, p, j)
  {
    hide StaleAt;
    if StaleFrom(g, p, j) && !StaleAt(g, p, j) {
      var i: nat :| j <= i && StaleAt(g, p, i);
      assert j + 1 <= i;
    }
    NoneStale(g, p, j);
  }

  lemma NoneStale(g: Graph, p: seq<string>, j: nat)
    ensures j + 1 >= |p| ==> !StaleFrom(g, p, j)
  {
  }

  lemma LiveStep(g: Graph, p: seq<string>, j: nat)
    requires j < |p| && Distinct(p)
    ensures p[j] in Live(g, p, j + 1)
    ensures Live(g, p, j) == if Kept(g, p, j) then Live(g, p, j + 1) else Live(g, p, j + 1) - {p[j]}
  {
    hide Kept;
  }

  /** Leaving a frame: an early return changes nothing, the end pops and blackens. */
  lemma LeaveFrame(g: Graph, p: seq<string>, j: nat, done: Search, returned: bool)
    requires j < |p| && Distinct(p) && p[j] in g && LoopEnded(g, p, j, done, returned)
    ensures returned || done.path != []
    ensures Unwound(g, p, j, if returned then done
                             else done.(path := done.path[..|done.path| - 1], color := done.color[p[j] := Black]))
  {
    LiveStep(g, p, j);
    assert Popped(g, p, j) == Popped(g, p, j + 1) + if Kept(g, p, j) then 0 else 1;
    assert Popped(g, p, j + 1) < |p|;
    BlackenGrays(done.color, p[j]);
    hide Live, Kept, Popped, StaleFrom, Grays, Distinct;
    if !returned {
      var n := |p| - Popped(g, p, j + 1);
      assert p[..n][..n - 1] == p[..n - 1];
    }
  }

  lemma BlackenGrays(color: map<string, Color>, n: string)
    ensures Grays(color[n := Black]) == Grays(color) - {n}
  {
  }

  lemma {:induction false} AllLive(g: Graph, p: seq<string>)
    ensures Live(g, p, |p|) == (set n | n in p)
  {
    assert forall i :: 0 <= i < |p| ==> p[i] in Live(g, p, |p|);
  }

  /** The frame that records: the trail ends at it. */
  lemma RecordingFrame(g: Graph, s: Search, u: string)
    requires Clean(g, s) && s.path != [] && u in g && s.color[u] == Gray
    ensures LoopEnded(g, s.path, |s.path| - 1, Recorded(s, u), true)
  {
    var p, j := s.path, |s.path| - 1;
    NoneStale(g, p, j);
    AllLive(g, p);
    assert Popped(g, p, j + 1) == 0 && p[..|p|] == p;
    hide Settled, Chain, Live, Popped, StaleFrom;
    assert Grays(s.color) == (set n | n in p);
  }

  /** A frame further out, going on after the call that recorded came back. */
  lemma {:induction false} OuterFrame(g: Graph, p: seq<string>, j: nat, s: Search)
    requires j + 1 < |p| && Unwound(g, p, j + 1, s)
    ensures LoopEnded(g, p, j, VisitAll(g, Rest(g, p[j]), s).0, VisitAll(g, Rest(g, p[j]), s).1)
  {
    StaleFromStep(g, p, j);
    assert Kept(g, p, j) <==> First(Rest(g, p[j]), Live(g, p, j + 1)).Some?;
    if !s.raised {
      RecordedLoop(g, Rest(g, p[j]), s);
    }
    hide Live, Kept, Popped, Rest, First;
  }

  /** Where the first doomed dependency stands, the trail goes through it. */
  lemma {:induction false} TrailStep(g: Graph, path: seq<string>, k: nat)
    requires path != [] && Doomed(g, path[|path| - 1]) && path[|path| - 1] in g
    requires var succs := g[path[|path| - 1]];
             k < |succs| && Doomed(g, succs[k]) && forall i :: 0 <= i < k ==> !Doomed(g, succs[i])
    ensures var succs := g[path[|path| - 1]];
            && Rest(g, path[|path| - 1]) == succs[k + 1..]
            && (succs[k] in path ==> Trail(g, path) == path)
            && (succs[k] !in path ==> Trail(g, path) == Trail(g, path + [succs[k]]))
  {
    var node := path[|path| - 1];
    assert FirstDoomed(g, g[node]) == Some(k);
    assert Follow(g, node) == g[node][k];
    if g[node][k] !in path {
      assert (path + [g[node][k]])[|path|] == g[node][k];
    }
  }

  /** Visiting a doomed package unwinds the trail through it. */
  lemma {:induction false} DoomedVisit(g: Graph, node: string, s: Search)
    requires Clean(g, s) && node in g && s.color[node] == White && Doomed(g, node) && Distinct(s.path)
    requires s.path == [] || Edge(g, s.path[|s.path| - 1], node)
    ensures Unwound(g, Trail(g, s.path + [node]), |s.path|, Visit(g, node, s))
    decreases Whites(s.color), 0
  {
    var entered := s.(color := s.color[node := Gray], path := s.path + [node]);
    assert node in Whites(s.color) && Whites(entered.color) == Whites(s.color) - {node};
    StartsAtDoomed(g, node, s);
    CleanKeys(g, s);
    assert g[node][0..] == g[node];
    hide Clean, Trail, LoopEnded, Unwound, Doomed, VisitAll, AtDoomed, Distinct;
    DoomedLoop(g, node, 0, entered);
    var (done, returned) := VisitAll(g, g[node], entered);
    LeaveFrame(g, Trail(g, entered.path), |s.path|, done, returned);
  }

  /** The dependency loop at position `k`, before anything is recorded or raised. */
  lemma {:induction false} LoopStep(g: Graph, node: string, k: nat, s: Search)
    requires s.color.Keys == g.Keys && !s.raised && node in g && k < |g[node]|
    ensures var next := g[node][k];
            VisitAll(g, g[node][k..], s)
            == if next !in g || s.color[next] == Black then VisitAll(g, g[node][k + 1..], s)
               else if s.color[next] == Gray then (Recorded(s, next), true)
               else VisitAll(g, g[node][k + 1..], Visit(g, next, s))
  {
    var succs := g[node][k..];
    assert succs[0] == g[node][k] && succs[1..] == g[node][k + 1..];
    hide Visit;
  }

  /** The frame of a doomed package has a doomed dependency from position `k` on. */
  ghost predicate AtDoomed(g: Graph, node: string, k: nat, s: Search) {
    && Clean(g, s) && s.path != [] && s.path[|s.path| - 1] == node && Distinct(s.path)
    && node in g && Doomed(g, node) && k < |g[node]| && forall i :: 0 <= i < k ==> !Doomed(g, g[node][i])
  }

  lemma AtDoomedFacts(g: Graph, node: string, k: nat, s: Search)
    requires AtDoomed(g, node, k, s)
    ensures Clean(g, s) && s.color.Keys == g.Keys && !s.raised && s.path != [] && s.path[|s.path| - 1] == node
    ensures node in g && k < |g[node]| && (g[node][k] in g ==> Edge(g, node, g[node][k])) && Distinct(s.path)
    ensures Doomed(g, node) && (forall i :: 0 <= i < k ==> !Doomed(g, g[node][i]))
  {
  }

  lemma StillAhead(g: Graph, node: string, k: nat, s: Search, s': Search)
    requires AtDoomed(g, node, k, s) && !Doomed(g, g[node][k]) && Clean(g, s') && (s' == s || Later(s, s'))
    ensures AtDoomed(g, node, k + 1, s') && s'.path == s.path
  {
    DoomedHasFirst(g, node);
    hide Clean, Doomed;
  }

  lemma PassedIsHarmless(g: Graph, node: string, k: nat, s: Search)
    requires AtDoomed(g, node, k, s)
    requires g[node][k] !in g || (g[node][k] in s.color && s.color[g[node][k]] == Black)
    ensures !Doomed(g, g[node][k])
  {
    if g[node][k] in g {
      BlackIsNotDoomed(g, s.color, g[node][k]);
    } else if Doomed(g, g[node][k]) {
      DoomedIsKnown(g, g[node][k]);
    }
  }

  lemma {:induction false} DoomedRecords(g: Graph, node: string, k: nat, s: Search)
    requires AtDoomed(g, node, k, s) && g[node][k] in g && g[node][k] in s.color && s.color[g[node][k]] == Gray
    ensures LoopEnded(g, Trail(g, s.path), |s.path| - 1, Recorded(s, g[node][k]), true)
  {
    hide Settled, LoopEnded;
    ClosingIsDoomed(g, s.path, g[node][k]);
    TrailStep(g, s.path, k);
    RecordingFrame(g, s, g[node][k]);
  }

  lemma {:induction false} DoomedLoop(g: Graph, node: string, k: nat, s: Search)
    requires AtDoomed(g, node, k, s)
    ensures LoopEnded(g, Trail(g, s.path), |s.path| - 1, VisitAll(g, g[node][k..], s).0, VisitAll(g, g[node][k..], s).1)
    decreases Whites(s.color), |g[node]| - k + 1
  {
    hide *;
    AtDoomedFacts(g, node, k, s);
    LoopStep(g, node, k, s);
    var next := g[node][k];
    if next !in g || s.color[next] == Black {
      PassedIsHarmless(g, node, k, s);
      StillAhead(g, node, k, s, s);
      DoomedLoop(g, node, k + 1, s);
    } else if s.color[next] == Gray {
      DoomedRecords(g, node, k, s);
    } else if !Doomed(g, next) {
      HarmlessVisit(g, next, s);
      StillAhead(g, node, k, s, Visit(g, next, s));
      DoomedLoop(g, node, k + 1, Visit(g, next, s));
    } else {
      DoomedNextVisited(g, node, k, s);
    }
  }

  lemma WhiteIsOffPath(g: Graph, s: Search, n: string)
    requires Clean(g, s) && n in s.color && s.color[n] == White
    ensures n !in s.path
  {
  }

  lemma {:induction false} DoomedNextVisited(g: Graph, node: string, k: nat, s: Search)
    requires AtDoomed(g, node, k, s)
    requires Doomed(g, g[node][k]) && g[node][k] in g && g[node][k] in s.color && s.color[g[node][k]] == White
    ensures s.color.Keys == g.Keys
    ensures var (r, returned) := VisitAll(g, g[node][k + 1..], Visit(g, g[node][k], s));
            LoopEnded(g, Trail(g, s.path), |s.path| - 1, r, returned)
    decreases Whites(s.color), 1
  {
    hide *;
    AtDoomedFacts(g, node, k, s);
    var next := g[node][k];
    WhiteIsOffPath(g, s, next);
    TrailStep(g, s.path, k);
    var p := Trail(g, s.path + [next]);
    assert p[..|s.path| + 1] == s.path + [next];
    assert p[|s.path| - 1] == node && |p| > |s.path|;
    DoomedVisit(g, next, s);
    OuterFrame(g, p, |s.path| - 1, Visit(g, next, s));
  }

  lemma {:induction false} StartsAtDoomed(g: Graph, node: string, s: Search)
    requires Clean(g, s) && node in g && s.color[node] == White && Doomed(g, node) && Distinct(s.path)
    requires s.path == [] || Edge(g, s.path[|s.path| - 1], node)
    ensures var entered := s.(color := s.color[node := Gray], path := s.path + [node]);
            AtDoomed(g, node, 0, entered) && Distinct(Trail(g, entered.path))
                && Trail(g, entered.path)[|s.path|] == node
  {
    EnterClean(g, node, s);
    DoomedHasFirst(g, node);
    var entered := s.(color := s.color[node := Gray], path := s.path + [node]);
    hide Settled, Doomed;
    assert node !in s.path;
    TrailDistinct(g, entered.path);
  }

  lemma {:induction false} RootsAfterRecording(g: Graph, order: seq<string>, s: Search)
    requires s.color.Keys == g.Keys && s.cycle != [] && forall i :: 0 <= i < |order| ==> order[i] in g
    ensures VisitRoots(g, order, s).raised == s.raised
    decreases |order|
  {
    if order != [] && !s.raised {
      if s.color[order[0]] == White {
        VisitWhenRecorded(g, order[0], s.(path := []));
        RootsAfterRecording(g, order[1..], s.(path := []));
      } else {
        RootsAfterRecording(g, order[1..], s);
      }
    }
  }

  /** The first package of the order that leads to a cycle, and the trail from it. */
  ghost predicate RaisingOrder(g: Graph, order: seq<string>) {
    var root := FirstDoomed(g, order);
    root.Some? && exists j: nat :: StaleAt(g, Trail(g, [order[root.value]]), j)
  }

  lemma {:induction false} RootsRaise(g: Graph, order: seq<string>, s: Search)
    requires Clean(g, s) && s.path == [] && forall i :: 0 <= i < |order| ==> order[i] in g
    ensures VisitRoots(g, order, s).raised <==> RaisingOrder(g, order)
    decreases |order|
  {
    hide *;
    CleanKeys(g, s);
    if order == [] {
      NoRoots(g, s);
    } else {
      var n := order[0];
      RootStep(g, order, s);
      if s.color[n] != White {
        OnlyBlack(g, s, n);
        RaisingTail(g, order);
        RootsRaise(g, order[1..], s);
      } else if !Doomed(g, n) {
        HarmlessVisit(g, n, s);
        LaterPath(s, Visit(g, n, s));
        RaisingTail(g, order);
        RootsRaise(g, order[1..], Visit(g, n, s));
      } else {
        DoomedRoot(g, n, s);
        RaisingHead(g, order);
        RootsAfterRecording(g, order[1..], Visit(g, n, s));
      }
    }
  }

  lemma {:induction false} NoRoots(g: Graph, s: Search)
    requires s.color.Keys == g.Keys
    ensures VisitRoots(g, [], s) == s && !RaisingOrder(g, [])
  {
  }

  lemma {:induction false} RootStep(g: Graph, order: seq<string>, s: Search)
    requires s.color.Keys == g.Keys && order != [] && forall i :: 0 <= i < |order| ==> order[i] in g
    requires s.path == [] && !s.raised
    ensures VisitRoots(g, order, s)
            == VisitRoots(g, order[1..], if s.color[order[0]] == White then Visit(g, order[0], s) else s)
  {
    assert s.(path := []) == s;
  }

  lemma OnlyBlack(g: Graph, s: Search, n: string)
    requires Clean(g, s) && s.path == [] && n in g && s.color[n] != White
    ensures !Doomed(g, n)
  {
    assert s.color[n] == Black;
    BlackIsNotDoomed(g, s.color, n);
  }

  lemma LaterPath(before: Search, after: Search)
    requires Later(before, after)
    ensures after.path == before.path
  {
  }

  lemma {:induction false} DoomedRoot(g: Graph, n: string, s: Search)
    requires Clean(g, s) && s.path == [] && n in g && s.color[n] == White && Doomed(g, n)
    ensures var r := Visit(g, n, s);
            r.color.Keys == g.Keys && r.cycle != [] && (r.raised <==> StaleFrom(g, Trail(g, [n]), 0))
  {
    hide Clean, Doomed, Visit, StaleFrom, Trail;
    DoomedVisit(g, n, s);
    assert s.path + [n] == [n];
  }

  lemma {:induction false} RaisingHead(g: Graph, order: seq<string>)
    requires order != [] && Doomed(g, order[0])
    ensures RaisingOrder(g, order) <==> StaleFrom(g, Trail(g, [order[0]]), 0)
  {
    assert FirstDoomed(g, order) == Some(0);
    hide FirstDoomed, Trail, StaleAt, Doomed;
  }

  lemma RaisingTail(g: Graph, order: seq<string>)
    requires order != [] && !Doomed(g, order[0])
    ensures RaisingOrder(g, order) <==> RaisingOrder(g, order[1..])
  {
    var root, tail := FirstDoomed(g, order), FirstDoomed(g, order[1..]);
    assert root.Some? <==> tail.Some?;
    assert root.Some? ==> order[root.value] == order[1..][tail.value];
    hide Doomed, StaleAt, Trail, FirstDoomed;
  }

  /** The script's search raises exactly when, on the trail of first doomed dependencies from the
      first doomed package of the order, some frame meets as its first gray package one that the
      frames inside it have already taken off the path. */
  lemma {:induction false} RaisesIff(g: Graph, order: seq<string>)
    requires (set n | n in order) == g.Keys
    ensures VisitRoots(g, order, StartSearch(g)).raised <==> RaisingOrder(g, order)
  {
    var s := StartSearch(g);
    assert forall i :: 0 <= i < |order| ==> order[i] in (set n | n in order);
    assert Clean(g, s);
    hide Clean, RaisingOrder;
    RootsRaise(g, order, s);
  }
}
