/** How deep the recursion of modprobed.c goes, and whether it ends. */
module LoaderDepth {
  import opened DependencyGraph
  import opened Wrappers

  // ---------------------------------------------------------------- the recursion, cut at a depth

  datatype Ending = Success | Failure | TooDeep

  /** _load_by_path() when the system refuses nothing; TooDeep if more than depth modules are open at once. */
  ghost function RunPath(w: World, p: string, depth: nat): Ending
    decreases depth, 0
  {
    if !w.openable(p) then Success
    else if depth == 0 then TooDeep
    else if w.depends(p) == None then Failure
    else RunNames(w, w.depends(p).value, depth - 1)
  }

  /** _load_by_name_or_alias() for each name, until one fails. */
  ghost function RunNames(w: World, names: seq<string>, depth: nat): Ending
    decreases depth, 1 + |names|
  {
    if names == [] then Success
    else
      var first := RunName(w, names[0], depth);
      if first == Success then RunNames(w, names[1..], depth) else first
  }

  ghost function RunName(w: World, name: string, depth: nat): Ending
    decreases depth, 1
  {
    if w.resolve(name).Some? then RunPath(w, w.resolve(name).value, depth) else Success
  }

  ghost predicate Finishes(w: World, p: string) {
    exists depth: nat :: RunPath(w, p, depth) != TooDeep
  }

  /** Every openable module that p leads to lists its dependencies. */
  ghost predicate Healthy(w: World, p: string) {
    forall q | Reaches(w, p, q) && w.openable(q) :: w.depends(q).Some?
  }

  // ---------------------------------------------------------------- without cycles it ends

  lemma {:induction false} DepthSuffices(w: World, p: string, ancestors: set<string>, depth: nat)
    requires IsWorld(w) && Safe(w, ancestors, p) && depth >= |w.modules - ancestors|
    ensures RunPath(w, p, depth) != TooDeep
    decreases depth, 0
  {
    if w.openable(p) {
      FewerLeft(w, ancestors, p);
      if w.depends(p).Some? {
        DepthSufficesForNames(w, p, w.depends(p).value, ancestors, depth - 1);
      }
    }
  }

  lemma {:induction false} DepthSufficesForNames(w: World, p: string, names: seq<string>, ancestors: set<string>,
                                                 depth: nat)
    requires IsWorld(w) && Safe(w, ancestors, p) && w.openable(p)
             && (forall name | name in names :: name in DependsOn(w, p))
    requires depth >= |w.modules - (ancestors + {p})|
    ensures RunNames(w, names, depth) != TooDeep
    decreases depth, 1 + |names|
  {
    if names != [] {
      if Target(w, names[0]).Some? {
        SafeBelow(w, ancestors, p, names[0]);
        DepthSuffices(w, Target(w, names[0]).value, ancestors + {p}, depth);
      }
      assert RunName(w, names[0], depth) != TooDeep;
      DepthSufficesForNames(w, p, names[1..], ancestors, depth);
    }
  }

  // ---------------------------------------------------------------- with cycles it does not

  lemma CycleAhead(w: World, p: string) returns (q: string)
    requires !Acyclic(w, p)
    ensures Edge(w, p, q) && !Acyclic(w, q)
  {
    var c :| Reaches(w, p, c) && Cyclic(w, c);
    if p == c {
      var r :| Reaches(w, c, r) && Edge(w, r, c);
      if c == r {
        q := c;
      } else {
        ReachesFirst(w, c, r);
        q :| Edge(w, c, q) && Reaches(w, q, r);
        ReachesThenEdge(w, q, r, c);
      }
    } else {
      ReachesFirst(w, p, c);
      q :| Edge(w, p, q) && Reaches(w, q, c);
    }
  }

  lemma HealthyBelow(w: World, p: string, q: string)
    requires Healthy(w, p) && Edge(w, p, q)
    ensures Healthy(w, q)
  {
    forall r | Reaches(w, q, r) && w.openable(r) ensures w.depends(r).Some? {
      EdgeThenReaches(w, p, q, r);
    }
  }

  ghost predicate IsHealthyName(w: World, name: string) {
    Target(w, name).Some? ==> Healthy(w, Target(w, name).value)
  }

  lemma {:induction false} HealthyNeverFails(w: World, p: string, depth: nat)
    requires Healthy(w, p)
    ensures RunPath(w, p, depth) != Failure
    decreases depth, 0
  {
    ReachesItself(w, p);
    if w.openable(p) && depth > 0 {
      forall name | name in DependsOn(w, p) ensures IsHealthyName(w, name) {
        if Target(w, name).Some? {
          HealthyBelow(w, p, Target(w, name).value);
        }
      }
      HealthyNamesNeverFail(w, w.depends(p).value, depth - 1);
    }
  }

  lemma {:induction false} HealthyNamesNeverFail(w: World, names: seq<string>, depth: nat)
    requires forall name | name in names :: IsHealthyName(w, name)
    ensures RunNames(w, names, depth) != Failure
    decreases depth, 1 + |names|
  {
    if names != [] {
      HealthyNameNeverFails(w, names[0], depth);
      HealthyNamesNeverFail(w, names[1..], depth);
    }
  }

  lemma {:induction false} HealthyNameNeverFails(w: World, name: string, depth: nat)
    requires IsHealthyName(w, name)
    ensures RunName(w, name, depth) != Failure
    decreases depth, 1
  {
    if Target(w, name).Some? {
      HealthyNeverFails(w, Target(w, name).value, depth);
    }
  }

  // ---------------------------------------------------------------- lists as far as they are walked

  /** The names of a list up to and including the first one that cannot be loaded: no later name is
      reached. */
  ghost function Trim(w: World, names: seq<string>): seq<string> {
    if names == [] then []
    else if !IsHealthyName(w, names[0]) then [names[0]]
    else [names[0]] + Trim(w, names[1..])
  }

  /** The same modules, with the lists cut where walking them ends for lack of a list. */
  ghost function Trimmed(w: World): World {
    w.(depends := (p: string) => if w.depends(p).Some? then Some(Trim(w, w.depends(p).value)) else None)
  }

  lemma {:induction false} TrimKeeps(w: World, names: seq<string>)
    ensures |Trim(w, names)| <= |names| && Trim(w, names) == names[..|Trim(w, names)|]
    ensures forall k | 0 <= k < |Trim(w, names)| - 1 :: IsHealthyName(w, names[k])
    ensures |Trim(w, names)| < |names| ==> Trim(w, names) != [] && !IsHealthyName(w, names[|Trim(w, names)| - 1])
  {
    if names != [] && IsHealthyName(w, names[0]) {
      var rest := Trim(w, names[1..]);
      TrimKeeps(w, names[1..]);
      assert Trim(w, names) == [names[0]] + rest;
      forall k | 0 <= k < |rest| ensures IsHealthyName(w, names[k]) || k == |rest| {
        if k > 0 {
          assert names[1..][k - 1] == names[k];
        }
      }
    }
  }

  lemma TrimmedIsWorld(w: World)
    requires IsWorld(w)
    ensures IsWorld(Trimmed(w)) && Trimmed(w).modules == w.modules
  {
    assert forall name :: Trimmed(w).resolve(name) == w.resolve(name);
  }

  // ---------------------------------------------------------------- success means health

  lemma HealthyAbove(w: World, p: string)
    requires w.openable(p) ==> w.depends(p).Some?
    requires forall name | name in DependsOn(w, p) :: IsHealthyName(w, name)
    ensures Healthy(w, p)
  {
    forall r | Reaches(w, p, r) && w.openable(r) ensures w.depends(r).Some? {
      ReachesFirst(w, p, r);
    }
  }

  lemma {:induction false} SuccessIsHealthy(w: World, p: string, depth: nat)
    requires RunPath(w, p, depth) == Success
    ensures Healthy(w, p)
    decreases depth, 0
  {
    if w.openable(p) {
      NamesSuccessIsHealthy(w, w.depends(p).value, depth - 1);
    }
    HealthyAbove(w, p);
  }

  lemma {:induction false} NamesSuccessIsHealthy(w: World, names: seq<string>, depth: nat)
    requires RunNames(w, names, depth) == Success
    ensures forall name | name in names :: IsHealthyName(w, name)
    decreases depth, 1 + |names|
  {
    if names != [] {
      NameSuccessIsHealthy(w, names[0], depth);
      NamesSuccessIsHealthy(w, names[1..], depth);
    }
  }

  lemma {:induction false} NameSuccessIsHealthy(w: World, name: string, depth: nat)
    requires RunName(w, name, depth) == Success
    ensures IsHealthyName(w, name)
    decreases depth, 1
  {
    if Target(w, name).Some? {
      SuccessIsHealthy(w, Target(w, name).value, depth);
    }
  }

  // ---------------------------------------------------------------- the cut changes nothing

  lemma {:induction false} SameRun(w: World, p: string, depth: nat)
    ensures RunPath(Trimmed(w), p, depth) == RunPath(w, p, depth)
    decreases depth, 0
  {
    if w.openable(p) && depth > 0 && w.depends(p).Some? {
      SameRunNames(w, w.depends(p).value, depth - 1);
    }
  }

  lemma {:induction false} SameRunNames(w: World, names: seq<string>, depth: nat)
    ensures RunNames(Trimmed(w), Trim(w, names), depth) == RunNames(w, names, depth)
    decreases depth, 1 + |names|
  {
    if names != [] {
      SameRunName(w, names[0], depth);
      if IsHealthyName(w, names[0]) {
        SameRunNames(w, names[1..], depth);
        assert Trim(w, names)[1..] == Trim(w, names[1..]);
      } else if RunName(w, names[0], depth) == Success {
        NameSuccessIsHealthy(w, names[0], depth);
      }
    }
  }

  lemma {:induction false} SameRunName(w: World, name: string, depth: nat)
    ensures RunName(Trimmed(w), name, depth) == RunName(w, name, depth)
    decreases depth, 1
  {
    if w.resolve(name).Some? {
      SameRun(w, w.resolve(name).value, depth);
    }
  }

  // ---------------------------------------------------------------- with a cycle ahead it does not end

  /** With a cycle ahead of p, as far as its list is walked, some name leads on to a cycle and all
      names before that one can be loaded. */
  lemma StuckName(w: World, p: string) returns (k: nat, q: string)
    requires !Acyclic(Trimmed(w), p)
    ensures w.openable(p) && w.depends(p).Some? && k < |Trim(w, w.depends(p).value)| <= |w.depends(p).value|
    ensures Target(w, w.depends(p).value[k]) == Some(q) && !Acyclic(Trimmed(w), q)
    ensures forall j | 0 <= j < k :: IsHealthyName(w, w.depends(p).value[j])
  {
    var t := Trimmed(w);
    q := CycleAhead(t, p);
    var name :| name in DependsOn(t, p) && Target(t, name) == Some(q);
    TrimKeeps(w, w.depends(p).value);
    k :| 0 <= k < |DependsOn(t, p)| && DependsOn(t, p)[k] == name;
  }

  lemma {:induction false} NeverFinishes(w: World, p: string, depth: nat)
    requires !Acyclic(Trimmed(w), p)
    ensures RunPath(w, p, depth) == TooDeep
    decreases depth
  {
    hide Acyclic, Trimmed, Trim, IsHealthyName;
    if depth > 0 {
      var k, q := StuckName(w, p);
      NeverFinishes(w, q, depth - 1);
      StuckAtName(w, w.depends(p).value, k, depth - 1);
    } else {
      var k, q := StuckName(w, p);
    }
  }

  lemma {:induction false} StuckAtName(w: World, names: seq<string>, k: nat, depth: nat)
    requires k < |names| && RunName(w, names[k], depth) == TooDeep
    requires forall j | 0 <= j < k :: IsHealthyName(w, names[j])
    ensures RunNames(w, names, depth) == TooDeep
    decreases k
  {
    if k > 0 {
      HealthyNameNeverFails(w, names[0], depth);
      StuckAtName(w, names[1..], k - 1, depth);
    }
  }

  // ---------------------------------------------------------------- the two together

  /** Without a cycle, no more modules are open at once than there are. */
  lemma DepthIsBounded(w: World, p: string)
    requires IsWorld(w) && p in w.modules && Acyclic(Trimmed(w), p)
    ensures RunPath(w, p, |w.modules|) != TooDeep
  {
    hide Trimmed, IsWorld, Acyclic, RunPath;
    TrimmedIsWorld(w);
    assert w.modules - {} == w.modules;
    DepthSuffices(Trimmed(w), p, {}, |w.modules|);
    SameRun(w, p, |w.modules|);
  }

  /** When the recursion ends: no cycle is ahead, as far as the lists are walked. */
  lemma FinishesIff(w: World, p: string)
    requires IsWorld(w) && p in w.modules
    ensures Finishes(w, p) <==> Acyclic(Trimmed(w), p)
  {
    if Acyclic(Trimmed(w), p) {
      DepthIsBounded(w, p);
    } else {
      forall depth: nat ensures RunPath(w, p, depth) == TooDeep {
        NeverFinishes(w, p, depth);
      }
    }
  }

  /** If every module lists its dependencies, no list is cut. */
  lemma HealthyFinishesIff(w: World, p: string)
    requires IsWorld(w) && p in w.modules && Healthy(w, p)
    ensures Finishes(w, p) <==> Acyclic(w, p)
  {
    FinishesIff(w, p);
    SameCycles(w, p);
  }

  lemma SameCycles(w: World, p: string)
    requires Healthy(w, p)
    ensures Acyclic(Trimmed(w), p) <==> Acyclic(w, p)
  {
    forall nodes, q | Connects(w, nodes, p, q) || Connects(Trimmed(w), nodes, p, q)
      ensures Connects(w, nodes, p, q) && Connects(Trimmed(w), nodes, p, q)
    {
      SamePaths(w, nodes, p, q);
    }
    assert forall q :: Reaches(w, p, q) <==> Reaches(Trimmed(w), p, q);
    forall q | Reaches(w, p, q) ensures Cyclic(w, q) <==> Cyclic(Trimmed(w), q) {
      HealthyAt(w, p, q);
      forall nodes, r | Connects(w, nodes, q, r) || Connects(Trimmed(w), nodes, q, r)
        ensures Connects(w, nodes, q, r) && Connects(Trimmed(w), nodes, q, r)
      {
        SamePaths(w, nodes, q, r);
      }
      assert forall r :: Reaches(w, q, r) <==> Reaches(Trimmed(w), q, r);
      forall r | Reaches(w, q, r) ensures Edge(w, r, q) <==> Edge(Trimmed(w), r, q) {
        HealthyAt(w, q, r);
        SameEdges(w, r);
      }
    }
  }

  lemma HealthyAt(w: World, p: string, q: string)
    requires Healthy(w, p) && Reaches(w, p, q)
    ensures Healthy(w, q)
  {
    var nodes :| Connects(w, nodes, p, q);
    forall r | Reaches(w, q, r) && w.openable(r) ensures w.depends(r).Some? {
      ReachesTransitive(w, nodes, p, q, r);
    }
  }

  /** No list of a healthy module is cut. */
  lemma SameEdges(w: World, p: string)
    requires Healthy(w, p)
    ensures DependsOn(Trimmed(w), p) == DependsOn(w, p)
    ensures forall q :: Edge(Trimmed(w), p, q) <==> Edge(w, p, q)
  {
    if w.openable(p) && w.depends(p).Some? {
      var names := w.depends(p).value;
      TrimKeeps(w, names);
      forall name | name in names ensures IsHealthyName(w, name) {
        if Target(w, name).Some? {
          HealthyBelow(w, p, Target(w, name).value);
        }
      }
      assert names[..|names|] == names;
    }
  }

  lemma {:induction false} SamePaths(w: World, nodes: seq<string>, p: string, q: string)
    requires Healthy(w, p) && (Connects(w, nodes, p, q) || Connects(Trimmed(w), nodes, p, q))
    ensures Connects(w, nodes, p, q) && Connects(Trimmed(w), nodes, p, q)
    decreases |nodes|
  {
    hide Connects, Edge, Trimmed, Healthy;
    var t := Trimmed(w);
    if |nodes| <= 1 {
      ShortPath(w, t, nodes, p, q);
    } else {
      SameEdges(w, p);
      if Connects(w, nodes, p, q) {
        PathTail(w, nodes, p, q);
      } else {
        PathTail(t, nodes, p, q);
      }
      HealthyBelow(w, p, nodes[1]);
      SamePaths(w, nodes[1..], nodes[1], q);
      StepThenPath(w, nodes, p, q);
      StepThenPath(t, nodes, p, q);
    }
  }

  lemma ShortPath(w: World, t: World, nodes: seq<string>, p: string, q: string)
    requires |nodes| <= 1
    ensures Connects(w, nodes, p, q) <==> Connects(t, nodes, p, q)
  {
  }

  lemma PathTail(w: World, nodes: seq<string>, p: string, q: string)
    requires |nodes| > 1 && Connects(w, nodes, p, q)
    ensures nodes[0] == p && Edge(w, p, nodes[1]) && Connects(w, nodes[1..], nodes[1], q)
  {
    assert Edge(w, nodes[0], nodes[0 + 1]);
  }

  lemma StepThenPath(w: World, nodes: seq<string>, p: string, q: string)
    requires |nodes| > 1 && nodes[0] == p && Edge(w, p, nodes[1]) && Connects(w, nodes[1..], nodes[1], q)
    ensures Connects(w, nodes, p, q)
  {
    assert nodes == [p] + nodes[1..];
    forall i | 0 <= i < |nodes| - 1 ensures Edge(w, nodes[i], nodes[i + 1]) {
      if i > 0 {
        assert Edge(w, nodes[1..][i - 1], nodes[1..][i - 1 + 1]);
      }
    }
  }

  /** A cycle that is never entered: p lists a, which has no list, before p itself. */
  lemma CycleBehindFailure() returns (w: World)
    ensures IsWorld(w) && "p" in w.modules && !Acyclic(w, "p") && Finishes(w, "p")
  {
    w := World(name => Some(if name == "a" then "a" else "p"), _ => true,
               p => if p == "p" then Some(["a", "p"]) else None,
               {"a", "p"});
    assert "p" in DependsOn(w, "p") by { assert DependsOn(w, "p")[1] == "p"; }
    assert Edge(w, "p", "p");
    ReachesItself(w, "p");
    assert Cyclic(w, "p");
    assert RunName(w, "a", 1) == Failure && ["a", "p"][0] == "a";
    assert RunNames(w, ["a", "p"], 1) == Failure;
    assert RunPath(w, "p", 2) == Failure;
  }
}
