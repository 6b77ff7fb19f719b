/** The dependency relation a module loader walks, and its closure. */
module DependencyGraph {
  import opened Wrappers

  /** resolve: the file found for a name or alias; openable: module_open() works; depends: the names
      listed in the image, if it lists any; modules: all files that can be found. */
  datatype World = World(
    resolve: string -> Option<string>,
    openable: string -> bool,
    depends: string -> Option<seq<string>>,
    modules: set<string>)

  ghost predicate IsWorld(w: World) {
    forall name :: w.resolve(name).Some? ==> w.resolve(name).value in w.modules
  }

  /** The file a name leads to, if it is found and can be opened. */
  function Target(w: World, name: string): Option<string> {
    if w.resolve(name).Some? && w.openable(w.resolve(name).value) then w.resolve(name) else None
  }

  function DependsOn(w: World, p: string): seq<string> {
    if w.openable(p) && w.depends(p).Some? then w.depends(p).value else []
  }

  ghost predicate Edge(w: World, p: string, q: string) {
    exists name | name in DependsOn(w, p) :: Target(w, name) == Some(q)
  }

  ghost predicate IsPath(w: World, nodes: seq<string>) {
    nodes != [] && forall i | 0 <= i < |nodes| - 1 :: Edge(w, nodes[i], nodes[i + 1])
  }

  ghost predicate Connects(w: World, nodes: seq<string>, p: string, q: string) {
    IsPath(w, nodes) && nodes[0] == p && nodes[|nodes| - 1] == q
  }

  ghost predicate Reaches(w: World, p: string, q: string) {
    exists nodes :: Connects(w, nodes, p, q)
  }

  ghost predicate Cyclic(w: World, q: string) {
    exists p :: Reaches(w, q, p) && Edge(w, p, q)
  }

  /** No module on a cycle is reachable. */
  ghost predicate Acyclic(w: World, p: string) {
    forall q :: Reaches(w, p, q) ==> !Cyclic(w, q)
  }

  // ---------------------------------------------------------------- reachability

  lemma ReachesItself(w: World, p: string)
    ensures Reaches(w, p, p)
  {
    assert Connects(w, [p], p, p);
  }

  lemma EdgeThenReaches(w: World, p: string, q: string, r: string)
    requires Edge(w, p, q) && Reaches(w, q, r)
    ensures Reaches(w, p, r)
  {
    var nodes :| Connects(w, nodes, q, r);
    assert Connects(w, [p] + nodes, p, r);
  }

  lemma ReachesThenEdge(w: World, p: string, q: string, r: string)
    requires Reaches(w, p, q) && Edge(w, q, r)
    ensures Reaches(w, p, r)
  {
    var nodes :| Connects(w, nodes, p, q);
    assert Connects(w, nodes + [r], p, r);
  }

  lemma ReachesFirst(w: World, p: string, r: string)
    requires Reaches(w, p, r)
    ensures p == r || exists q :: Edge(w, p, q) && Reaches(w, q, r)
  {
    var nodes :| Connects(w, nodes, p, r);
    if |nodes| > 1 {
      assert Connects(w, nodes[1..], nodes[1], r);
    }
  }

  lemma {:induction false} ReachesTransitive(w: World, nodes: seq<string>, p: string, q: string, r: string)
    requires Connects(w, nodes, p, q) && Reaches(w, q, r)
    ensures Reaches(w, p, r)
    decreases |nodes|
  {
    if |nodes| > 1 {
      assert Connects(w, nodes[1..], nodes[1], q);
      ReachesTransitive(w, nodes[1..], nodes[1], q, r);
      EdgeThenReaches(w, p, nodes[1], r);
    }
  }

  lemma AcyclicBelow(w: World, p: string, q: string)
    requires Acyclic(w, p) && Edge(w, p, q)
    ensures Acyclic(w, q)
  {
    forall r | Reaches(w, q, r) ensures !Cyclic(w, r) {
      EdgeThenReaches(w, p, q, r);
    }
  }

  // ---------------------------------------------------------------- closures

  /** The modules reachable from p, itself included. */
  ghost function Closure(w: World, p: string): set<string>
    requires IsWorld(w) && p in w.modules
  {
    set q | q in w.modules && Reaches(w, p, q)
  }

  /** The modules reachable through a list of names. */
  ghost function NamesClosure(w: World, names: seq<string>): set<string>
    requires IsWorld(w)
  {
    set q | q in w.modules
            && exists name :: name in names && Target(w, name).Some? && Reaches(w, Target(w, name).value, q)
  }

  lemma ClosureUnfolds(w: World, p: string)
    requires IsWorld(w) && p in w.modules
    ensures Closure(w, p) == {p} + NamesClosure(w, DependsOn(w, p))
  {
    ReachesItself(w, p);
    forall q ensures q in Closure(w, p) <==> q == p || q in NamesClosure(w, DependsOn(w, p)) {
      if q in Closure(w, p) {
        ReachesFirst(w, p, q);
      }
      if q in NamesClosure(w, DependsOn(w, p)) {
        var name :| name in DependsOn(w, p) && Target(w, name).Some? && Reaches(w, Target(w, name).value, q);
        EdgeThenReaches(w, p, Target(w, name).value, q);
      }
    }
  }

  lemma NamesClosureAppend(w: World, names: seq<string>, name: string)
    requires IsWorld(w)
    ensures NamesClosure(w, names + [name])
         == NamesClosure(w, names) + if Target(w, name).Some? then Closure(w, Target(w, name).value) else {}
  {
  }

  /** Every openable module in the set has its found, openable dependencies in the set. */
  ghost predicate Closed(w: World, loaded: set<string>) {
    forall p, q | p in loaded && Edge(w, p, q) :: q in loaded
  }

  // ---------------------------------------------------------------- no cycle is entered

  /** The calls in progress are for other modules, which all lead to this one. */
  ghost predicate Safe(w: World, ancestors: set<string>, p: string) {
    && ancestors <= w.modules
    && p in w.modules
    && (w.openable(p) ==> Acyclic(w, p) && p !in ancestors && forall a | a in ancestors :: Reaches(w, a, p))
  }

  ghost predicate SafeName(w: World, ancestors: set<string>, name: string) {
    Target(w, name).Some? ==> Safe(w, ancestors, Target(w, name).value)
  }

  lemma SafeBelow(w: World, ancestors: set<string>, p: string, name: string)
    requires IsWorld(w) && Safe(w, ancestors, p) && w.openable(p) && name in DependsOn(w, p)
    ensures SafeName(w, ancestors + {p}, name)
  {
    if Target(w, name).Some? {
      var q := Target(w, name).value;
      assert Edge(w, p, q);
      AcyclicBelow(w, p, q);
      ReachesItself(w, p);
      forall a | a in ancestors + {p} ensures Reaches(w, a, q) && a != q {
        ReachesThenEdge(w, a, p, q);
        if a == q {
          EdgeThenReaches(w, p, q, q) by { ReachesItself(w, q); }
          assert Cyclic(w, q);
        }
      }
    }
  }

  lemma FewerLeft(w: World, ancestors: set<string>, p: string)
    requires p in w.modules && p !in ancestors
    ensures |w.modules - (ancestors + {p})| < |w.modules - ancestors|
  {
    assert w.modules - (ancestors + {p}) == w.modules - ancestors - {p};
  }
}
