/** The depth-first loading of modprobed.c: what one request leaves in the kernel, and when it ends. */
module Loader {
  import opened Cache
  import opened Callbacks
  import opened DependencyGraph
  import opened Find
  import opened KernelModule
  import opened LoaderDepth
  import opened Text
  import opened Wrappers
  import I = LoadersInterleaved

  /** The dependency relation that a loader works on. The index was built from the images of an earlier
      time, indexed; the files are opened and their lists read as they are when they are loaded. */
  ghost function WorldOf(files: seq<string>, indexed: map<string, Image>, images: map<string, Image>,
                         fnmatch: Matcher): World
  {
    World(
      name => Locate(files, indexed, name, fnmatch),
      path => CanOpen(images, path),
      path => if path in images then Dependencies(images[path]) else None,
      set f | f in files)
  }

  lemma {:induction false} FirstFileIsFile(files: seq<string>, test: string -> bool)
    ensures FirstFile(files, test).Some? ==> FirstFile(files, test).value in files
  {
    if files != [] {
      FirstFileIsFile(files[1..], test);
    }
  }

  lemma WorldOfIsWorld(files: seq<string>, indexed: map<string, Image>, images: map<string, Image>, fnmatch: Matcher)
    ensures IsWorld(WorldOf(files, indexed, images, fnmatch))
  {
    forall name | Locate(files, indexed, name, fnmatch).Some?
      ensures Locate(files, indexed, name, fnmatch).value in files
    {
      FirstFileIsFile(files, path => NameOf(path) == NormalForm(name));
      FirstFileIsFile(files, path => path in indexed && exists p | p in Aliases(indexed[path]) :: fnmatch(p, name));
      if AfterColon(name).Some? {
        FirstFileIsFile(files, path => NameOf(path) == NormalForm(AfterColon(name).value));
      }
    }
  }

  // ---------------------------------------------------------------- orders of loading

  ghost function AsSet(loads: seq<string>): set<string> {
    set p | p in loads
  }

  /** Each load is new, and comes after the dependencies of its module, which lists them. */
  ghost predicate InOrder(w: World, before: set<string>, loads: seq<string>) {
    forall i | 0 <= i < |loads| :: Fits(w, before + AsSet(loads[..i]), loads[i])
  }

  ghost predicate Fits(w: World, loaded: set<string>, p: string) {
    p !in loaded && w.openable(p) && w.depends(p).Some? && forall q | Edge(w, p, q) :: q in loaded
  }

  lemma InOrderAppend(w: World, before: set<string>, loads: seq<string>, more: seq<string>)
    requires InOrder(w, before, loads) && InOrder(w, before + AsSet(loads), more)
    ensures InOrder(w, before, loads + more)
    ensures before + AsSet(loads + more) == before + AsSet(loads) + AsSet(more)
  {
    var all := loads + more;
    forall i | 0 <= i < |all| ensures Fits(w, before + AsSet(all[..i]), all[i]) {
      if i < |loads| {
        assert all[..i] == loads[..i];
      } else {
        var j := i - |loads|;
        assert all[..i] == loads + more[..j];
        assert before + AsSet(all[..i]) == before + AsSet(loads) + AsSet(more[..j]);
        assert Fits(w, before + AsSet(loads) + AsSet(more[..j]), more[j]);
      }
    }
  }

  lemma InOrderOne(w: World, before: set<string>, p: string)
    requires Fits(w, before, p)
    ensures InOrder(w, before, [p]) && AsSet([p]) == {p}
  {
    assert before + AsSet([p][..0]) == before;
  }

  /** Loading in order keeps a closed set closed, wherever the loading stops. */
  lemma InOrderKeepsClosed(w: World, before: set<string>, loads: seq<string>)
    requires Closed(w, before) && InOrder(w, before, loads)
    ensures Closed(w, before + AsSet(loads))
  {
    forall p, q | p in before + AsSet(loads) && Edge(w, p, q) ensures q in before + AsSet(loads) {
      if p in loads {
        var i :| 0 <= i < |loads| && loads[i] == p;
        assert Fits(w, before + AsSet(loads[..i]), loads[i]);
      }
    }
  }

  /** Loads in order are all different. */
  lemma InOrderIsDistinct(w: World, before: set<string>, loads: seq<string>)
    requires InOrder(w, before, loads)
    ensures forall i, j | 0 <= i < j < |loads| :: loads[i] != loads[j]
    ensures before !! AsSet(loads)
  {
    forall i, j | 0 <= i < j < |loads| ensures loads[i] != loads[j] {
      assert Fits(w, before + AsSet(loads[..j]), loads[j]);
      assert loads[..j][i] == loads[i];
    }
    forall p | p in loads ensures p !in before {
      var i :| 0 <= i < |loads| && loads[i] == p;
      assert Fits(w, before + AsSet(loads[..i]), loads[i]);
    }
  }

  // ---------------------------------------------------------------- what a call leaves

  ghost function NameClosure(w: World, name: string): set<string>
    requires IsWorld(w)
  {
    if Target(w, name).Some? then Closure(w, Target(w, name).value) else {}
  }

  /** Every openable module of the set lists its dependencies, be it none. */
  ghost predicate Listed(w: World, modules: set<string>) {
    forall p | p in modules && w.openable(p) :: w.depends(p).Some?
  }

  /** A call that is to load some modules: what it loaded, in which order, and what its result says.
      refusals counts the requests that the system did not grant during the call. */
  ghost predicate Loads(w: World, wanted: set<string>, before: set<string>, loads: seq<string>, after: set<string>,
                        refusals: nat, result: bool) {
    && InOrder(w, before, loads)
    && after == before + AsSet(loads)
    && AsSet(loads) <= wanted
    && (result ==> wanted <= after)
    && (result <==> refusals == 0 && Listed(w, wanted))
  }

  lemma LoadsNothing(w: World, before: set<string>)
    ensures Loads(w, {}, before, [], before, 0, true)
  {
  }

  lemma LoadsMore(w: World, wanted: set<string>, before: set<string>, loads: seq<string>, between: set<string>,
                  more: set<string>, loads': seq<string>, after: set<string>, refusals: nat, result: bool)
    requires Loads(w, wanted, before, loads, between, 0, true)
    requires Loads(w, more, between, loads', after, refusals, result)
    ensures Loads(w, wanted + more, before, loads + loads', after, refusals, result)
  {
    InOrderAppend(w, before, loads, loads');
  }

  /** A call that fails has failed whatever else it was to load. */
  lemma LoadsLess(w: World, wanted: set<string>, all: set<string>, before: set<string>, loads: seq<string>,
                  after: set<string>, refusals: nat)
    requires Loads(w, wanted, before, loads, after, refusals, false) && wanted <= all
    ensures Loads(w, all, before, loads, after, refusals, false)
  {
  }

  /** The last step, after all dependencies: the module itself. */
  lemma LoadsModule(w: World, p: string, before: set<string>, loads: seq<string>, between: set<string>,
                    accepted: bool, refused: bool, after: set<string>)
    requires IsWorld(w) && p in w.modules && w.openable(p) && w.depends(p).Some?
    requires Loads(w, NamesClosure(w, DependsOn(w, p)), before, loads, between, 0, true)
    requires accepted ==> p !in between && !refused
    requires !accepted && !refused ==> p in between
    requires after == between + if accepted then {p} else {}
    ensures Loads(w, Closure(w, p), before, if accepted then loads + [p] else loads, after, if refused then 1 else 0,
                  !refused)
  {
    var wanted := NamesClosure(w, DependsOn(w, p));
    ClosureUnfolds(w, p);
    if accepted {
      forall q | Edge(w, p, q) ensures q in between {
        EdgeInClosure(w, p, q);
      }
      InOrderOne(w, between, p);
      InOrderAppend(w, before, loads, [p]);
    }
  }

  /** One dependency more, or the failure that ends the loading of p. */
  lemma LoadsNext(w: World, p: string, names: seq<string>, i: nat, before: set<string>, loads: seq<string>,
                  between: set<string>, more: seq<string>, after: set<string>, refusals: nat, result: bool)
    requires IsWorld(w) && p in w.modules && names == DependsOn(w, p) && i < |names|
    requires Loads(w, NamesClosure(w, names[..i]), before, loads, between, 0, true)
    requires Loads(w, NameClosure(w, names[i]), between, more, after, refusals, result)
    ensures result ==> refusals == 0 && Loads(w, NamesClosure(w, names[..i + 1]), before, loads + more, after, 0, true)
    ensures !result ==> Loads(w, Closure(w, p), before, loads + more, after, refusals, false)
  {
    LoadsMore(w, NamesClosure(w, names[..i]), before, loads, between, NameClosure(w, names[i]), more, after, refusals,
              result);
    NamesClosureAppend(w, names[..i], names[i]);
    assert names[..i + 1] == names[..i] + [names[i]];
    if !result {
      ClosureUnfolds(w, p);
      LoadsLess(w, NamesClosure(w, names[..i + 1]), Closure(w, p), before, loads + more, after, refusals);
    }
  }

  lemma CannotRead(w: World, p: string, before: set<string>, refusals: nat)
    requires IsWorld(w) && p in w.modules && w.openable(p) && (refusals > 0 || w.depends(p) == None)
    ensures Loads(w, Closure(w, p), before, [], before, refusals, false)
  {
    ReachesItself(w, p);
  }

  lemma NoNames(w: World, names: seq<string>, before: set<string>)
    requires IsWorld(w)
    ensures Loads(w, NamesClosure(w, names[..0]), before, [], before, 0, true)
  {
    assert NamesClosure(w, names[..0]) == {};
  }

  lemma EdgeInClosure(w: World, p: string, q: string)
    requires IsWorld(w) && Edge(w, p, q)
    ensures q in NamesClosure(w, DependsOn(w, p))
  {
    ReachesItself(w, q);
  }

  /** A name that is reached, because all names before it were loaded, is not cut off. */
  lemma WalkedIsListed(w: World, names: seq<string>, i: nat)
    requires IsWorld(w) && i < |names| && Listed(w, NamesClosure(w, names[..i]))
    ensures i < |Trim(w, names)| && Trim(w, names)[i] == names[i]
  {
    TrimKeeps(w, names);
    var n := |Trim(w, names)|;
    if n <= i {
      assert names[n - 1] in names[..i];
      ListedIsHealthy(w, names[..i], names[n - 1]);
    }
  }

  lemma ListedIsHealthy(w: World, names: seq<string>, name: string)
    requires IsWorld(w) && name in names && Listed(w, NamesClosure(w, names))
    ensures IsHealthyName(w, name)
  {
    if Target(w, name).Some? {
      var p := Target(w, name).value;
      forall q | Reaches(w, p, q) && w.openable(q) ensures w.depends(q).Some? {
        ReachedIsModule(w, p, q);
        assert q in NamesClosure(w, names);
      }
    }
  }

  lemma ReachedIsModule(w: World, p: string, q: string)
    requires IsWorld(w) && p in w.modules && Reaches(w, p, q)
    ensures q in w.modules
  {
    var nodes :| Connects(w, nodes, p, q);
    if |nodes| > 1 {
      assert Edge(w, nodes[|nodes| - 2], nodes[|nodes| - 2 + 1]);
    }
  }

  /** The call for the next name is for no module whose call is in progress. */
  lemma WalkedIsSafe(w: World, ancestors: set<string>, p: string, i: nat, before: set<string>, loads: seq<string>,
                     between: set<string>)
    requires IsWorld(w) && Safe(Trimmed(w), ancestors, p) && w.openable(p) && i < |DependsOn(w, p)|
    requires Loads(w, NamesClosure(w, DependsOn(w, p)[..i]), before, loads, between, 0, true)
    ensures SafeName(Trimmed(w), ancestors + {p}, DependsOn(w, p)[i])
  {
    hide Safe, SafeName, NamesClosure;
    WalkedIsListed(w, DependsOn(w, p), i);
    TrimmedIsWorld(w);
    SafeBelow(Trimmed(w), ancestors, p, DependsOn(w, p)[i]);
  }

  lemma SafeIsNew(w: World, ancestors: set<string>, p: string)
    requires Safe(Trimmed(w), ancestors, p) && w.openable(p)
    ensures p in w.modules && p !in ancestors && ancestors <= w.modules
  {
  }

  // ---------------------------------------------------------------- the loader

  datatype Reply = Accepted | Exists | Refused

  class Kernel {
    var loaded: set<string>
    ghost var refusals: nat

    constructor ()
      ensures loaded == {} && refusals == 0
    {
      loaded := {};
      refusals := 0;
    }

    /** init_module(). The kernel may refuse any module. */
    method InitModule(path: string) returns (reply: Reply)
      modifies this
      ensures reply == Accepted ==> path !in old(loaded) && loaded == old(loaded) + {path}
      ensures reply != Accepted ==> loaded == old(loaded)
      ensures reply == Exists ==> path in old(loaded)
      ensures refusals == old(refusals) + if reply == Refused then 1 else 0
    {
      var willing := *;
      if !willing {
        refusals := refusals + 1;
        reply := Refused;
      } else if path in loaded {
        reply := Exists;
      } else {
        loaded := loaded + {path};
        reply := Accepted;
      }
    }
  }

  /** module_load(): a module that is there already counts as loaded. */
  method ModuleLoad(kernel: Kernel, path: string) returns (result: bool, ghost accepted: bool)
    modifies kernel
    ensures accepted ==> path !in old(kernel.loaded) && result
    ensures !accepted && result ==> path in old(kernel.loaded)
    ensures kernel.loaded == old(kernel.loaded) + if accepted then {path} else {}
    ensures kernel.refusals == old(kernel.refusals) + if result then 0 else 1
  {
    var reply := kernel.InitModule(path);
    accepted := reply == Accepted;
    result := reply != Refused;
  }

  lemma {:induction false} FoldCollects(items: seq<string>, done: seq<string>,
                                        callback: (seq<string>, string) -> (seq<string>, bool))
    requires forall s, item :: callback(s, item) == (s + [item], true)
    ensures FoldUntil(items, done, callback) == (done + items, true)
  {
    if items == [] {
      assert done + items == done;
    } else {
      FoldCollects(items[1..], done + [items[0]], callback);
      assert done + [items[0]] + items[1..] == done + items;
    }
  }

  /** The names on which the callback of module_for_each_dependency() is run. */
  method ReadDependencies(kernel: Kernel, image: Image) returns (names: seq<string>, result: bool)
    requires |image| >= MIN_IMAGE
    modifies kernel`refusals
    ensures kernel.refusals >= old(kernel.refusals)
    ensures result ==> kernel.refusals == old(kernel.refusals) && Dependencies(image) == Some(names)
    ensures !result ==> kernel.refusals > old(kernel.refusals) || Dependencies(image) == None
    ensures "" !in names
  {
    var granted := *;
    var collect := (s: seq<string>, name: string) => (s + [name], true);
    names, result := ForEachDependency(image, granted, collect, []);
    if Dependencies(image).Some? {
      FoldCollects(Dependencies(image).value, [], collect);
      assert [] + Dependencies(image).value == Dependencies(image).value;
      TokensAreTokens(StringsAfter(image, DEPENDS, 0)[0]);
    }
    if !result && !granted {
      kernel.refusals := kernel.refusals + 1;
    }
  }

  /** _load_by_path() */
  method LoadByPath(kernel: Kernel, index: Index, images: map<string, Image>, fnmatch: Matcher, path: string,
                    ghost files: seq<string>, ghost indexed: map<string, Image>, ghost w: World,
                    ghost ancestors: set<string>,
                    ghost request: string, ghost stack: seq<I.Frame>)
    returns (result: bool, ghost loads: seq<string>)
    requires Indexes(index.entries, files, indexed) && w == WorldOf(files, indexed, images, fnmatch) && IsWorld(w)
    requires Safe(Trimmed(w), ancestors, path)
    modifies kernel
    ensures w.openable(path) ==> I.LeadsTo(w, false, I.At(old(kernel.loaded), request, I.On(stack, path, 0), I.Working),
                                           I.At(kernel.loaded, request, stack, I.Returning(result)))
    ensures kernel.refusals >= old(kernel.refusals)
    ensures w.openable(path) ==>
              Loads(w, Closure(w, path), old(kernel.loaded), loads, kernel.loaded,
                    kernel.refusals - old(kernel.refusals), result)
    ensures !w.openable(path) ==>
              result && loads == [] && kernel.loaded == old(kernel.loaded) && kernel.refusals == old(kernel.refusals)
    decreases |w.modules - ancestors|, 2
  {
    hide I.LeadsTo, I.At, I.On, Loads, Indexes, IsWorld, Closure, NamesClosure, Acyclic, Reaches;
    result, loads := true, [];
    if !CanOpen(images, path) { return; }
    ghost var before, refusals := kernel.loaded, kernel.refusals;
    var names;
    names, result := ReadDependencies(kernel, images[path]);
    if !result {
      CannotRead(w, path, before, kernel.refusals - refusals);
      I.ListRefused(w, before, request, stack, path);
      return;
    }
    result, loads := LoadDependencies(kernel, index, images, fnmatch, path, names, files, indexed, w, ancestors,
                                      request, stack);
    if !result { return; }
    ghost var between := kernel.loaded;
    ghost var accepted;
    result, accepted := ModuleLoad(kernel, path);
    LoadsModule(w, path, before, loads, between, accepted, !result, kernel.loaded);
    assert kernel.loaded == if result then between + {path} else between;
    I.ModuleInitialised(w, false, between, request, stack, path, result);
    I.LeadsOn(w, false, I.At(before, request, I.On(stack, path, 0), I.Working),
              I.At(between, request, I.On(stack, path, |names|), I.Working),
              I.At(kernel.loaded, request, stack, I.Returning(result)));
    if accepted { loads := loads + [path]; }
  }

  /** The loop over the dependencies: the first failure ends it. */
  method LoadDependencies(kernel: Kernel, index: Index, images: map<string, Image>, fnmatch: Matcher, path: string,
                          names: seq<string>, ghost files: seq<string>, ghost indexed: map<string, Image>,
                          ghost w: World, ghost ancestors: set<string>,
                          ghost request: string, ghost stack: seq<I.Frame>)
    returns (result: bool, ghost loads: seq<string>)
    requires Indexes(index.entries, files, indexed) && w == WorldOf(files, indexed, images, fnmatch) && IsWorld(w)
    requires Safe(Trimmed(w), ancestors, path) && w.openable(path) && names == DependsOn(w, path) && "" !in names
    modifies kernel
    ensures kernel.refusals >= old(kernel.refusals)
    ensures result ==> kernel.refusals == old(kernel.refusals)
                       && Loads(w, NamesClosure(w, names), old(kernel.loaded), loads, kernel.loaded, 0, true)
    ensures !result ==> Loads(w, Closure(w, path), old(kernel.loaded), loads, kernel.loaded,
                              kernel.refusals - old(kernel.refusals), false)
    ensures I.LeadsTo(w, false, I.At(old(kernel.loaded), request, I.On(stack, path, 0), I.Working),
                      if result then I.At(kernel.loaded, request, I.On(stack, path, |names|), I.Working)
                      else I.At(kernel.loaded, request, stack, I.Returning(false)))
    decreases |w.modules - ancestors|, 1
  {
    hide I.LeadsTo, I.At, I.On, Loads, Indexes, IsWorld, NamesClosure, NameClosure, Closure, Safe;
    result, loads := true, [];
    ghost var start := I.At(kernel.loaded, request, I.On(stack, path, 0), I.Working);
    NoNames(w, names, kernel.loaded);
    I.LeadsToItself(w, false, start);
    for i := 0 to |names|
      invariant result && kernel.refusals == old(kernel.refusals)
      invariant Loads(w, NamesClosure(w, names[..i]), old(kernel.loaded), loads, kernel.loaded, 0, true)
      invariant I.LeadsTo(w, false, start, I.At(kernel.loaded, request, I.On(stack, path, i), I.Working))
    {
      ghost var here := I.At(kernel.loaded, request, I.On(stack, path, i), I.Working);
      result, loads := LoadDependency(kernel, index, images, fnmatch, path, names, i, old(kernel.loaded), loads, files,
                                      indexed, w, ancestors, request, stack);
      I.LeadsOn(w, false, start, here, if result then I.At(kernel.loaded, request, I.On(stack, path, i + 1), I.Working)
                                else I.At(kernel.loaded, request, stack, I.Returning(false)));
      if !result { return; }
    }
    assert names[..|names|] == names;
  }

  /** One turn of the loop. */
  method LoadDependency(kernel: Kernel, index: Index, images: map<string, Image>, fnmatch: Matcher, path: string,
                        names: seq<string>, i: nat, ghost before: set<string>, ghost loads: seq<string>,
                        ghost files: seq<string>, ghost indexed: map<string, Image>, ghost w: World,
                        ghost ancestors: set<string>,
                        ghost request: string, ghost stack: seq<I.Frame>)
    returns (result: bool, ghost loads': seq<string>)
    requires Indexes(index.entries, files, indexed) && w == WorldOf(files, indexed, images, fnmatch) && IsWorld(w)
    requires Safe(Trimmed(w), ancestors, path) && w.openable(path) && names == DependsOn(w, path) && "" !in names
             && i < |names|
    requires Loads(w, NamesClosure(w, names[..i]), before, loads, kernel.loaded, 0, true)
    modifies kernel
    ensures kernel.refusals >= old(kernel.refusals)
    ensures result ==> kernel.refusals == old(kernel.refusals)
                       && Loads(w, NamesClosure(w, names[..i + 1]), before, loads', kernel.loaded, 0, true)
    ensures !result ==> Loads(w, Closure(w, path), before, loads', kernel.loaded,
                              kernel.refusals - old(kernel.refusals), false)
    ensures I.LeadsTo(w, false, I.At(old(kernel.loaded), request, I.On(stack, path, i), I.Working),
                      if result then I.At(kernel.loaded, request, I.On(stack, path, i + 1), I.Working)
                      else I.At(kernel.loaded, request, stack, I.Returning(false)))
    decreases |w.modules - ancestors|, 0
  {
    hide I.LeadsTo, I.At, I.On, Indexes, IsWorld, NamesClosure, NameClosure, Closure, Acyclic, Reaches, InOrder,
         Listed, AsSet, Trim, SafeName, Loads, WorldOf, Safe, Trimmed, Dependencies;
    ghost var between := kernel.loaded;
    ghost var more;
    WalkedIsSafe(w, ancestors, path, i, before, loads, between);
    SafeIsNew(w, ancestors, path);
    FewerLeft(w, ancestors, path);
    result, more := LoadByNameOrAlias(kernel, index, images, fnmatch, names[i], files, indexed, w, ancestors + {path},
                                     request, I.On(stack, path, i));
    I.DependencyLeads(w, false, between, kernel.loaded, request, stack, path, i, result);
    LoadsNext(w, path, names, i, before, loads, between, more, kernel.loaded, kernel.refusals - old(kernel.refusals),
              result);
    loads' := loads + more;
  }

  /** _load_by_name_or_alias(): a name that leads to no file counts as loaded. */
  method LoadByNameOrAlias(kernel: Kernel, index: Index, images: map<string, Image>, fnmatch: Matcher, name: string,
                           ghost files: seq<string>, ghost indexed: map<string, Image>, ghost w: World,
                           ghost ancestors: set<string>,
                           ghost request: string, ghost stack: seq<I.Frame>)
    returns (result: bool, ghost loads: seq<string>)
    requires Indexes(index.entries, files, indexed) && w == WorldOf(files, indexed, images, fnmatch) && IsWorld(w)
    requires name != "" && ancestors <= w.modules && SafeName(Trimmed(w), ancestors, name)
    modifies kernel
    ensures kernel.refusals >= old(kernel.refusals)
    ensures Loads(w, NameClosure(w, name), old(kernel.loaded), loads, kernel.loaded,
                  kernel.refusals - old(kernel.refusals), result)
    ensures Target(w, name) == None ==> result && loads == []
    ensures I.LeadsTo(w, false, I.At(old(kernel.loaded), request, stack, I.Calling(name)),
                      I.At(kernel.loaded, request, stack, I.Returning(result)))
    decreases |w.modules - ancestors|, 3
  {
    hide I.LeadsTo, I.At, I.On;
    ghost var before := kernel.loaded;
    LoadsNothing(w, before);
    var path := index.Find(name, fnmatch, files, indexed);
    if Target(w, name) == None { I.NameSkipped(w, false, before, request, stack, name); }
    if path == None { return true, []; }
    result, loads := LoadByPath(kernel, index, images, fnmatch, path.value, files, indexed, w, ancestors, request,
                                stack);
    if Target(w, name).Some? {
      I.PathEntered(w, false, before, request, stack, name, path.value);
      I.LeadsOn(w, false, I.At(before, request, stack, I.Calling(name)),
                I.At(before, request, I.On(stack, path.value, 0), I.Working),
                I.At(kernel.loaded, request, stack, I.Returning(result)));
    }
  }

  /** What loading in order means for the images: each module loaded could be opened, its image has a
      list, and each name of the list that leads to a file that can be opened was loaded before it. */
  ghost predicate LoadsLists(files: seq<string>, indexed: map<string, Image>, images: map<string, Image>,
                             fnmatch: Matcher, before: set<string>, loads: seq<string>)
  {
    forall i | 0 <= i < |loads| ::
      && CanOpen(images, loads[i]) && !HasNoList(images[loads[i]])
      && forall names, name, q |
           && Lists(images[loads[i]], names) && name in names
           && Locate(files, indexed, name, fnmatch) == Some(q) && CanOpen(images, q) ::
           q in before || q in loads[..i]
  }

  lemma InOrderMeans(files: seq<string>, indexed: map<string, Image>, images: map<string, Image>, fnmatch: Matcher,
                     before: set<string>, loads: seq<string>)
    requires InOrder(WorldOf(files, indexed, images, fnmatch), before, loads)
    ensures LoadsLists(files, indexed, images, fnmatch, before, loads)
  {
    hide Locate, CanOpen, HasNoList, Lists, Dependencies, Edge;
    forall i | 0 <= i < |loads|
      ensures CanOpen(images, loads[i]) && !HasNoList(images[loads[i]])
      ensures forall names, name, q |
                && Lists(images[loads[i]], names) && name in names
                && Locate(files, indexed, name, fnmatch) == Some(q) && CanOpen(images, q) ::
                q in before || q in loads[..i]
    {
      assert Fits(WorldOf(files, indexed, images, fnmatch), before + AsSet(loads[..i]), loads[i]);
      ModuleMeans(files, indexed, images, fnmatch, loads[i]);
    }
  }

  /** What the world of a loader says of a module that can be opened. */
  lemma ModuleMeans(files: seq<string>, indexed: map<string, Image>, images: map<string, Image>, fnmatch: Matcher,
                    p: string)
    ensures var w := WorldOf(files, indexed, images, fnmatch);
            && (w.openable(p) <==> CanOpen(images, p)) && (CanOpen(images, p) ==> p in images)
            && (CanOpen(images, p) ==>
                  && (w.depends(p) == None <==> HasNoList(images[p]))
                  && forall names, name, q |
                       && Lists(images[p], names) && name in names
                       && Locate(files, indexed, name, fnmatch) == Some(q) && CanOpen(images, q) ::
                       Edge(w, p, q))
  {
    hide Locate, HasNoList, Lists, Dependencies;
    var w := WorldOf(files, indexed, images, fnmatch);
    if CanOpen(images, p) {
      DependenciesMean(images[p]);
      forall names, name, q |
        && Lists(images[p], names) && name in names
        && Locate(files, indexed, name, fnmatch) == Some(q) && CanOpen(images, q)
        ensures Edge(w, p, q)
      {
        assert name in DependsOn(w, p) && Target(w, name) == Some(q);
      }
    }
  }

  /** A request that leads to a file without a list fails, and does not load it. */
  lemma UnlistedFails(files: seq<string>, indexed: map<string, Image>, images: map<string, Image>, fnmatch: Matcher,
                      request: string, p: string)
    requires Locate(files, indexed, request, fnmatch) == Some(p) && CanOpen(images, p)
    requires IsWorld(WorldOf(files, indexed, images, fnmatch))
    ensures var w := WorldOf(files, indexed, images, fnmatch);
            p in NameClosure(w, request) && (HasNoList(images[p]) ==> !Listed(w, NameClosure(w, request)))
  {
    hide Locate, CanOpen, HasNoList, Dependencies, Reaches;
    var w := WorldOf(files, indexed, images, fnmatch);
    ModuleMeans(files, indexed, images, fnmatch, p);
    FirstFileInWorld(files, indexed, images, fnmatch, request);
    ReachesItself(w, p);
  }

  lemma FirstFileInWorld(files: seq<string>, indexed: map<string, Image>, images: map<string, Image>, fnmatch: Matcher,
                         request: string)
    requires Locate(files, indexed, request, fnmatch).Some? && IsWorld(WorldOf(files, indexed, images, fnmatch))
    ensures Locate(files, indexed, request, fnmatch).value in WorldOf(files, indexed, images, fnmatch).modules
  {
    hide Locate;
    var w := WorldOf(files, indexed, images, fnmatch);
    assert w.resolve(request).Some?;
  }

  /** What one request does, started from main() with no call in progress: on success the kernel holds
      what it held and all that the request needs, and no more. */
  method Serve(kernel: Kernel, index: Index, images: map<string, Image>, fnmatch: Matcher, request: string,
               ghost files: seq<string>, ghost indexed: map<string, Image>)
    returns (result: bool, ghost loads: seq<string>)
    requires Indexes(index.entries, files, indexed) && request != ""
    requires forall p | Target(WorldOf(files, indexed, images, fnmatch), request) == Some(p) ::
             Acyclic(Trimmed(WorldOf(files, indexed, images, fnmatch)), p)
    modifies kernel
    ensures IsWorld(WorldOf(files, indexed, images, fnmatch))
    ensures var w := WorldOf(files, indexed, images, fnmatch);
            && InOrder(w, old(kernel.loaded), loads)
            && kernel.loaded == old(kernel.loaded) + AsSet(loads)
            && AsSet(loads) <= NameClosure(w, request)
            && (result ==> kernel.loaded == old(kernel.loaded) + NameClosure(w, request))
            && (result <==> kernel.refusals == old(kernel.refusals) && Listed(w, NameClosure(w, request)))
            && (Closed(w, old(kernel.loaded)) ==> Closed(w, kernel.loaded))
    ensures forall p | Locate(files, indexed, request, fnmatch) == Some(p) && CanOpen(images, p) ::
              if HasNoList(images[p]) then !result && p !in loads else result ==> p in kernel.loaded
    ensures (forall p | Locate(files, indexed, request, fnmatch) == Some(p) :: !CanOpen(images, p)) ==>
              result && loads == []
    ensures LoadsLists(files, indexed, images, fnmatch, old(kernel.loaded), loads)
    ensures I.LeadsTo(WorldOf(files, indexed, images, fnmatch), false,
                      I.At(old(kernel.loaded), request, [], I.Calling(request)),
                      I.At(kernel.loaded, request, [], I.Returning(result)))
  {
    hide I.LeadsTo, I.At, Locate, CanOpen, HasNoList, Lists, InOrder, Closed, NameClosure, Listed, LoadsLists, Indexes;
    ghost var w, before := WorldOf(files, indexed, images, fnmatch), kernel.loaded;
    WorldOfIsWorld(files, indexed, images, fnmatch);
    assert SafeName(Trimmed(w), {}, request);
    assert Target(w, request) == None <==>
             forall p | Locate(files, indexed, request, fnmatch) == Some(p) :: !CanOpen(images, p);
    hide WorldOf;
    result, loads := LoadByNameOrAlias(kernel, index, images, fnmatch, request, files, indexed, w, {}, request, []);
    if Closed(w, before) {
      InOrderKeepsClosed(w, before, loads);
    }
    InOrderMeans(files, indexed, images, fnmatch, before, loads);
    ServedMeans(files, indexed, images, fnmatch, request, before, loads, kernel.loaded, result);
  }

  /** What the result says of the file that the request leads to. */
  lemma ServedMeans(files: seq<string>, indexed: map<string, Image>, images: map<string, Image>, fnmatch: Matcher,
                    request: string, before: set<string>, loads: seq<string>, after: set<string>, result: bool)
    requires IsWorld(WorldOf(files, indexed, images, fnmatch))
    requires LoadsLists(files, indexed, images, fnmatch, before, loads)
    requires var w := WorldOf(files, indexed, images, fnmatch);
             result ==> NameClosure(w, request) <= after && Listed(w, NameClosure(w, request))
    ensures forall p | Locate(files, indexed, request, fnmatch) == Some(p) && CanOpen(images, p) ::
              if HasNoList(images[p]) then !result && p !in loads else result ==> p in after
  {
    hide Locate, HasNoList, Lists, NameClosure, Listed, WorldOf;
    forall p | Locate(files, indexed, request, fnmatch) == Some(p) && CanOpen(images, p)
      ensures if HasNoList(images[p]) then !result && p !in loads else result ==> p in after
    {
      UnlistedFails(files, indexed, images, fnmatch, request, p);
      if p in loads {
        var i :| 0 <= i < |loads| && loads[i] == p;
      }
    }
  }
}
