/** Any number of forked loaders that share one kernel, interleaved in any way. */
module LoadersInterleaved {
  import opened DependencyGraph
  import opened Wrappers

  /** A call of _load_by_path() in progress: the first done names of its list have been dealt with. */
  datatype Frame = Frame(path: string, done: nat)

  /** What a loader does next: call _load_by_name_or_alias(), go on with its innermost module, or return. */
  datatype Phase = Calling(name: string) | Working | Returning(ok: bool)

  datatype Loader = Loader(request: string, stack: seq<Frame>, phase: Phase)

  datatype State = State(kernel: set<string>, loaders: seq<Loader>)

  /** willing: the system grants what the loader asks of it in this step. */
  datatype Step = Fork(request: string) | Run(i: nat, willing: bool)

  function Top(l: Loader): Frame
    requires l.stack != []
  {
    l.stack[|l.stack| - 1]
  }

  function Pop(l: Loader, ok: bool): Loader
    requires l.stack != []
  {
    Loader(l.request, l.stack[..|l.stack| - 1], Returning(ok))
  }

  predicate Ended(l: Loader) {
    l.stack == [] && l.phase.Returning?
  }

  /** The entry of _load_by_name_or_alias() up to the search for the list of names. */
  function Enter(w: World, l: Loader): Loader
    requires l.phase.Calling?
  {
    var target := Target(w, l.phase.name);
    if target.Some? then Loader(l.request, l.stack + [Frame(target.value, 0)], Working)
    else Loader(l.request, l.stack, Returning(true))
  }

  /** The return of _load_by_name_or_alias() to the loop over the names. */
  function Resume(l: Loader): Loader
    requires l.phase.Returning? && l.stack != []
  {
    if l.phase.ok
    then Loader(l.request, l.stack[..|l.stack| - 1] + [Frame(Top(l).path, Top(l).done + 1)], Working)
    else Pop(l, false)
  }

  /** Whether the step calls init_module(): all names of the list have been dealt with. */
  predicate AtInit(w: World, l: Loader) {
    l.phase.Working? && l.stack != [] && w.depends(Top(l).path).Some? && Top(l).done >= |w.depends(Top(l).path).value|
  }

  /** The work on the innermost module: its list is read, the next name is called, or it is loaded. */
  function Work(w: World, l: Loader, willing: bool): Loader
    requires l.phase.Working? && l.stack != []
  {
    var names := w.depends(Top(l).path);
    if names == None then Pop(l, false)
    else if Top(l).done < |names.value| then
      if Top(l).done == 0 && !willing then Pop(l, false)
      else Loader(l.request, l.stack, Calling(names.value[Top(l).done]))
    else Pop(l, willing)
  }

  function Advance(w: World, l: Loader, willing: bool): Loader
    requires !Ended(l) && (l.phase.Working? ==> l.stack != [])
  {
    match l.phase
    case Calling(_) => Enter(w, l)
    case Working => Work(w, l, willing)
    case Returning(_) => Resume(l)
  }

  function Apply(w: World, s: State, step: Step): Option<State> {
    match step
    case Fork(request) => Some(State(s.kernel, s.loaders + [Loader(request, [], Calling(request))]))
    case Run(i, willing) =>
      if i >= |s.loaders| then None
      else
        var l := s.loaders[i];
        if Ended(l) || (l.phase.Working? && l.stack == []) then None
        else
          var kernel := if AtInit(w, l) && willing then s.kernel + {Top(l).path} else s.kernel;
          Some(State(kernel, s.loaders[i := Advance(w, l, willing)]))
  }

  ghost predicate IsRun(w: World, states: seq<State>, steps: seq<Step>) {
    && |states| == |steps| + 1
    && states[0].loaders == []
    && forall k | 0 <= k < |steps| :: Apply(w, states[k], steps[k]) == Some(states[k + 1])
  }

  // ---------------------------------------------------------------- runs that lead from one state to another

  /** freely: the system grants everything. */
  ghost predicate Follows(w: World, states: seq<State>, steps: seq<Step>, freely: bool, s: State, t: State) {
    && |states| == |steps| + 1
    && states[0] == s && states[|steps|] == t
    && (forall k | 0 <= k < |steps| :: Apply(w, states[k], steps[k]) == Some(states[k + 1]))
    && (freely ==> forall k | 0 <= k < |steps| :: IsGranted(steps[k]))
  }

  predicate IsGranted(step: Step) {
    step.Run? ==> step.willing
  }

  ghost predicate LeadsTo(w: World, freely: bool, s: State, t: State) {
    exists states, steps :: Follows(w, states, steps, freely, s, t)
  }

  lemma LeadsToItself(w: World, freely: bool, s: State)
    ensures LeadsTo(w, freely, s, s)
  {
    assert Follows(w, [s], [], freely, s, s);
  }

  lemma OneStep(w: World, freely: bool, s: State, step: Step, t: State)
    requires Apply(w, s, step) == Some(t) && (freely ==> IsGranted(step))
    ensures LeadsTo(w, freely, s, t)
  {
    assert Follows(w, [s, t], [step], freely, s, t);
  }

  lemma LeadsOn(w: World, freely: bool, s: State, t: State, u: State)
    requires LeadsTo(w, freely, s, t) && LeadsTo(w, freely, t, u)
    ensures LeadsTo(w, freely, s, u)
  {
    var first, steps :| Follows(w, first, steps, freely, s, t);
    var then', steps' :| Follows(w, then', steps', freely, t, u);
    var states, all := first + then'[1..], steps + steps';
    forall k | 0 <= k < |all| ensures Apply(w, states[k], all[k]) == Some(states[k + 1]) {
      if k < |steps| {
        assert states[k] == first[k] && states[k + 1] == first[k + 1];
      } else {
        var j := k - |steps|;
        assert states[k] == then'[j] && states[k + 1] == then'[j + 1];
      }
    }
    assert Follows(w, states, all, freely, s, u);
  }

  // ---------------------------------------------------------------- one loader alone

  /** A loader that is alone with the kernel. */
  ghost function At(kernel: set<string>, request: string, stack: seq<Frame>, phase: Phase): State {
    State(kernel, [Loader(request, stack, phase)])
  }

  /** The module under work, with the first done names dealt with. */
  ghost function On(stack: seq<Frame>, p: string, done: nat): seq<Frame> {
    stack + [Frame(p, done)]
  }

  lemma StepAlone(w: World, freely: bool, kernel: set<string>, request: string, stack: seq<Frame>, phase: Phase,
                  willing: bool)
    requires !Ended(Loader(request, stack, phase)) && (phase.Working? ==> stack != []) && (freely ==> willing)
    ensures var l := Loader(request, stack, phase);
            var after := if AtInit(w, l) && willing then kernel + {Top(l).path} else kernel;
            LeadsTo(w, freely, At(kernel, request, stack, phase), State(after, [Advance(w, l, willing)]))
  {
    hide LeadsTo;
    var l := Loader(request, stack, phase);
    var after := if AtInit(w, l) && willing then kernel + {Top(l).path} else kernel;
    assert [l][0 := Advance(w, l, willing)] == [Advance(w, l, willing)];
    OneStep(w, freely, At(kernel, request, stack, phase), Run(0, willing), State(after, [Advance(w, l, willing)]));
  }

  lemma NameSkipped(w: World, freely: bool, kernel: set<string>, request: string, stack: seq<Frame>, name: string)
    requires Target(w, name) == None
    ensures LeadsTo(w, freely, At(kernel, request, stack, Calling(name)), At(kernel, request, stack, Returning(true)))
  {
    hide LeadsTo;
    StepAlone(w, freely, kernel, request, stack, Calling(name), true);
  }

  lemma PathEntered(w: World, freely: bool, kernel: set<string>, request: string, stack: seq<Frame>, name: string,
                    p: string)
    requires Target(w, name) == Some(p)
    ensures LeadsTo(w, freely, At(kernel, request, stack, Calling(name)), At(kernel, request, On(stack, p, 0), Working))
  {
    hide LeadsTo;
    StepAlone(w, freely, kernel, request, stack, Calling(name), true);
  }

  lemma ListRefused(w: World, kernel: set<string>, request: string, stack: seq<Frame>, p: string)
    ensures LeadsTo(w, false, At(kernel, request, On(stack, p, 0), Working),
                    At(kernel, request, stack, Returning(false)))
  {
    hide LeadsTo;
    StepAlone(w, false, kernel, request, On(stack, p, 0), Working, false);
    assert On(stack, p, 0)[..|stack|] == stack;
  }

  lemma ListMissing(w: World, freely: bool, kernel: set<string>, request: string, stack: seq<Frame>, p: string)
    requires w.depends(p) == None
    ensures LeadsTo(w, freely, At(kernel, request, On(stack, p, 0), Working),
                    At(kernel, request, stack, Returning(false)))
  {
    hide LeadsTo;
    StepAlone(w, freely, kernel, request, On(stack, p, 0), Working, true);
    assert On(stack, p, 0)[..|stack|] == stack;
  }

  lemma NameCalled(w: World, freely: bool, kernel: set<string>, request: string, stack: seq<Frame>, p: string, i: nat)
    requires w.depends(p).Some? && i < |w.depends(p).value|
    ensures LeadsTo(w, freely, At(kernel, request, On(stack, p, i), Working),
                      At(kernel, request, On(stack, p, i), Calling(w.depends(p).value[i])))
  {
    hide LeadsTo;
    StepAlone(w, freely, kernel, request, On(stack, p, i), Working, true);
  }

  lemma NameReturned(w: World, freely: bool, kernel: set<string>, request: string, stack: seq<Frame>, p: string,
                     i: nat, ok: bool)
    ensures LeadsTo(w, freely, At(kernel, request, On(stack, p, i), Returning(ok)),
                      if ok then At(kernel, request, On(stack, p, i + 1), Working)
                      else At(kernel, request, stack, Returning(false)))
  {
    hide LeadsTo;
    StepAlone(w, freely, kernel, request, On(stack, p, i), Returning(ok), true);
    assert On(stack, p, i)[..|stack|] == stack;
  }

  lemma ModuleInitialised(w: World, freely: bool, kernel: set<string>, request: string, stack: seq<Frame>, p: string,
                          result: bool)
    requires w.depends(p).Some? && (freely ==> result)
    ensures LeadsTo(w, freely, At(kernel, request, On(stack, p, |w.depends(p).value|), Working),
                      At(if result then kernel + {p} else kernel, request, stack, Returning(result)))
  {
    hide LeadsTo;
    StepAlone(w, freely, kernel, request, On(stack, p, |w.depends(p).value|), Working, result);
    assert On(stack, p, |w.depends(p).value|)[..|stack|] == stack;
  }

  /** A dependency in full: called, loaded as the recursion says, and returned from. */
  lemma DependencyLeads(w: World, freely: bool, before: set<string>, after: set<string>, request: string,
                        stack: seq<Frame>, p: string,
                        i: nat, ok: bool)
    requires w.depends(p).Some? && i < |w.depends(p).value|
    requires LeadsTo(w, freely, At(before, request, On(stack, p, i), Calling(w.depends(p).value[i])),
                       At(after, request, On(stack, p, i), Returning(ok)))
    ensures LeadsTo(w, freely, At(before, request, On(stack, p, i), Working),
                      if ok then At(after, request, On(stack, p, i + 1), Working)
                      else At(after, request, stack, Returning(false)))
  {
    hide LeadsTo, At, On;
    var name := w.depends(p).value[i];
    var a, b := At(before, request, On(stack, p, i), Working), At(before, request, On(stack, p, i), Calling(name));
    var c := At(after, request, On(stack, p, i), Returning(ok));
    NameCalled(w, freely, before, request, stack, p, i);
    LeadsOn(w, freely, a, b, c);
    NameReturned(w, freely, after, request, stack, p, i, ok);
    LeadsOn(w, freely, a, c, if ok then At(after, request, On(stack, p, i + 1), Working)
                       else At(after, request, stack, Returning(false)));
  }

  // ---------------------------------------------------------------- what one loader has achieved

  /** The modules that a name stands for are all in the kernel. */
  ghost predicate Provided(w: World, kernel: set<string>, name: string) {
    Target(w, name).Some? ==> forall q | Reaches(w, Target(w, name).value, q) :: q in kernel
  }

  /** The names already dealt with are provided. */
  ghost predicate FrameHolds(w: World, kernel: set<string>, f: Frame) {
    && w.openable(f.path)
    && f.done <= |DependsOn(w, f.path)|
    && forall j | 0 <= j < f.done :: Provided(w, kernel, DependsOn(w, f.path)[j])
  }

  /** The name that the call at a depth of the stack is for. */
  ghost function NameAt(w: World, l: Loader, depth: nat): string
    requires depth <= |l.stack|
  {
    if depth == 0 then l.request
    else
      var f := l.stack[depth - 1];
      if f.done < |DependsOn(w, f.path)| then DependsOn(w, f.path)[f.done] else ""
  }

  /** The frame was entered for a name that is really listed, and is the target of that name. */
  ghost predicate Linked(w: World, l: Loader, depth: nat)
    requires depth < |l.stack|
  {
    && Target(w, NameAt(w, l, depth)) == Some(l.stack[depth].path)
    && (depth > 0 ==> l.stack[depth - 1].done < |DependsOn(w, l.stack[depth - 1].path)|)
  }

  ghost predicate PhaseHolds(w: World, kernel: set<string>, l: Loader) {
    var depth := |l.stack|;
    match l.phase
    case Working => depth > 0
    case Calling(name) => name == NameAt(w, l, depth) && (depth > 0 ==> Top(l).done < |DependsOn(w, Top(l).path)|)
    case Returning(ok) =>
      && (depth > 0 ==> Top(l).done < |DependsOn(w, Top(l).path)|)
      && (ok ==> Provided(w, kernel, NameAt(w, l, depth)))
  }

  ghost predicate LoaderHolds(w: World, kernel: set<string>, l: Loader) {
    && (forall d | 0 <= d < |l.stack| :: FrameHolds(w, kernel, l.stack[d]))
    && (forall d | 0 <= d < |l.stack| :: Linked(w, l, d))
    && PhaseHolds(w, kernel, l)
  }

  lemma HoldsInLargerKernel(w: World, kernel: set<string>, larger: set<string>, l: Loader)
    requires LoaderHolds(w, kernel, l) && kernel <= larger
    ensures LoaderHolds(w, larger, l)
  {
    forall d | 0 <= d < |l.stack| ensures FrameHolds(w, larger, l.stack[d]) {
      assert FrameHolds(w, kernel, l.stack[d]);
      forall j | 0 <= j < l.stack[d].done ensures Provided(w, larger, DependsOn(w, l.stack[d].path)[j]) {
        assert Provided(w, kernel, DependsOn(w, l.stack[d].path)[j]);
      }
    }
  }

  /** A link looks at the frame below only. */
  lemma LinkedSame(w: World, l: Loader, l': Loader, d: nat)
    requires d < |l.stack| && d < |l'.stack| && Linked(w, l, d) && l.request == l'.request
    requires l.stack[d].path == l'.stack[d].path && (d > 0 ==> l.stack[d - 1] == l'.stack[d - 1])
    ensures Linked(w, l', d)
  {
  }

  lemma PushHolds(w: World, kernel: set<string>, l: Loader, p: string)
    requires LoaderHolds(w, kernel, l) && l.phase.Calling? && Target(w, l.phase.name) == Some(p)
    ensures LoaderHolds(w, kernel, Loader(l.request, l.stack + [Frame(p, 0)], Working))
  {
    var l' := Loader(l.request, l.stack + [Frame(p, 0)], Working);
    forall d | 0 <= d < |l'.stack| ensures Linked(w, l', d) {
      if d < |l.stack| {
        LinkedSame(w, l, l', d);
      } else {
        assert NameAt(w, l', d) == NameAt(w, l, d);
      }
    }
    assert forall d | 0 <= d < |l.stack| :: l'.stack[d] == l.stack[d];
  }

  lemma EnterHolds(w: World, kernel: set<string>, l: Loader)
    requires LoaderHolds(w, kernel, l) && l.phase.Calling?
    ensures LoaderHolds(w, kernel, Enter(w, l))
  {
    var target := Target(w, l.phase.name);
    if target.Some? {
      PushHolds(w, kernel, l, target.value);
    } else {
      forall d | 0 <= d < |l.stack| ensures Linked(w, Enter(w, l), d) {
        LinkedSame(w, l, Enter(w, l), d);
      }
    }
  }

  lemma PopHolds(w: World, kernel: set<string>, l: Loader, ok: bool)
    requires LoaderHolds(w, kernel, l) && l.stack != []
    requires ok ==> forall q | Reaches(w, Top(l).path, q) :: q in kernel
    ensures LoaderHolds(w, kernel, Pop(l, ok))
  {
    var l' := Pop(l, ok);
    forall d | 0 <= d < |l'.stack| ensures FrameHolds(w, kernel, l'.stack[d]) && Linked(w, l', d) {
      assert FrameHolds(w, kernel, l.stack[d]) && Linked(w, l, d);
    }
    assert Linked(w, l, |l'.stack|);
  }

  lemma ResumeHolds(w: World, kernel: set<string>, l: Loader)
    requires LoaderHolds(w, kernel, l) && l.phase.Returning? && l.stack != []
    ensures LoaderHolds(w, kernel, Resume(l))
  {
    if l.phase.ok {
      var l' := Resume(l);
      var last := |l.stack| - 1;
      forall d | 0 <= d <= last ensures FrameHolds(w, kernel, l'.stack[d]) && Linked(w, l', d) {
        assert FrameHolds(w, kernel, l.stack[d]) && Linked(w, l, d);
        if d == last {
          assert NameAt(w, l, |l.stack|) == DependsOn(w, Top(l).path)[Top(l).done];
        }
      }
    } else {
      PopHolds(w, kernel, l, false);
    }
  }

  /** All names of the innermost module are provided, so with the module itself its closure is. */
  lemma ClosureProvided(w: World, kernel: set<string>, l: Loader)
    requires LoaderHolds(w, kernel, l) && AtInit(w, l)
    ensures forall q | Edge(w, Top(l).path, q) :: q in kernel
    ensures forall q | Reaches(w, Top(l).path, q) :: q in kernel + {Top(l).path}
  {
    var f := Top(l);
    assert FrameHolds(w, kernel, f);
    forall q | Edge(w, f.path, q) ensures forall r | Reaches(w, q, r) :: r in kernel {
      var name :| name in DependsOn(w, f.path) && Target(w, name) == Some(q);
      var j :| 0 <= j < |DependsOn(w, f.path)| && DependsOn(w, f.path)[j] == name;
      assert Provided(w, kernel, DependsOn(w, f.path)[j]);
    }
    forall q | Edge(w, f.path, q) ensures q in kernel {
      ReachesItself(w, q);
    }
    forall r | Reaches(w, f.path, r) ensures r in kernel + {f.path} {
      ReachesFirst(w, f.path, r);
    }
  }

  lemma CallHolds(w: World, kernel: set<string>, l: Loader)
    requires LoaderHolds(w, kernel, l) && l.phase.Working? && w.openable(Top(l).path)
    requires w.depends(Top(l).path).Some? && Top(l).done < |w.depends(Top(l).path).value|
    ensures LoaderHolds(w, kernel, Loader(l.request, l.stack, Calling(w.depends(Top(l).path).value[Top(l).done])))
  {
    var l' := Loader(l.request, l.stack, Calling(w.depends(Top(l).path).value[Top(l).done]));
    forall d | 0 <= d < |l.stack| ensures Linked(w, l', d) {
      LinkedSame(w, l, l', d);
    }
  }

  lemma WorkHolds(w: World, kernel: set<string>, l: Loader, willing: bool)
    requires LoaderHolds(w, kernel, l) && l.phase.Working?
    ensures LoaderHolds(w, if AtInit(w, l) && willing then kernel + {Top(l).path} else kernel, Work(w, l, willing))
  {
    var f := Top(l);
    assert FrameHolds(w, kernel, f);
    if AtInit(w, l) && willing {
      ClosureProvided(w, kernel, l);
      HoldsInLargerKernel(w, kernel, kernel + {f.path}, l);
      PopHolds(w, kernel + {f.path}, l, true);
    } else if AtInit(w, l) || w.depends(f.path) == None || (f.done == 0 && !willing) {
      PopHolds(w, kernel, l, false);
    } else {
      CallHolds(w, kernel, l);
    }
  }

  // ---------------------------------------------------------------- what all of them keep

  /** Every module loaded since the start has its dependencies in the kernel. */
  ghost predicate LoadedHold(w: World, start: set<string>, kernel: set<string>) {
    && start <= kernel
    && forall p, q | p in kernel - start && Edge(w, p, q) :: q in kernel
  }

  ghost predicate Inv(w: World, start: set<string>, s: State) {
    && LoadedHold(w, start, s.kernel)
    && forall i | 0 <= i < |s.loaders| :: LoaderHolds(w, s.kernel, s.loaders[i])
  }

  lemma AdvanceHolds(w: World, kernel: set<string>, l: Loader, willing: bool)
    requires LoaderHolds(w, kernel, l) && !Ended(l)
    ensures l.phase.Working? ==> l.stack != []
    ensures LoaderHolds(w, if AtInit(w, l) && willing then kernel + {Top(l).path} else kernel, Advance(w, l, willing))
  {
    match l.phase
    case Calling(_) => EnterHolds(w, kernel, l);
    case Working => WorkHolds(w, kernel, l, willing);
    case Returning(_) => ResumeHolds(w, kernel, l);
  }

  /** A step loads at most one module, and only when its dependencies are there. */
  lemma StepKeepsInv(w: World, start: set<string>, s: State, step: Step, t: State)
    requires Inv(w, start, s) && Apply(w, s, step) == Some(t)
    ensures Inv(w, start, t)
    ensures s.kernel <= t.kernel
    ensures forall p | p in t.kernel - s.kernel :: t.kernel == s.kernel + {p} && forall q | Edge(w, p, q) ::
            q in s.kernel
  {
    if step.Run? {
      var l := s.loaders[step.i];
      AdvanceHolds(w, s.kernel, l, step.willing);
      if AtInit(w, l) && step.willing {
        ClosureProvided(w, s.kernel, l);
      }
      forall i | 0 <= i < |s.loaders| ensures LoaderHolds(w, t.kernel, t.loaders[i]) {
        if i != step.i {
          HoldsInLargerKernel(w, s.kernel, t.kernel, s.loaders[i]);
        }
      }
    } else {
      forall i | 0 <= i < |t.loaders| ensures LoaderHolds(w, t.kernel, t.loaders[i]) {
        if i < |s.loaders| {
          assert t.loaders[i] == s.loaders[i];
        }
      }
    }
  }

  lemma {:induction false} RunKeepsInv(w: World, states: seq<State>, steps: seq<Step>, k: nat)
    requires IsRun(w, states, steps) && k < |states|
    ensures Inv(w, states[0].kernel, states[k])
  {
    if k > 0 {
      RunKeepsInv(w, states, steps, k - 1);
      assert Apply(w, states[k - 1], steps[k - 1]) == Some(states[k - 1 + 1]);
      StepKeepsInv(w, states[0].kernel, states[k - 1], steps[k - 1], states[k]);
    }
  }

  /** Along a run the kernel only grows. */
  lemma {:induction false} KernelGrows(w: World, states: seq<State>, steps: seq<Step>, j: nat, k: nat)
    requires IsRun(w, states, steps) && j <= k < |states|
    ensures states[j].kernel <= states[k].kernel
    decreases k
  {
    if j < k {
      KernelGrows(w, states, steps, j, k - 1);
      RunKeepsInv(w, states, steps, k - 1);
      assert Apply(w, states[k - 1], steps[k - 1]) == Some(states[k - 1 + 1]);
      StepKeepsInv(w, states[0].kernel, states[k - 1], steps[k - 1], states[k]);
    }
  }

  // ---------------------------------------------------------------- the main results

  /** A module enters the kernel only after all its found, openable dependencies. */
  lemma DependenciesComeFirst(w: World, states: seq<State>, steps: seq<Step>, k: nat, p: string, q: string)
    requires IsRun(w, states, steps) && k < |steps|
    requires p in states[k + 1].kernel && p !in states[k].kernel && Edge(w, p, q)
    ensures q in states[k].kernel
  {
    RunKeepsInv(w, states, steps, k);
    assert Apply(w, states[k], steps[k]) == Some(states[k + 1]);
    StepKeepsInv(w, states[0].kernel, states[k], steps[k], states[k + 1]);
  }

  /** Whatever the others do, a loader that has returned true has left all that its request needs in the
      kernel, now and for good. */
  lemma SuccessProvidesClosure(w: World, states: seq<State>, steps: seq<Step>, j: nat, k: nat, i: nat, root: string)
    requires IsWorld(w) && IsRun(w, states, steps) && j <= k < |states|
    requires i < |states[j].loaders| && Ended(states[j].loaders[i]) && states[j].loaders[i].phase.ok
    requires Target(w, states[j].loaders[i].request) == Some(root)
    ensures Closure(w, root) <= states[k].kernel
  {
    RunKeepsInv(w, states, steps, j);
    KernelGrows(w, states, steps, j, k);
    assert LoaderHolds(w, states[j].kernel, states[j].loaders[i]);
  }

  /** A kernel in which no dependency was missing at the start never has one missing. */
  lemma ClosedStaysClosed(w: World, states: seq<State>, steps: seq<Step>, k: nat)
    requires IsRun(w, states, steps) && k < |states| && Closed(w, states[0].kernel)
    ensures Closed(w, states[k].kernel)
  {
    RunKeepsInv(w, states, steps, k);
  }

  // ---------------------------------------------------------------- nothing else is loaded

  /** The module is in the closure of a request that was made. */
  ghost predicate Asked(w: World, loaders: seq<Loader>, p: string) {
    exists i | 0 <= i < |loaders| :: AskedBy(w, loaders[i].request, p)
  }

  ghost predicate AskedBy(w: World, request: string, p: string) {
    Target(w, request).Some? && Reaches(w, Target(w, request).value, p)
  }

  lemma {:induction false} StackIsAsked(w: World, kernel: set<string>, l: Loader, d: nat)
    requires LoaderHolds(w, kernel, l) && d < |l.stack|
    ensures AskedBy(w, l.request, l.stack[d].path)
  {
    assert Linked(w, l, d);
    if d == 0 {
      ReachesItself(w, l.stack[0].path);
    } else {
      StackIsAsked(w, kernel, l, d - 1);
      assert NameAt(w, l, d) in DependsOn(w, l.stack[d - 1].path);
      ReachesThenEdge(w, Target(w, l.request).value, l.stack[d - 1].path, l.stack[d].path);
    }
  }

  lemma {:induction false} OnlyAskedIsLoaded(w: World, states: seq<State>, steps: seq<Step>, k: nat, p: string)
    requires IsRun(w, states, steps) && k < |states| && p in states[k].kernel - states[0].kernel
    ensures Asked(w, states[k].loaders, p)
  {
    if k > 0 {
      var s, t := states[k - 1], states[k];
      assert Apply(w, s, steps[k - 1]) == Some(states[k - 1 + 1]);
      RequestsStay(w, s, steps[k - 1], t);
      if p in s.kernel {
        OnlyAskedIsLoaded(w, states, steps, k - 1, p);
        var i :| 0 <= i < |s.loaders| && AskedBy(w, s.loaders[i].request, p);
        assert AskedBy(w, t.loaders[i].request, p);
      } else {
        var i := steps[k - 1].i;
        RunKeepsInv(w, states, steps, k - 1);
        StackIsAsked(w, s.kernel, s.loaders[i], |s.loaders[i].stack| - 1);
        assert AskedBy(w, t.loaders[i].request, p);
      }
    }
  }

  lemma RequestsStay(w: World, s: State, step: Step, t: State)
    requires Apply(w, s, step) == Some(t)
    ensures |s.loaders| <= |t.loaders| && forall i | 0 <= i < |s.loaders| ::
            t.loaders[i].request == s.loaders[i].request
  {
  }
}
