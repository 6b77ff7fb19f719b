/** When a loader ends: the recursion cut at a depth, carried over to the steps of a loader. */
module LoaderTermination {
  import opened DependencyGraph
  import opened LoaderDepth
  import opened LoadersInterleaved
  import opened Wrappers

  // ---------------------------------------------------------------- a run that ends

  lemma {:induction false} PathLeads(w: World, p: string, depth: nat, kernel: set<string>, request: string,
                                     stack: seq<Frame>)
    returns (after: set<string>)
    requires w.openable(p) && RunPath(w, p, depth) != TooDeep
    ensures LeadsTo(w, true, At(kernel, request, On(stack, p, 0), Working),
                    At(after, request, stack, Returning(RunPath(w, p, depth) == Success)))
    decreases depth, 0
  {
    hide LeadsTo, At, On;
    if w.depends(p) == None {
      after := kernel;
      ListMissing(w, true, kernel, request, stack, p);
    } else {
      var names := w.depends(p).value;
      assert names[0..] == names;
      var between := NamesLead(w, p, 0, depth - 1, kernel, request, stack);
      after := between;
      if RunNames(w, names, depth - 1) == Success {
        after := between + {p};
        ModuleInitialised(w, true, between, request, stack, p, true);
        LeadsOn(w, true, At(kernel, request, On(stack, p, 0), Working),
                At(between, request, On(stack, p, |names|), Working),
                At(after, request, stack, Returning(true)));
      }
    }
  }

  lemma {:induction false} NamesLead(w: World, p: string, i: nat, depth: nat, kernel: set<string>, request: string,
                                     stack: seq<Frame>)
    returns (after: set<string>)
    requires w.depends(p).Some? && i <= |w.depends(p).value|
    requires RunNames(w, w.depends(p).value[i..], depth) != TooDeep
    ensures var names := w.depends(p).value;
            LeadsTo(w, true, At(kernel, request, On(stack, p, i), Working),
                    if RunNames(w, names[i..], depth) == Success
                    then At(after, request, On(stack, p, |names|), Working)
                    else At(after, request, stack, Returning(false)))
    decreases depth, 1 + |w.depends(p).value| - i
  {
    hide LeadsTo, At, On;
    var names := w.depends(p).value;
    if i == |names| {
      after := kernel;
      LeadsToItself(w, true, At(kernel, request, On(stack, p, i), Working));
    } else {
      assert names[i..][1..] == names[i + 1..];
      var first := RunName(w, names[i], depth);
      var between := NameLeads(w, names[i], depth, kernel, request, On(stack, p, i));
      DependencyLeads(w, true, kernel, between, request, stack, p, i, first == Success);
      after := between;
      if first == Success {
        after := NamesLead(w, p, i + 1, depth, between, request, stack);
        LeadsOn(w, true, At(kernel, request, On(stack, p, i), Working),
                At(between, request, On(stack, p, i + 1), Working),
                if RunNames(w, names[i..], depth) == Success then At(after, request, On(stack, p, |names|), Working)
                else At(after, request, stack, Returning(false)));
      }
    }
  }

  lemma {:induction false} NameLeads(w: World, name: string, depth: nat, kernel: set<string>, request: string,
                                     stack: seq<Frame>)
    returns (after: set<string>)
    requires RunName(w, name, depth) != TooDeep
    ensures LeadsTo(w, true, At(kernel, request, stack, Calling(name)),
                    At(after, request, stack, Returning(RunName(w, name, depth) == Success)))
    decreases depth, 1
  {
    hide LeadsTo, At, On;
    if Target(w, name) == None {
      after := kernel;
      NameSkipped(w, true, kernel, request, stack, name);
    } else {
      var p := Target(w, name).value;
      after := PathLeads(w, p, depth, kernel, request, stack);
      PathEntered(w, true, kernel, request, stack, name, p);
      LeadsOn(w, true, At(kernel, request, stack, Calling(name)), At(kernel, request, On(stack, p, 0), Working),
              At(after, request, stack, Returning(RunName(w, name, depth) == Success)));
    }
  }

  // ---------------------------------------------------------------- runs that never end

  /** The name leads to a module with a cycle ahead, as far as the lists are walked. */
  ghost predicate IsDoomed(w: World, name: string) {
    Target(w, name).Some? && !Acyclic(Trimmed(w), Target(w, name).value)
  }

  /** The k-th name of the list is still to be dealt with and doomed; those before it can be loaded. */
  ghost predicate PendingAt(w: World, f: Frame, k: nat) {
    && w.depends(f.path).Some? && f.done <= k < |w.depends(f.path).value|
    && IsDoomed(w, w.depends(f.path).value[k])
    && forall j | 0 <= j < k :: IsHealthyName(w, w.depends(f.path).value[j])
  }

  ghost predicate FrameSpins(w: World, f: Frame) {
    && w.openable(f.path)
    && (Acyclic(Trimmed(w), f.path) ==> Healthy(w, f.path))
    && (!Acyclic(Trimmed(w), f.path) ==> exists k :: PendingAt(w, f, k))
  }

  ghost predicate PhaseSpins(w: World, l: Loader) {
    && (!l.phase.Working? && l.stack != [] ==> Top(l).done < |DependsOn(w, Top(l).path)|)
    && match l.phase
       case Working => l.stack != []
       case Calling(name) => name == NameAt(w, l, |l.stack|) && (IsDoomed(w, name) || IsHealthyName(w, name))
       case Returning(ok) => ok && !IsDoomed(w, NameAt(w, l, |l.stack|))
  }

  /** A loader that will never end, as long as the system grants what it asks. */
  ghost predicate Spins(w: World, l: Loader) {
    && IsDoomed(w, l.request)
    && (forall d | 0 <= d < |l.stack| :: FrameSpins(w, l.stack[d]))
    && (forall d | 0 <= d < |l.stack| :: Linked(w, l, d))
    && PhaseSpins(w, l)
  }

  lemma PushSpins(w: World, l: Loader, p: string)
    requires Spins(w, l) && l.phase.Calling? && Target(w, l.phase.name) == Some(p) && FrameSpins(w, Frame(p, 0))
    ensures Spins(w, Loader(l.request, l.stack + [Frame(p, 0)], Working))
  {
    hide FrameSpins, IsDoomed, IsHealthyName;
    var l' := Loader(l.request, l.stack + [Frame(p, 0)], Working);
    forall d | 0 <= d < |l'.stack| ensures Linked(w, l', d) {
      if d < |l.stack| {
        LinkedSame(w, l, l', d);
      } else {
        assert NameAt(w, l', d) == NameAt(w, l, d);
      }
    }
    assert forall d | 0 <= d < |l.stack| :: l'.stack[d] == l.stack[d];
  }

  lemma EnterSpins(w: World, l: Loader)
    requires Spins(w, l) && l.phase.Calling?
    ensures Spins(w, Enter(w, l))
  {
    hide FrameSpins, IsHealthyName, Acyclic, Trimmed;
    var target := Target(w, l.phase.name);
    if target.Some? {
      EnteredSpins(w, l.phase.name, target.value);
      PushSpins(w, l, target.value);
    } else {
      forall d | 0 <= d < |l.stack| ensures Linked(w, Enter(w, l), d) {
        LinkedSame(w, l, Enter(w, l), d);
      }
    }
  }

  lemma EnteredSpins(w: World, name: string, p: string)
    requires Target(w, name) == Some(p) && (IsDoomed(w, name) || IsHealthyName(w, name))
    ensures FrameSpins(w, Frame(p, 0))
  {
    if IsDoomed(w, name) {
      var k, q := StuckName(w, p);
      assert PendingAt(w, Frame(p, 0), k);
    }
  }

  lemma ResumeSpins(w: World, l: Loader)
    requires Spins(w, l) && l.phase.Returning? && l.stack != []
    ensures Spins(w, Resume(l))
  {
    hide Acyclic, Trimmed, Healthy, IsDoomed, PendingAt;
    var l', last := Resume(l), |l.stack| - 1;
    forall d | 0 <= d < |l'.stack| ensures Linked(w, l', d) && FrameSpins(w, l'.stack[d]) {
      LinkedSame(w, l, l', d);
      assert FrameSpins(w, l.stack[d]);
      if d == last {
        ResumedSpins(w, Top(l));
      }
    }
  }

  lemma ResumedSpins(w: World, f: Frame)
    requires FrameSpins(w, f) && f.done < |DependsOn(w, f.path)| && !IsDoomed(w, DependsOn(w, f.path)[f.done])
    ensures FrameSpins(w, Frame(f.path, f.done + 1))
  {
    hide Acyclic, Trimmed, Healthy;
    if !Acyclic(Trimmed(w), f.path) {
      var k :| PendingAt(w, f, k);
      assert PendingAt(w, Frame(f.path, f.done + 1), k);
    }
  }

  /** The next name of a frame that spins. */
  lemma NextName(w: World, f: Frame)
    requires FrameSpins(w, f)
    ensures w.depends(f.path).Some?
    ensures f.done < |w.depends(f.path).value| ==>
              IsDoomed(w, w.depends(f.path).value[f.done]) || IsHealthyName(w, w.depends(f.path).value[f.done])
    ensures f.done >= |w.depends(f.path).value| ==> Acyclic(Trimmed(w), f.path)
  {
    hide Acyclic, Trimmed;
    if Acyclic(Trimmed(w), f.path) {
      ReachesItself(w, f.path);
      if f.done < |w.depends(f.path).value| {
        var name := w.depends(f.path).value[f.done];
        if Target(w, name).Some? {
          assert name in DependsOn(w, f.path);
          HealthyBelow(w, f.path, Target(w, name).value);
        }
      }
    }
  }

  lemma WorkSpins(w: World, l: Loader)
    requires Spins(w, l) && l.phase.Working?
    ensures Spins(w, Work(w, l, true))
  {
    hide FrameSpins, IsDoomed, IsHealthyName, Acyclic, Trimmed;
    var f := Top(l);
    assert FrameSpins(w, f);
    NextName(w, f);
    if f.done < |w.depends(f.path).value| {
      var l' := Work(w, l, true);
      OpenableSpins(w, f);
      forall d | 0 <= d < |l.stack| ensures Linked(w, l', d) {
        LinkedSame(w, l, l', d);
      }
    } else {
      PopSpins(w, l);
    }
  }

  lemma OpenableSpins(w: World, f: Frame)
    requires FrameSpins(w, f)
    ensures w.openable(f.path)
  {
  }

  lemma PopSpins(w: World, l: Loader)
    requires Spins(w, l) && l.stack != [] && Acyclic(Trimmed(w), Top(l).path)
    ensures Spins(w, Pop(l, true))
  {
    hide FrameSpins, Acyclic, Trimmed;
    var l', last := Pop(l, true), |l.stack| - 1;
    forall d | 0 <= d < |l'.stack| ensures Linked(w, l', d) {
      LinkedSame(w, l, l', d);
    }
    assert forall d | 0 <= d < |l'.stack| :: l'.stack[d] == l.stack[d];
    assert Linked(w, l, last) && NameAt(w, l', last) == NameAt(w, l, last);
  }

  lemma {:induction false} SpinsOn(w: World, states: seq<State>, steps: seq<Step>, k: nat, i: nat)
    requires IsRun(w, states, steps) && k < |states| && i < |states[k].loaders|
    requires forall step | step in steps && step.Run? && step.i == i :: step.willing
    requires IsDoomed(w, states[k].loaders[i].request)
    ensures Spins(w, states[k].loaders[i])
  {
    hide IsDoomed, Spins;
    var s, step := states[k - 1], steps[k - 1];
    assert step in steps && Apply(w, s, step) == Some(states[k - 1 + 1]);
    if i == |s.loaders| {
      FreshSpins(w, step.request);
    } else {
      assert states[k].loaders[i].request == s.loaders[i].request by { RequestsStay(w, s, step, states[k]); }
      SpinsOn(w, states, steps, k - 1, i);
      if step.Run? && step.i == i {
        AdvanceSpins(w, s.loaders[i]);
      }
    }
  }

  lemma FreshSpins(w: World, request: string)
    requires IsDoomed(w, request)
    ensures Spins(w, Loader(request, [], Calling(request)))
  {
  }

  lemma AdvanceSpins(w: World, l: Loader)
    requires Spins(w, l) && !Ended(l) && (l.phase.Working? ==> l.stack != [])
    ensures Spins(w, Advance(w, l, true))
  {
    hide Spins;
    match l.phase
    case Calling(_) => EnterSpins(w, l);
    case Working => WorkSpins(w, l);
    case Returning(_) => ResumeSpins(w, l);
  }

  /** With a cycle ahead a loader never ends, whatever other loaders do, as long as the system grants
      it what it asks. */
  lemma NeverEnds(w: World, states: seq<State>, steps: seq<Step>, k: nat, i: nat)
    requires IsRun(w, states, steps) && k < |states| && i < |states[k].loaders|
    requires forall step | step in steps && step.Run? && step.i == i :: step.willing
    requires IsDoomed(w, states[k].loaders[i].request)
    ensures !Ended(states[k].loaders[i])
  {
    SpinsOn(w, states, steps, k, i);
  }

  // ---------------------------------------------------------------- the exact condition

  ghost predicate EndsAs(w: World, kernel: set<string>, request: string, after: set<string>, ok: bool) {
    LeadsTo(w, true, At(kernel, request, [], Calling(request)), At(after, request, [], Returning(ok)))
  }

  /** A loader alone ends if the system grants all it asks. */
  ghost predicate Ends(w: World, kernel: set<string>, request: string) {
    exists after, ok :: EndsAs(w, kernel, request, after, ok)
  }

  lemma EndsIff(w: World, kernel: set<string>, request: string, p: string)
    requires IsWorld(w) && Target(w, request) == Some(p)
    ensures Ends(w, kernel, request) <==> Acyclic(Trimmed(w), p)
  {
    if Acyclic(Trimmed(w), p) {
      DepthIsBounded(w, p);
      var after := NameLeads(w, request, |w.modules|, kernel, request, []);
      assert EndsAs(w, kernel, request, after, RunName(w, request, |w.modules|) == Success);
    } else if Ends(w, kernel, request) {
      var after, ok :| EndsAs(w, kernel, request, after, ok);
      CannotEnd(w, kernel, request, after, ok);
    }
  }

  lemma CannotEnd(w: World, kernel: set<string>, request: string, after: set<string>, ok: bool)
    requires IsDoomed(w, request)
    ensures !EndsAs(w, kernel, request, after, ok)
  {
    hide Acyclic, Trimmed;
    if EndsAs(w, kernel, request, after, ok) {
      var s, t := At(kernel, request, [], Calling(request)), At(after, request, [], Returning(ok));
      var states, steps :| Follows(w, states, steps, true, s, t);
      var states', steps' := [State(kernel, [])] + states, [Fork(request)] + steps;
      forall k | 0 <= k < |steps'| ensures Apply(w, states'[k], steps'[k]) == Some(states'[k + 1]) {
        if k == 0 {
          assert states'[1] == s && [] + [Loader(request, [], Calling(request))] == s.loaders;
        } else {
          assert Apply(w, states[k - 1], steps[k - 1]) == Some(states[k - 1 + 1]);
        }
      }
      forall step | step in steps' && step.Run? && step.i == 0 ensures step.willing {
        var k :| 0 <= k < |steps'| && steps'[k] == step;
        assert IsGranted(steps[k - 1]);
      }
      NeverEnds(w, states', steps', |steps'|, 0);
    }
  }
}
