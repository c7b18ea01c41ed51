/**
 * The pass as a whole: a traversal is a sequence of events (a node visited inside some module,
 * or the traversal leaving a module), and the alias tables are threaded through it.
 */
module Pass {
  import opened Wrappers
  import opened Modules
  import opened StringNodes
  import opened Rewriter

  /** What the module-scoped traversal reports to the rewriter. */
  datatype Event =
    | VisitNode(current: Option<ModuleMetadata>, node: Node, scope: set<string>, typeRefs: seq<StringNode>)
    | LeaveModule

  /** The alias tables after a traversal and the outcome of each of its events, in order. */
  datatype Trace = Trace(aliases: AliasState, outcomes: seq<Outcome>)

  /** The outcome recorded for leaving a module: the tables are emptied, the tree is untouched. */
  const ModuleLeft := Outcome(Effect(NoAliases, Keep, false, None, None), [])

  /** The outcome of one event in the tables `st`. */
  function Step(env: Env, st: AliasState, e: Event): Result<Outcome, InternalError>
  {
    match e
    case LeaveModule => Success(ModuleLeft.(effect := ModuleLeft.effect.(aliases := ExitModule(st))))
    case VisitNode(m, node, scope, refs) => Visit(env, st, m, node, scope, refs)
  }

  /** The tables event `i` of a traversal starts from: those event `i - 1` left, or `st` for the first. */
  function TablesBefore(st: AliasState, outcomes: seq<Outcome>, i: nat): AliasState
    requires i <= |outcomes|
  {
    if i == 0 then st else outcomes[i - 1].effect.aliases
  }

  /**
   * A traversal: each event is handled with the tables the previous one left, one outcome per
   * event; leaving a module always leaves both tables empty. An internal error stops the pass.
   */
  function Run(env: Env, st: AliasState, events: seq<Event>): (r: Result<Trace, InternalError>)
    ensures r.Success? ==> |r.value.outcomes| == |events|
    ensures r.Success? ==> forall i :: 0 <= i < |events| && events[i].LeaveModule? ==>
      r.value.outcomes[i].effect.aliases == NoAliases
    ensures r.Success? ==>
      r.value.aliases == if |events| == 0 then st else r.value.outcomes[|events| - 1].effect.aliases
    decreases |events|
  {
    if |events| == 0 then Success(Trace(st, []))
    else
      match Step(env, st, events[0])
      case Failure(err) => Failure(err)
      case Success(o) =>
        match Run(env, o.effect.aliases, events[1..])
        case Failure(err) => Failure(err)
        case Success(t) =>
          assert forall i :: 0 < i < |events| ==> events[i] == events[1..][i - 1];
          Success(Trace(t.aliases, [o] + t.outcomes))
  }

  /**
   * Every outcome of a traversal is the step of its event in the tables the previous event
   * left: a later node sees exactly the aliases the earlier ones registered.
   */
  lemma {:induction false} RunFollowsSteps(env: Env, st: AliasState, events: seq<Event>)
    requires Run(env, st, events).Success?
    ensures forall i :: 0 <= i < |events| ==>
      Step(env, TablesBefore(st, Run(env, st, events).value.outcomes, i), events[i])
        == Success(Run(env, st, events).value.outcomes[i])
    decreases |events|
  {
    if |events| > 0 {
      var o := Step(env, st, events[0]).value;
      var t := Run(env, o.effect.aliases, events[1..]).value;
      var outcomes := Run(env, st, events).value.outcomes;
      assert outcomes == [o] + t.outcomes;
      RunFollowsSteps(env, o.effect.aliases, events[1..]);
      forall i | 0 < i < |events|
        ensures Step(env, TablesBefore(st, outcomes, i), events[i]) == Success(outcomes[i])
      {
        assert events[i] == events[1..][i - 1];
        assert TablesBefore(st, outcomes, i) == TablesBefore(o.effect.aliases, t.outcomes, i - 1);
      }
    }
  }

  /**
   * A traversal fails only at an event whose step fails in the tables the events before it
   * left; every earlier event was handled successfully.
   */
  lemma {:induction false} RunFailsOnlyAtAFailingStep(env: Env, st: AliasState, events: seq<Event>)
    requires Run(env, st, events).Failure?
    ensures exists i :: 0 <= i < |events| && Run(env, st, events[..i]).Success?
                        && Step(env, Run(env, st, events[..i]).value.aliases, events[i]).Failure?
    decreases |events|
  {
    assert events[..0] == [];
    if Step(env, st, events[0]).Failure? {
      assert Run(env, st, events[..0]).Success?;
    } else {
      var o := Step(env, st, events[0]).value;
      RunFailsOnlyAtAFailingStep(env, o.effect.aliases, events[1..]);
      var j :| 0 <= j < |events[1..]| && Run(env, o.effect.aliases, events[1..][..j]).Success?
               && Step(env, Run(env, o.effect.aliases, events[1..][..j]).value.aliases,
                       events[1..][j]).Failure?;
      assert events[..j + 1][1..] == events[1..][..j];
      assert events[..j + 1][0] == events[0];
      assert events[1..][j] == events[j + 1];
      assert Run(env, st, events[..j + 1]).Success?;
    }
  }

  /**
   * `process`: the externs and then the main sources, the second traversal starting from the
   * tables the first left; with no module kind to rewrite in, nothing happens.
   */
  function Process(env: Env, st: AliasState, externs: seq<Event>, root: seq<Event>)
    : (r: Result<Trace, InternalError>)
    ensures env.typesToRewriteIn == {} ==> r == Success(Trace(st, []))
    ensures env.typesToRewriteIn != {} ==>
      (r.Success? <==>
         && Run(env, st, externs).Success?
         && Run(env, Run(env, st, externs).value.aliases, root).Success?)
    ensures env.typesToRewriteIn != {} && r.Success? ==>
      var first := Run(env, st, externs).value;
      var second := Run(env, first.aliases, root).value;
      && |r.value.outcomes| == |externs| + |root|
      && r.value.outcomes[..|externs|] == first.outcomes
      && r.value.outcomes[|externs|..] == second.outcomes
      && r.value.aliases == second.aliases
  {
    if env.typesToRewriteIn == {} then Success(Trace(st, []))
    else
      match Run(env, st, externs)
      case Failure(err) => Failure(err)
      case Success(t1) =>
        match Run(env, t1.aliases, root)
        case Failure(err) => Failure(err)
        case Success(t2) => Success(Trace(t2.aliases, t1.outcomes + t2.outcomes))
  }

  /** `hotSwapScript`: one changed script; with no module kind to rewrite in, nothing happens. */
  function HotSwapScript(env: Env, st: AliasState, script: seq<Event>): (r: Result<Trace, InternalError>)
    ensures env.typesToRewriteIn == {} ==> r == Success(Trace(st, []))
    ensures env.typesToRewriteIn != {} ==> r == Run(env, st, script)
  {
    if env.typesToRewriteIn == {} then Success(Trace(st, [])) else Run(env, st, script)
  }

  /** No visited node lies in a module of a kind the pass rewrites in. */
  predicate GateClosedThroughout(env: Env, events: seq<Event>)
  {
    forall i :: 0 <= i < |events| && events[i].VisitNode? ==> !GateOpen(env, events[i].current)
  }

  /**
   * When every visit is gated off, a traversal changes nothing: no tree action, no change
   * report, no diagnostic, JSDoc untouched, and tables that stay as they were until a module
   * is left and are empty from then on.
   */
  lemma {:induction false} ClosedGateIsInert(env: Env, st: AliasState, events: seq<Event>)
    requires GateClosedThroughout(env, events)
    ensures Run(env, st, events).Success?
    ensures forall i :: 0 <= i < |events| ==>
      && Run(env, st, events).value.outcomes[i].effect.action == Keep
      && !Run(env, st, events).value.outcomes[i].effect.changeReported
      && Run(env, st, events).value.outcomes[i].effect.diagnostic.None?
    ensures forall i :: 0 <= i < |events| && events[i].VisitNode? ==>
      Run(env, st, events).value.outcomes[i].typeRefs == events[i].typeRefs
    ensures (forall i :: 0 <= i < |events| ==> events[i].VisitNode?) ==>
      Run(env, st, events).value.aliases == st
    ensures st == NoAliases ==> Run(env, st, events).value.aliases == NoAliases
    decreases |events|
  {
    if |events| > 0 {
      var st1 := Step(env, st, events[0]).value.effect.aliases;
      assert st1 == st || st1 == NoAliases;
      assert GateClosedThroughout(env, events[1..]) by {
        forall i | 0 <= i < |events[1..]| && events[1..][i].VisitNode?
          ensures !GateOpen(env, events[1..][i].current)
        {
          assert events[1..][i] == events[i + 1];
        }
      }
      ClosedGateIsInert(env, st1, events[1..]);
      ClosedGateIsInert(env, NoAliases, events[1..]);
      assert forall i :: 0 < i < |events| ==> events[i] == events[1..][i - 1];
    }
  }

  /** With an empty set of module kinds to rewrite in, even a traversal would be a no-op. */
  lemma EmptyConfigurationIsInert(env: Env, events: seq<Event>)
    requires env.typesToRewriteIn == {}
    ensures Run(env, NoAliases, events).Success?
    ensures Run(env, NoAliases, events).value.aliases == NoAliases
    ensures forall i :: 0 <= i < |events| ==>
      Run(env, NoAliases, events).value.outcomes[i].effect.action == Keep
  {
    ClosedGateIsInert(env, NoAliases, events);
  }
}
