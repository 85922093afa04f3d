/** Running a workflow's nodes one by one: unknown types skipped, a stop ends quietly, a failure is rethrown. */
module Executor {
  import opened Text
  import opened Json
  import opened Context
  import opened GraphLoader

  /** What a step can see and change: the variables, and the client's data. */
  datatype World<C> = World(vars: Vars, client: C)

  /** A step ends normally, by throwing WfStop, or by throwing anything else; effects so far stay. */
  datatype StepEnd<C> = Ok(world: World<C>) | Stop(world: World<C>) | Fail(world: World<C>)

  type Step<!C> = (WfNode, World<C>) -> StepEnd<C>

  datatype RunEnd = Completed | Stopped | Threw

  datatype Entry = Skipped | Succeeded | StoppedHere | Failed

  /** How the run ended, the world it left, and one log entry per node looked at, in order. */
  datatype Run<C> = Run(end: RunEnd, world: World<C>, log: seq<Entry>)

  function RunFrom<C>(steps: map<string, Step<C>>, codec: Codec, nodes: seq<WfNode>, i: nat, w: World<C>): Run<C>
    requires i <= |nodes|
    decreases |nodes| - i
  {
    if i == |nodes| then Run(Completed, w, [])
    else if nodes[i].kind !in steps then
      var rest := RunFrom(steps, codec, nodes, i + 1, w);
      rest.(log := [Skipped] + rest.log)
    else
      match steps[nodes[i].kind](nodes[i].(parameters := Resolve(w.vars, codec, nodes[i].parameters)), w)
      case Ok(w') =>
        var rest := RunFrom(steps, codec, nodes, i + 1, w');
        rest.(log := [Succeeded] + rest.log)
      case Stop(w') => Run(Stopped, w', [StoppedHere])
      case Fail(w') => Run(Threw, w', [Failed])
  }

  // ---------------------------------------------------------------------
  // What a run means, node by node
  // ---------------------------------------------------------------------

  /** The world in which node `k` is reached when every node before it was skipped or succeeded. */
  ghost function WorldAt<C>(steps: map<string, Step<C>>, codec: Codec, nodes: seq<WfNode>, k: nat, w: World<C>): World<C>
    requires k <= |nodes|
  {
    if k == 0 then w
    else
      var before, node := WorldAt(steps, codec, nodes, k - 1, w), nodes[k - 1];
      if node.kind !in steps then before
      else steps[node.kind](node.(parameters := Resolve(before.vars, codec, node.parameters)), before).world
  }

  /** What happens at node `k`, its parameters resolved against the world the nodes before it left. */
  ghost function EntryAt<C>(steps: map<string, Step<C>>, codec: Codec, nodes: seq<WfNode>, k: nat, w: World<C>): Entry
    requires k < |nodes|
  {
    var node, before := nodes[k], WorldAt(steps, codec, nodes, k, w);
    if node.kind !in steps then Skipped
    else match steps[node.kind](node.(parameters := Resolve(before.vars, codec, node.parameters)), before)
         case Ok(_) => Succeeded
         case Stop(_) => StoppedHere
         case Fail(_) => Failed
  }

  ghost predicate Goes(e: Entry) {
    e == Skipped || e == Succeeded
  }

  /** The log is the entries of exactly a prefix of the nodes, cut after the first stop or failure. */
  ghost predicate Means<C>(steps: map<string, Step<C>>, codec: Codec, nodes: seq<WfNode>, i: nat, w: World<C>, run: Run<C>)
    requires i <= |nodes|
  {
    var log := run.log;
    && i + |log| <= |nodes|
    && (forall k {:trigger log[k]} :: 0 <= k < |log| ==> log[k] == EntryAt(steps, codec, nodes, i + k, w))
    && (forall k :: 0 <= k < |log| - 1 ==> Goes(log[k]))
    && run.world == WorldAt(steps, codec, nodes, i + |log|, w)
    && match run.end {
         case Completed => i + |log| == |nodes| && forall e :: e in log ==> Goes(e)
         case Stopped => log != [] && log[|log| - 1] == StoppedHere
         case Threw => log != [] && log[|log| - 1] == Failed
       }
  }

  lemma MeansCons<C>(steps: map<string, Step<C>>, codec: Codec, nodes: seq<WfNode>, i: nat, w: World<C>, e: Entry,
                     rest: Run<C>, run: Run<C>)
    requires i < |nodes| && Means(steps, codec, nodes, i + 1, w, rest)
    requires e == EntryAt(steps, codec, nodes, i, w) && Goes(e)
    requires run == rest.(log := [e] + rest.log)
    ensures Means(steps, codec, nodes, i, w, run)
  {
    hide WorldAt, EntryAt;
    forall k | 0 <= k < |run.log|
      ensures run.log[k] == EntryAt(steps, codec, nodes, i + k, w)
    {
      if k > 0 {
        assert run.log[k] == rest.log[k - 1];
        assert i + 1 + (k - 1) == i + k;
      }
    }
    forall k | 0 <= k < |run.log| - 1
      ensures Goes(run.log[k])
    {
      if k > 0 { assert run.log[k] == rest.log[k - 1]; }
    }
  }

  lemma {:induction false} RunFromMeans<C>(steps: map<string, Step<C>>, codec: Codec, nodes: seq<WfNode>, i: nat, w: World<C>)
    requires i <= |nodes|
    ensures Means(steps, codec, nodes, i, w,
                  RunFrom(steps, codec, nodes, i, WorldAt(steps, codec, nodes, i, w)))
    decreases |nodes| - i
  {
    var here := WorldAt(steps, codec, nodes, i, w);
    var run := RunFrom(steps, codec, nodes, i, here);
    if i < |nodes| {
      RunFromMeans(steps, codec, nodes, i + 1, w);
      var e := EntryAt(steps, codec, nodes, i, w);
      if Goes(e) {
        MeansCons(steps, codec, nodes, i, w, e,
                  RunFrom(steps, codec, nodes, i + 1, WorldAt(steps, codec, nodes, i + 1, w)), run);
      } else {
        assert run.log == [e];
      }
    }
  }

  /** Each run, however it ends, tries exactly a prefix of the registered-type nodes, in order, each one
      against the world its predecessors left; all but the last of those tried succeeded. */
  lemma RunMeaning<C>(steps: map<string, Step<C>>, codec: Codec, nodes: seq<WfNode>, w: World<C>)
    ensures Means(steps, codec, nodes, 0, w, RunFrom(steps, codec, nodes, 0, w))
  {
    RunFromMeans(steps, codec, nodes, 0, w);
  }

  /** Before any node the run reaches, every node of a registered type succeeded and the rest were skipped. */
  lemma EarlierNodesRan<C>(steps: map<string, Step<C>>, codec: Codec, nodes: seq<WfNode>, w: World<C>, k: nat, j: nat)
    requires j < k < |RunFrom(steps, codec, nodes, 0, w).log|
    ensures j < |nodes|
    ensures RunFrom(steps, codec, nodes, 0, w).log[j] == if nodes[j].kind in steps then Succeeded else Skipped
  {
    RunMeaning(steps, codec, nodes, w);
    hide RunFrom, WorldAt;
    var log := RunFrom(steps, codec, nodes, 0, w).log;
    assert Goes(log[j]);
    assert log[j] == EntryAt(steps, codec, nodes, 0 + j, w);
  }

  /** What a step is handed at node `k`: the node itself, each string in its parameters resolved, as `ResolvesTo` has
      it, against the variables its predecessors left. The run logs how that call ends and goes on in its world. */
  lemma StepIsHanded<C>(steps: map<string, Step<C>>, codec: Codec, nodes: seq<WfNode>, w: World<C>, k: nat)
    returns (handed: WfNode)
    requires k < |nodes| && k < |RunFrom(steps, codec, nodes, 0, w).log| && nodes[k].kind in steps
    ensures handed.id == nodes[k].id && handed.kind == nodes[k].kind && handed.outputs == nodes[k].outputs
    ensures ResolvesTo(WorldAt(steps, codec, nodes, k, w).vars, codec, nodes[k].parameters, handed.parameters)
    ensures
      var call := steps[nodes[k].kind](handed, WorldAt(steps, codec, nodes, k, w));
      var entry := RunFrom(steps, codec, nodes, 0, w).log[k];
      && (call.Ok? <==> entry == Succeeded)
      && (call.Stop? <==> entry == StoppedHere)
      && (call.Fail? <==> entry == Failed)
      && WorldAt(steps, codec, nodes, k + 1, w) == call.world
  {
    RunMeaning(steps, codec, nodes, w);
    var before := WorldAt(steps, codec, nodes, k, w);
    ResolveMeaning(before.vars, codec, nodes[k].parameters);
    handed := nodes[k].(parameters := Resolve(before.vars, codec, nodes[k].parameters));
    hide RunFrom, ResolvesTo;
    assert RunFrom(steps, codec, nodes, 0, w).log[k] == EntryAt(steps, codec, nodes, 0 + k, w);
  }

  class WfExecutor<C> {
    var steps: map<string, Step<C>>

    constructor ()
      ensures steps == map[]
    {
      steps := map[];
    }

    method RegisterStep(kind: string, step: Step<C>)
      modifies this
      ensures steps == old(steps)[kind := step]
    {
      steps := steps[kind := step];
    }

    method ExecuteNodes(codec: Codec, nodes: seq<WfNode>, start: World<C>) returns (run: Run<C>)
      ensures run == RunFrom(steps, codec, nodes, 0, start)
    {
      var w, log := start, [];
      ghost var whole := RunFrom(steps, codec, nodes, 0, start);
      assert [] + whole.log == whole.log;
      for i := 0 to |nodes|
        invariant Continues(whole, log, RunFrom(steps, codec, nodes, i, w))
      {
        ghost var rest := RunFrom(steps, codec, nodes, i, w);
        var node := nodes[i];
        if node.kind !in steps {
          Extend(whole, log, Skipped, rest, RunFrom(steps, codec, nodes, i + 1, w));
          log := log + [Skipped];
          continue;
        }
        var resolved := node.(parameters := Resolve(w.vars, codec, node.parameters));
        match steps[node.kind](resolved, w) {
          case Ok(w') =>
            Extend(whole, log, Succeeded, rest, RunFrom(steps, codec, nodes, i + 1, w'));
            w, log := w', log + [Succeeded];
          case Stop(w') =>
            return Run(Stopped, w', log + [StoppedHere]);
          case Fail(w') =>
            return Run(Threw, w', log + [Failed]);
        }
      }
      assert log + [] == log;
      return Run(Completed, w, log);
    }
  }

  /** `whole` is what was logged so far followed by `rest`. */
  ghost predicate Continues<C>(whole: Run<C>, log: seq<Entry>, rest: Run<C>) {
    whole == Run(rest.end, rest.world, log + rest.log)
  }

  lemma Extend<C>(whole: Run<C>, log: seq<Entry>, e: Entry, rest: Run<C>, next: Run<C>)
    requires Continues(whole, log, rest) && rest == next.(log := [e] + next.log)
    ensures Continues(whole, log + [e], next)
  {
    Assoc(log, [e], next.log);
  }
}
