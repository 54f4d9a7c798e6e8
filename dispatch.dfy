/** Action processors: a registry from action name to processor, and the loop that runs
    the processor of every registered action of a message, isolating failures. */
module Dispatch {
  import opened Wrappers

  /** What a processor is told about the message (`ActionContext`); the storage client it
      also receives is not part of this model. */
  datatype Context = Context(
    messageText: string,
    logContent: string,
    fromNumber: string,
    toNumber: string,
    messageSid: string,
    location: string,
    timestamp: string,
    bucket: string)

  /** A processor returns its value, or the text of the exception it raised. */
  type Processor = Context -> Result<string>

  /** One record of `process_actions`: a success carrying the processor's value, or a
      failure carrying the error text. */
  datatype ActionResult = Succeeded(action: string, result: string) | Failed(action: string, error: string)

  /** The record produced by running processor p for the given action. */
  function Outcome(action: string, p: Processor, ctx: Context): (r: ActionResult)
    ensures r.action == action
    ensures r.Succeeded? <==> p(ctx).Ok?
    ensures r.Succeeded? ==> r.result == p(ctx).value
    ensures r.Failed? ==> r.error == p(ctx).error
  {
    match p(ctx)
    case Ok(v) => Succeeded(action, v)
    case Err(e) => Failed(action, e)
  }

  /** The records of running the registered actions, in order; unregistered actions give
      none. */
  function Run(processors: map<string, Processor>, actions: seq<string>, ctx: Context): seq<ActionResult> {
    if actions == [] then []
    else
      var a := actions[|actions| - 1];
      Run(processors, actions[..|actions| - 1], ctx)
        + (if a in processors then [Outcome(a, processors[a], ctx)] else [])
  }

  /** The actions that have a processor, in order and with repeats kept. */
  function Registered(processors: map<string, Processor>, actions: seq<string>): (r: seq<string>)
    ensures |r| <= |actions|
    ensures forall k :: 0 <= k < |r| ==> r[k] in processors && r[k] in actions
  {
    if actions == [] then []
    else
      var a := actions[|actions| - 1];
      Registered(processors, actions[..|actions| - 1]) + (if a in processors then [a] else [])
  }

  /** Running one more action appends its record, if it has a processor. */
  lemma RunStep(processors: map<string, Processor>, actions: seq<string>, i: nat, ctx: Context)
    requires i < |actions|
    ensures Run(processors, actions[..i + 1], ctx)
      == Run(processors, actions[..i], ctx)
         + (if actions[i] in processors then [Outcome(actions[i], processors[actions[i]], ctx)] else [])
  {
    assert actions[..i + 1][..i] == actions[..i];
  }

  /** Failure isolation: the records of a sequence of actions are those of its first part
      followed by those of the rest, whatever the first part's processors did. */
  lemma {:induction false} RunAppend(processors: map<string, Processor>, a: seq<string>, b: seq<string>, ctx: Context)
    ensures Run(processors, a + b, ctx) == Run(processors, a, ctx) + Run(processors, b, ctx)
    decreases |b|
  {
    if b == [] {
      assert a + b == a;
    } else {
      var b' := b[..|b| - 1];
      assert (a + b)[..|a + b| - 1] == a + b';
      assert (a + b)[|a + b| - 1] == b[|b| - 1];
      RunAppend(processors, a, b', ctx);
    }
  }

  /** Exactly one record per registered action, the i-th belonging to the i-th registered
      action and being that processor's outcome. */
  lemma {:induction false} RunRecords(processors: map<string, Processor>, actions: seq<string>, ctx: Context)
    ensures var rs, names := Run(processors, actions, ctx), Registered(processors, actions);
      |rs| == |names| &&
      forall k :: 0 <= k < |rs| ==> rs[k] == Outcome(names[k], processors[names[k]], ctx)
  {
    if actions != [] {
      RunRecords(processors, actions[..|actions| - 1], ctx);
    }
  }

  /** An action without a processor contributes nothing, wherever it stands. */
  lemma UnregisteredSkipped(processors: map<string, Processor>, a: seq<string>, x: string, b: seq<string>, ctx: Context)
    requires x !in processors
    ensures Run(processors, a + [x] + b, ctx) == Run(processors, a + b, ctx)
  {
    RunAppend(processors, a + [x], b, ctx);
    RunAppend(processors, a, [x], ctx);
    RunAppend(processors, a, b, ctx);
    assert [x][..0] == [];
  }

  /** The registry of action processors (`ACTION_PROCESSORS` and its decorator). */
  class Registry {
    var processors: map<string, Processor>

    /** An empty registry. */
    constructor ()
      ensures processors == map[]
    {
      processors := map[];
    }

    /** `@action_processor(name)`: registers p under name, replacing an earlier one. */
    method Register(name: string, p: Processor)
      modifies this
      ensures processors == old(processors)[name := p]
    {
      processors := processors[name := p];
    }

    /** `process_actions`: one record for every registered action, in action order. */
    method ProcessActions(actions: seq<string>, ctx: Context) returns (results: seq<ActionResult>)
      ensures results == Run(processors, actions, ctx)
    {
      results := [];
      var i := 0;
      while i < |actions|
        invariant 0 <= i <= |actions|
        invariant results == Run(processors, actions[..i], ctx)
      {
        var action := actions[i];
        RunStep(processors, actions, i, ctx);
        if action in processors {
          var r := Outcome(action, processors[action], ctx);
          results := results + [r];
        }
        i := i + 1;
      }
      assert actions[..i] == actions;
    }
  }
}
