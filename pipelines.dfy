/** `executePipeline`: the steps of a pipeline run in order, each on the
    batch the previous one produced. */
module Pipelines {
  import opened Common
  import opened Values
  import opened PipelineSteps
  import opened Aggregation
  import opened Joins
  import opened Deduplication

  datatype Step =
    | FilterStep(filter: FilterConfig)
    | TransformStep(transform: TransformConfig)
    | AggregateStep(aggregate: AggregateConfig)
    | JoinStep(join: JoinConfig)
    | SortStep(field: string, ascending: bool)
    | DedupeStep(fields: Option<seq<string>>)
    | EnrichStep(enrichment: Enrichment)
    | UnknownStep(kind: string)

  /** What one step makes of a batch. */
  function Apply(step: Step, data: seq<Record>, env: Env): Result<seq<Record>>
  {
    match step
    case FilterStep(c) => Ok(Filter(data, c))
    case TransformStep(c) => Ok(Transform(data, c, env))
    case AggregateStep(c) => Ok(AggregateSpec(data, c))
    case JoinStep(c) => Ok(JoinSpec(data, c))
    case SortStep(field, ascending) => Ok(SortRecords(data, field, ascending))
    case DedupeStep(fields) => Ok(Dedupe(data, KeyFn(fields)))
    case EnrichStep(e) => Enrich(data, e, env)
    case UnknownStep(_) => Ok(data)
  }

  /** The steps applied in order; the first error ends the run. */
  function Run(steps: seq<Step>, data: seq<Record>, env: Env): Result<seq<Record>>
    decreases |steps|
  {
    if |steps| == 0 then Ok(data)
    else
      match Run(steps[..|steps| - 1], data, env)
      case Ok(d) => Apply(steps[|steps| - 1], d, env)
      case Err(e) => Err(e)
  }

  method ExecutePipeline(steps: seq<Step>, input: seq<Record>, env: Env) returns (r: Result<seq<Record>>)
    ensures r == Run(steps, input, env)
  {
    var data := input;
    var i := 0;
    while i < |steps|
      invariant 0 <= i <= |steps|
      invariant Run(steps[..i], input, env) == Ok(data)
    {
      RunStep(steps, input, env, i, data);
      var next := ExecuteStep(steps[i], data, env);
      if next.Err? {
        RunErrorSticks(steps, input, env, i + 1);
        assert steps[..|steps|] == steps;
        return next;
      }
      data := next.value;
      i := i + 1;
    }
    assert steps[..i] == steps;
    r := Ok(data);
  }

  /** One step of the run, by the step's own method where it has one. */
  method ExecuteStep(step: Step, data: seq<Record>, env: Env) returns (r: Result<seq<Record>>)
    ensures r == Apply(step, data, env)
  {
    match step {
      case AggregateStep(c) =>
        var d := Aggregation.AggregateStep(data, c);
        r := Ok(d);
      case JoinStep(c) =>
        var d := Joins.JoinStep(data, c);
        r := Ok(d);
      case DedupeStep(fields) =>
        var d := Deduplication.DedupeStep(data, fields);
        r := Ok(d);
      case _ =>
        r := Apply(step, data, env);
    }
  }

  /** One more step applies that step to the batch so far. */
  lemma RunStep(steps: seq<Step>, input: seq<Record>, env: Env, i: nat, data: seq<Record>)
    requires i < |steps| && Run(steps[..i], input, env) == Ok(data)
    ensures Run(steps[..i + 1], input, env) == Apply(steps[i], data, env)
  {
    assert steps[..i + 1][..i] == steps[..i];
  }

  /** Once a run has failed, later steps do not change the error. */
  lemma {:induction false} RunErrorSticks(steps: seq<Step>, data: seq<Record>, env: Env, i: nat)
    requires i <= |steps| && Run(steps[..i], data, env).Err?
    ensures Run(steps, data, env) == Run(steps[..i], data, env)
    decreases |steps| - i
  {
    if i < |steps| {
      assert steps[..i + 1][..i] == steps[..i];
      RunErrorSticks(steps, data, env, i + 1);
    } else {
      assert steps[..i] == steps;
    }
  }

  /** Running two lists of steps one after the other is running their
      concatenation. */
  lemma {:induction false} RunAppend(a: seq<Step>, b: seq<Step>, data: seq<Record>, env: Env)
    ensures Run(a + b, data, env) ==
      match Run(a, data, env)
      case Ok(d) => Run(b, d, env)
      case Err(e) => Err(e)
    decreases |b|
  {
    if |b| == 0 {
      assert a + b == a;
    } else {
      var init := b[..|b| - 1];
      assert (a + b)[..|a + b| - 1] == a + init;
      RunAppend(a, init, data, env);
    }
  }

  /** An unknown step type is skipped: removing it from anywhere in the
      list of steps changes nothing, and the steps after it still run. */
  lemma UnknownStepSkipped(a: seq<Step>, kind: string, b: seq<Step>, data: seq<Record>, env: Env)
    ensures Run(a + [UnknownStep(kind)] + b, data, env) == Run(a + b, data, env)
  {
    RunAppend(a + [UnknownStep(kind)], b, data, env);
    RunAppend(a, [UnknownStep(kind)], data, env);
    RunAppend(a, b, data, env);
    match Run(a, data, env)
    case Ok(d) => RunUnknown(kind, d, env);
    case Err(_) =>
  }

  lemma RunUnknown(kind: string, data: seq<Record>, env: Env)
    ensures Run([UnknownStep(kind)], data, env) == Ok(data)
  {
    assert [UnknownStep(kind)][..0] == [];
    assert Run([], data, env) == Ok(data);
    assert Apply(UnknownStep(kind), data, env) == Ok(data);
  }
}
