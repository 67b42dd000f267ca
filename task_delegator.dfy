/**
 * The delegator tool (`TaskDelegator._run`): checks its dictionary argument,
 * reads the `steps` of a JSON plan and maps each step, by ordered substring
 * tests, to a task for another agent; the delegated tasks come back joined by ", ".
 * `json.loads` is a parameter (`ParseJson`).
 */
module TaskDelegator {
  import opened Common
  import opened PyStrings

  const ErrorPrefix := "Error during task delegation: "
  const PlanKey := "plan_json"
  const PathKey := "maf_file_path"

  const SummarizePhrase := "Summarize MAF file"
  const SomaticPhrase := "Perform somatic interaction analysis"
  const DrugGenePhrase := "Identify drug-gene interactions"

  const LocatedAt := "located at: "
  const SummarizeTask := "Summarize the MAF file " + LocatedAt
  const SomaticTask := "Perform somatic interaction analysis on the MAF file " + LocatedAt
  const DrugGeneTask := "Identify potential therapeutic targets from the MAF file " + LocatedAt
  const UnknownTask := "Unknown Task: "

  /**
   * What `json.loads(plan_json)` gives: a decoding error with its message, a
   * value that is not an object (with its Python type name), or an object
   * whose `steps` key may be missing.
   */
  datatype ParsedPlan =
    | Unparsable(message: string)
    | NotAnObject(typeName: string)
    | PlanObject(steps: Option<seq<string>>)

  type ParseJson = string -> ParsedPlan

  /** The kinds of task a step can be delegated as. */
  datatype Kind = Summarize | Somatic | DrugGene | Unknown

  /** The kind of a step: the first of the three phrases, in this order, that it contains. */
  function StepKind(step: string): Kind {
    if Contains(step, SummarizePhrase) then Summarize
    else if Contains(step, SomaticPhrase) then Somatic
    else if Contains(step, DrugGenePhrase) then DrugGene
    else Unknown
  }

  /** The fixed head of the delegated text for a recognized kind. */
  function Head(kind: Kind): string
    requires kind != Unknown
  {
    match kind
    case Summarize => SummarizeTask
    case Somatic => SomaticTask
    case DrugGene => DrugGeneTask
  }

  /** The delegated text for one step: the head of its kind and the path, or the step behind "Unknown Task: ". */
  function Delegate(step: string, path: string): string {
    var kind := StepKind(step);
    if kind == Unknown then UnknownTask + step else Head(kind) + path
  }

  /**
   * What follows the fixed head of a task is the path, verbatim, for a
   * recognized step, and the step itself otherwise.
   */
  lemma DelegateRoundTrip(step: string, path: string)
    ensures StepKind(step) != Unknown ==>
      StartsWith(Delegate(step, path), Head(StepKind(step))) &&
      Delegate(step, path)[|Head(StepKind(step))|..] == path
    ensures StepKind(step) == Unknown ==>
      StartsWith(Delegate(step, path), UnknownTask) && Delegate(step, path)[|UnknownTask|..] == step
  {
    var task := Delegate(step, path);
    var kind := StepKind(step);
    if kind == Unknown {
      assert task[..|UnknownTask|] == UnknownTask;
      SuffixOfConcat(UnknownTask, step);
    } else {
      assert task[..|Head(kind)|] == Head(kind);
      SuffixOfConcat(Head(kind), path);
    }
  }

  /** Every recognized task has "located at: " just before the path. */
  lemma TaskNamesPath(step: string, path: string)
    requires StepKind(step) != Unknown
    ensures var head := Head(StepKind(step));
      Delegate(step, path) == head + path &&
      |LocatedAt| <= |head| && head[|head| - |LocatedAt|..] == LocatedAt
  {
    match StepKind(step)
    case Summarize => SuffixOfConcat("Summarize the MAF file ", LocatedAt);
    case Somatic => SuffixOfConcat("Perform somatic interaction analysis on the MAF file ", LocatedAt);
    case DrugGene => SuffixOfConcat("Identify potential therapeutic targets from the MAF file ", LocatedAt);
  }

  /**
   * The tests are ordered: a step containing the summary phrase is a summary
   * task whatever else it names; the analysis phrase counts only without the
   * summary phrase, the drug-gene phrase only without both; a step with none
   * of them is unknown.
   */
  lemma FirstPhraseWins(step: string, path: string)
    ensures Contains(step, SummarizePhrase) ==> Delegate(step, path) == SummarizeTask + path
    ensures !Contains(step, SummarizePhrase) && Contains(step, SomaticPhrase) ==>
      Delegate(step, path) == SomaticTask + path
    ensures !Contains(step, SummarizePhrase) && !Contains(step, SomaticPhrase) && Contains(step, DrugGenePhrase) ==>
      Delegate(step, path) == DrugGeneTask + path
    ensures !Contains(step, SummarizePhrase) && !Contains(step, SomaticPhrase) && !Contains(step, DrugGenePhrase) ==>
      Delegate(step, path) == UnknownTask + step
  {
  }

  /** A step naming the summary first and the analysis after is a summary task. */
  lemma SummaryBeforeAnalysis(path: string)
    ensures Delegate(SummarizePhrase + " and " + SomaticPhrase, path) == SummarizeTask + path
  {
    var step := SummarizePhrase + " and " + SomaticPhrase;
    assert step[0..|SummarizePhrase|] == SummarizePhrase;
    OccursThenContains(step, SummarizePhrase, 0);
    FirstPhraseWins(step, path);
  }

  /**
   * The loop over the steps: one task per step, in step order. The body of
   * the loop, `Delegate` for the plan's path, is passed in as `delegate`.
   */
  method DelegateAll(steps: seq<string>, delegate: string -> string) returns (tasks: seq<string>)
    ensures |tasks| == |steps|
    ensures forall t :: 0 <= t < |steps| ==> tasks[t] == delegate(steps[t])
  {
    tasks := [];
    for k := 0 to |steps|
      invariant |tasks| == k
      invariant forall t :: 0 <= t < k ==> tasks[t] == delegate(steps[t])
    {
      var task := delegate(steps[k]);
      tasks := tasks + [task];
    }
  }

  /** The delegated tasks for `steps`, position by position. */
  function Tasks(steps: seq<string>, path: string): seq<string> {
    seq(|steps|, t requires 0 <= t < |steps| => Delegate(steps[t], path))
  }

  /** What `_run` returns for argument `arg`. */
  function Outcome(arg: Arg, parse: ParseJson): string
  {
    match arg
    case NotADict => ErrorPrefix + "Input must be a dictionary."
    case Dict(entries) =>
      if PlanKey !in entries || PathKey !in entries then
        ErrorPrefix + "Input dictionary must contain the keys 'plan_json' and 'maf_file_path'."
      else
        match parse(entries[PlanKey])
        case Unparsable(message) => "Error: Could not parse plan as JSON. Error: " + message
        case NotAnObject(typeName) => ErrorPrefix + "'" + typeName + "' object has no attribute 'get'"
        case PlanObject(steps) => Join(Tasks(OrEmpty(steps), entries[PathKey]), ", ")
  }

  /** A bad argument, and a plan that is not an object, give the delegation error prefix. */
  lemma OutcomeErrors(arg: Arg, parse: ParseJson)
    ensures arg.NotADict? || PlanKey !in arg.entries || PathKey !in arg.entries ==>
      StartsWith(Outcome(arg, parse), ErrorPrefix)
    ensures (arg.Dict? && PlanKey in arg.entries && PathKey in arg.entries &&
             parse(arg.entries[PlanKey]).NotAnObject?) ==>
      StartsWith(Outcome(arg, parse), ErrorPrefix)
    ensures (arg.Dict? && PlanKey in arg.entries && PathKey in arg.entries &&
             parse(arg.entries[PlanKey]) == PlanObject(None)) ==>
      Outcome(arg, parse) == ""
  {
    var out := Outcome(arg, parse);
    if arg.NotADict? {
      StartsWithConcat(ErrorPrefix, "Input must be a dictionary.", "", ErrorPrefix);
    } else if PlanKey !in arg.entries || PathKey !in arg.entries {
      StartsWithConcat(ErrorPrefix, "Input dictionary must contain the keys 'plan_json' and 'maf_file_path'.", "",
                       ErrorPrefix);
    } else if parse(arg.entries[PlanKey]).NotAnObject? {
      StartsWithConcat(ErrorPrefix, "'" + parse(arg.entries[PlanKey]).typeName, "' object has no attribute 'get'",
                       ErrorPrefix);
    }
  }

  /** `_run(inputs)`: the checks, the parse, the loop over the steps and the join. */
  method Run(arg: Arg, parse: ParseJson) returns (out: string)
    ensures out == Outcome(arg, parse)
  {
    if arg.NotADict? {
      return ErrorPrefix + "Input must be a dictionary.";
    }
    if PlanKey !in arg.entries || PathKey !in arg.entries {
      return ErrorPrefix + "Input dictionary must contain the keys 'plan_json' and 'maf_file_path'.";
    }
    var path := arg.entries[PathKey];
    match parse(arg.entries[PlanKey])
    case Unparsable(message) =>
      out := "Error: Could not parse plan as JSON. Error: " + message;
    case NotAnObject(typeName) =>
      out := ErrorPrefix + "'" + typeName + "' object has no attribute 'get'";
    case PlanObject(steps) =>
      var tasks := DelegateAll(OrEmpty(steps), step => Delegate(step, path));
      assert tasks == Tasks(OrEmpty(steps), path);
      out := Join(tasks, ", ");
  }

  /** `plan.get("steps", [])` */
  function OrEmpty(steps: Option<seq<string>>): seq<string> {
    match steps
    case Some(s) => s
    case None => []
  }
}
