/** The iteration loop of `ralph run` (run.js `run`): prerequisite gate,
    up-front completion check, then at most `--max` iterations, each of
    which re-reads the story list, selects a story, invokes the agent once
    and stops if the agent printed the completion marker.

    The environment is abstracted: file existence and the `which claude`
    probe are booleans, and the agent is an oracle that says, for each
    iteration, what the story list looks like after its run and what it
    wrote to standard output and standard error. */
module Controller {
  import opened JsValues
  import opened JsNumbers
  import opened Prd
  import opened Selector
  import opened Signal

  /** The prerequisites, in the order run.js checks them. */
  datatype Prerequisite = RalphDir | PrdFile | PromptFile | AgentExecutable

  /** What the controller finds on the host when it starts. */
  datatype Environment = Environment(
    ralphDirExists: bool,
    prdExists: bool,
    promptExists: bool,
    agentOnPath: bool,
    prd: Document,
    prompt: string)

  /** What one agent run leaves behind: `prd.json`'s story list after the
      run, the standard output and standard error chunks in arrival order,
      and the exit code. */
  datatype AgentRun = AgentRun(
    storiesAfter: seq<Story>,
    stdout: seq<string>,
    stderr: seq<string>,
    exitCode: int)

  /** The agent's behaviour, indexed by iteration number (1 for the first). */
  type Agent = nat -> AgentRun

  /** One spawn of the agent: in which iteration, for which story (shown in
      the banner only) and with which prompt text. */
  datatype Invocation = Invocation(iteration: nat, story: Story, prompt: string)

  /** How the run ends. */
  datatype Termination =
    | MissingPrerequisite(missing: Prerequisite)
    | NothingPending
    | CompletionSignalled
    | BudgetExhausted
  {
    /** The status passed to `process.exit`. */
    function ExitCode(): int {
      match this
      case MissingPrerequisite(_) => 1
      case NothingPending => 0
      case CompletionSignalled => 0
      case BudgetExhausted => 2
    }
  }

  datatype Outcome = Outcome(termination: Termination, invocations: seq<Invocation>)

  /** The first prerequisite that is missing, checked in source order. */
  function FirstMissing(env: Environment): (r: Option<Prerequisite>)
    ensures r.None? <==>
      env.ralphDirExists && env.prdExists && env.promptExists && env.agentOnPath
    ensures r == Some(RalphDir) <==> !env.ralphDirExists
    ensures r == Some(PrdFile) <==> env.ralphDirExists && !env.prdExists
    ensures r == Some(PromptFile) <==>
      env.ralphDirExists && env.prdExists && !env.promptExists
    ensures r == Some(AgentExecutable) <==>
      env.ralphDirExists && env.prdExists && env.promptExists && !env.agentOnPath
  {
    if !env.ralphDirExists then Some(RalphDir)
    else if !env.prdExists then Some(PrdFile)
    else if !env.promptExists then Some(PromptFile)
    else if !env.agentOnPath then Some(AgentExecutable)
    else None
  }

  /** How many passes `for (let i = 1; i <= parseInt(max, 10); i++)` makes:
      none when the option is not a number (`1 <= NaN` is false) or not
      positive. */
  function Budget(maxArg: string): (n: nat)
    ensures ParseInt(maxArg).None? ==> n == 0
    ensures ParseInt(maxArg).Some? && ParseInt(maxArg).value <= 0 ==> n == 0
    ensures ParseInt(maxArg).Some? && ParseInt(maxArg).value > 0 ==> n == ParseInt(maxArg).value
  {
    match ParseInt(maxArg)
    case None => 0
    case Some(v) => if v > 0 then v else 0
  }

  /** The story list iteration `j` reads, when iteration `start` read
      `first`: every later iteration reads what the previous run left. */
  function Reread(first: seq<Story>, start: nat, agent: Agent, j: nat): seq<Story> {
    if j <= start then first else agent(j - 1).storiesAfter
  }

  /** Iteration `i + 1 + n` reads the same list whether counted from
      iteration `i` or from iteration `i + 1`. */
  lemma RereadShift(first: seq<Story>, i: nat, agent: Agent, n: nat)
    ensures Reread(first, i, agent, i + 1 + n) == Reread(agent(i).storiesAfter, i + 1, agent, i + 1 + n)
  {
  }

  /** `invocations` is what iterations `i, i + 1, ...` spawn when iteration
      `i` reads `stories`: consecutive iteration numbers, the prompt text
      unchanged, the story the selector picks from the list re-read in
      that iteration, and no completion marker before the last one. */
  ghost predicate FollowsLoop(invocations: seq<Invocation>, i: nat, stories: seq<Story>, prompt: string, agent: Agent) {
    && (forall k :: 0 <= k < |invocations| ==>
          && invocations[k].iteration == i + k
          && invocations[k].prompt == prompt
          && SelectNext(Reread(stories, i, agent, i + k)) == Some(invocations[k].story))
    && (forall k :: 0 <= k < |invocations| - 1 ==>
          !HasCompletionMarker(agent(invocations[k].iteration).stdout))
  }

  /** One more iteration in front of a trace that follows the loop. */
  lemma FollowsLoopCons(first: Invocation, rest: seq<Invocation>, i: nat, stories: seq<Story>, prompt: string, agent: Agent)
    requires SelectNext(stories).Some? && first == Invocation(i, SelectNext(stories).value, prompt)
    requires !HasCompletionMarker(agent(i).stdout)
    requires FollowsLoop(rest, i + 1, agent(i).storiesAfter, prompt, agent)
    ensures FollowsLoop([first] + rest, i, stories, prompt, agent)
  {
    var invocations := [first] + rest;
    forall k | 0 <= k < |invocations|
      ensures invocations[k].iteration == i + k
      ensures invocations[k].prompt == prompt
      ensures SelectNext(Reread(stories, i, agent, i + k)) == Some(invocations[k].story)
    {
      if k > 0 {
        assert invocations[k] == rest[k - 1];
        assert Reread(stories, i, agent, i + k) == Reread(agent(i).storiesAfter, i + 1, agent, i + 1 + (k - 1));
      }
    }
    forall k | 0 <= k < |invocations| - 1
      ensures !HasCompletionMarker(agent(invocations[k].iteration).stdout)
    {
      if k > 0 {
        assert invocations[k] == rest[k - 1];
      }
    }
  }

  /** Iterations `i..budget` of the loop, `stories` being the list that
      iteration `i` reads. Its properties are stated by `LoopFacts`. */
  function Loop(i: nat, budget: nat, stories: seq<Story>, prompt: string, agent: Agent): Outcome
    requires 1 <= i <= budget + 1
    decreases budget + 1 - i
  {
    if i > budget then
      Outcome(BudgetExhausted, [])
    else
      match SelectNext(stories)
      case None => Outcome(NothingPending, [])
      case Some(next) =>
        var run := agent(i);
        if HasCompletionMarker(run.stdout) then
          Outcome(CompletionSignalled, [Invocation(i, next, prompt)])
        else
          var rest := Loop(i + 1, budget, run.storiesAfter, prompt, agent);
          Outcome(rest.termination, [Invocation(i, next, prompt)] + rest.invocations)
  }

  /** An iteration that selects a story and sees no marker hands over to
      the next one. */
  lemma LoopStep(i: nat, budget: nat, stories: seq<Story>, prompt: string, agent: Agent)
    requires 1 <= i <= budget
    requires SelectNext(stories).Some? && !HasCompletionMarker(agent(i).stdout)
    ensures var rest := Loop(i + 1, budget, agent(i).storiesAfter, prompt, agent);
      Loop(i, budget, stories, prompt, agent) ==
        Outcome(rest.termination, [Invocation(i, SelectNext(stories).value, prompt)] + rest.invocations)
  {
  }

  /** The three ways an iteration ends the loop: past the budget, with
      nothing pending, or after the agent printed the marker. */
  lemma LoopStops(i: nat, budget: nat, stories: seq<Story>, prompt: string, agent: Agent)
    requires 1 <= i <= budget + 1
    ensures i > budget ==> Loop(i, budget, stories, prompt, agent) == Outcome(BudgetExhausted, [])
    ensures i <= budget && SelectNext(stories).None? ==>
      Loop(i, budget, stories, prompt, agent) == Outcome(NothingPending, [])
    ensures i <= budget && SelectNext(stories).Some? && HasCompletionMarker(agent(i).stdout) ==>
      Loop(i, budget, stories, prompt, agent) ==
        Outcome(CompletionSignalled, [Invocation(i, SelectNext(stories).value, prompt)])
  {
  }

  /** An iteration that hands over to the next keeps the termination and
      adds one spawn. */
  lemma LoopAdvances(i: nat, budget: nat, stories: seq<Story>, prompt: string, agent: Agent)
    requires 1 <= i <= budget
    requires SelectNext(stories).Some? && !HasCompletionMarker(agent(i).stdout)
    ensures var rest := Loop(i + 1, budget, agent(i).storiesAfter, prompt, agent);
      && Loop(i, budget, stories, prompt, agent).termination == rest.termination
      && |Loop(i, budget, stories, prompt, agent).invocations| == 1 + |rest.invocations|
  {
    LoopStep(i, budget, stories, prompt, agent);
  }

  /** How many agents the loop spawns from iteration `i` on, and why it
      stops: never on a missing prerequisite; with the budget exhausted
      only after using all of it; on an empty pending list only in an
      iteration within the budget. */
  lemma {:induction false} LoopEnds(i: nat, budget: nat, stories: seq<Story>, prompt: string, agent: Agent)
    requires 1 <= i <= budget + 1
    ensures var o := Loop(i, budget, stories, prompt, agent);
      && !o.termination.MissingPrerequisite?
      && i + |o.invocations| <= budget + 1
      && (o.termination.BudgetExhausted? ==> i + |o.invocations| == budget + 1)
      && (o.termination.NothingPending? ==>
            i + |o.invocations| <= budget
            && !HasPending(Reread(stories, i, agent, i + |o.invocations|)))
    decreases budget + 1 - i
  {
    LoopStops(i, budget, stories, prompt, agent);
    if i <= budget && SelectNext(stories).Some? && !HasCompletionMarker(agent(i).stdout) {
      var after := agent(i).storiesAfter;
      var rest := Loop(i + 1, budget, after, prompt, agent);
      var o := Loop(i, budget, stories, prompt, agent);
      LoopEnds(i + 1, budget, after, prompt, agent);
      LoopAdvances(i, budget, stories, prompt, agent);
      assert o.termination == rest.termination;
      assert i + |o.invocations| == i + 1 + |rest.invocations|;
      RereadShift(stories, i, agent, |rest.invocations|);
    } else if i <= budget && SelectNext(stories).None? {
      SelectNextSpec(stories);
      assert Reread(stories, i, agent, i + 0) == stories;
    }
  }

  /** The loop stops on the marker exactly when the last agent it spawned
      printed it. */
  lemma {:induction false} LoopStopsOnMarker(i: nat, budget: nat, stories: seq<Story>, prompt: string, agent: Agent)
    requires 1 <= i <= budget + 1
    ensures var o := Loop(i, budget, stories, prompt, agent);
      && (o.termination.CompletionSignalled? ==> |o.invocations| > 0)
      && (|o.invocations| > 0 ==>
            (o.termination.CompletionSignalled? <==> HasCompletionMarker(agent(i + |o.invocations| - 1).stdout)))
    decreases budget + 1 - i
  {
    LoopStops(i, budget, stories, prompt, agent);
    if i <= budget && SelectNext(stories).Some? && !HasCompletionMarker(agent(i).stdout) {
      var after := agent(i).storiesAfter;
      var rest := Loop(i + 1, budget, after, prompt, agent);
      var o := Loop(i, budget, stories, prompt, agent);
      LoopStopsOnMarker(i + 1, budget, after, prompt, agent);
      LoopAdvances(i, budget, stories, prompt, agent);
      var last := if |rest.invocations| > 0 then i + |rest.invocations| else i;
      assert i + |o.invocations| - 1 == last;
      assert i + 1 + |rest.invocations| - 1 == last;
    } else if i <= budget && SelectNext(stories).Some? {
      assert agent(i + 1 - 1) == agent(i);
    }
  }

  /** Every agent spawn of the loop is the one `FollowsLoop` describes. */
  lemma {:induction false} LoopFollows(i: nat, budget: nat, stories: seq<Story>, prompt: string, agent: Agent)
    requires 1 <= i <= budget + 1
    ensures FollowsLoop(Loop(i, budget, stories, prompt, agent).invocations, i, stories, prompt, agent)
    decreases budget + 1 - i
  {
    LoopStops(i, budget, stories, prompt, agent);
    if i <= budget && SelectNext(stories).Some? && !HasCompletionMarker(agent(i).stdout) {
      var after := agent(i).storiesAfter;
      var invocation := Invocation(i, SelectNext(stories).value, prompt);
      LoopFollows(i + 1, budget, after, prompt, agent);
      LoopStep(i, budget, stories, prompt, agent);
      FollowsLoopCons(invocation, Loop(i + 1, budget, after, prompt, agent).invocations, i, stories, prompt, agent);
    }
  }

  /** The list iteration `j` of a run reads: the startup list for the first
      iteration, afterwards whatever the previous agent run left. */
  function StoriesAt(env: Environment, agent: Agent, j: nat): seq<Story> {
    Reread(StoriesOf(env.prd), 1, agent, j)
  }

  /** `ralph run --max maxArg` against the given environment and agent: the
      prerequisite gate, the up-front check, then the loop. What the loop
      guarantees is stated by `RunEnds`, `RunStopsOnMarker` and
      `RunFollowsLoop`. */
  function Run(env: Environment, maxArg: string, agent: Agent): (o: Outcome)
    ensures o.termination.ExitCode() == 1 <==> FirstMissing(env).Some?
    ensures FirstMissing(env).Some? ==>
      o == Outcome(MissingPrerequisite(FirstMissing(env).value), [])
    ensures FirstMissing(env).None? && !HasPending(StoriesOf(env.prd)) ==>
      o == Outcome(NothingPending, [])
  {
    match FirstMissing(env)
    case Some(p) => Outcome(MissingPrerequisite(p), [])
    case None =>
      var stories := StoriesOf(env.prd);
      if !HasPending(stories) then
        Outcome(NothingPending, [])
      else
        LoopEnds(1, Budget(maxArg), stories, env.prompt, agent);
        Loop(1, Budget(maxArg), stories, env.prompt, agent)
  }

  /** At most `Budget(maxArg)` agents are spawned; the budget runs out only
      once all of it is used; a run that finds nothing pending stops before
      the budget is used up (or before the first spawn), and the list it
      read last has no pending story. */
  lemma RunEnds(env: Environment, maxArg: string, agent: Agent)
    ensures var o := Run(env, maxArg, agent);
      && |o.invocations| <= Budget(maxArg)
      && (o.termination.BudgetExhausted? ==> |o.invocations| == Budget(maxArg))
      && (o.termination.NothingPending? ==> |o.invocations| < Budget(maxArg) || |o.invocations| == 0)
      && (o.termination.NothingPending? ==> !HasPending(StoriesAt(env, agent, |o.invocations| + 1)))
  {
    if FirstMissing(env).None? && HasPending(StoriesOf(env.prd)) {
      var stories, budget := StoriesOf(env.prd), Budget(maxArg);
      var o := Loop(1, budget, stories, env.prompt, agent);
      LoopEnds(1, budget, stories, env.prompt, agent);
      assert Run(env, maxArg, agent) == o;
      assert StoriesAt(env, agent, |o.invocations| + 1) == Reread(stories, 1, agent, 1 + |o.invocations|);
    }
  }

  /** The run ends on the completion signal exactly when the last agent it
      spawned printed the marker. */
  lemma RunStopsOnMarker(env: Environment, maxArg: string, agent: Agent)
    ensures var o := Run(env, maxArg, agent);
      o.termination.CompletionSignalled? <==>
        |o.invocations| > 0 && HasCompletionMarker(agent(|o.invocations|).stdout)
  {
    if FirstMissing(env).None? && HasPending(StoriesOf(env.prd)) {
      var stories, budget := StoriesOf(env.prd), Budget(maxArg);
      var o := Loop(1, budget, stories, env.prompt, agent);
      LoopStopsOnMarker(1, budget, stories, env.prompt, agent);
      assert Run(env, maxArg, agent) == o;
      assert 1 + |o.invocations| - 1 == |o.invocations|;
    }
  }

  /** Spawn `k + 1` happens in iteration `k + 1`, passes the prompt text
      unchanged, works on the story the selector picks from the list that
      iteration reads, and only the last spawn may print the marker. */
  lemma RunFollowsLoop(env: Environment, maxArg: string, agent: Agent)
    ensures var o := Run(env, maxArg, agent);
      && (forall k :: 0 <= k < |o.invocations| ==>
            && o.invocations[k].iteration == k + 1
            && o.invocations[k].prompt == env.prompt
            && SelectNext(StoriesAt(env, agent, k + 1)) == Some(o.invocations[k].story))
      && (forall k :: 0 <= k < |o.invocations| - 1 ==>
            !HasCompletionMarker(agent(o.invocations[k].iteration).stdout))
  {
    if FirstMissing(env).None? && HasPending(StoriesOf(env.prd)) {
      var stories, budget := StoriesOf(env.prd), Budget(maxArg);
      var o := Loop(1, budget, stories, env.prompt, agent);
      LoopFollows(1, budget, stories, env.prompt, agent);
      assert Run(env, maxArg, agent) == o;
    }
  }

  /** Nothing to do at startup: exit 0 without spawning the agent. */
  lemma AlreadyDoneSpawnsNothing(env: Environment, maxArg: string, agent: Agent)
    requires FirstMissing(env).None?
    requires forall k :: 0 <= k < |StoriesOf(env.prd)| ==> !IsPending(StoriesOf(env.prd)[k])
    ensures Run(env, maxArg, agent).termination.ExitCode() == 0
    ensures Run(env, maxArg, agent).invocations == []
  {
  }

  /** With pending stories and no usable budget (`--max 0`, a negative
      number or text that is not a number) the loop body never runs and the
      exit status is 2. */
  lemma NoBudgetNoIterations(env: Environment, maxArg: string, agent: Agent)
    requires FirstMissing(env).None?
    requires HasPending(StoriesOf(env.prd))
    requires ParseInt(maxArg).None? || ParseInt(maxArg).value <= 0
    ensures Run(env, maxArg, agent) == Outcome(BudgetExhausted, [])
  {
  }

  /** An agent that never prints the marker and never clears the list is
      spawned exactly `Budget(maxArg)` times, and the run exits with 2. */
  lemma NeverFinishingAgentExhaustsBudget(env: Environment, maxArg: string, agent: Agent)
    requires FirstMissing(env).None?
    requires HasPending(StoriesOf(env.prd))
    requires forall j :: 1 <= j <= Budget(maxArg) ==> !HasCompletionMarker(agent(j).stdout)
    requires forall j :: 1 <= j < Budget(maxArg) ==> HasPending(agent(j).storiesAfter)
    ensures Run(env, maxArg, agent).termination == BudgetExhausted
    ensures Run(env, maxArg, agent).termination.ExitCode() == 2
    ensures |Run(env, maxArg, agent).invocations| == Budget(maxArg)
  {
    RunEnds(env, maxArg, agent);
    RunStopsOnMarker(env, maxArg, agent);
  }

  /** `parseInt('3', 10)` is 3. */
  lemma BudgetOfThree()
    ensures Budget("3") == 3
  {
    assert "3"[..0] == "";
    ParseIntOfDigitString("3");
  }

  /** The `--max` default, `'50'`, allows 50 iterations. */
  lemma DefaultBudget()
    ensures Budget("50") == 50
  {
    assert "50"[..1] == "5" && "5"[..0] == "";
    ParseIntOfDigitString("50");
  }

  /** `--max 3` with an agent that never finishes: three spawns, exit 2,
      never a fourth. */
  lemma ThreeIterationsThenStop(env: Environment, agent: Agent)
    requires FirstMissing(env).None?
    requires HasPending(StoriesOf(env.prd))
    requires forall j :: 1 <= j <= 3 ==> !HasCompletionMarker(agent(j).stdout)
    requires forall j :: 1 <= j < 3 ==> HasPending(agent(j).storiesAfter)
    ensures Run(env, "3", agent).termination.ExitCode() == 2
    ensures |Run(env, "3", agent).invocations| == 3
  {
    BudgetOfThree();
    NeverFinishingAgentExhaustsBudget(env, "3", agent);
  }

  /** The marker ends the run after the iteration that printed it, with
      exit 0, however many stories the agent left pending; without a
      budget that iteration never happens and the run exits 2. */
  lemma MarkerEndsRun(env: Environment, maxArg: string, agent: Agent)
    requires FirstMissing(env).None?
    requires HasPending(StoriesOf(env.prd))
    requires HasCompletionMarker(agent(1).stdout)
    ensures SelectNext(StoriesOf(env.prd)).Some?
    ensures Budget(maxArg) >= 1 ==>
      Run(env, maxArg, agent) ==
        Outcome(CompletionSignalled, [Invocation(1, SelectNext(StoriesOf(env.prd)).value, env.prompt)])
    ensures Budget(maxArg) == 0 ==> Run(env, maxArg, agent) == Outcome(BudgetExhausted, [])
  {
    SelectNextSpec(StoriesOf(env.prd));
  }

  /** A story that the agent of iteration `k + 1` marked as passing (every
      entry with that id is truthy) is not the story of iteration `k + 2`. */
  lemma FlippedStoryNotReselected(env: Environment, maxArg: string, agent: Agent, k: nat, id: string)
    requires k + 1 < |Run(env, maxArg, agent).invocations|
    requires forall s :: s in agent(k + 1).storiesAfter && s.id == id ==> !IsPending(s)
    ensures Run(env, maxArg, agent).invocations[k + 1].story.id != id
  {
    var o := Run(env, maxArg, agent);
    RunFollowsLoop(env, maxArg, agent);
    var list := agent(k + 1).storiesAfter;
    assert StoriesAt(env, agent, k + 2) == list;
    var s := o.invocations[k + 1].story;
    assert SelectNext(list) == Some(s);
    SelectNextSpec(list);
  }

  /** What the controller can observe of one agent run: the story list it
      leaves and the text of its standard output, whatever the chunking. */
  function Observation(r: AgentRun): (seq<Story>, string) {
    (r.storiesAfter, Concat(r.stdout))
  }

  /** Two agents that leave the same story lists and print the same standard
      output text, possibly chunked differently, with any standard error and
      any exit codes. */
  ghost predicate SameObservations(a: Agent, b: Agent) {
    forall j: nat {:trigger Observation(a(j))} :: Observation(a(j)) == Observation(b(j))
  }

  /** In iteration `i`, agents that are observed alike leave the same list
      and either both print the marker or neither does. */
  lemma ObservedAt(a: Agent, b: Agent, i: nat)
    requires SameObservations(a, b)
    ensures a(i).storiesAfter == b(i).storiesAfter
    ensures HasCompletionMarker(a(i).stdout) == HasCompletionMarker(b(i).stdout)
  {
    assert Observation(a(i)) == Observation(b(i));
  }

  /** Agents observed alike end the loop alike in iteration `i` when it
      does not reach the agent or the agent prints the marker. */
  lemma EndsAlike(i: nat, budget: nat, stories: seq<Story>, prompt: string, a: Agent, b: Agent)
    requires 1 <= i <= budget + 1
    requires SameObservations(a, b)
    requires i > budget || SelectNext(stories).None? || HasCompletionMarker(a(i).stdout)
    ensures Loop(i, budget, stories, prompt, a) == Loop(i, budget, stories, prompt, b)
  {
    if i <= budget && SelectNext(stories).Some? {
      ObservedAt(a, b, i);
    }
  }

  /** Agents observed alike that pass iteration `i` without the marker, and
      agree from iteration `i + 1` on, agree from iteration `i` on. */
  lemma StepsAlike(i: nat, budget: nat, stories: seq<Story>, prompt: string, a: Agent, b: Agent, after: seq<Story>)
    requires 1 <= i <= budget
    requires SelectNext(stories).Some? && !HasCompletionMarker(a(i).stdout)
    requires SameObservations(a, b)
    requires a(i).storiesAfter == after
    requires Loop(i + 1, budget, after, prompt, a) == Loop(i + 1, budget, after, prompt, b)
    ensures Loop(i, budget, stories, prompt, a) == Loop(i, budget, stories, prompt, b)
  {
    ObservedAt(a, b, i);
    LoopStep(i, budget, stories, prompt, a);
    LoopStep(i, budget, stories, prompt, b);
  }

  lemma {:induction false} LoopSeesOnlyObservations(
    i: nat, budget: nat, stories: seq<Story>, prompt: string, a: Agent, b: Agent)
    requires 1 <= i <= budget + 1
    requires SameObservations(a, b)
    ensures Loop(i, budget, stories, prompt, a) == Loop(i, budget, stories, prompt, b)
    decreases budget + 1 - i
  {
    if i <= budget && SelectNext(stories).Some? && !HasCompletionMarker(a(i).stdout) {
      var after := a(i).storiesAfter;
      LoopSeesOnlyObservations(i + 1, budget, after, prompt, a, b);
      StepsAlike(i, budget, stories, prompt, a, b, after);
    } else {
      EndsAlike(i, budget, stories, prompt, a, b);
    }
  }

  /** The run depends on the agent only through the story lists it leaves
      and the concatenation of its standard output: standard error, exit
      codes and chunk boundaries make no difference. */
  lemma RunSeesOnlyObservations(env: Environment, maxArg: string, a: Agent, b: Agent)
    requires SameObservations(a, b)
    ensures Run(env, maxArg, a) == Run(env, maxArg, b)
  {
    if FirstMissing(env).None? && HasPending(StoriesOf(env.prd)) {
      LoopSeesOnlyObservations(1, Budget(maxArg), StoriesOf(env.prd), env.prompt, a, b);
    }
  }

  /** A failing exit code and arbitrary standard error in iteration `j`
      leave the run unchanged. */
  lemma ExitCodeAndStderrIgnored(env: Environment, maxArg: string, agent: Agent, j: nat, code: int, stderr: seq<string>)
    ensures Run(env, maxArg, agent) ==
      Run(env, maxArg, (n: nat) => if n == j then agent(n).(exitCode := code, stderr := stderr) else agent(n))
  {
    RunSeesOnlyObservations(env, maxArg, agent,
      (n: nat) => if n == j then agent(n).(exitCode := code, stderr := stderr) else agent(n));
  }

  /** Delivering iteration `j`'s whole standard output as one chunk leaves
      the run unchanged. */
  lemma ChunkingIgnored(env: Environment, maxArg: string, agent: Agent, j: nat)
    ensures Run(env, maxArg, agent) ==
      Run(env, maxArg, (n: nat) => if n == j then agent(n).(stdout := [Concat(agent(n).stdout)]) else agent(n))
  {
    var b := (n: nat) => if n == j then agent(n).(stdout := [Concat(agent(n).stdout)]) else agent(n);
    var text := Concat(agent(j).stdout);
    assert Concat([text]) == text by {
      assert [text][..0] == [];
    }
    RunSeesOnlyObservations(env, maxArg, agent, b);
  }

  /** `ralph run` written as run.js writes it, returning the exit status
      and the number of agent spawns. */
  method Execute(env: Environment, maxArg: string, agent: Agent) returns (exitCode: int, spawned: nat)
    ensures exitCode == Run(env, maxArg, agent).termination.ExitCode()
    ensures spawned == |Run(env, maxArg, agent).invocations|
  {
    if FirstMissing(env).Some? {
      return 1, 0;
    }
    var stories := StoriesOf(env.prd);
    PendingEmptyIff(stories);
    if |Pending(stories)| == 0 {
      return 0, 0;
    }
    exitCode, spawned := ExecuteLoop(Budget(maxArg), stories, env.prompt, agent);
  }

  /** The `for` loop of run.js with a counter of spawns: the same exit
      status and number of spawns as `Loop` from the first iteration. */
  method ExecuteLoop(budget: nat, stories: seq<Story>, prompt: string, agent: Agent) returns (exitCode: int, spawned: nat)
    ensures exitCode == Loop(1, budget, stories, prompt, agent).termination.ExitCode()
    ensures spawned == |Loop(1, budget, stories, prompt, agent).invocations|
  {
    ghost var whole := Loop(1, budget, stories, prompt, agent);
    var i := 1;
    var current := stories;
    spawned := 0;
    while i <= budget
      invariant 1 <= i <= budget + 1
      invariant spawned == i - 1
      invariant whole.termination == Loop(i, budget, current, prompt, agent).termination
      invariant |whole.invocations| == spawned + |Loop(i, budget, current, prompt, agent).invocations|
      decreases budget + 1 - i
    {
      var next := SelectNext(current);
      LoopStops(i, budget, current, prompt, agent);
      if next.None? {
        return 0, spawned;
      }
      var run := agent(i);
      spawned := spawned + 1;
      if HasCompletionMarker(run.stdout) {
        return 0, spawned;
      }
      LoopAdvances(i, budget, current, prompt, agent);
      current := run.storiesAfter;
      i := i + 1;
    }
    LoopStops(i, budget, current, prompt, agent);
    return 2, spawned;
  }
}
