/**
 * The build runner, `Builder`: the stage state machine of `execute`, the error-trend
 * update of `setErrorTrend`, the path and priority normalisation of `setupBuild`, and
 * `getConfig`.
 *
 * Plugin stages are an oracle: `run(stage)` says whether the plugin executor returned
 * true, returned false or threw an exception for that stage. Logging, dates and the
 * database are left out; the saved statuses, the status postbacks, the stages run and the
 * directory removal are recorded in order as an event log.
 */
module Builder {
  import opened Wrappers
  import Php

  datatype Status = Pending | Running | Success | Failed

  datatype Stage = Setup | Test | Deploy | SuccessStage | FailureStage | Fixed | Broken | Complete

  /** What `executePlugins` did for a stage. */
  datatype StageResult = Passed | NotPassed | Fault

  /** How `setupBuild` ended: normally, with no working copy (it throws after its setup work), or with an exception. */
  datatype SetupEnd = Ready | WorkingCopyFailed | SetupFault

  datatype Event =
    | Saved(status: Status)       // the build stored with this status
    | PostedBack(status: Status)  // the status postback sent
    | Ran(stage: Stage)           // the plugins of a stage executed
    | DirectoryRemoved

  const CoreStages: seq<Stage> := [Setup, Test, Deploy]

  /** The stages run, in order, extracted from an event log. */
  function StagesRun(log: seq<Event>): (stages: seq<Stage>)
    ensures forall s :: s in stages <==> Ran(s) in log
    decreases |log|
  {
    if |log| == 0 then []
    else
      var rest := StagesRun(log[1..]);
      assert forall e :: e in log <==> e == log[0] || e in log[1..];
      if log[0].Ran? then [log[0].stage] + rest else rest
  }

  lemma {:induction false} StagesRunAppend(a: seq<Event>, b: seq<Event>)
    ensures StagesRun(a + b) == StagesRun(a) + StagesRun(b)
    decreases |a|
  {
    if |a| == 0 {
      assert a + b == b;
    } else {
      StagesRunAppend(a[1..], b);
      assert (a + b)[1..] == a[1..] + b;
    }
  }

  // ---------------------------------------------------------------------------
  // Core stages
  // ---------------------------------------------------------------------------

  /** The core loop's result: the stages run and the verdict. */
  datatype CoreRun = CoreRun(ran: seq<Stage>, success: bool)

  /** `$success &= executePlugins(...); if (!$success) break;`, with an exception ending the loop as a failure. */
  function RunCore(stages: seq<Stage>, run: Stage -> StageResult): (r: CoreRun)
    ensures r.ran <= stages
    ensures r.success <==> forall s :: s in stages ==> run(s) == Passed
    ensures r.success ==> r.ran == stages
    ensures !r.success ==> |r.ran| > 0 && run(r.ran[|r.ran| - 1]) != Passed
    ensures forall i :: 0 <= i < |r.ran| - 1 ==> run(r.ran[i]) == Passed
    decreases |stages|
  {
    if |stages| == 0 then CoreRun([], true)
    else if run(stages[0]) != Passed then CoreRun([stages[0]], false)
    else
      var rest := RunCore(stages[1..], run);
      assert forall s :: s in stages <==> s == stages[0] || s in stages[1..];
      CoreRun([stages[0]] + rest.ran, rest.success)
  }

  /** The verdict of the try block: setup returned normally and every core stage passed. */
  predicate Succeeds(setup: SetupEnd, run: Stage -> StageResult) {
    setup == Ready && run(Setup) == Passed && run(Test) == Passed && run(Deploy) == Passed
  }

  // ---------------------------------------------------------------------------
  // execute
  // ---------------------------------------------------------------------------

  /** The outcome stages: success (then fixed) or failure (then broken); an exception ends the block. */
  function OutcomeStages(success: bool, previous: Status, run: Stage -> StageResult): (stages: seq<Stage>)
    ensures success ==> stages == [SuccessStage] + (if run(SuccessStage) != Fault && previous == Failed then [Fixed] else [])
    ensures !success ==>
              stages == [FailureStage] + (if run(FailureStage) != Fault && previous in {Success, Pending} then [Broken] else [])
  {
    if success then
      if run(SuccessStage) == Fault then [SuccessStage]
      else [SuccessStage] + (if previous == Failed then [Fixed] else [])
    else
      if run(FailureStage) == Fault then [FailureStage]
      else [FailureStage] + (if previous == Success || previous == Pending then [Broken] else [])
  }

  function RanAll(stages: seq<Stage>): (events: seq<Event>)
    ensures StagesRun(events) == stages
    ensures forall e :: e in events ==> e.Ran?
    decreases |stages|
  {
    if |stages| == 0 then [] else
      StagesRunAppend([Ran(stages[0])], RanAll(stages[1..]));
      [Ran(stages[0])] + RanAll(stages[1..])
  }

  /** `(bool)$configuration->get('php-censor.build.remove_builds', true)`. */
  predicate RemoveBuilds(setting: Option<Php.Value>) {
    setting.None? || Php.Truthy(setting.value)
  }

  /**
   * The stages `execute` runs: the core stages up to the first that does not pass (none
   * when setup did not end normally), then the outcome stages, then complete.
   */
  function StagesFor(setup: SetupEnd, previous: Status, run: Stage -> StageResult): (stages: seq<Stage>)
    ensures |stages| > 0 && stages[|stages| - 1] == Complete
    ensures setup != Ready ==> forall s :: s in stages ==> s !in CoreStages
    ensures setup != Ready ==>
              stages == [FailureStage] + (if run(FailureStage) != Fault && previous in {Success, Pending} then [Broken] else []) + [Complete]
    ensures setup == Ready ==>
              |RunCore(CoreStages, run).ran| <= |stages| && stages[..|RunCore(CoreStages, run).ran|] == RunCore(CoreStages, run).ran
  {
    if setup == Ready then
      var core := RunCore(CoreStages, run);
      var stages := core.ran + OutcomeStages(core.success, previous, run) + [Complete];
      assert stages[..|core.ran|] == core.ran;
      stages
    else
      var stages := OutcomeStages(false, previous, run) + [Complete];
      FailedSetupStages(previous, run, stages);
      stages
  }

  /** After a failed setup only the failure stages and complete run, none of them a core stage. */
  lemma FailedSetupStages(previous: Status, run: Stage -> StageResult, stages: seq<Stage>)
    requires stages == OutcomeStages(false, previous, run) + [Complete]
    ensures forall s :: s in stages ==> s !in CoreStages
    ensures stages == [FailureStage] + (if run(FailureStage) != Fault && previous in {Success, Pending} then [Broken] else []) + [Complete]
  {
    assert forall s :: s in CoreStages <==> s == Setup || s == Test || s == Deploy;
  }

  /**
   * Which outcome stages `execute` runs: success exactly on a successful build, failure
   * otherwise; fixed after a failed previous build and broken after a successful or
   * pending one (no previous build counts as pending), each skipped when the stage
   * before it threw.
   */
  lemma StagesForOutcome(setup: SetupEnd, previous: Status, run: Stage -> StageResult)
    ensures var stages := StagesFor(setup, previous, run);
            && (SuccessStage in stages <==> Succeeds(setup, run))
            && (FailureStage in stages <==> !Succeeds(setup, run))
            && (Fixed in stages <==> Succeeds(setup, run) && run(SuccessStage) != Fault && previous == Failed)
            && (Broken in stages <==> !Succeeds(setup, run) && run(FailureStage) != Fault && previous in {Success, Pending})
  {
    var core := CoreFor(setup, run);
    var outcome := OutcomeStages(core.success, previous, run);
    OutcomeMembers(core.success, previous, run);
    OutcomeOnly(core.ran, outcome);
    assert StagesFor(setup, previous, run) == core.ran + outcome + [Complete];
  }

  /** No stage appears twice. */
  predicate Distinct(stages: seq<Stage>) {
    forall i, j :: 0 <= i < j < |stages| ==> stages[i] != stages[j]
  }

  /** Two lists without repeats and without a shared stage have none together. */
  lemma DistinctConcat(a: seq<Stage>, b: seq<Stage>)
    requires Distinct(a) && Distinct(b)
    requires forall s :: s in a ==> s !in b
    ensures Distinct(a + b)
  {
    forall i, j | 0 <= i < j < |a + b|
      ensures (a + b)[i] != (a + b)[j]
    {
      if j >= |a| && i < |a| {
        assert (a + b)[i] in a && (a + b)[j] in b;
      }
    }
  }

  /** A prefix of the core stages repeats none of them. */
  lemma CorePrefixDistinct(ran: seq<Stage>)
    requires ran <= CoreStages
    ensures Distinct(ran)
  {
    assert Distinct(CoreStages);
  }

  /** The outcome stages repeat none of them and hold no core stage and no complete. */
  lemma OutcomeDistinct(success: bool, previous: Status, run: Stage -> StageResult)
    ensures var o := OutcomeStages(success, previous, run);
            Distinct(o + [Complete]) && forall s :: s in o + [Complete] ==> s !in CoreStages
  {
    var o := OutcomeStages(success, previous, run);
    assert forall s :: s in CoreStages <==> s == Setup || s == Test || s == Deploy;
    assert |o| <= 2 && forall k :: 0 <= k < |o| ==> o[k] != Complete && o[k] !in CoreStages;
    assert |o| == 2 ==> o[0] != o[1];
  }

  /**
   * Every stage `execute` runs, runs once: the core stages up to the first that does not
   * pass, each outcome stage at most once, and complete once at the end. No core stage
   * runs after the core loop has ended.
   */
  lemma StagesForOnce(setup: SetupEnd, previous: Status, run: Stage -> StageResult)
    ensures var stages := StagesFor(setup, previous, run);
            forall i, j :: 0 <= i < j < |stages| ==> stages[i] != stages[j]
    ensures var stages := StagesFor(setup, previous, run);
            forall i :: |CoreFor(setup, run).ran| <= i < |stages| ==> stages[i] !in CoreStages
  {
    var core := CoreFor(setup, run);
    var tail := OutcomeStages(core.success, previous, run) + [Complete];
    var stages := core.ran + tail;
    assert StagesFor(setup, previous, run) == stages;
    CorePrefixDistinct(core.ran);
    OutcomeDistinct(core.success, previous, run);
    DistinctConcat(core.ran, tail);
    TailHasNoCore(core.ran, tail);
  }

  /** Past a prefix, a list holds only what its tail holds. */
  lemma TailHasNoCore(ran: seq<Stage>, tail: seq<Stage>)
    requires forall s :: s in tail ==> s !in CoreStages
    ensures forall i :: |ran| <= i < |ran + tail| ==> (ran + tail)[i] !in CoreStages
  {
    forall i | |ran| <= i < |ran + tail|
      ensures (ran + tail)[i] !in CoreStages
    {
      assert (ran + tail)[i] == tail[i - |ran|];
    }
  }

  /** The outcome stages appear in a run only through the outcome part. */
  lemma OutcomeOnly(ran: seq<Stage>, outcome: seq<Stage>)
    requires forall s :: s in ran ==> s in CoreStages
    ensures SuccessStage in ran + outcome + [Complete] <==> SuccessStage in outcome
    ensures FailureStage in ran + outcome + [Complete] <==> FailureStage in outcome
    ensures Fixed in ran + outcome + [Complete] <==> Fixed in outcome
    ensures Broken in ran + outcome + [Complete] <==> Broken in outcome
  {
    assert SuccessStage !in ran && FailureStage !in ran && Fixed !in ran && Broken !in ran;
  }

  /** The core stages `execute` runs: none when setup did not end normally. */
  function CoreFor(setup: SetupEnd, run: Stage -> StageResult): (core: CoreRun)
    ensures core.success <==> Succeeds(setup, run)
    ensures forall s :: s in core.ran ==> s in CoreStages
    ensures setup != Ready ==> core.ran == []
    ensures setup == Ready ==> core == RunCore(CoreStages, run)
  {
    if setup == Ready then
      assert forall s :: s in CoreStages <==> s == Setup || s == Test || s == Deploy;
      RunCore(CoreStages, run)
    else CoreRun([], false)
  }

  lemma OutcomeMembers(success: bool, previous: Status, run: Stage -> StageResult)
    ensures var o := OutcomeStages(success, previous, run);
            && (SuccessStage in o <==> success)
            && (FailureStage in o <==> !success)
            && (Fixed in o <==> success && run(SuccessStage) != Fault && previous == Failed)
            && (Broken in o <==> !success && run(FailureStage) != Fault && previous in {Success, Pending})
            && Complete !in o
  {
  }

  /** The end of the log: the final status posted back, the directory removed if asked, the final status saved. */
  function Closing(final: Status, remove: bool): (tail: seq<Event>)
    ensures |tail| >= 2 && tail[0] == PostedBack(final) && tail[|tail| - 1] == Saved(final)
    ensures DirectoryRemoved in tail <==> remove
    ensures StagesRun(tail) == []
  {
    var middle: seq<Event> := if remove then [DirectoryRemoved] else [];
    StagesRunAppend([PostedBack(final)] + middle, [Saved(final)]);
    StagesRunAppend([PostedBack(final)], middle);
    [PostedBack(final)] + middle + [Saved(final)]
  }

  /** The opening of the log: running saved, then posted back. */
  const Opening: seq<Event> := [Saved(Running), PostedBack(Running)]

  /** The opening holds no stage and no directory removal. */
  lemma OpeningFacts()
    ensures StagesRun(Opening) == [] && DirectoryRemoved !in Opening
  {
    StagesRunAppend([Saved(Running)], [PostedBack(Running)]);
  }

  /** What the pieces of the log add up to. */
  lemma AroundFacts(stages: seq<Stage>, final: Status, remove: bool)
    ensures var log := Opening + RanAll(stages) + Closing(final, remove);
            && log[|log| - 1] == Saved(final) && PostedBack(final) in log
            && (DirectoryRemoved in log <==> remove)
            && StagesRun(log) == stages
  {
    var tail := Closing(final, remove);
    OpeningFacts();
    StagesRunAppend(Opening, RanAll(stages));
    StagesRunAppend(Opening + RanAll(stages), tail);
    var log := Opening + RanAll(stages) + tail;
    assert log[|log| - |tail|] == PostedBack(final);
  }

  /** The event log around the stages: running saved and posted back, then the stages, then the final status. */
  function LogAround(stages: seq<Stage>, final: Status, remove: bool): (log: seq<Event>)
    ensures |log| >= 4 && log[0] == Saved(Running) && log[1] == PostedBack(Running)
    ensures log[|log| - 1] == Saved(final) && PostedBack(final) in log
    ensures DirectoryRemoved in log <==> remove
    ensures StagesRun(log) == stages
  {
    AroundFacts(stages, final, remove);
    Opening + RanAll(stages) + Closing(final, remove)
  }

  /**
   * `execute`: running is saved and posted back first; the core stages run in order and
   * stop at the first that does not pass; the verdict is success exactly when setup ended
   * normally and every core stage passed; the outcome and complete stages run after it
   * and never change it; the directory goes iff the setting is truthy or missing.
   */
  function Execute(
    setup: SetupEnd, previousBuild: Option<Status>, run: Stage -> StageResult, removeSetting: Option<Php.Value>
  ): (log: seq<Event>)
    ensures |log| >= 4 && log[0] == Saved(Running) && log[1] == PostedBack(Running)
    ensures var final := if Succeeds(setup, run) then Success else Failed;
            && log[|log| - 1] == Saved(final)
            && PostedBack(final) in log
            && (DirectoryRemoved in log <==> RemoveBuilds(removeSetting))
    ensures StagesRun(log) == StagesFor(setup, previousBuild.GetOr(Pending), run)
  {
    var final := if Succeeds(setup, run) then Success else Failed;
    LogAround(StagesFor(setup, previousBuild.GetOr(Pending), run), final, RemoveBuilds(removeSetting))
  }

  /**
   * What the outcome and complete stages do, faults included, never changes the verdict:
   * two oracles that agree on the core stages give the same saved final status.
   */
  lemma VerdictIgnoresLaterStages(
    setup: SetupEnd, previousBuild: Option<Status>, run: Stage -> StageResult, run': Stage -> StageResult,
    removeSetting: Option<Php.Value>
  )
    requires run(Setup) == run'(Setup) && run(Test) == run'(Test) && run(Deploy) == run'(Deploy)
    ensures var a := Execute(setup, previousBuild, run, removeSetting);
            var b := Execute(setup, previousBuild, run', removeSetting);
            a[|a| - 1] == b[|b| - 1]
  {
  }

  // ---------------------------------------------------------------------------
  // setErrorTrend
  // ---------------------------------------------------------------------------

  /** A row of the per-branch error trend: the build id and its error count, as the store returns them. */
  datatype TrendRow = TrendRow(buildId: Php.Value, count: Php.Value)

  /** The two error totals a build carries. */
  datatype ErrorTotals = ErrorTotals(total: int, previous: Option<int>)

  /**
   * `setErrorTrend`: the total is the current count; the previous total is taken from the
   * second trend row only when that row's build exists and is neither pending nor running.
   */
  function ErrorTrend(
    current: ErrorTotals, errorsCount: int, trend: seq<TrendRow>, statusOf: int -> Option<Status>
  ): (r: ErrorTotals)
    ensures r.total == errorsCount
    ensures r.previous != current.previous ==> |trend| > 1 && r.previous == Some(Php.IntCast(trend[1].count))
    ensures |trend| > 1 && statusOf(Php.IntCast(trend[1].buildId)).Some?
            && statusOf(Php.IntCast(trend[1].buildId)).value !in {Pending, Running}
            ==> r.previous == Some(Php.IntCast(trend[1].count))
    ensures |trend| <= 1 || statusOf(Php.IntCast(trend[1].buildId)).None?
            || statusOf(Php.IntCast(trend[1].buildId)).value in {Pending, Running}
            ==> r.previous == current.previous
  {
    var previous :=
      if |trend| > 1 then
        match statusOf(Php.IntCast(trend[1].buildId))
        case Some(s) => if s != Pending && s != Running then Some(Php.IntCast(trend[1].count)) else current.previous
        case None => current.previous
      else current.previous;
    ErrorTotals(errorsCount, previous)
  }

  /** Only the second trend row matters: trends that agree on it give the same totals. */
  lemma ErrorTrendReadsSecondRowOnly(
    current: ErrorTotals, errorsCount: int, trend: seq<TrendRow>, trend': seq<TrendRow>, statusOf: int -> Option<Status>
  )
    requires (|trend| > 1) == (|trend'| > 1)
    requires |trend| > 1 ==> trend[1] == trend'[1]
    ensures ErrorTrend(current, errorsCount, trend, statusOf) == ErrorTrend(current, errorsCount, trend', statusOf)
  {
  }

  // ---------------------------------------------------------------------------
  // setupBuild path normalisation
  // ---------------------------------------------------------------------------

  /** The `build_settings` entries `setupBuild` reads; a missing entry is none. */
  datatype BuildSettings = BuildSettings(
    verbose: Option<Php.Value>,
    ignore: Option<seq<string>>,
    binaryPath: Option<string>,
    priorityPath: Option<string>,
    directory: Option<string>
  )

  /** The builder's settings after setup. */
  datatype Paths = Paths(verbose: bool, ignore: seq<string>, binaryPath: string, priorityPath: string, directory: string)

  const DefaultPriorityPath: string := "local"

  /** `rtrim($p, '/\\') . '/'`: exactly one trailing slash. */
  function WithTrailingSlash(p: string): (r: string)
    ensures |r| > 0 && r[|r| - 1] == '/'
    ensures |r| < 2 || (r[|r| - 2] != '/' && r[|r| - 2] != '\\')
    ensures r[..|r| - 1] <= p
    ensures forall i :: |r| - 1 <= i < |p| ==> p[i] == '/' || p[i] == '\\'
  {
    Php.RTrimSlashes(p) + "/"
  }

  /** Normalising an already normalised path changes nothing. */
  lemma WithTrailingSlashIdempotent(p: string)
    ensures WithTrailingSlash(WithTrailingSlash(p)) == WithTrailingSlash(p)
  {
    var t := Php.RTrimSlashes(p);
    var s := t + "/";
    assert s[..|s| - 1] == t;
    assert Php.RTrimSlashes(s) == Php.RTrimSlashes(t);
    RTrimSlashesTrimmed(t);
  }

  /** A path with no trailing slash is its own right-trim. */
  lemma RTrimSlashesTrimmed(t: string)
    requires |t| == 0 || (t[|t| - 1] != '/' && t[|t| - 1] != '\\')
    ensures Php.RTrimSlashes(t) == t
  {
  }

  /**
   * The settings part of `setupBuild`. `interpolate` stands for the build's variable
   * interpolation; `available` is the list of allowed priority paths.
   */
  function SetupPaths(
    current: Paths, settings: BuildSettings, buildPath: string, interpolate: string -> string, available: seq<string>
  ): (r: Paths)
    ensures r.verbose <==> current.verbose && Php.Given(settings.verbose)
    ensures r.ignore == if settings.ignore.Some? && settings.ignore.value != [] then settings.ignore.value else current.ignore
    ensures Php.OptStrTruthy(settings.binaryPath) ==> r.binaryPath == WithTrailingSlash(interpolate(settings.binaryPath.value))
    ensures !Php.OptStrTruthy(settings.binaryPath) ==> r.binaryPath == current.binaryPath
    ensures r.priorityPath == current.priorityPath || (r.priorityPath in available && Php.StrTruthy(r.priorityPath))
    ensures r.priorityPath != current.priorityPath ==> settings.priorityPath == Some(r.priorityPath)
    ensures Php.OptStrTruthy(settings.priorityPath) && settings.priorityPath.value in available ==>
              r.priorityPath == settings.priorityPath.value
    ensures r.directory == WithTrailingSlash(interpolate(
              if Php.OptStrTruthy(settings.directory) then settings.directory.value else buildPath))
  {
    var verbose := current.verbose && Php.Given(settings.verbose);
    var ignore := if settings.ignore.Some? && settings.ignore.value != [] then settings.ignore.value else current.ignore;
    var binaryPath :=
      if Php.OptStrTruthy(settings.binaryPath) then WithTrailingSlash(interpolate(settings.binaryPath.value))
      else current.binaryPath;
    var priorityPath :=
      if Php.OptStrTruthy(settings.priorityPath) && settings.priorityPath.value in available then settings.priorityPath.value
      else current.priorityPath;
    var directory := if Php.OptStrTruthy(settings.directory) then settings.directory.value else buildPath;
    Paths(verbose, ignore, binaryPath, priorityPath, WithTrailingSlash(interpolate(directory)))
  }

  /** The builder's fields before setup. */
  function InitialPaths(): (p: Paths)
    ensures p.verbose && p.ignore == [] && p.binaryPath == "" && p.directory == ""
    ensures p.priorityPath == DefaultPriorityPath
  {
    Paths(true, [], "", DefaultPriorityPath, "")
  }

  /** From the initial fields, a priority path outside the allowed list leaves `local`. */
  lemma PriorityPathFallsBackToLocal(settings: BuildSettings, buildPath: string, interpolate: string -> string, available: seq<string>)
    requires settings.priorityPath.None? || settings.priorityPath.value !in available
    ensures SetupPaths(InitialPaths(), settings, buildPath, interpolate, available).priorityPath == DefaultPriorityPath
  {
  }

  // ---------------------------------------------------------------------------
  // getConfig
  // ---------------------------------------------------------------------------

  /** `getConfig($key)`: the whole config for no key, the value when the key is set, null otherwise. */
  function GetConfig(config: seq<Php.Entry<Php.Value>>, key: Option<string>): (v: Php.Value)
    ensures key.None? ==> v == Php.Arr(config)
    ensures key.Some? && Php.IsSet(Php.Lookup(config, Php.StrKey(key.value))) ==>
              v == Php.Lookup(config, Php.StrKey(key.value)).value
    ensures key.Some? && !Php.IsSet(Php.Lookup(config, Php.StrKey(key.value))) ==> v == Php.Null
  {
    match key
    case None => Php.Arr(config)
    case Some(k) =>
      var found := Php.Lookup(config, Php.StrKey(k));
      if Php.IsSet(found) then found.value else Php.Null
  }

  /** A non-null value assigned under a key of the config array reads back through `getConfig`; other keys are unaffected. */
  lemma {:induction false} GetConfigAfterAssign(config: seq<Php.Entry<Php.Value>>, key: string, v: Php.Value, other: string)
    requires v != Php.Null
    ensures GetConfig(Php.Assign(config, Php.StrKey(key), v), Some(key)) == v
    ensures other != key ==> GetConfig(Php.Assign(config, Php.StrKey(key), v), Some(other)) == GetConfig(config, Some(other))
  {
    Php.AssignThenLookup(config, Php.StrKey(key), v, Php.StrKey(key));
    Php.AssignThenLookup(config, Php.StrKey(key), v, Php.StrKey(other));
  }
}
