/**
 * `WebhookController::gogsPullRequest`: pull-request labels of the form `env:<name>` decide
 * which environments carry the pull request's head branch, and every environment whose
 * branch list changed is rebuilt on the project's default branch.
 */
module GogsLabels {
  import opened Wrappers
  import Php
  import FanOut

  const ActiveActions: seq<string> := ["opened", "reopened", "label_updated", "label_cleared"]
  const InactiveActions: seq<string> := ["closed"]
  const ActiveStates: seq<string> := ["open"]
  const InactiveStates: seq<string> := ["closed"]

  const EnvLabelPrefix: string := "env:"

  /** The pull-request fields the handler reads; `labels` is none when unset or not an array. */
  datatype PullRequest = PullRequest(
    action: string,
    state: string,
    headBranch: string,
    baseBranch: string,
    merged: bool,
    labels: Option<seq<string>>
  )

  /** The environment names a label list asks for: the rest of every label that starts with `env:`. */
  function EnvNames(labels: seq<string>): (names: seq<string>)
    ensures |names| <= |labels|
    ensures forall n :: n in names <==>
              exists l :: l in labels && Php.StartsWith(l, EnvLabelPrefix) && n == l[|EnvLabelPrefix|..]
    decreases |labels|
  {
    if |labels| == 0 then []
    else
      var rest := EnvNames(labels[1..]);
      assert forall l :: l in labels <==> l == labels[0] || l in labels[1..];
      if Php.StartsWith(labels[0], EnvLabelPrefix) then [labels[0][|EnvLabelPrefix|..]] + rest else rest
  }

  /** The labels count only for an active action on an open pull request. */
  predicate LabelsCount(pr: PullRequest) {
    pr.action in ActiveActions && pr.state in ActiveStates
  }

  /** The environment names the handler acts on; none when the labels do not count. */
  function Targets(pr: PullRequest): (names: seq<string>)
    ensures !LabelsCount(pr) || pr.labels.None? ==> names == []
    ensures LabelsCount(pr) && pr.labels.Some? ==> names == EnvNames(pr.labels.value)
  {
    if LabelsCount(pr) && pr.labels.Some? then EnvNames(pr.labels.value) else []
  }

  /** `array_diff($branches, [$branch])`: every occurrence of `branch` removed; the keys it leaves are not modelled. */
  function Without(branches: seq<string>, branch: string): (r: seq<string>)
    ensures branch !in r
    ensures forall b :: b != branch ==> (b in r <==> b in branches)
    ensures |r| <= |branches|
    decreases |branches|
  {
    if |branches| == 0 then []
    else
      var rest := Without(branches[1..], branch);
      assert forall b :: b in branches <==> b == branches[0] || b in branches[1..];
      if branches[0] == branch then rest else [branches[0]] + rest
  }

  /** One environment after the update, and whether its branch list was saved. */
  datatype Relabelled = Relabelled(env: FanOut.Environment, changed: bool)

  /** Add the head branch to a named environment that lacks it; remove it from an unnamed one that has it. */
  function Relabel(env: FanOut.Environment, names: seq<string>, head: string): (r: Relabelled)
    ensures r.env.id == env.id && r.env.name == env.name
    ensures head in r.env.branches <==> env.name in names
    ensures r.changed <==> (head in env.branches) != (env.name in names)
    ensures !r.changed ==> r.env == env
    ensures Without(r.env.branches, head) == Without(env.branches, head)
  {
    if env.name in names then
      if head !in env.branches then
        WithoutAppend(env.branches, head);
        Relabelled(env.(branches := env.branches + [head]), true)
      else Relabelled(env, false)
    else if head in env.branches then
      WithoutTwice(env.branches, head);
      Relabelled(env.(branches := Without(env.branches, head)), true)
    else Relabelled(env, false)
  }

  /** Appending the removed branch does not change what remains without it. */
  lemma {:induction false} WithoutAppend(branches: seq<string>, head: string)
    ensures Without(branches + [head], head) == Without(branches, head)
    decreases |branches|
  {
    if |branches| == 0 {
      assert branches + [head] == [head];
    } else {
      WithoutAppend(branches[1..], head);
      assert (branches + [head])[1..] == branches[1..] + [head];
    }
  }

  /** Removing a branch twice is removing it once. */
  lemma {:induction false} WithoutTwice(branches: seq<string>, head: string)
    ensures Without(Without(branches, head), head) == Without(branches, head)
    decreases |branches|
  {
    if |branches| > 0 {
      WithoutTwice(branches[1..], head);
    }
  }

  /** Every environment after the loop, and the ids of those whose branch list was saved, in order. */
  datatype Relabelling = Relabelling(environments: seq<FanOut.Environment>, updated: seq<FanOut.EnvId>)

  /** Some environment with this id has its branch list saved by the update. */
  predicate Changes(envs: seq<FanOut.Environment>, names: seq<string>, head: string, id: FanOut.EnvId) {
    exists i :: 0 <= i < |envs| && envs[i].id == id && Relabel(envs[i], names, head).changed
  }

  lemma ChangesCons(envs: seq<FanOut.Environment>, names: seq<string>, head: string, id: FanOut.EnvId)
    requires |envs| > 0
    ensures Changes(envs, names, head, id) <==>
              (envs[0].id == id && Relabel(envs[0], names, head).changed) || Changes(envs[1..], names, head, id)
  {
    if Changes(envs, names, head, id) {
      var i :| 0 <= i < |envs| && envs[i].id == id && Relabel(envs[i], names, head).changed;
      if i > 0 {
        assert envs[1..][i - 1] == envs[i];
      }
    }
    if Changes(envs[1..], names, head, id) {
      var i :| 0 <= i < |envs[1..]| && envs[1..][i].id == id && Relabel(envs[1..][i], names, head).changed;
      assert envs[i + 1] == envs[1..][i];
    }
  }

  function RelabelAll(envs: seq<FanOut.Environment>, names: seq<string>, head: string): (r: Relabelling)
    ensures |r.environments| == |envs|
    ensures forall i :: 0 <= i < |envs| ==> r.environments[i] == Relabel(envs[i], names, head).env
    ensures forall id :: id in r.updated <==> Changes(envs, names, head, id)
    decreases |envs|
  {
    if |envs| == 0 then Relabelling([], [])
    else
      var first := Relabel(envs[0], names, head);
      var rest := RelabelAll(envs[1..], names, head);
      assert forall id :: Changes(envs, names, head, id) <==>
               (envs[0].id == id && first.changed) || Changes(envs[1..], names, head, id) by {
        forall id
          ensures Changes(envs, names, head, id) <==>
                    (envs[0].id == id && first.changed) || Changes(envs[1..], names, head, id)
        {
          ChangesCons(envs, names, head, id);
        }
      }
      Relabelling([first.env] + rest.environments, (if first.changed then [envs[0].id] else []) + rest.updated)
  }

  /** The handler's answer: ignored, or the environments after the update and the builds queued. */
  datatype Result =
    | ActionIgnored(action: string)
    | StateIgnored(state: string)
    | NotChanged(environments: seq<FanOut.Environment>)
    | Updated(environments: seq<FanOut.Environment>, builds: seq<FanOut.Request>)

  /**
   * `gogsPullRequest`. The environments of the base branch on a merged close are read
   * after the branch lists were saved; each rebuilt environment gets one build of commit ''
   * on the default branch, through the build service directly, with no duplicate check.
   */
  function GogsPullRequest(project: FanOut.Project, pr: PullRequest): (r: Result)
    ensures pr.action !in ActiveActions + InactiveActions ==> r == ActionIgnored(pr.action)
    ensures pr.action in ActiveActions + InactiveActions && pr.state !in ActiveStates + InactiveStates ==>
              r == StateIgnored(pr.state)
    ensures r.Updated? ==> forall q :: q in r.builds ==>
              q.envId.Some? && q.branch == project.defaultBranch && q.tag == None
    ensures r.Updated? ==> forall i, j :: 0 <= i < j < |r.builds| ==> r.builds[i].envId != r.builds[j].envId
  {
    if pr.action !in ActiveActions + InactiveActions then ActionIgnored(pr.action)
    else if pr.state !in ActiveStates + InactiveStates then StateIgnored(pr.state)
    else
      var relabelled := RelabelAll(project.environments, Targets(pr), pr.headBranch);
      var merged := if pr.state == "closed" && pr.merged
                    then FanOut.EnvIdsForBranch(relabelled.environments, pr.baseBranch) else [];
      var ids := Php.Unique(relabelled.updated + merged);
      if |ids| == 0 then NotChanged(relabelled.environments)
      else
        var builds := seq(|ids|, k requires 0 <= k < |ids| => FanOut.Request(Some(ids[k]), project.defaultBranch, None));
        assert forall q :: q in builds ==> exists k :: 0 <= k < |ids| && q == builds[k];
        Updated(relabelled.environments, builds)
  }

  /**
   * After an accepted event, the head branch is in an environment's list exactly when the
   * environment's name is asked for by an `env:` label that counts; every other branch of
   * every environment is untouched.
   */
  lemma HeadBranchFollowsLabels(project: FanOut.Project, pr: PullRequest, i: int)
    requires pr.action in ActiveActions + InactiveActions && pr.state in ActiveStates + InactiveStates
    requires 0 <= i < |project.environments|
    ensures var r := GogsPullRequest(project, pr);
            var before := project.environments[i];
            var after := r.environments[i];
            && (r.NotChanged? || r.Updated?)
            && |r.environments| == |project.environments|
            && after.id == before.id && after.name == before.name
            && (pr.headBranch in after.branches <==> before.name in Targets(pr))
            && Without(after.branches, pr.headBranch) == Without(before.branches, pr.headBranch)
  {
  }

  /**
   * The rebuilt environments are exactly those whose list changed, plus, on a merged close,
   * those that now serve the base branch; each is built once.
   */
  lemma RebuildsChangedOnce(project: FanOut.Project, pr: PullRequest)
    requires pr.action in ActiveActions + InactiveActions && pr.state in ActiveStates + InactiveStates
    ensures var r := GogsPullRequest(project, pr);
            var relabelled := RelabelAll(project.environments, Targets(pr), pr.headBranch);
            forall id: FanOut.EnvId ::
              (r.Updated? && FanOut.Request(Some(id), project.defaultBranch, None) in r.builds) <==>
              (Changes(project.environments, Targets(pr), pr.headBranch, id)
               || (pr.state == "closed" && pr.merged && id in FanOut.EnvIdsForBranch(relabelled.environments, pr.baseBranch)))
  {
    var r := GogsPullRequest(project, pr);
    var relabelled := RelabelAll(project.environments, Targets(pr), pr.headBranch);
    var merged := if pr.state == "closed" && pr.merged
                  then FanOut.EnvIdsForBranch(relabelled.environments, pr.baseBranch) else [];
    var ids := Php.Unique(relabelled.updated + merged);
    assert forall id :: id in ids <==> id in relabelled.updated || id in merged;
    forall id: FanOut.EnvId
      ensures (r.Updated? && FanOut.Request(Some(id), project.defaultBranch, None) in r.builds) <==> id in ids
    {
      if id in ids {
        var k :| 0 <= k < |ids| && ids[k] == id;
        assert r.builds[k] == FanOut.Request(Some(id), project.defaultBranch, None);
      }
    }
  }

  /** The labels of the example below: only `env:staging` names an environment. */
  lemma StagingLabelTargets(pr: PullRequest)
    requires pr == PullRequest("opened", "open", "feature", "main", false, Some(["env:staging", "bug"]))
    ensures Targets(pr) == ["staging"]
  {
    assert Php.StartsWith("env:staging", EnvLabelPrefix);
    assert !Php.StartsWith("bug", EnvLabelPrefix);
    assert EnvNames(["bug"]) == [];
  }

  /** Relabelling the single `staging` environment of the example below for `feature`. */
  lemma StagingRelabelled(env: FanOut.Environment)
    requires env == FanOut.Environment(3, "staging", ["main"])
    ensures RelabelAll([env], ["staging"], "feature") == Relabelling([FanOut.Environment(3, "staging", ["main", "feature"])], [3])
  {
    var after := FanOut.Environment(3, "staging", ["main", "feature"]);
    assert Relabel(env, ["staging"], "feature") == Relabelled(after, true);
    assert [env][1..] == [];
    assert RelabelAll([], ["staging"], "feature") == Relabelling([], []);
  }

  /** A labelled pull request that opens: the labelled environment gains the head branch and is rebuilt. */
  lemma OpenedLabelAddsBranch()
    ensures var env := FanOut.Environment(3, "staging", ["main"]);
            var project := FanOut.Project(false, "main", false, [env]);
            var pr := PullRequest("opened", "open", "feature", "main", false, Some(["env:staging", "bug"]));
            GogsPullRequest(project, pr) ==
              Updated([FanOut.Environment(3, "staging", ["main", "feature"])], [FanOut.Request(Some(3), "main", None)])
  {
    var pr := PullRequest("opened", "open", "feature", "main", false, Some(["env:staging", "bug"]));
    var env := FanOut.Environment(3, "staging", ["main"]);
    StagingLabelTargets(pr);
    StagingRelabelled(env);
    assert [3] + [] == [3];
    assert Php.Unique([3]) == [3];
    var builds := seq(1, k requires 0 <= k < 1 => FanOut.Request(Some(3), "main", None));
    assert builds == [FanOut.Request(Some(3), "main", None)];
  }
}
