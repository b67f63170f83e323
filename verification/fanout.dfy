/**
 * Build fan-out and duplicate suppression: `WebhookController::createBuild`.
 *
 * Given a project, the builds already stored for the incoming commit, and the
 * commit's branch, tag and optional target environment name, decide which builds
 * to create. The build-creation service becomes an output: the list of creation
 * requests. The build store becomes an input (`Store`), and `Submit` threads it
 * through one call so that repeated deliveries can be reasoned about.
 */
module FanOut {
  import opened Wrappers
  import Php

  /** Database keys start at 1, so PHP's loose `null == 0` never equates a null environment with an id. */
  type EnvId = n: nat | n >= 1 witness 1
  type BuildId = n: nat | n >= 1 witness 1

  /** A deployment target of a project, with the branches mapped to it. */
  datatype Environment = Environment(id: EnvId, name: string, branches: seq<string>)

  datatype Project = Project(
    archived: bool,
    defaultBranch: string,
    defaultBranchOnly: bool,
    environments: seq<Environment>
  )

  /** A build already stored for the commit: its id, environment and tag. */
  datatype PriorBuild = PriorBuild(id: BuildId, envId: Option<EnvId>, tag: Option<string>)

  /** One call to the build-creation service: environment, branch and tag of the new build. */
  datatype Request = Request(envId: Option<EnvId>, branch: string, tag: Option<string>)

  /** The answer of `createBuild`; every constructor but `ProjectNotFound` is a returned array. */
  datatype Outcome =
    | ProjectNotFound                                           // NotFoundException
    | IgnoredNotDefaultBranch                                   // 'ignored': only the default branch is built
    | CreatedOne(request: Request)                              // 'ok' with 'buildID' (no environments)
    | DuplicateOf(buildId: BuildId)                             // 'ignored': "Duplicate of build #id"
    | Created(requests: seq<Request>, duplicates: seq<BuildId>) // 'ok' with 'builds', and a message iff duplicates
    | AllDuplicates(duplicates: seq<BuildId>)                   // 'ignored': "already created builds (...)"
    | IgnoredNoEnvironment                                      // 'ignored': "Branch not assigned to any environment"
  {
    /** The response's 'status' is 'ok'. */
    predicate IsOk() {
      CreatedOne? || Created?
    }

    /** The creation requests this outcome issues. */
    function Requests(): seq<Request> {
      match this
      case CreatedOne(q) => [q]
      case Created(qs, _) => qs
      case _ => []
    }
  }

  // ---------------------------------------------------------------------------
  // The two id-keyed maps of prior builds (build id -> environment id, build id -> tag)
  // ---------------------------------------------------------------------------

  /** `$map[$build->getId()] = ...` for one row: an id already present keeps its slot and takes the new values. */
  function Put(idx: seq<PriorBuild>, row: PriorBuild): (r: seq<PriorBuild>)
    ensures (forall i :: 0 <= i < |idx| ==> idx[i].id != row.id) ==> r == idx + [row]
    decreases |idx|
  {
    if |idx| == 0 then [row]
    else if idx[0].id == row.id then [row] + idx[1..]
    else [idx[0]] + Put(idx[1..], row)
  }

  /** The maps built by the loop over the stored builds, kept as one ordered sequence. */
  function Index(rows: seq<PriorBuild>): seq<PriorBuild>
    decreases |rows|
  {
    if |rows| == 0 then [] else Put(Index(rows[..|rows| - 1]), rows[|rows| - 1])
  }

  predicate DistinctIds(rows: seq<PriorBuild>) {
    forall i, j :: 0 <= i < j < |rows| ==> rows[i].id != rows[j].id
  }

  /** Stored builds have distinct primary keys, so the maps hold every row, in order. */
  lemma {:induction false} IndexOfDistinct(rows: seq<PriorBuild>)
    requires DistinctIds(rows)
    ensures Index(rows) == rows
    decreases |rows|
  {
    if |rows| > 0 {
      var init := rows[..|rows| - 1];
      IndexOfDistinct(init);
      assert rows == init + [rows[|rows| - 1]];
    }
  }

  // ---------------------------------------------------------------------------
  // The duplicate rule
  // ---------------------------------------------------------------------------

  /**
   * `in_array($envId, $ignoreEnvironments)`: some prior build has this environment.
   * With `env == None` this is the strict `in_array(null, ..., true)` of the no-environment path.
   */
  predicate EnvBuilt(env: Option<EnvId>, idx: seq<PriorBuild>) {
    exists i :: 0 <= i < |idx| && idx[i].envId == env
  }

  /** `in_array($tag, $ignoreTags, true)`. */
  predicate TagBuilt(tag: string, idx: seq<PriorBuild>) {
    exists i :: 0 <= i < |idx| && idx[i].tag == Some(tag)
  }

  /** A truthy tag that no prior build carries: it always defeats duplicate suppression. */
  predicate NewTag(tag: Option<string>, idx: seq<PriorBuild>) {
    Php.OptStrTruthy(tag) && !TagBuilt(tag.value, idx)
  }

  /** Build unless this environment was already built for the commit and the tag brings nothing new. */
  predicate ShouldBuild(env: Option<EnvId>, tag: Option<string>, idx: seq<PriorBuild>) {
    !EnvBuilt(env, idx) || NewTag(tag, idx)
  }

  /** `array_search($envId, $ignoreEnvironments)`: the id of the first prior build with this environment. */
  function FirstWith(env: Option<EnvId>, idx: seq<PriorBuild>): (r: Option<BuildId>)
    ensures r.Some? <==> EnvBuilt(env, idx)
    ensures r.Some? ==> exists i :: 0 <= i < |idx| && idx[i].envId == env && idx[i].id == r.value
                                   && forall j :: 0 <= j < i ==> idx[j].envId != env
    decreases |idx|
  {
    if |idx| == 0 then None
    else if idx[0].envId == env then Some(idx[0].id)
    else
      var r := FirstWith(env, idx[1..]);
      if r.Some? then
        var i :| 0 <= i < |idx[1..]| && idx[1..][i].envId == env && idx[1..][i].id == r.value
                 && forall j :: 0 <= j < i ==> idx[1..][j].envId != env;
        assert idx[i + 1] == idx[1..][i];
        assert forall j :: 1 <= j < i + 1 ==> idx[j] == idx[1..][j - 1];
        r
      else
        assert forall i :: 1 <= i < |idx| ==> idx[i] == idx[1..][i - 1];
        None
  }

  // ---------------------------------------------------------------------------
  // Environment resolution
  // ---------------------------------------------------------------------------

  /** `getByNameAndProjectId`: the first environment of the project with this name. */
  function FindByName(envs: seq<Environment>, name: string): (r: Option<Environment>)
    ensures r.Some? ==> r.value in envs && r.value.name == name
    ensures r.None? ==> forall e :: e in envs ==> e.name != name
    decreases |envs|
  {
    if |envs| == 0 then None
    else if envs[0].name == name then Some(envs[0])
    else FindByName(envs[1..], name)
  }

  /** `getEnvironmentsNamesByBranch`: the ids of the environments whose branch list holds the branch. */
  function EnvIdsForBranch(envs: seq<Environment>, branch: string): (ids: seq<EnvId>)
    ensures forall e :: e in ids <==> exists env :: env in envs && env.id == e && branch in env.branches
    decreases |envs|
  {
    if |envs| == 0 then []
    else
      var rest := EnvIdsForBranch(envs[1..], branch);
      assert forall env :: env in envs <==> env == envs[0] || env in envs[1..];
      if branch in envs[0].branches then [envs[0].id] + rest else rest
  }

  // ---------------------------------------------------------------------------
  // createBuild
  // ---------------------------------------------------------------------------

  /** What the fan-out loop produced: the creation requests and the ids of the builds found to duplicate. */
  datatype Split = Split(created: seq<Request>, duplicates: seq<BuildId>)

  /** The loop over the environments mapped to the branch; each one is judged on its own against the prior builds. */
  function FanOutLoop(ids: seq<EnvId>, branch: string, tag: Option<string>, idx: seq<PriorBuild>): (s: Split)
    ensures |s.created| + |s.duplicates| == |ids|
    ensures forall q :: q in s.created ==>
              q.envId.Some? && q.envId.value in ids && q.branch == branch && q.tag == tag
              && ShouldBuild(q.envId, tag, idx)
    ensures forall e :: e in ids && ShouldBuild(Some(e), tag, idx) ==> Request(Some(e), branch, tag) in s.created
    ensures forall e :: e in ids && !ShouldBuild(Some(e), tag, idx) ==>
              FirstWith(Some(e), idx).Some? && FirstWith(Some(e), idx).value in s.duplicates
    ensures forall d :: d in s.duplicates ==>
              exists e :: e in ids && !ShouldBuild(Some(e), tag, idx) && FirstWith(Some(e), idx) == Some(d)
    decreases |ids|
  {
    if |ids| == 0 then Split([], [])
    else
      var rest := FanOutLoop(ids[1..], branch, tag, idx);
      var e := ids[0];
      assert forall x :: x in ids <==> x == e || x in ids[1..];
      if ShouldBuild(Some(e), tag, idx) then
        Split([Request(Some(e), branch, tag)] + rest.created, rest.duplicates)
      else
        Split(rest.created, [FirstWith(Some(e), idx).value] + rest.duplicates)
  }

  /**
   * The fan-out path: one request per mapped environment that is not yet built for the
   * commit (or whose tag is new), each on the project's default branch; 'ok' iff at
   * least one request, with duplicates reported iff some environment was skipped.
   */
  function DecideMapped(mapped: seq<EnvId>, idx: seq<PriorBuild>, defaultBranch: string, tag: Option<string>): (r: Outcome)
    ensures r.Created? || r.AllDuplicates? || r == IgnoredNoEnvironment
    ensures r == IgnoredNoEnvironment <==> mapped == []
    ensures r.IsOk() <==> exists e :: e in mapped && ShouldBuild(Some(e), tag, idx)
    ensures forall e :: e in mapped && ShouldBuild(Some(e), tag, idx) ==> Request(Some(e), defaultBranch, tag) in r.Requests()
    ensures forall q :: q in r.Requests() ==>
              q.envId.Some? && q.envId.value in mapped && q.branch == defaultBranch && q.tag == tag
              && ShouldBuild(q.envId, tag, idx)
    ensures r.Created? ==> (r.duplicates != [] <==> exists e :: e in mapped && !ShouldBuild(Some(e), tag, idx))
    ensures r.AllDuplicates? ==> r.duplicates != [] && forall e :: e in mapped ==> FirstWith(Some(e), idx).value in r.duplicates
  {
    if |mapped| == 0 then IgnoredNoEnvironment
    else
      var s := FanOutLoop(mapped, defaultBranch, tag, idx);
      assert s.duplicates != [] ==> s.duplicates[0] in s.duplicates;
      assert s.created != [] ==> s.created[0] in s.created;
      if |s.created| > 0 then Created(s.created, s.duplicates) else AllDuplicates(s.duplicates)
  }

  /** A named environment: one request for it, unless it is already built and the tag is not new. */
  function DecideNamed(env: EnvId, idx: seq<PriorBuild>, defaultBranch: string, tag: Option<string>): (r: Outcome)
    ensures r.IsOk() <==> ShouldBuild(Some(env), tag, idx)
    ensures r.IsOk() ==> r == Created([Request(Some(env), defaultBranch, tag)], [])
    ensures !r.IsOk() ==> exists i :: 0 <= i < |idx| && idx[i].envId == Some(env) && r == AllDuplicates([idx[i].id])
                                      && forall j :: 0 <= j < i ==> idx[j].envId != Some(env)
  {
    if ShouldBuild(Some(env), tag, idx) then
      Created([Request(Some(env), defaultBranch, tag)], [])
    else
      AllDuplicates([FirstWith(Some(env), idx).value])
  }

  /**
   * No environments: one request with no environment and the triggering branch, unless a
   * prior build has no environment and the tag is not new; then a duplicate of the first
   * such build.
   */
  function DecideUnassigned(idx: seq<PriorBuild>, branch: string, tag: Option<string>): (r: Outcome)
    ensures r.IsOk() <==> ShouldBuild(None, tag, idx)
    ensures r.IsOk() ==> r == CreatedOne(Request(None, branch, tag))
    ensures !r.IsOk() ==> exists i :: 0 <= i < |idx| && idx[i].envId.None? && r == DuplicateOf(idx[i].id)
                                      && forall j :: 0 <= j < i ==> idx[j].envId.Some?
  {
    if ShouldBuild(None, tag, idx) then CreatedOne(Request(None, branch, tag))
    else DuplicateOf(FirstWith(None, idx).value)
  }

  /** Both halves of the branch filter: the project builds this branch. */
  predicate BranchAllowed(project: Project, branch: string) {
    !(project.defaultBranchOnly && branch != project.defaultBranch)
  }

  /** The calls the decision reaches: not archived, branch allowed. */
  predicate Reaches(project: Project, branch: string) {
    !project.archived && BranchAllowed(project, branch)
  }

  /** The environment a truthy name resolves to, when the project has one by that name. */
  function NamedTarget(project: Project, envName: Option<string>): (r: Option<Environment>)
    ensures r.Some? ==> r.value in project.environments && envName == Some(r.value.name) && Php.StrTruthy(r.value.name)
  {
    if Php.OptStrTruthy(envName) then FindByName(project.environments, envName.value) else None
  }

  /**
   * The decision of `createBuild`. A missing environment name is treated as a failed
   * lookup (see `CreateBuildAsWritten` for what the source does instead).
   */
  function CreateBuild(
    project: Project, rows: seq<PriorBuild>, branch: string, tag: Option<string>, envName: Option<string>
  ): (r: Outcome)
    ensures r == ProjectNotFound <==> project.archived
    ensures r == IgnoredNotDefaultBranch <==> !project.archived && !BranchAllowed(project, branch)
    ensures r.Requests() != [] <==> r.IsOk()
    ensures r.AllDuplicates? ==> r.duplicates != []
    ensures r.CreatedOne? || r.DuplicateOf? ==> project.environments == []
    ensures r.Created? || r.AllDuplicates? || r == IgnoredNoEnvironment ==> project.environments != []
    ensures forall q :: q in r.Requests() ==> q.tag == tag && ShouldBuild(q.envId, tag, Index(rows))
  {
    if project.archived then ProjectNotFound
    else
      var idx := Index(rows);
      if !BranchAllowed(project, branch) then IgnoredNotDefaultBranch
      else if |project.environments| > 0 then
        var target := NamedTarget(project, envName);
        if target.Some? then DecideNamed(target.value.id, idx, project.defaultBranch, tag)
        else DecideMapped(EnvIdsForBranch(project.environments, branch), idx, project.defaultBranch, tag)
      else
        DecideUnassigned(idx, branch, tag)
  }

  /** A call of `createBuild` as the source makes it: it returns, or it dies with an uncaught error. */
  datatype Call = Crashed | Returned(outcome: Outcome)

  /**
   * `createBuild` as written: with environments configured, the environment store is asked
   * for the name before the truthiness test, and its `string` parameter refuses a missing
   * name under strict typing; the resulting error is not an exception, so nothing catches it.
   */
  function CreateBuildAsWritten(
    project: Project, rows: seq<PriorBuild>, branch: string, tag: Option<string>, envName: Option<string>
  ): (r: Call)
    ensures r.Crashed? <==> Reaches(project, branch) && project.environments != [] && envName.None?
    ensures r.Returned? ==> r.outcome == CreateBuild(project, rows, branch, tag, envName)
  {
    if project.archived then Returned(ProjectNotFound)
    else if !BranchAllowed(project, branch) then Returned(IgnoredNotDefaultBranch)
    else if |project.environments| > 0 && envName.None? then Crashed
    else Returned(CreateBuild(project, rows, branch, tag, envName))
  }

  /**
   * Every webhook except the generic one calls `createBuild` without an environment name:
   * for a project whose environment serves the pushed branch, the source dies where the
   * fan-out to that environment was intended.
   */
  lemma MissingNameCrashesAsWritten()
    ensures var env := Environment(1, "production", ["master"]);
            var project := Project(false, "master", false, [env]);
            && CreateBuildAsWritten(project, [], "master", None, None) == Crashed
            && CreateBuild(project, [], "master", None, None) == Created([Request(Some(1), "master", None)], [])
  {
    var env := Environment(1, "production", ["master"]);
    var project := Project(false, "master", false, [env]);
    assert EnvIdsForBranch(project.environments, "master") == [1] by {
      assert 1 in EnvIdsForBranch(project.environments, "master");
    }
  }

  /**
   * Environments configured and no usable name: one request per environment mapped to the
   * branch that is not yet built for the commit (or whose tag is new), each on the project's
   * default branch; every other mapped environment is reported by the id of its prior build.
   */
  lemma FanOutPerEnvironment(project: Project, rows: seq<PriorBuild>, branch: string, tag: Option<string>, envName: Option<string>)
    requires Reaches(project, branch) && project.environments != []
    requires NamedTarget(project, envName).None?
    ensures var r := CreateBuild(project, rows, branch, tag, envName);
            var idx := Index(rows);
            var mapped := EnvIdsForBranch(project.environments, branch);
            && (mapped == [] <==> r == IgnoredNoEnvironment)
            && (r.IsOk() <==> exists e :: e in mapped && ShouldBuild(Some(e), tag, idx))
            && (forall e :: e in mapped && ShouldBuild(Some(e), tag, idx) ==>
                  Request(Some(e), project.defaultBranch, tag) in r.Requests())
            && (forall q :: q in r.Requests() ==>
                  q.branch == project.defaultBranch && q.envId.Some? && q.envId.value in mapped)
            && (r.Created? ==> (r.duplicates != [] <==> exists e :: e in mapped && !ShouldBuild(Some(e), tag, idx)))
  {
  }

  /** A truthy environment name that resolves: one build for that environment, or the id of its prior build. */
  lemma NamedEnvironment(project: Project, rows: seq<PriorBuild>, branch: string, tag: Option<string>, envName: Option<string>)
    requires Reaches(project, branch) && project.environments != []
    requires NamedTarget(project, envName).Some?
    ensures var r := CreateBuild(project, rows, branch, tag, envName);
            var env := NamedTarget(project, envName).value;
            && (r.IsOk() <==> ShouldBuild(Some(env.id), tag, Index(rows)))
            && (r.IsOk() ==> r == Created([Request(Some(env.id), project.defaultBranch, tag)], []))
            && (!r.IsOk() ==> exists i :: 0 <= i < |Index(rows)| && Index(rows)[i].envId == Some(env.id)
                                          && r == AllDuplicates([Index(rows)[i].id])
                                          && forall j :: 0 <= j < i ==> Index(rows)[j].envId != Some(env.id))
  {
  }

  /** Zero environments: one build on the triggering branch, or a duplicate of the first environment-less prior build. */
  lemma NoEnvironments(project: Project, rows: seq<PriorBuild>, branch: string, tag: Option<string>, envName: Option<string>)
    requires Reaches(project, branch) && project.environments == []
    ensures var r := CreateBuild(project, rows, branch, tag, envName);
            var idx := Index(rows);
            && (r.IsOk() <==> ShouldBuild(None, tag, idx))
            && (r.IsOk() ==> r == CreatedOne(Request(None, branch, tag)))
            && (!r.IsOk() ==> exists i :: 0 <= i < |idx| && idx[i].envId.None? && r == DuplicateOf(idx[i].id)
                                          && forall j :: 0 <= j < i ==> idx[j].envId.Some?)
  {
  }

  /** A truthy tag absent from the prior builds defeats duplicate suppression on all three paths. */
  lemma NewTagAlwaysBuilds(project: Project, rows: seq<PriorBuild>, branch: string, tag: Option<string>, envName: Option<string>)
    requires Reaches(project, branch)
    requires NewTag(tag, Index(rows))
    ensures var r := CreateBuild(project, rows, branch, tag, envName);
            (r.IsOk() || r == IgnoredNoEnvironment) && (r.Created? ==> r.duplicates == [])
  {
    var mapped := EnvIdsForBranch(project.environments, branch);
    if mapped != [] {
      assert mapped[0] in mapped;
    }
  }

  /**
   * The environments the decision looks at: the environment-less slot when there are no
   * environments, the named one when it resolves, otherwise every environment mapped to
   * the branch.
   */
  function Considered(project: Project, branch: string, envName: Option<string>): seq<Option<EnvId>> {
    if project.environments == [] then [None]
    else if NamedTarget(project, envName).Some? then [Some(NamedTarget(project, envName).value.id)]
    else
      var mapped := EnvIdsForBranch(project.environments, branch);
      seq(|mapped|, k requires 0 <= k < |mapped| => Some(mapped[k]))
  }

  /** Every environment the decision looks at is either built already or requested now. */
  lemma {:induction false} ConsideredBuiltOrRequested(
    project: Project, rows: seq<PriorBuild>, branch: string, tag: Option<string>, envName: Option<string>
  )
    requires Reaches(project, branch)
    ensures var r := CreateBuild(project, rows, branch, tag, envName);
            forall c :: c in Considered(project, branch, envName) ==>
              EnvBuilt(c, Index(rows)) || exists q :: q in r.Requests() && q.envId == c
  {
    var r := CreateBuild(project, rows, branch, tag, envName);
    var idx := Index(rows);
    forall c | c in Considered(project, branch, envName) && !EnvBuilt(c, idx)
      ensures exists q :: q in r.Requests() && q.envId == c
    {
      if project.environments == [] {
        assert r.Requests()[0].envId == c;
      } else if NamedTarget(project, envName).Some? {
        assert r.Requests()[0].envId == c;
      } else {
        var mapped := EnvIdsForBranch(project.environments, branch);
        var k :| 0 <= k < |mapped| && c == Some(mapped[k]);
        assert mapped[k] in mapped;
        assert Request(c, project.defaultBranch, tag) in r.Requests();
      }
    }
  }

  /** With no tag and every considered environment built, the decision creates nothing. */
  lemma {:induction false} AllConsideredBuiltIgnored(
    project: Project, rows: seq<PriorBuild>, branch: string, envName: Option<string>
  )
    requires forall c :: c in Considered(project, branch, envName) ==> EnvBuilt(c, Index(rows))
    ensures !CreateBuild(project, rows, branch, None, envName).IsOk()
  {
    var idx := Index(rows);
    if Reaches(project, branch) && project.environments != [] && NamedTarget(project, envName).None? {
      var mapped := EnvIdsForBranch(project.environments, branch);
      forall e | e in mapped
        ensures !ShouldBuild(Some(e), None, idx)
      {
        var k :| 0 <= k < |mapped| && mapped[k] == e;
        assert Considered(project, branch, envName)[k] == Some(e);
      }
    } else if Reaches(project, branch) && project.environments != [] {
      assert Considered(project, branch, envName)[0] in Considered(project, branch, envName);
    } else if Reaches(project, branch) {
      assert Considered(project, branch, envName)[0] in Considered(project, branch, envName);
    }
  }

  // ---------------------------------------------------------------------------
  // The store, and what repeated deliveries do
  // ---------------------------------------------------------------------------

  /** A stored build of the project. */
  datatype StoredBuild = StoredBuild(id: BuildId, commit: string, envId: Option<EnvId>, branch: string, tag: Option<string>)

  /** The project's builds and the id the next created build receives. */
  datatype Store = Store(builds: seq<StoredBuild>, nextId: BuildId)

  /** Ids are distinct and below `nextId`, as the database's auto-increment key guarantees. */
  predicate Valid(st: Store) {
    && (forall i :: 0 <= i < |st.builds| ==> st.builds[i].id < st.nextId)
    && (forall i, j :: 0 <= i < j < |st.builds| ==> st.builds[i].id != st.builds[j].id)
  }

  /** `getByProjectAndCommit`: the stored builds of this commit, in store order. */
  function RowsFor(builds: seq<StoredBuild>, commit: string): (rows: seq<PriorBuild>)
    ensures |rows| <= |builds|
    ensures forall p :: p in rows <==> exists b :: b in builds && b.commit == commit && p == PriorBuild(b.id, b.envId, b.tag)
    decreases |builds|
  {
    if |builds| == 0 then []
    else
      var init := RowsFor(builds[..|builds| - 1], commit);
      var b := builds[|builds| - 1];
      assert forall x :: x in builds <==> x in builds[..|builds| - 1] || x == b;
      if b.commit == commit then init + [PriorBuild(b.id, b.envId, b.tag)] else init
  }

  /** The result of one delivery against the store. */
  datatype Submitted = Submitted(store: Store, outcome: Outcome, newIds: seq<BuildId>)

  /** The store after persisting some requests, and the ids the new builds received. */
  datatype Stored = Stored(store: Store, newIds: seq<BuildId>)

  /** Store the requested builds for `commit`, with consecutive fresh ids. */
  function Persist(st: Store, commit: string, reqs: seq<Request>): (r: Stored)
    ensures |r.newIds| == |reqs| && |r.store.builds| == |st.builds| + |reqs|
    ensures r.store.builds[..|st.builds|] == st.builds
    ensures forall k :: 0 <= k < |reqs| ==> r.newIds[k] == st.nextId + k
    ensures forall k :: 0 <= k < |reqs| ==>
              r.store.builds[|st.builds| + k] == StoredBuild(r.newIds[k], commit, reqs[k].envId, reqs[k].branch, reqs[k].tag)
    ensures r.store.nextId == st.nextId + |reqs|
    decreases |reqs|
  {
    if |reqs| == 0 then Stored(st, [])
    else
      var q := reqs[0];
      var st1 := Store(st.builds + [StoredBuild(st.nextId, commit, q.envId, q.branch, q.tag)], st.nextId + 1);
      var rest := Persist(st1, commit, reqs[1..]);
      assert rest.store.builds[..|st1.builds|] == st1.builds;
      assert rest.store.builds[..|st.builds|] == st1.builds[..|st.builds|];
      Stored(rest.store, [st.nextId] + rest.newIds)
  }

  /** One delivery: decide against the commit's stored builds, then store what was decided. */
  function Submit(
    st: Store, project: Project, commit: string, branch: string, tag: Option<string>, envName: Option<string>
  ): Submitted {
    var outcome := CreateBuild(project, RowsFor(st.builds, commit), branch, tag, envName);
    var p := Persist(st, commit, outcome.Requests());
    Submitted(p.store, outcome, p.newIds)
  }

  lemma {:induction false} PersistKeepsValid(st: Store, commit: string, reqs: seq<Request>)
    requires Valid(st)
    ensures Valid(Persist(st, commit, reqs).store)
  {
    var r := Persist(st, commit, reqs);
    var n := |st.builds|;
    forall i | 0 <= i < |r.store.builds|
      ensures r.store.builds[i].id < r.store.nextId
      ensures i < n ==> r.store.builds[i].id < st.nextId
      ensures i >= n ==> r.store.builds[i].id == r.newIds[i - n] && st.nextId <= r.store.builds[i].id
    {
      if i < n {
        assert r.store.builds[i] == r.store.builds[..n][i];
      } else {
        assert r.store.builds[n + (i - n)] == StoredBuild(r.newIds[i - n], commit, reqs[i - n].envId, reqs[i - n].branch, reqs[i - n].tag);
      }
    }
    forall i, j | 0 <= i < j < |r.store.builds|
      ensures r.store.builds[i].id != r.store.builds[j].id
    {
      if j < n {
        assert r.store.builds[i] == r.store.builds[..n][i];
        assert r.store.builds[j] == r.store.builds[..n][j];
      }
    }
  }

  lemma {:induction false} SubmitKeepsValid(
    st: Store, project: Project, commit: string, branch: string, tag: Option<string>, envName: Option<string>
  )
    requires Valid(st)
    ensures Valid(Submit(st, project, commit, branch, tag, envName).store)
  {
    var outcome := CreateBuild(project, RowsFor(st.builds, commit), branch, tag, envName);
    PersistKeepsValid(st, commit, outcome.Requests());
  }

  lemma {:induction false} RowsDistinct(builds: seq<StoredBuild>, commit: string)
    requires forall i, j :: 0 <= i < j < |builds| ==> builds[i].id != builds[j].id
    ensures DistinctIds(RowsFor(builds, commit))
    decreases |builds|
  {
    if |builds| > 0 {
      var init := builds[..|builds| - 1];
      RowsDistinct(init, commit);
      var b := builds[|builds| - 1];
      var rs := RowsFor(init, commit);
      forall p | p in rs
        ensures p.id != b.id
      {
        var x :| x in init && x.commit == commit && p == PriorBuild(x.id, x.envId, x.tag);
        var k :| 0 <= k < |init| && init[k] == x;
        assert builds[k] == x;
      }
    }
  }

  /** The rows of a valid store have distinct ids, so the id-keyed maps are the rows themselves. */
  lemma {:induction false} RowsIndexOfValid(st: Store, commit: string)
    requires Valid(st)
    ensures Index(RowsFor(st.builds, commit)) == RowsFor(st.builds, commit)
  {
    RowsDistinct(st.builds, commit);
    IndexOfDistinct(RowsFor(st.builds, commit));
  }

  /** Storing more builds never unbuilds an environment for the commit. */
  lemma {:induction false} BuiltStaysBuilt(st: Store, commit: string, reqs: seq<Request>, env: Option<EnvId>)
    requires EnvBuilt(env, RowsFor(st.builds, commit))
    ensures EnvBuilt(env, RowsFor(Persist(st, commit, reqs).store.builds, commit))
  {
    var rows0 := RowsFor(st.builds, commit);
    var after := Persist(st, commit, reqs).store.builds;
    var i :| 0 <= i < |rows0| && rows0[i].envId == env;
    var p := rows0[i];
    assert p in rows0;
    var b :| b in st.builds && b.commit == commit && p == PriorBuild(b.id, b.envId, b.tag);
    var m :| 0 <= m < |st.builds| && st.builds[m] == b;
    assert after[..|st.builds|][m] == b;
    assert b in after;
    var rows1 := RowsFor(after, commit);
    assert p in rows1;
    var n :| 0 <= n < |rows1| && rows1[n] == p;
  }

  /** Every stored request makes its environment built for the commit. */
  lemma {:induction false} RequestedBecomesBuilt(st: Store, commit: string, reqs: seq<Request>, k: int)
    requires 0 <= k < |reqs|
    ensures EnvBuilt(reqs[k].envId, RowsFor(Persist(st, commit, reqs).store.builds, commit))
  {
    var r := Persist(st, commit, reqs);
    var b := r.store.builds[|st.builds| + k];
    assert b in r.store.builds;
    var p := PriorBuild(r.newIds[k], reqs[k].envId, reqs[k].tag);
    var rows1 := RowsFor(r.store.builds, commit);
    assert p in rows1;
    var n :| 0 <= n < |rows1| && rows1[n] == p;
  }

  /** After a first untagged delivery, every environment it looked at is built for the commit. */
  lemma FirstDeliveryBuildsConsidered(
    st: Store, project: Project, commit: string, branch: string, envName: Option<string>
  )
    requires Valid(st) && Reaches(project, branch)
    ensures var first := Submit(st, project, commit, branch, None, envName);
            forall c :: c in Considered(project, branch, envName) ==>
              EnvBuilt(c, Index(RowsFor(first.store.builds, commit)))
  {
    var first := Submit(st, project, commit, branch, None, envName);
    var reqs := first.outcome.Requests();
    var rows0 := RowsFor(st.builds, commit);
    var rows1 := RowsFor(first.store.builds, commit);
    SubmitKeepsValid(st, project, commit, branch, None, envName);
    RowsIndexOfValid(st, commit);
    RowsIndexOfValid(first.store, commit);
    ConsideredBuiltOrRequested(project, rows0, branch, None, envName);
    forall c | c in Considered(project, branch, envName)
      ensures EnvBuilt(c, Index(rows1))
    {
      if EnvBuilt(c, rows0) {
        BuiltStaysBuilt(st, commit, reqs, c);
      } else {
        var q :| q in reqs && q.envId == c;
        var k :| 0 <= k < |reqs| && reqs[k] == q;
        RequestedBecomesBuilt(st, commit, reqs, k);
      }
    }
  }

  /**
   * Delivering the same untagged event twice creates nothing the second time: every
   * environment the first call looked at is built for the commit afterwards.
   */
  lemma RedeliveryCreatesNothing(
    st: Store, project: Project, commit: string, branch: string, envName: Option<string>
  )
    requires Valid(st)
    ensures var first := Submit(st, project, commit, branch, None, envName);
            var second := Submit(first.store, project, commit, branch, None, envName);
            && second.newIds == [] && second.store == first.store
            && !second.outcome.IsOk()
  {
    var first := Submit(st, project, commit, branch, None, envName);
    SubmitKeepsValid(st, project, commit, branch, None, envName);
    RowsIndexOfValid(first.store, commit);
    if Reaches(project, branch) {
      FirstDeliveryBuildsConsidered(st, project, commit, branch, envName);
      AllConsideredBuiltIgnored(project, RowsFor(first.store.builds, commit), branch, envName);
    }
    var second := Submit(first.store, project, commit, branch, None, envName);
    assert second.outcome.Requests() == [];
  }

  /**
   * No environments: after a delivery that created a build, the same untagged delivery is
   * reported as a duplicate of exactly that build.
   */
  lemma {:induction false} RedeliveryNamesFirstBuild(
    st: Store, project: Project, commit: string, branch: string, envName: Option<string>
  )
    requires Valid(st) && project.environments == []
    requires Submit(st, project, commit, branch, None, envName).outcome.IsOk()
    ensures var first := Submit(st, project, commit, branch, None, envName);
            var second := Submit(first.store, project, commit, branch, None, envName);
            |first.newIds| == 1 && second.outcome == DuplicateOf(first.newIds[0])
  {
    var first := Submit(st, project, commit, branch, None, envName);
    var rows0 := RowsFor(st.builds, commit);
    var rows1 := RowsFor(first.store.builds, commit);
    UnassignedSubmitAppendsOne(st, project, commit, branch, envName);
    var id := first.newIds[0];
    SubmitKeepsValid(st, project, commit, branch, None, envName);
    RowsIndexOfValid(first.store, commit);
    FirstWithAfterAbsent(None, rows0, PriorBuild(id, None, None));
    assert Index(rows1) == rows0 + [PriorBuild(id, None, None)];
  }

  /** A successful delivery with no environments stores exactly one environment-less row, on a commit that had none. */
  lemma {:induction false} UnassignedSubmitAppendsOne(
    st: Store, project: Project, commit: string, branch: string, envName: Option<string>
  )
    requires Valid(st) && project.environments == []
    requires Submit(st, project, commit, branch, None, envName).outcome.IsOk()
    ensures var first := Submit(st, project, commit, branch, None, envName);
            && |first.newIds| == 1
            && !EnvBuilt(None, RowsFor(st.builds, commit))
            && RowsFor(first.store.builds, commit) == RowsFor(st.builds, commit) + [PriorBuild(first.newIds[0], None, None)]
  {
    var first := Submit(st, project, commit, branch, None, envName);
    var rows0 := RowsFor(st.builds, commit);
    RowsIndexOfValid(st, commit);
    assert first.outcome == CreatedOne(Request(None, branch, None));
    var id := first.newIds[0];
    var extra := [StoredBuild(id, commit, None, branch, None)];
    assert first.store.builds == st.builds + extra;
    RowsForAppend(st.builds, extra, commit);
  }

  /** The first row of an environment that was absent is the appended one. */
  lemma {:induction false} FirstWithAfterAbsent(env: Option<EnvId>, idx: seq<PriorBuild>, p: PriorBuild)
    requires !EnvBuilt(env, idx) && p.envId == env
    ensures FirstWith(env, idx + [p]) == Some(p.id)
  {
    var full := idx + [p];
    assert full[|idx|].envId == env;
    var r := FirstWith(env, full);
    var i :| 0 <= i < |full| && full[i].envId == env && full[i].id == r.value
             && forall j :: 0 <= j < i ==> full[j].envId != env;
    if i < |idx| {
      assert false;
    }
  }

  /** Rows of the commit after storing new builds for it: the old rows, then the new ones. */
  lemma {:induction false} RowsForAppend(before: seq<StoredBuild>, extra: seq<StoredBuild>, commit: string)
    requires forall b :: b in extra ==> b.commit == commit
    ensures RowsFor(before + extra, commit) ==
            RowsFor(before, commit) + seq(|extra|, k requires 0 <= k < |extra| => PriorBuild(extra[k].id, extra[k].envId, extra[k].tag))
    decreases |extra|
  {
    if |extra| == 0 {
      assert before + extra == before;
    } else {
      var init := extra[..|extra| - 1];
      RowsForAppend(before, init, commit);
      assert (before + extra)[..|before + extra| - 1] == before + init;
    }
  }
}
