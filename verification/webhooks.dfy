/**
 * The webhook normalisers of `WebhookController`: each provider handler turns a decoded
 * payload into `createBuild` calls and folds their answers into a response array.
 *
 * A handler here receives the fields of the payload it reads, already decoded, plus the
 * build store; it returns the store after its `createBuild` calls together with the reply.
 * The HTTP requests some handlers make (the pull-request commit lists) become inputs: the
 * fetched commit list and the HTTP status of the fetch.
 */
module Webhooks {
  import opened Wrappers
  import Php
  import FanOut

  // ---------------------------------------------------------------------------
  // Committer addresses
  // ---------------------------------------------------------------------------

  /**
   * The guarded extraction of the push and pull-request handlers: a raw author
   * `Name <address>` yields the text between the first `<` and the first `>`; a raw
   * author without `>` is kept whole. With a `>` but no `<` before it, PHP's
   * `false + 1 == 1` makes the extraction drop the first character.
   */
  function ExtractEmail(raw: string): (r: string)
    ensures '>' !in raw ==> r == raw
    ensures '>' in raw ==> '>' !in r && |r| < |raw|
    ensures '>' in raw ==>
              var close := Php.IndexOf(raw, '>').value;
              |r| <= close && r == raw[close - |r|..close]
    ensures forall o, c :: 0 <= o < c < |raw| && raw[o] == '<' && raw[c] == '>' && '<' !in raw[..o] && '>' !in raw[..c] ==>
              r == raw[o + 1..c]
    ensures forall c :: 0 <= c < |raw| && raw[c] == '>' && '>' !in raw[..c] && '<' !in raw[..c] ==>
              r == (if c == 0 then [] else raw[1..c])
  {
    if '>' !in raw then raw
    else
      var close := Php.IndexOf(raw, '>').value;
      var p := raw[..close];
      var start := match Php.IndexOf(p, '<') case Some(j) => j + 1 case None => 1;
      var r := Php.SubstrFrom(p, start);
      var w := if start <= close then start else close;
      assert 0 <= w <= close && r == raw[w..close] by {
        if start <= close { assert p[start..] == raw[start..close]; }
        else { assert r == [] == raw[close..close]; }
      }
      FirstBracketsFacts(raw, close, r);
      NoOpenBracketFacts(raw, close, r);
      r
  }

  /** The brackets `ExtractEmail` finds are the first `>` and the first `<` before it. */
  lemma FirstBracketsFacts(raw: string, close: nat, r: string)
    requires '>' in raw && Php.IndexOf(raw, '>') == Some(close)
    requires r == Php.SubstrFrom(raw[..close], match Php.IndexOf(raw[..close], '<') case Some(j) => j + 1 case None => 1)
    ensures forall o, c :: 0 <= o < c < |raw| && raw[o] == '<' && raw[c] == '>' && '<' !in raw[..o] && '>' !in raw[..c] ==>
              r == raw[o + 1..c]
  {
    forall o, c | 0 <= o < c < |raw| && raw[o] == '<' && raw[c] == '>' && '<' !in raw[..o] && '>' !in raw[..c]
      ensures r == raw[o + 1..c]
    {
      BracketPair(raw, close, r, o, c);
    }
  }

  /** The text between a given first `<` and first `>` is what extraction returns. */
  lemma BracketPair(raw: string, close: nat, r: string, o: nat, c: nat)
    requires '>' in raw && Php.IndexOf(raw, '>') == Some(close)
    requires r == Php.SubstrFrom(raw[..close], match Php.IndexOf(raw[..close], '<') case Some(j) => j + 1 case None => 1)
    requires o < c < |raw| && raw[o] == '<' && raw[c] == '>' && '<' !in raw[..o] && '>' !in raw[..c]
    ensures r == raw[o + 1..c]
  {
    Php.IndexOfFirst(raw, '>', c);
    var p := raw[..c];
    assert p[..o] == raw[..o];
    Php.IndexOfFirst(p, '<', o);
    assert p[o + 1..] == raw[o + 1..c];
  }

  /** Without a `<` before the first `>`, extraction starts at the second character. */
  lemma NoOpenBracketFacts(raw: string, close: nat, r: string)
    requires '>' in raw && Php.IndexOf(raw, '>') == Some(close)
    requires r == Php.SubstrFrom(raw[..close], match Php.IndexOf(raw[..close], '<') case Some(j) => j + 1 case None => 1)
    ensures forall c :: 0 <= c < |raw| && raw[c] == '>' && '>' !in raw[..c] && '<' !in raw[..c] ==>
              r == (if c == 0 then [] else raw[1..c])
  {
    forall c | 0 <= c < |raw| && raw[c] == '>' && '>' !in raw[..c] && '<' !in raw[..c]
      ensures r == (if c == 0 then [] else raw[1..c])
    {
      Php.IndexOfFirst(raw, '>', c);
      if c > 0 { assert raw[..c][1..] == raw[1..c]; }
    }
  }

  /** `Name <address>` gives back the address, whatever follows the `>`. */
  lemma NameAddrGivesAddress(name: string, address: string, rest: string)
    requires '<' !in name && '>' !in name
    requires '>' !in address
    ensures ExtractEmail(name + "<" + address + ">" + rest) == address
  {
    var raw := name + "<" + address + ">" + rest;
    var close := |name| + 1 + |address|;
    assert raw[close] == '>';
    assert raw[..close] == name + "<" + address;
    assert '>' !in raw[..close];
    assert Php.IndexOf(raw, '>') == Some(close);
    var p := raw[..close];
    assert p[|name|] == '<' && '<' !in p[..|name|];
    assert Php.IndexOf(p, '<') == Some(|name|);
    assert p[|name| + 1..] == address;
  }

  /** A `>` with no `<` before it: the first character is lost. */
  lemma MissingOpenBracketDropsFirst(before: string, after: string)
    requires |before| > 0 && '<' !in before && '>' !in before
    ensures ExtractEmail(before + ">" + after) == before[1..]
  {
    var raw := before + ">" + after;
    assert raw[|before|] == '>';
    assert raw[..|before|] == before;
    assert Php.IndexOf(raw, '>') == Some(|before|);
  }

  /**
   * The extraction of the Bitbucket POST service, which has no guard: without a `>`,
   * `strpos` returns false and `substr` refuses it under strict typing (`None`, an
   * uncaught error).
   */
  function ExtractEmailUnguarded(raw: string): (r: Option<string>)
    ensures r.None? <==> '>' !in raw
    ensures r.Some? ==> r.value == ExtractEmail(raw)
  {
    if '>' in raw then Some(ExtractEmail(raw)) else None
  }

  // ---------------------------------------------------------------------------
  // Per-commit results and the batch loop shared by the commit-list handlers
  // ---------------------------------------------------------------------------

  /** Why `createBuild`'s exception was caught; only not-found can arise from the decision. */
  datatype CommitResult =
    | Answered(outcome: FanOut.Outcome)  // the array createBuild returned
    | Failed                             // ['status' => 'failed', 'error' => ...]: the project was not found
    | NotDistinct                        // ['status' => 'ignored']
    | NotHead                            // ['status' => 'ignored', 'message' => 'not branch head']

  /** One `createBuild` call a handler makes: commit, branch, tag and the committer it passes. */
  datatype Job = Job(commit: string, branch: string, tag: Option<string>, committer: string)

  /** One iteration of a handler's loop. `Abort` is an error no `catch (Exception)` stops. */
  datatype Step = Build(job: Job) | Skip(id: string, result: CommitResult) | Abort

  /** The results key a step writes, if it gets that far. */
  function StepKey(s: Step): Option<Php.Key> {
    match s
    case Build(job) => Some(Php.StrKey(job.commit))
    case Skip(id, _) => Some(Php.StrKey(id))
    case Abort => None
  }

  /** The steps that run: all of them up to the first `Abort`. */
  function Live(steps: seq<Step>): (live: seq<Step>)
    ensures live <= steps
    ensures forall s :: s in live ==> !s.Abort?
    ensures Abort !in steps ==> live == steps
    ensures Abort in steps ==> |live| < |steps| && steps[|live|] == Abort
    decreases |steps|
  {
    if |steps| == 0 then []
    else if steps[0] == Abort then []
    else [steps[0]] + Live(steps[1..])
  }

  /** The loop's state: the store, whether some call returned, the results array, and whether an error escaped. */
  datatype Batch = Batch(store: FanOut.Store, ok: bool, results: seq<Php.Entry<CommitResult>>, aborted: bool)

  /** What a returned or thrown `createBuild` leaves in the results. */
  function Answer(o: FanOut.Outcome): (r: CommitResult)
    ensures r == Failed <==> o == FanOut.ProjectNotFound
    ensures r != Failed ==> r == Answered(o)
  {
    if o == FanOut.ProjectNotFound then Failed else Answered(o)
  }

  /** One step against the loop state: nothing after an escaped error; a returned call marks the batch ok. */
  function Advance(b: Batch, project: FanOut.Project, s: Step): (r: Batch)
    ensures b.aborted ==> r == b
    ensures r.aborted <==> b.aborted || s.Abort?
    ensures r.ok <==> b.ok || (!b.aborted && s.Build? && !project.archived)
    ensures project.archived ==> r.store == b.store
  {
    if b.aborted then b
    else match s
      case Abort => b.(aborted := true)
      case Skip(id, res) => b.(results := Php.Assign(b.results, Php.StrKey(id), res))
      case Build(job) =>
        var sub := FanOut.Submit(b.store, project, job.commit, job.branch, job.tag, None);
        b.(store := sub.store, ok := b.ok || sub.outcome != FanOut.ProjectNotFound,
           results := Php.Assign(b.results, Php.StrKey(job.commit), Answer(sub.outcome)))
  }

  /** Some step of the sequence calls `createBuild`. */
  predicate AnyBuild(steps: seq<Step>) {
    exists i :: 0 <= i < |steps| && steps[i].Build?
  }

  /** The results keys a run of steps writes. */
  function KeysOf(steps: seq<Step>): set<Php.Key> {
    set s | s in steps && !s.Abort? :: StepKey(s).value
  }

  /** The results keys the live steps write. */
  function WrittenKeys(steps: seq<Step>): set<Php.Key> {
    KeysOf(Live(steps))
  }

  lemma KeysOfSnoc(xs: seq<Step>, s: Step)
    ensures s.Abort? ==> KeysOf(xs + [s]) == KeysOf(xs)
    ensures !s.Abort? ==> KeysOf(xs + [s]) == KeysOf(xs) + {StepKey(s).value}
  {
    assert forall x :: x in xs + [s] <==> x in xs || x == s;
  }

  /** What appending one step does to the live prefix's builds and keys. */
  lemma LiveExtends(init: seq<Step>, s: Step)
    ensures AnyBuild(Live(init + [s])) <==> AnyBuild(Live(init)) || (Abort !in init && s.Build?)
    ensures Abort in init || s.Abort? ==> WrittenKeys(init + [s]) == WrittenKeys(init)
    ensures Abort !in init && !s.Abort? ==> WrittenKeys(init + [s]) == WrittenKeys(init) + {StepKey(s).value}
  {
    LiveSnoc(init, s);
    if Abort !in init && s != Abort {
      assert Live(init) == init;
      AnyBuildSnoc(init, s);
      KeysOfSnoc(init, s);
    } else if Abort !in init {
      assert Live(init) == init;
    }
  }

  lemma AnyBuildSnoc(xs: seq<Step>, s: Step)
    ensures AnyBuild(xs + [s]) <==> AnyBuild(xs) || s.Build?
  {
    if AnyBuild(xs) {
      var i :| 0 <= i < |xs| && xs[i].Build?;
      assert (xs + [s])[i] == xs[i];
    }
    if s.Build? {
      assert (xs + [s])[|xs|] == s;
    }
  }

  /**
   * `$status = 'failed'; foreach (...) { try { $results[$id] = createBuild(...); $status = 'ok'; }
   * catch (Exception) { $results[$id] = failed; } }`, over the steps in order.
   */
  function RunBatch(st: FanOut.Store, project: FanOut.Project, steps: seq<Step>): (b: Batch)
    ensures b.aborted <==> Abort in steps
    ensures b.ok <==> !project.archived && AnyBuild(Live(steps))
    ensures project.archived ==> b.store == st
    ensures Php.UniqueKeys(b.results)
    ensures forall k :: k in Php.Keys(b.results) <==> k in WrittenKeys(steps)
    decreases |steps|
  {
    if |steps| == 0 then Batch(st, false, [], false)
    else
      var init := steps[..|steps| - 1];
      var s := steps[|steps| - 1];
      var prev := RunBatch(st, project, init);
      assert steps == init + [s];
      LiveExtends(init, s);
      AdvanceKeys(prev, project, s);
      Advance(prev, project, s)
  }

  /** One live step adds its key to the results and keeps the keys unique. */
  lemma AdvanceKeys(prev: Batch, project: FanOut.Project, s: Step)
    requires Php.UniqueKeys(prev.results)
    ensures Php.UniqueKeys(Advance(prev, project, s).results)
    ensures !prev.aborted && !s.Abort? ==> forall k :: k in Php.Keys(Advance(prev, project, s).results) <==>
              k == StepKey(s).value || k in Php.Keys(prev.results)
    ensures prev.aborted || s.Abort? ==> Advance(prev, project, s).results == prev.results
  {
    if !prev.aborted && !s.Abort? {
      var v := if s.Skip? then s.result
               else Answer(FanOut.Submit(prev.store, project, s.job.commit, s.job.branch, s.job.tag, None).outcome);
      assert Advance(prev, project, s).results == Php.Assign(prev.results, StepKey(s).value, v);
      Php.AssignKeepsKeysUnique(prev.results, StepKey(s).value, v);
      forall k
        ensures k in Php.Keys(Php.Assign(prev.results, StepKey(s).value, v)) <==> k == StepKey(s).value || k in Php.Keys(prev.results)
      {
        Php.AssignKeys(prev.results, StepKey(s).value, v, k);
      }
    }
  }

  /** Appending a step extends the live prefix by it, unless an `Abort` came first or it is one. */
  lemma {:induction false} LiveSnoc(steps: seq<Step>, s: Step)
    ensures Abort in steps ==> Live(steps + [s]) == Live(steps)
    ensures Abort !in steps && s != Abort ==> Live(steps + [s]) == steps + [s]
    ensures Abort !in steps && s == Abort ==> Live(steps + [s]) == steps
    decreases |steps|
  {
    if |steps| > 0 {
      LiveSnoc(steps[1..], s);
      assert (steps + [s])[1..] == steps[1..] + [s];
    }
  }

  /** The batch keeps the store's ids distinct and below the next id. */
  lemma {:induction false} RunBatchKeepsValid(st: FanOut.Store, project: FanOut.Project, steps: seq<Step>)
    requires FanOut.Valid(st)
    ensures FanOut.Valid(RunBatch(st, project, steps).store)
    decreases |steps|
  {
    if |steps| > 0 {
      var init := steps[..|steps| - 1];
      var s := steps[|steps| - 1];
      RunBatchKeepsValid(st, project, init);
      var prev := RunBatch(st, project, init);
      if !prev.aborted && s.Build? {
        FanOut.SubmitKeepsValid(prev.store, project, s.job.commit, s.job.branch, s.job.tag, None);
      }
    }
  }

  /**
   * When every live step that writes key `k` writes the same skip result, the results array
   * holds that result under `k`, whatever else was written around it.
   */
  lemma {:induction false} UniformSkipResult(st: FanOut.Store, project: FanOut.Project, steps: seq<Step>, id: string, res: CommitResult)
    requires forall s :: s in Live(steps) && StepKey(s) == Some(Php.StrKey(id)) ==> s == Skip(id, res)
    requires exists s :: s in Live(steps) && StepKey(s) == Some(Php.StrKey(id))
    ensures Php.Lookup(RunBatch(st, project, steps).results, Php.StrKey(id)) == Some(res)
    decreases |steps|
  {
    var init := steps[..|steps| - 1];
    var s := steps[|steps| - 1];
    assert steps == init + [s];
    LiveSnoc(init, s);
    var prev := RunBatch(st, project, init);
    var k := Php.StrKey(id);
    assert RunBatch(st, project, steps) == Advance(prev, project, s);
    if Abort in init || s == Abort {
      assert Live(steps) == Live(init);
      UniformSkipResult(st, project, init, id, res);
    } else if StepKey(s) == Some(k) {
      assert Live(steps) == init + [s];
      assert s == Skip(id, res);
      Php.AssignThenLookup(prev.results, k, res, k);
    } else {
      assert Live(steps) == init + [s] && Live(init) == init;
      assert forall x :: x in init + [s] <==> x in init || x == s;
      var w :| w in init + [s] && StepKey(w) == Some(k);
      assert w in init;
      UniformSkipResult(st, project, init, id, res);
      AdvanceKeepsOtherKey(prev, project, s, k);
    }
  }

  /** A step that writes another key leaves key `k`'s result as it was. */
  lemma AdvanceKeepsOtherKey(b: Batch, project: FanOut.Project, s: Step, k: Php.Key)
    requires !s.Abort? && StepKey(s) != Some(k)
    ensures Php.Lookup(Advance(b, project, s).results, k) == Php.Lookup(b.results, k)
  {
    if !b.aborted {
      var v := if s.Skip? then s.result else Answer(FanOut.Submit(b.store, project, s.job.commit, s.job.branch, s.job.tag, None).outcome);
      Php.AssignThenLookup(b.results, StepKey(s).value, v, k);
    }
  }

  // ---------------------------------------------------------------------------
  // Replies
  // ---------------------------------------------------------------------------

  /** The 'ignored' replies that carry no per-commit results. */
  datatype IgnoreReason =
    | ClosedWithoutCommit   // GitHub's all-zero `after`: ['status' => 'ignored']
    | UnusablePayload
    | UnsupportedTrigger(trigger: string)

  /** Exceptions a handler lets through to `handleAction`. */
  datatype Raised = NotFound | MissingCredentials | CommitListUnavailable

  /** A handler's answer. */
  datatype Reply =
    | Commits(ok: bool, commits: seq<Php.Entry<CommitResult>>)  // ['status' => ok|failed, 'commits' => $results]
    | Direct(outcome: FanOut.Outcome)                           // createBuild's own array, returned as is
    | Ignored(reason: IgnoreReason)
    | Threw(error: Raised)                                      // reaches handleAction's catch
    | Crashed                                                   // an error no catch stops

  /** The store after the handler, and its reply. */
  datatype Handled = Handled(store: FanOut.Store, reply: Reply)

  /** A finished loop as the handler returns it. */
  function Finish(b: Batch): (h: Handled)
    ensures h.store == b.store
    ensures b.aborted <==> h.reply == Crashed
    ensures !b.aborted ==> h.reply == Commits(b.ok, b.results)
  {
    Handled(b.store, if b.aborted then Crashed else Commits(b.ok, b.results))
  }

  /** A `createBuild` whose array the handler returns directly; not-found escapes as an exception. */
  function Single(st: FanOut.Store, project: FanOut.Project, job: Job): Handled {
    var sub := FanOut.Submit(st, project, job.commit, job.branch, job.tag, None);
    Handled(sub.store, if sub.outcome == FanOut.ProjectNotFound then Threw(NotFound) else Direct(sub.outcome))
  }

  /** `(int)$status < 200 || >= 300`. */
  predicate Success2xx(httpStatus: int) {
    200 <= httpStatus < 300
  }

  // ---------------------------------------------------------------------------
  // Bitbucket
  // ---------------------------------------------------------------------------

  /** The `new` side of one change of a push: branch name, head hash, raw author, message. */
  datatype BitbucketRef = BitbucketRef(name: string, hash: string, authorRaw: string, message: string)

  /** A change; `new` is empty when the change deletes a branch. */
  datatype BitbucketChange = BitbucketChange(newSide: Option<BitbucketRef>)

  function BitbucketPushSteps(changes: seq<BitbucketChange>): (steps: seq<Step>)
    ensures |steps| <= |changes| && Abort !in steps
    ensures forall s :: s in steps <==>
              (exists c :: c in changes && c.newSide.Some? && s == Build(Job(c.newSide.value.hash, c.newSide.value.name, None, ExtractEmail(c.newSide.value.authorRaw))))
    decreases |changes|
  {
    if |changes| == 0 then []
    else
      var rest := BitbucketPushSteps(changes[1..]);
      assert forall c :: c in changes <==> c == changes[0] || c in changes[1..];
      match changes[0].newSide
      case None => rest
      case Some(n) => [Build(Job(n.hash, n.name, None, ExtractEmail(n.authorRaw)))] + rest
  }

  /** The push steps never abort, build iff some change has a `new` side, and write exactly the hashes of those changes. */
  lemma BitbucketPushFacts(changes: seq<BitbucketChange>)
    ensures var steps := BitbucketPushSteps(changes);
            && Live(steps) == steps
            && (AnyBuild(steps) <==> exists c :: c in changes && c.newSide.Some?)
            && forall k :: k in KeysOf(steps) <==>
                 exists c :: c in changes && c.newSide.Some? && k == Php.StrKey(c.newSide.value.hash)
  {
    var steps := BitbucketPushSteps(changes);
    if exists c :: c in changes && c.newSide.Some? {
      var c :| c in changes && c.newSide.Some?;
      var s := Build(Job(c.newSide.value.hash, c.newSide.value.name, None, ExtractEmail(c.newSide.value.authorRaw)));
      assert s in steps;
    }
    if AnyBuild(steps) {
      var i :| 0 <= i < |steps| && steps[i].Build?;
      assert steps[i] in steps;
    }
    forall k | k in KeysOf(steps)
      ensures exists c :: c in changes && c.newSide.Some? && k == Php.StrKey(c.newSide.value.hash)
    {
      var s :| s in steps && !s.Abort? && StepKey(s).value == k;
    }
    forall c | c in changes && c.newSide.Some?
      ensures Php.StrKey(c.newSide.value.hash) in KeysOf(steps)
    {
      var s := Build(Job(c.newSide.value.hash, c.newSide.value.name, None, ExtractEmail(c.newSide.value.authorRaw)));
      assert s in steps;
    }
  }

  /** `bitbucketCommitRequest`: one build decision per change with a `new` side, untagged, on the change's branch. */
  function BitbucketCommitRequest(st: FanOut.Store, project: FanOut.Project, changes: seq<BitbucketChange>): (h: Handled)
    ensures h.reply.Commits?
    ensures h.reply.ok <==> !project.archived && exists c :: c in changes && c.newSide.Some?
    ensures forall k :: k in Php.Keys(h.reply.commits) <==>
              exists c :: c in changes && c.newSide.Some? && k == Php.StrKey(c.newSide.value.hash)
  {
    BitbucketPushFacts(changes);
    Finish(RunBatch(st, project, BitbucketPushSteps(changes)))
  }

  /** One commit of the Bitbucket POST service payload. */
  datatype ServiceCommit = ServiceCommit(rawNode: string, branch: string, rawAuthor: string, message: string)

  function ServiceSteps(commits: seq<ServiceCommit>): (steps: seq<Step>)
    ensures |steps| == |commits|
    ensures forall i :: 0 <= i < |commits| ==>
              steps[i] == match ExtractEmailUnguarded(commits[i].rawAuthor)
                          case None => Abort
                          case Some(e) => Build(Job(commits[i].rawNode, commits[i].branch, None, e))
  {
    seq(|commits|, i requires 0 <= i < |commits| =>
      match ExtractEmailUnguarded(commits[i].rawAuthor)
      case None => Abort
      case Some(e) => Build(Job(commits[i].rawNode, commits[i].branch, None, e)))
  }

  /** A raw author without `>` aborts the batch; without one, every commit is a build. */
  lemma ServiceStepsFacts(commits: seq<ServiceCommit>)
    ensures Abort in ServiceSteps(commits) <==> exists c :: c in commits && '>' !in c.rawAuthor
    ensures Abort !in ServiceSteps(commits) ==> (AnyBuild(Live(ServiceSteps(commits))) <==> commits != [])
  {
    var steps := ServiceSteps(commits);
    forall c | c in commits && '>' !in c.rawAuthor
      ensures Abort in steps
    {
      var i :| 0 <= i < |commits| && commits[i] == c;
      assert steps[i] == Abort;
    }
    if Abort !in steps && commits != [] {
      assert steps[0].Build? && steps[0] in Live(steps);
    }
  }

  /**
   * `bitbucketService`: every commit is built on its own branch; a raw author without `>`
   * stops the request with an uncaught error, after the builds of the commits before it.
   */
  function BitbucketService(st: FanOut.Store, project: FanOut.Project, commits: seq<ServiceCommit>): (h: Handled)
    ensures h.reply == Crashed <==> exists c :: c in commits && '>' !in c.rawAuthor
    ensures h.reply.Commits? ==> (h.reply.ok <==> !project.archived && commits != [])
  {
    ServiceStepsFacts(commits);
    Finish(RunBatch(st, project, ServiceSteps(commits)))
  }

  /** The pull-request fields the Bitbucket handler reads; the commit list is the fetched one. */
  datatype BitbucketPull = BitbucketPull(
    eventKey: string, sourceHash: string, destinationBranch: string, commits: seq<PullCommit>)

  /** A commit of a fetched pull-request commit list: id, raw or plain author, message. */
  datatype PullCommit = PullCommit(id: string, author: string, message: string)

  /**
   * `strpos($id, $head) !== 0` skips: only commits whose id starts with the source hash
   * (Bitbucket sends abbreviated hashes) are built, on the destination branch.
   */
  function BitbucketPullSteps(pr: BitbucketPull): (steps: seq<Step>)
    ensures |steps| == |pr.commits| && Abort !in steps
    ensures forall i :: 0 <= i < |pr.commits| ==>
              (steps[i].Build? <==> Php.StartsWith(pr.commits[i].id, pr.sourceHash))
    ensures forall i :: 0 <= i < |pr.commits| && steps[i].Build? ==>
              steps[i].job == Job(pr.commits[i].id, pr.destinationBranch, None, ExtractEmail(pr.commits[i].author))
    ensures forall i :: 0 <= i < |pr.commits| && !steps[i].Build? ==> steps[i] == Skip(pr.commits[i].id, NotHead)
  {
    seq(|pr.commits|, i requires 0 <= i < |pr.commits| =>
      var c := pr.commits[i];
      if Php.StartsWith(c.id, pr.sourceHash) then Build(Job(c.id, pr.destinationBranch, None, ExtractEmail(c.author)))
      else Skip(c.id, NotHead))
  }

  /**
   * `bitbucketPullRequest`: an unknown event key is ignored; then missing credentials and a
   * failed commit-list request raise; otherwise the head commit is built.
   */
  function BitbucketPullRequest(
    st: FanOut.Store, project: FanOut.Project, triggers: seq<string>,
    username: Option<string>, appPassword: Option<string>, httpStatus: int, pr: BitbucketPull
  ): (h: Handled)
    ensures Php.Trim(pr.eventKey) !in triggers ==> h == Handled(st, Ignored(UnsupportedTrigger(Php.Trim(pr.eventKey))))
    ensures Php.Trim(pr.eventKey) in triggers && !(Php.OptStrTruthy(username) && Php.OptStrTruthy(appPassword)) ==>
              h == Handled(st, Threw(MissingCredentials))
    ensures Php.Trim(pr.eventKey) in triggers && Php.OptStrTruthy(username) && Php.OptStrTruthy(appPassword) ==>
              (h.reply.Threw? <==> !Success2xx(httpStatus))
    ensures h.reply.Commits? ==>
              (h.reply.ok <==> !project.archived && exists c :: c in pr.commits && Php.StartsWith(c.id, pr.sourceHash))
  {
    var trigger := Php.Trim(pr.eventKey);
    if trigger !in triggers then Handled(st, Ignored(UnsupportedTrigger(trigger)))
    else if !Php.OptStrTruthy(username) || !Php.OptStrTruthy(appPassword) then Handled(st, Threw(MissingCredentials))
    else if !Success2xx(httpStatus) then Handled(st, Threw(CommitListUnavailable))
    else
      BitbucketPullFacts(pr);
      Finish(RunBatch(st, project, BitbucketPullSteps(pr)))
  }

  /** The pull-request steps never abort and build iff some fetched commit starts with the source hash. */
  lemma BitbucketPullFacts(pr: BitbucketPull)
    ensures var steps := BitbucketPullSteps(pr);
            && Live(steps) == steps
            && (AnyBuild(steps) <==> exists c :: c in pr.commits && Php.StartsWith(c.id, pr.sourceHash))
  {
    var steps := BitbucketPullSteps(pr);
    if exists c :: c in pr.commits && Php.StartsWith(c.id, pr.sourceHash) {
      var c :| c in pr.commits && Php.StartsWith(c.id, pr.sourceHash);
      var i :| 0 <= i < |pr.commits| && pr.commits[i] == c;
      assert steps[i].Build?;
    }
    if AnyBuild(steps) {
      var i :| 0 <= i < |steps| && steps[i].Build?;
      assert pr.commits[i] in pr.commits;
    }
  }

  // ---------------------------------------------------------------------------
  // GitHub
  // ---------------------------------------------------------------------------

  const HeadsPrefix: string := "refs/heads/"
  const TagsPrefix: string := "refs/tags/"

  /** The `after` value GitHub sends when a pull request is closed with a commit that no longer exists. */
  const NullCommit: string := "0000000000000000000000000000000000000000"

  /** The head commit of a push. */
  datatype HeadCommit = HeadCommit(id: string, distinct: bool, committerEmail: string, message: string)

  /** The push fields the GitHub handler reads; `headCommit` is none when missing or falsy. */
  datatype GithubPush = GithubPush(
    after: Option<string>, headCommit: Option<HeadCommit>, ref: string, baseRef: string, pusherEmail: string)

  /** A tag push names the tag in `ref` and the branch in `base_ref`, and is credited to the pusher. */
  function GithubPushJob(p: GithubPush, c: HeadCommit): (job: Job)
    ensures job.commit == c.id
    ensures Php.StartsWith(p.ref, TagsPrefix) ==>
              job.tag == Some(Php.StrRemove(p.ref, TagsPrefix)) && job.branch == Php.StrRemove(p.baseRef, HeadsPrefix)
              && job.committer == p.pusherEmail
    ensures !Php.StartsWith(p.ref, TagsPrefix) ==>
              job.tag == None && job.branch == Php.StrRemove(p.ref, HeadsPrefix) && job.committer == c.committerEmail
  {
    if Php.StartsWith(p.ref, TagsPrefix) then
      Job(c.id, Php.StrRemove(p.baseRef, HeadsPrefix), Some(Php.StrRemove(p.ref, TagsPrefix)), p.pusherEmail)
    else
      Job(c.id, Php.StrRemove(p.ref, HeadsPrefix), None, c.committerEmail)
  }

  /**
   * `githubCommitRequest`: the all-zero `after` is ignored before anything else; a push
   * without a head commit is unusable; a head commit that is not distinct is recorded as
   * ignored with overall status failed; otherwise the head commit is built.
   */
  function GithubCommitRequest(st: FanOut.Store, project: FanOut.Project, p: GithubPush): (h: Handled)
    ensures p.after == Some(NullCommit) ==> h == Handled(st, Ignored(ClosedWithoutCommit))
    ensures p.after != Some(NullCommit) && p.headCommit.None? ==> h == Handled(st, Ignored(UnusablePayload))
    ensures p.after != Some(NullCommit) && p.headCommit.Some? && !p.headCommit.value.distinct ==>
              h == Handled(st, Commits(false, [Php.Entry(Php.StrKey(p.headCommit.value.id), NotDistinct)]))
    ensures p.after != Some(NullCommit) && p.headCommit.Some? && p.headCommit.value.distinct ==>
              h.reply.Commits? && (h.reply.ok <==> !project.archived)
              && Php.UniqueKeys(h.reply.commits)
              && forall k :: k in Php.Keys(h.reply.commits) <==> k == Php.StrKey(p.headCommit.value.id)
  {
    if p.after == Some(NullCommit) then Handled(st, Ignored(ClosedWithoutCommit))
    else match p.headCommit
      case None => Handled(st, Ignored(UnusablePayload))
      case Some(c) =>
        if !c.distinct then Handled(st, Commits(false, [Php.Entry(Php.StrKey(c.id), NotDistinct)]))
        else
          var steps := [Build(GithubPushJob(p, c))];
          assert Live(steps) == steps;
          var b := RunBatch(st, project, steps);
          assert forall x :: x in Php.Keys(b.results) <==> x == Php.StrKey(c.id) by {
            assert forall x :: x in Live(steps) <==> x == steps[0];
          }
          Finish(b)
  }

  /** A tag pushed as `refs/tags/<name>` from `refs/heads/<branch>` builds tag `name` on `branch`. */
  lemma GithubTagPush(p: GithubPush, c: HeadCommit, name: string, branch: string)
    requires p.ref == TagsPrefix + name && !Php.Occurs(name, TagsPrefix)
    requires p.baseRef == HeadsPrefix + branch && !Php.Occurs(branch, HeadsPrefix)
    ensures GithubPushJob(p, c) == Job(c.id, branch, Some(name), p.pusherEmail)
  {
    assert Php.StartsWith(p.ref, TagsPrefix);
    Php.StrRemovePrefix(TagsPrefix, name);
    Php.StrRemovePrefix(HeadsPrefix, branch);
  }

  /** A branch pushed as `refs/heads/<branch>` builds `branch`, untagged, credited to the committer. */
  lemma GithubBranchPush(p: GithubPush, c: HeadCommit, branch: string)
    requires p.ref == HeadsPrefix + branch && !Php.Occurs(branch, HeadsPrefix)
    ensures GithubPushJob(p, c) == Job(c.id, branch, None, c.committerEmail)
  {
    assert p.ref[..|TagsPrefix|] != TagsPrefix by {
      assert p.ref[5] == 'h' && TagsPrefix[5] == 't';
    }
    Php.StrRemovePrefix(HeadsPrefix, branch);
  }

  /** The pull-request fields the GitHub handler reads; the commit list is the fetched one. */
  datatype GithubPull = GithubPull(action: string, headSha: string, baseRef: string, commits: seq<PullCommit>)

  /** Only the commit whose id is exactly the head sha is built, on the base branch. */
  function GithubPullSteps(pr: GithubPull): (steps: seq<Step>)
    ensures |steps| == |pr.commits| && Abort !in steps
    ensures forall i :: 0 <= i < |pr.commits| ==> (steps[i].Build? <==> pr.commits[i].id == pr.headSha)
    ensures forall i :: 0 <= i < |pr.commits| && steps[i].Build? ==>
              steps[i].job == Job(pr.headSha, Php.StrRemove(pr.baseRef, HeadsPrefix), None, pr.commits[i].author)
    ensures forall i :: 0 <= i < |pr.commits| && !steps[i].Build? ==> steps[i] == Skip(pr.commits[i].id, NotHead)
  {
    seq(|pr.commits|, i requires 0 <= i < |pr.commits| =>
      var c := pr.commits[i];
      if c.id == pr.headSha then Build(Job(c.id, Php.StrRemove(pr.baseRef, HeadsPrefix), None, c.author))
      else Skip(c.id, NotHead))
  }

  /** The steps of a pull request never abort, and some build exactly when the head commit is listed. */
  lemma GithubPullFacts(pr: GithubPull)
    ensures var steps := GithubPullSteps(pr);
            && Live(steps) == steps
            && (AnyBuild(steps) <==> exists c :: c in pr.commits && c.id == pr.headSha)
  {
    var steps := GithubPullSteps(pr);
    if exists c :: c in pr.commits && c.id == pr.headSha {
      var c :| c in pr.commits && c.id == pr.headSha;
      var i :| 0 <= i < |pr.commits| && pr.commits[i] == c;
      assert steps[i].Build?;
    }
    if AnyBuild(steps) {
      var i :| 0 <= i < |steps| && steps[i].Build?;
      assert pr.commits[i] in pr.commits;
    }
  }

  /** `githubPullRequest`: an unknown action is ignored, a failed commit-list request raises, otherwise the head commit is built. */
  function GithubPullRequest(
    st: FanOut.Store, project: FanOut.Project, triggers: seq<string>, httpStatus: int, pr: GithubPull
  ): (h: Handled)
    ensures Php.Trim(pr.action) !in triggers ==> h == Handled(st, Ignored(UnsupportedTrigger(Php.Trim(pr.action))))
    ensures Php.Trim(pr.action) in triggers && !Success2xx(httpStatus) ==> h == Handled(st, Threw(CommitListUnavailable))
    ensures Php.Trim(pr.action) in triggers && Success2xx(httpStatus) ==>
              h.reply.Commits? && (h.reply.ok <==> !project.archived && exists c :: c in pr.commits && c.id == pr.headSha)
  {
    var trigger := Php.Trim(pr.action);
    if trigger !in triggers then Handled(st, Ignored(UnsupportedTrigger(trigger)))
    else if !Success2xx(httpStatus) then Handled(st, Threw(CommitListUnavailable))
    else
      GithubPullFacts(pr);
      Finish(RunBatch(st, project, GithubPullSteps(pr)))
  }

  /** Every fetched commit other than the head is answered 'not branch head', even when listed twice. */
  lemma GithubPullSkipsOthers(st: FanOut.Store, project: FanOut.Project, pr: GithubPull, i: int)
    requires 0 <= i < |pr.commits| && pr.commits[i].id != pr.headSha
    ensures Php.Lookup(RunBatch(st, project, GithubPullSteps(pr)).results, Php.StrKey(pr.commits[i].id)) == Some(NotHead)
  {
    var steps := GithubPullSteps(pr);
    var id := pr.commits[i].id;
    forall s | s in Live(steps) && StepKey(s) == Some(Php.StrKey(id))
      ensures s == Skip(id, NotHead)
    {
      var j :| 0 <= j < |steps| && steps[j] == s;
    }
    assert steps[i] in Live(steps);
    UniformSkipResult(st, project, steps, id, NotHead);
  }

  // ---------------------------------------------------------------------------
  // GitLab and Gogs
  // ---------------------------------------------------------------------------

  /** A commit of a GitLab or Gogs push. */
  datatype PushCommit = PushCommit(id: string, authorEmail: string, message: string)

  /** A merge-request event: its state, source branch and last commit. */
  datatype MergeRequest = MergeRequest(state: string, sourceBranch: string, lastCommit: PushCommit)

  /**
   * The GitLab fields the handler reads: the merge request when `object_kind` is
   * `merge_request`, and the `commits` array when it is set and is an array.
   */
  datatype GitlabPayload = GitlabPayload(mergeRequest: Option<MergeRequest>, commits: Option<seq<PushCommit>>, ref: string)

  predicate OpenMergeRequest(p: GitlabPayload) {
    p.mergeRequest.Some? && p.mergeRequest.value.state in {"opened", "reopened"}
  }

  /**
   * `gitlab` as written: an open merge request builds its last commit on the source branch
   * and returns `createBuild`'s array; otherwise a push builds only its last commit, and an
   * empty `commits` array makes `end()` return false, whose missing id then reaches
   * `createBuild`'s `string` parameter and stops the request with an uncaught error.
   */
  function GitlabAsWritten(st: FanOut.Store, project: FanOut.Project, p: GitlabPayload): (h: Handled)
    ensures h.reply == Crashed <==> !OpenMergeRequest(p) && p.commits == Some([])
    ensures !OpenMergeRequest(p) && p.commits.Some? && p.commits.value != [] ==> h == Gitlab(st, project, p)
  {
    if OpenMergeRequest(p) then Gitlab(st, project, p)
    else if p.commits == Some([]) then Handled(st, Crashed)
    else Gitlab(st, project, p)
  }

  /**
   * `gitlab` with the empty push answered like the other push handlers answer one: no
   * build and status failed. Only the last commit of a push is built; a merge request in
   * any other state falls through to the push handling.
   */
  function Gitlab(st: FanOut.Store, project: FanOut.Project, p: GitlabPayload): (h: Handled)
    ensures OpenMergeRequest(p) ==>
              var mr := p.mergeRequest.value;
              h == Single(st, project, Job(mr.lastCommit.id, mr.sourceBranch, None, mr.lastCommit.authorEmail))
    ensures !OpenMergeRequest(p) && p.commits.None? ==> h == Handled(st, Ignored(UnusablePayload))
    ensures !OpenMergeRequest(p) && p.commits.Some? ==>
              var cs := p.commits.value;
              && h.reply.Commits? && (h.reply.ok <==> !project.archived && cs != [])
              && (cs == [] ==> h.store == st && h.reply.commits == [])
              && Php.UniqueKeys(h.reply.commits)
              && (cs != [] ==> forall k :: k in Php.Keys(h.reply.commits) <==> k == Php.StrKey(cs[|cs| - 1].id))
  {
    if OpenMergeRequest(p) then
      var mr := p.mergeRequest.value;
      Single(st, project, Job(mr.lastCommit.id, mr.sourceBranch, None, mr.lastCommit.authorEmail))
    else match p.commits
      case None => Handled(st, Ignored(UnusablePayload))
      case Some(cs) =>
        if |cs| == 0 then Finish(RunBatch(st, project, []))
        else
          var last := cs[|cs| - 1];
          var steps := [Build(Job(last.id, Php.StrRemove(p.ref, HeadsPrefix), None, last.authorEmail))];
          assert Live(steps) == steps;
          var b := RunBatch(st, project, steps);
          assert forall x :: x in Php.Keys(b.results) <==> x == Php.StrKey(last.id) by {
            assert forall x :: x in Live(steps) <==> x == steps[0];
          }
          Finish(b)
  }

  /** A push of commits with no merge request: as written the empty push dies where the intended answer is 'failed' with no build. */
  lemma GitlabEmptyPushCrashes(st: FanOut.Store, project: FanOut.Project)
    ensures var p := GitlabPayload(None, Some([]), "refs/heads/main");
            && GitlabAsWritten(st, project, p).reply == Crashed
            && Gitlab(st, project, p) == Handled(st, Commits(false, []))
  {
  }

  /** One untagged build per pushed commit, in order, all on the pushed branch. */
  function PushSteps(cs: seq<PushCommit>, branch: string): (steps: seq<Step>)
    ensures |steps| == |cs| && Abort !in steps
    ensures forall i :: 0 <= i < |cs| ==> steps[i] == Build(Job(cs[i].id, branch, None, cs[i].authorEmail))
    ensures AnyBuild(steps) <==> cs != []
    ensures forall k :: k in KeysOf(steps) <==> exists c :: c in cs && k == Php.StrKey(c.id)
  {
    var steps := seq(|cs|, i requires 0 <= i < |cs| => Build(Job(cs[i].id, branch, None, cs[i].authorEmail)));
    assert cs != [] ==> steps[0].Build?;
    assert forall k :: k in KeysOf(steps) <==> exists c :: c in cs && k == Php.StrKey(c.id) by {
      forall k
        ensures k in KeysOf(steps) <==> exists c :: c in cs && k == Php.StrKey(c.id)
      {
        if k in KeysOf(steps) {
          var x :| x in steps && !x.Abort? && StepKey(x).value == k;
          var i :| 0 <= i < |steps| && steps[i] == x;
          assert cs[i] in cs;
        }
        if exists c :: c in cs && k == Php.StrKey(c.id) {
          var c :| c in cs && k == Php.StrKey(c.id);
          var i :| 0 <= i < |cs| && cs[i] == c;
          assert steps[i] in steps;
        }
      }
    }
    steps
  }

  /** `gogsCommitRequest`: every commit of the push is built on the pushed branch, in order. */
  function GogsCommitRequest(st: FanOut.Store, project: FanOut.Project, commits: Option<seq<PushCommit>>, ref: string): (h: Handled)
    ensures commits.None? ==> h == Handled(st, Ignored(UnusablePayload))
    ensures commits.Some? ==>
              && h.reply.Commits? && (h.reply.ok <==> !project.archived && commits.value != [])
              && forall k :: k in Php.Keys(h.reply.commits) <==> exists c :: c in commits.value && k == Php.StrKey(c.id)
  {
    match commits
    case None => Handled(st, Ignored(UnusablePayload))
    case Some(cs) =>
      var steps := PushSteps(cs, Php.StrRemove(ref, HeadsPrefix));
      assert Live(steps) == steps;
      Finish(RunBatch(st, project, steps))
  }

  // ---------------------------------------------------------------------------
  // handleAction
  // ---------------------------------------------------------------------------

  /** What the action method did: returned an array, or threw an exception with a message. */
  datatype Invoked = Returned(data: seq<Php.Entry<Php.Value>>) | Threw500(message: string)

  /** The JSON response: its status code and the array it carries. */
  datatype Response = Response(code: Php.Value, content: seq<Php.Entry<Php.Value>>)

  const ResponseCodeKey: Php.Key := Php.StrKey("responseCode")

  /**
   * `handleAction`: a set `responseCode` entry becomes the status code and leaves the
   * content; an exception becomes code 500 with `status` failed and its message.
   */
  function HandleAction(inv: Invoked): (resp: Response)
    ensures inv.Threw500? ==> resp == Response(Php.Int(500),
              [Php.Entry(Php.StrKey("status"), Php.Str("failed")), Php.Entry(Php.StrKey("error"), Php.Str(inv.message))])
    ensures inv.Returned? && Php.IsSet(Php.Lookup(inv.data, ResponseCodeKey)) ==>
              && resp.code == Php.Lookup(inv.data, ResponseCodeKey).value
              && Php.Lookup(resp.content, ResponseCodeKey).None?
              && forall k :: k != ResponseCodeKey ==> Php.Lookup(resp.content, k) == Php.Lookup(inv.data, k)
    ensures inv.Returned? && !Php.IsSet(Php.Lookup(inv.data, ResponseCodeKey)) ==>
              resp == Response(Php.Int(200), inv.data)
  {
    match inv
    case Threw500(msg) =>
      Response(Php.Int(500), [Php.Entry(Php.StrKey("status"), Php.Str("failed")), Php.Entry(Php.StrKey("error"), Php.Str(msg))])
    case Returned(data) =>
      var code := Php.Lookup(data, ResponseCodeKey);
      if Php.IsSet(code) then
        var content := Php.Unset(data, ResponseCodeKey);
        assert forall k :: Php.Lookup(content, k) == if k == ResponseCodeKey then None else Php.Lookup(data, k) by {
          forall k
            ensures Php.Lookup(content, k) == if k == ResponseCodeKey then None else Php.Lookup(data, k)
          {
            Php.UnsetThenLookup(data, ResponseCodeKey, k);
          }
        }
        Response(code.value, content)
      else Response(Php.Int(200), data)
  }

  /** A null `responseCode` is not set: the entry stays in the content and the code stays 200. */
  lemma NullResponseCodeStays()
    ensures var data := [Php.Entry(ResponseCodeKey, Php.Null)];
            HandleAction(Returned(data)) == Response(Php.Int(200), data)
  {
  }
}
