/**
 * The public build-status endpoints, `Controller\BuildStatusController`: the status a
 * badge shows, the coverage figure, the shields.io badge URLs, the latest-builds query
 * behind the public page, and the branch list of the ccmenu feed.
 *
 * The stores are inputs: the latest build lookup (which may throw), the coverage meta of
 * that build, the build table, the branch list and the per-branch attributes. Fetching
 * and caching the badge image and rendering XML are left out.
 */
module BuildStatus {
  import opened Wrappers
  import Php
  import Builder

  // ---------------------------------------------------------------------------
  // Status
  // ---------------------------------------------------------------------------

  /** What `getLatestBuild($branch, [success, failed])` gave. */
  datatype LatestLookup = LookupThrew | NoLatestBuild | Latest(status: Builder.Status)

  const Passing: string := "passing"
  const FailedText: string := "failed"
  const ErrorText: string := "error"

  /** `getStatus`: failed when the latest finished build did not succeed, error when the lookup threw, passing otherwise. */
  function Status(lookup: LatestLookup): (s: string)
    ensures s in {Passing, FailedText, ErrorText}
    ensures s == FailedText <==> lookup.Latest? && lookup.status != Builder.Success
    ensures s == ErrorText <==> lookup.LookupThrew?
    ensures s == Passing <==> lookup.NoLatestBuild? || lookup == Latest(Builder.Success)
  {
    match lookup
    case LookupThrew => ErrorText
    case NoLatestBuild => Passing
    case Latest(status) => if status != Builder.Success then FailedText else Passing
  }

  /** The badge colour: green exactly for a passing status. */
  function Color(status: string): (c: string)
    ensures c == "green" <==> status == Passing
    ensures c != "green" ==> c == "red"
  {
    if status == Passing then "green" else "red"
  }

  // ---------------------------------------------------------------------------
  // Coverage
  // ---------------------------------------------------------------------------

  const CoverageTypes: seq<string> := ["classes", "methods", "lines"]
  const DefaultCoverageType: string := "lines"

  /** A coverage type outside the three known ones reads as `lines`. */
  function CoverageType(t: string): (r: string)
    ensures r in CoverageTypes
    ensures t in CoverageTypes ==> r == t
    ensures t !in CoverageTypes ==> r == DefaultCoverageType
  {
    if t in CoverageTypes then t else DefaultCoverageType
  }

  /** What the coverage lookup gave: the `meta_value` of the first coverage row of the latest build, if any. */
  datatype CoverageLookup = CoverageThrew | NoCoverageBuild | CoverageMeta(metaValue: Option<seq<Php.Entry<Php.Value>>>)

  /** `getPhpunitCoverage`: the stored figure for the normalised type when it is set, else 0 (exceptions included). */
  function Coverage(lookup: CoverageLookup, requestedType: string): (c: Php.Value)
    ensures c != Php.Int(0) ==>
              && lookup.CoverageMeta? && lookup.metaValue.Some?
              && Php.Lookup(lookup.metaValue.value, Php.StrKey(CoverageType(requestedType))) == Some(c)
    ensures lookup.CoverageMeta? && lookup.metaValue.Some?
            && Php.IsSet(Php.Lookup(lookup.metaValue.value, Php.StrKey(CoverageType(requestedType)))) ==>
              Some(c) == Php.Lookup(lookup.metaValue.value, Php.StrKey(CoverageType(requestedType)))
    ensures !(lookup.CoverageMeta? && lookup.metaValue.Some?
              && Php.IsSet(Php.Lookup(lookup.metaValue.value, Php.StrKey(CoverageType(requestedType))))) ==>
              c == Php.Int(0)
  {
    var t := CoverageType(requestedType);
    match lookup
    case CoverageMeta(Some(meta)) =>
      var found := Php.Lookup(meta, Php.StrKey(t));
      if Php.IsSet(found) then found.value else Php.Int(0)
    case _ => Php.Int(0)
  }

  // ---------------------------------------------------------------------------
  // Badge URLs
  // ---------------------------------------------------------------------------

  /** The request parameters of the badge endpoints; a missing one is none. */
  datatype BadgeParams = BadgeParams(
    style: Option<string>,
    badgeLabel: Option<string>,
    logo: Option<string>,
    logoWidth: Option<string>,
    link: Option<string>,
    maxAge: Option<string>
  )

  /** The optional parameters, in the order they are appended. */
  function OptionalParams(p: BadgeParams): (params: seq<(string, Option<string>)>)
    ensures |params| == 4
  {
    [("logo", p.logo), ("logoWidth", p.logoWidth), ("link", p.link), ("maxAge", p.maxAge)]
  }

  /** `&name=value` for each truthy parameter, in order. */
  function Suffix(params: seq<(string, Option<string>)>): (s: string)
    ensures s == "" <==> forall i :: 0 <= i < |params| ==> !Php.OptStrTruthy(params[i].1)
    decreases |params|
  {
    if |params| == 0 then ""
    else
      var (name, value) := params[|params| - 1];
      var rest := Suffix(params[..|params| - 1]);
      assert forall i :: 0 <= i < |params| - 1 ==> params[..|params| - 1][i] == params[i];
      if Php.OptStrTruthy(value) then rest + "&" + name + "=" + value.value else rest
  }

  /** A falsy parameter adds nothing: dropping it leaves the URL suffix unchanged. */
  lemma {:induction false} SuffixSkipsFalsy(before: seq<(string, Option<string>)>, p: (string, Option<string>), after: seq<(string, Option<string>)>)
    requires !Php.OptStrTruthy(p.1)
    ensures Suffix(before + [p] + after) == Suffix(before + after)
    decreases |after|
  {
    if |after| == 0 {
      assert before + [p] + after == before + [p];
      assert (before + [p])[..|before|] == before;
      assert before + after == before;
    } else {
      var init := after[..|after| - 1];
      SuffixSkipsFalsy(before, p, init);
      assert (before + [p] + after)[..|before + [p] + after| - 1] == before + [p] + init;
      assert (before + after)[..|before + after| - 1] == before + init;
    }
  }

  function BadgeUrl(badgeLabel: string, message: string, color: string, style: string, p: BadgeParams): string {
    "http://img.shields.io/badge/" + badgeLabel + "-" + message + "-" + color + ".svg?style=" + style + Suffix(OptionalParams(p))
  }

  datatype ImageResponse = RedirectHome | Badge(url: string)

  /**
   * `image`: the badge for the branch's status, defaulting to style `flat` and label
   * `build`. The status is never null, so the redirect is never taken.
   */
  function Image(p: BadgeParams, lookup: LatestLookup): (r: ImageResponse)
    ensures r.Badge?
    ensures var status := Status(lookup);
            r.url == BadgeUrl(p.badgeLabel.GetOr("build"), status, Color(status), p.style.GetOr("flat"), p)
  {
    var status := Status(lookup);
    Badge(BadgeUrl(p.badgeLabel.GetOr("build"), status, Color(status), p.style.GetOr("flat"), p))
  }

  /** `phpunitCoverageImage`: the coverage figure followed by an encoded percent sign, always green. */
  function CoverageImage(p: BadgeParams, requestedType: Option<string>, lookup: CoverageLookup): (url: string)
    ensures url == BadgeUrl(p.badgeLabel.GetOr("build"), Php.ToStr(Coverage(lookup, requestedType.GetOr("lines"))) + "%25",
                            "green", p.style.GetOr("flat"), p)
  {
    BadgeUrl(p.badgeLabel.GetOr("build"), Php.ToStr(Coverage(lookup, requestedType.GetOr("lines"))) + "%25", "green", p.style.GetOr("flat"), p)
  }

  /** With none of the optional parameters given, nothing follows the style. */
  lemma NoOptionalSuffix(p: BadgeParams)
    requires p.logo == None && p.logoWidth == None && p.link == None && p.maxAge == None
    ensures Suffix(OptionalParams(p)) == ""
  {
    var params := OptionalParams(p);
    assert forall i :: 0 <= i < |params| ==> !Php.OptStrTruthy(params[i].1);
  }

  /** Without optional parameters, a failing build's badge is the plain red `failed` badge. */
  lemma FailedBadge(badgeLabel: string, style: string, status: Builder.Status)
    requires status != Builder.Success
    ensures Image(BadgeParams(Some(style), Some(badgeLabel), None, None, None, None), Latest(status))
            == Badge("http://img.shields.io/badge/" + badgeLabel + "-failed-red.svg?style=" + style)
  {
    var p := BadgeParams(Some(style), Some(badgeLabel), None, None, None, None);
    assert Status(Latest(status)) == FailedText;
    assert Color(FailedText) == "red";
    PlainBadgeUrl(badgeLabel, FailedText, "red", style, p);
    assert "-" + FailedText + "-" + "red" + ".svg?style=" == "-failed-red.svg?style=";
  }

  /** Without optional parameters, the badge URL is the label, message, colour and style alone. */
  lemma PlainBadgeUrl(badgeLabel: string, message: string, color: string, style: string, p: BadgeParams)
    requires p.logo == None && p.logoWidth == None && p.link == None && p.maxAge == None
    ensures BadgeUrl(badgeLabel, message, color, style, p)
            == "http://img.shields.io/badge/" + badgeLabel + ("-" + message + "-" + color + ".svg?style=") + style
  {
    NoOptionalSuffix(p);
  }

  // ---------------------------------------------------------------------------
  // Latest builds
  // ---------------------------------------------------------------------------

  /** A row of the build table. */
  datatype BuildRow = BuildRow(id: nat, projectId: int, branch: string)

  const PageSize: nat := 10

  predicate Matches(b: BuildRow, projectId: int, branch: string) {
    b.projectId == projectId && b.branch == branch
  }

  predicate Descending(s: seq<BuildRow>) {
    forall i, j :: 0 <= i < j < |s| ==> s[i].id > s[j].id
  }

  /** Build ids are the table's primary key. */
  predicate DistinctIds(rows: seq<BuildRow>) {
    forall i, j :: 0 <= i < j < |rows| ==> rows[i].id != rows[j].id
  }

  /** Inserting a row into a list ordered by descending id. */
  function InsertDesc(s: seq<BuildRow>, b: BuildRow): (r: seq<BuildRow>)
    requires Descending(s)
    requires forall i :: 0 <= i < |s| ==> s[i].id != b.id
    ensures Descending(r)
    ensures |r| == |s| + 1
    ensures forall x :: x in r <==> x in s || x == b
    decreases |s|
  {
    if |s| == 0 then [b]
    else if b.id > s[0].id then [b] + s
    else
      var rest := InsertDesc(s[1..], b);
      assert forall x :: x in s <==> x == s[0] || x in s[1..];
      assert forall k :: 0 <= k < |rest| ==> rest[k].id < s[0].id by {
        forall k | 0 <= k < |rest|
          ensures rest[k].id < s[0].id
        {
          assert rest[k] in rest;
        }
      }
      [s[0]] + rest
  }

  /** Insertion never lowers the id at a position. */
  lemma {:induction false} InsertDescDominates(s: seq<BuildRow>, b: BuildRow, k: int)
    requires Descending(s)
    requires forall i :: 0 <= i < |s| ==> s[i].id != b.id
    requires 0 <= k < |s|
    ensures InsertDesc(s, b)[k].id >= s[k].id
    decreases |s|
  {
    if b.id > s[0].id {
      if k > 0 {
        assert InsertDesc(s, b)[k] == s[k - 1];
      }
    } else if k > 0 {
      InsertDescDominates(s[1..], b, k - 1);
    }
  }

  /**
   * One row of the scan: the row is inserted in order and only the first page is kept,
   * so whatever falls off is older than everything kept, and the oldest kept row never
   * gets older.
   */
  function Admit(top: seq<BuildRow>, b: BuildRow): (r: seq<BuildRow>)
    requires |top| <= PageSize && Descending(top)
    requires forall k :: 0 <= k < |top| ==> top[k].id != b.id
    ensures |r| <= PageSize && Descending(r)
    ensures forall x :: x in r ==> x in top || x == b
    ensures forall x :: (x in top || x == b) && x !in r ==> |r| == PageSize && x.id < r[PageSize - 1].id
    ensures |top| == PageSize ==> |r| == PageSize && r[PageSize - 1].id >= top[PageSize - 1].id
  {
    var t := InsertDesc(top, b);
    if |t| > PageSize then
      InsertDescDominates(top, b, PageSize - 1);
      var r := t[..PageSize];
      assert forall x :: x in t && x !in r ==> x == t[PageSize] by {
        forall x | x in t && x !in r
          ensures x == t[PageSize]
        {
          var i :| 0 <= i < |t| && t[i] == x;
        }
      }
      r
    else
      t
  }

  /** Every row kept is one of the rows scanned that matches. */
  predicate KeptFrom(top: seq<BuildRow>, rows: seq<BuildRow>, projectId: int, branch: string) {
    forall b :: b in top ==> b in rows && Matches(b, projectId, branch)
  }

  /** Every matching row scanned and not kept is older than a full page of kept rows. */
  predicate OlderLeftOut(top: seq<BuildRow>, rows: seq<BuildRow>, projectId: int, branch: string) {
    forall j :: 0 <= j < |rows| && Matches(rows[j], projectId, branch) && rows[j] !in top ==>
      |top| == PageSize && rows[j].id < top[PageSize - 1].id
  }

  /** Scanning one more row, whose id is new, keeps both facts. */
  lemma ScanStep(top: seq<BuildRow>, rows: seq<BuildRow>, b: BuildRow, projectId: int, branch: string)
    requires |top| <= PageSize && Descending(top)
    requires KeptFrom(top, rows, projectId, branch) && OlderLeftOut(top, rows, projectId, branch)
    requires forall x :: x in rows ==> x.id != b.id
    ensures Matches(b, projectId, branch) ==>
              && (forall k :: 0 <= k < |top| ==> top[k].id != b.id)
              && KeptFrom(Admit(top, b), rows + [b], projectId, branch)
              && OlderLeftOut(Admit(top, b), rows + [b], projectId, branch)
    ensures !Matches(b, projectId, branch) ==>
              KeptFrom(top, rows + [b], projectId, branch) && OlderLeftOut(top, rows + [b], projectId, branch)
  {
    var rows' := rows + [b];
    if Matches(b, projectId, branch) {
      assert forall k :: 0 <= k < |top| ==> top[k].id != b.id by {
        forall k | 0 <= k < |top|
          ensures top[k].id != b.id
        {
          assert top[k] in top;
        }
      }
      var r := Admit(top, b);
      forall j | 0 <= j < |rows'| && Matches(rows'[j], projectId, branch) && rows'[j] !in r
        ensures |r| == PageSize && rows'[j].id < r[PageSize - 1].id
      {
        if j < |rows| && rows[j] !in top {
          assert rows'[j] == rows[j];
        }
      }
    } else {
      forall j | 0 <= j < |rows'| && Matches(rows'[j], projectId, branch) && rows'[j] !in top
        ensures |top| == PageSize && rows'[j].id < top[PageSize - 1].id
      {
        assert j < |rows| && rows'[j] == rows[j];
      }
    }
  }

  /**
   * `getLatestBuilds`: the project's builds on the branch with the highest ids, at most
   * ten, newest first. Every matching build left out is older than all ten returned.
   */
  method LatestBuilds(builds: seq<BuildRow>, projectId: int, branch: string) returns (top: seq<BuildRow>)
    requires DistinctIds(builds)
    ensures |top| <= PageSize && Descending(top)
    ensures forall b :: b in top ==> b in builds && Matches(b, projectId, branch)
    ensures forall b :: b in builds && Matches(b, projectId, branch) && b !in top ==>
              |top| == PageSize && b.id < top[PageSize - 1].id
  {
    top := [];
    for i := 0 to |builds|
      invariant |top| <= PageSize && Descending(top)
      invariant KeptFrom(top, builds[..i], projectId, branch)
      invariant OlderLeftOut(top, builds[..i], projectId, branch)
    {
      var b := builds[i];
      assert forall x :: x in builds[..i] ==> x.id != b.id by {
        forall x | x in builds[..i]
          ensures x.id != b.id
        {
          var j :| 0 <= j < i && builds[j] == x;
        }
      }
      ScanStep(top, builds[..i], b, projectId, branch);
      if Matches(b, projectId, branch) {
        top := Admit(top, b);
      }
      assert builds[..i + 1] == builds[..i] + [b];
    }
    assert builds[..|builds|] == builds;
    forall b | b in builds && Matches(b, projectId, branch) && b !in top
      ensures |top| == PageSize && b.id < top[PageSize - 1].id
    {
      var j :| 0 <= j < |builds| && builds[j] == b;
    }
  }

  // ---------------------------------------------------------------------------
  // Public page and ccmenu feed
  // ---------------------------------------------------------------------------

  /** The project fields the public endpoints read. */
  datatype ProjectInfo = ProjectInfo(defaultBranch: string, allowPublicStatus: bool)

  datatype ViewResult =
    | ViewNotFound
    | ViewCrashed     // a method called on a missing project: an uncaught error
    | Page(branch: string, latest: Option<BuildRow>, builds: seq<BuildRow>)

  /**
   * `view` as written: the branch default is read from the project before the project
   * is checked, so a missing project ends in an error instead of not-found.
   */
  function ViewAsWritten(project: Option<ProjectInfo>, branchParam: Option<string>, latestFor: string -> seq<BuildRow>): (r: ViewResult)
    ensures r.ViewCrashed? <==> project.None?
    ensures project.Some? ==> r == View(project, branchParam, latestFor)
  {
    match project
    case None => ViewCrashed
    case Some(_) => View(project, branchParam, latestFor)
  }

  /**
   * `view` with the existence check first: not-found for a missing or non-public
   * project; otherwise the latest builds of the requested branch (the default branch when
   * none is requested), the newest shown as latest.
   */
  function View(project: Option<ProjectInfo>, branchParam: Option<string>, latestFor: string -> seq<BuildRow>): (r: ViewResult)
    ensures r.ViewNotFound? <==> project.None? || !project.value.allowPublicStatus
    ensures !r.ViewCrashed?
    ensures r.Page? ==> r.branch == branchParam.GetOr(project.value.defaultBranch) && r.builds == latestFor(r.branch)
    ensures r.Page? ==> (r.latest.Some? <==> |r.builds| > 0) && (r.latest.Some? ==> r.latest.value == r.builds[0])
  {
    match project
    case None => ViewNotFound
    case Some(p) =>
      if !p.allowPublicStatus then ViewNotFound
      else
        var branch := branchParam.GetOr(p.defaultBranch);
        var builds := latestFor(branch);
        Page(branch, if |builds| > 0 then Some(builds[0]) else None, builds)
  }

  /** A missing project crashes the page as written, where not-found is evidently intended. */
  lemma MissingProjectCrashesView(branchParam: Option<string>, latestFor: string -> seq<BuildRow>)
    ensures ViewAsWritten(None, branchParam, latestFor) == ViewCrashed
    ensures View(None, branchParam, latestFor) == ViewNotFound
  {
  }

  /** One attribute of a ccmenu project element. */
  datatype Attribute = Attribute(name: string, value: string)

  /** The feed: its root element name and one attribute list per project element. */
  datatype Feed = Feed(root: string, projects: seq<seq<Attribute>>)

  /** The branches the feed covers: the built branches, or the default branch when there are none. */
  function FeedBranches(built: seq<string>, defaultBranch: string): (branches: seq<string>)
    ensures |branches| > 0
    ensures |built| > 0 ==> branches == built
    ensures |built| == 0 ==> branches == [defaultBranch]
  {
    if |built| > 0 then built else [defaultBranch]
  }

  /** The indices of the non-empty attribute lists, ascending. */
  function Positions(lists: seq<seq<Attribute>>): (ps: seq<nat>)
    ensures forall k :: 0 <= k < |ps| ==> ps[k] < |lists| && |lists[ps[k]]| > 0
    decreases |lists|
  {
    if |lists| == 0 then []
    else
      var n := |lists| - 1;
      var rest := Positions(lists[..n]);
      assert forall i :: 0 <= i < n ==> lists[..n][i] == lists[i];
      if |lists[n]| > 0 then rest + [n] else rest
  }

  /** The positions are strictly ascending, so the feed keeps branch order. */
  lemma {:induction false} PositionsAscending(lists: seq<seq<Attribute>>)
    ensures forall k, l :: 0 <= k < l < |Positions(lists)| ==> Positions(lists)[k] < Positions(lists)[l]
    decreases |lists|
  {
    if |lists| > 0 {
      PositionsAscending(lists[..|lists| - 1]);
    }
  }

  /** Every non-empty attribute list has its index among the positions. */
  lemma {:induction false} PositionsCover(lists: seq<seq<Attribute>>)
    ensures forall i :: 0 <= i < |lists| && |lists[i]| > 0 ==> i in Positions(lists)
    decreases |lists|
  {
    if |lists| > 0 {
      var n := |lists| - 1;
      PositionsCover(lists[..n]);
      assert forall i :: 0 <= i < n ==> lists[..n][i] == lists[i];
    }
  }

  /**
   * One element per branch whose status attributes are non-empty, in branch order.
   * `lists` holds each covered branch's attributes, in branch order.
   */
  function FeedElements(lists: seq<seq<Attribute>>): (elements: seq<seq<Attribute>>)
    ensures |elements| <= |lists|
    ensures forall i :: 0 <= i < |elements| ==> |elements[i]| > 0
    ensures (forall i :: 0 <= i < |lists| ==> |lists[i]| > 0) ==> |elements| == |lists|
    decreases |lists|
  {
    if |lists| == 0 then []
    else
      var n := |lists| - 1;
      var rest := FeedElements(lists[..n]);
      assert forall i :: 0 <= i < n ==> lists[..n][i] == lists[i];
      if |lists[n]| > 0 then rest + [lists[n]] else rest
  }

  /** The feed's elements are exactly the non-empty attribute lists, taken in branch order. */
  lemma {:induction false} FeedElementsFollowPositions(lists: seq<seq<Attribute>>)
    ensures Aligned(FeedElements(lists), Positions(lists), lists)
    decreases |lists|
  {
    if |lists| > 0 {
      var n := |lists| - 1;
      FeedElementsFollowPositions(lists[..n]);
      AlignedStep(FeedElements(lists[..n]), Positions(lists[..n]), FeedElements(lists), Positions(lists), lists, n);
    }
  }

  /** `elements[k]` is the attribute list at position `ps[k]`, for every `k`. */
  predicate Aligned(elements: seq<seq<Attribute>>, ps: seq<nat>, lists: seq<seq<Attribute>>) {
    |elements| == |ps| && forall k :: 0 <= k < |ps| ==> ps[k] < |lists| && elements[k] == lists[ps[k]]
  }

  /** One step of the induction: the last list adds an element and a position, or neither. */
  lemma AlignedStep(er: seq<seq<Attribute>>, ps: seq<nat>, e: seq<seq<Attribute>>, p: seq<nat>, lists: seq<seq<Attribute>>, n: nat)
    requires n < |lists| && Aligned(er, ps, lists[..n])
    requires |lists[n]| > 0 ==> e == er + [lists[n]] && p == ps + [n]
    requires |lists[n]| == 0 ==> e == er && p == ps
    ensures Aligned(e, p, lists)
  {
    forall k | 0 <= k < |ps|
      ensures ps[k] < |lists| && er[k] == lists[ps[k]]
    {
      assert lists[..n][ps[k]] == lists[ps[k]];
    }
  }

  /** The attribute lists of the covered branches, an empty list where the lookup threw. */
  function BranchLists(branches: seq<string>, attributes: string -> Option<seq<Attribute>>): (lists: seq<seq<Attribute>>)
    ensures |lists| == |branches|
    ensures forall i :: 0 <= i < |branches| ==> lists[i] == attributes(branches[i]).GetOr([])
  {
    seq(|branches|, i requires 0 <= i < |branches| => attributes(branches[i]).GetOr([]))
  }

  /**
   * `ccxml`: an empty `Projects` feed for a missing or non-public project; an empty
   * lower-case `projects` feed when a lookup throws; otherwise one element per covered
   * branch with attributes. `builtBranches` and `attributes` are none where the lookup threw.
   */
  function CcXml(
    project: Option<ProjectInfo>, builtBranches: Option<seq<string>>, attributes: string -> Option<seq<Attribute>>
  ): (r: Feed)
    ensures project.None? || !project.value.allowPublicStatus ==> r == Feed("Projects", [])
    ensures r.root == "projects" ==> r.projects == []
    ensures project.Some? && project.value.allowPublicStatus && builtBranches.Some? ==>
              var branches := FeedBranches(builtBranches.value, project.value.defaultBranch);
              (forall i :: 0 <= i < |branches| ==> attributes(branches[i]).Some?) ==>
                r == Feed("Projects", FeedElements(BranchLists(branches, attributes)))
    ensures builtBranches.None? && project.Some? && project.value.allowPublicStatus ==> r == Feed("projects", [])
    ensures project.Some? && project.value.allowPublicStatus && builtBranches.Some? ==>
              var branches := FeedBranches(builtBranches.value, project.value.defaultBranch);
              (exists i :: 0 <= i < |branches| && attributes(branches[i]).None?) ==> r == Feed("projects", [])
  {
    match project
    case None => Feed("Projects", [])
    case Some(p) =>
      if !p.allowPublicStatus then Feed("Projects", [])
      else
        match builtBranches
        case None => Feed("projects", [])
        case Some(built) =>
          var branches := FeedBranches(built, p.defaultBranch);
          if exists i :: 0 <= i < |branches| && attributes(branches[i]).None? then Feed("projects", [])
          else Feed("Projects", FeedElements(BranchLists(branches, attributes)))
  }
}
