/**
 * The PHP CS Fixer plugin, `Plugin\PhpCsFixer`: the argument list its constructor builds
 * from the options, the version probe and the default configuration files `execute`
 * looks for, the warning threshold, and `processReport`, which counts the diff chunks
 * of the JSON report and turns them into build errors.
 *
 * Command execution, file existence and the diff parser are inputs: the version output,
 * the set of files present, whether the fix command succeeded, and the report already
 * split into files and chunks.
 */
module PhpCsFixer {
  import opened Wrappers
  import Php

  // ---------------------------------------------------------------------------
  // Options and the argument list
  // ---------------------------------------------------------------------------

  /** The plugin options the constructor reads; a missing option is none. */
  datatype Options = Options(
    args: Option<Php.Value>,
    verbose: Option<Php.Value>,
    diff: Option<Php.Value>,
    rules: Option<Php.Value>,
    config: Option<Php.Value>,
    errors: Option<Php.Value>,
    reportErrors: Option<Php.Value>,
    allowedWarnings: Option<Php.Value>
  )

  /** One piece of the fixer's argument string. */
  datatype Flag =
    | UserArgs(text: string)
    | Verbose
    | Diff
    | Rules(rules: string)
    | Config(path: string)
    | DryRun
    | JsonReport
    | UdiffFormat

  /** The position of each piece the constructor may add, in the order it adds them. */
  function Rank(f: Flag): nat {
    match f
    case UserArgs(_) => 0
    case Verbose => 1
    case Diff => 2
    case Rules(_) => 3
    case Config(_) => 4
    case DryRun => 5
    case JsonReport => 6
    case UdiffFormat => 7
  }

  function FlagText(f: Flag): string {
    match f
    case UserArgs(t) => t
    case Verbose => " --verbose"
    case Diff => " --diff"
    case Rules(r) => " --rules=" + r
    case Config(p) => " --config=" + p
    case DryRun => " --dry-run"
    case JsonReport => " --verbose --format json --diff"
    case UdiffFormat => " --diff-format udiff"
  }

  /** The argument string: the pieces concatenated in order. */
  function Render(flags: seq<Flag>): string
    decreases |flags|
  {
    if |flags| == 0 then "" else Render(flags[..|flags| - 1]) + FlagText(flags[|flags| - 1])
  }

  /** Rendering one more flag appends its text. */
  lemma RenderSnoc(flags: seq<Flag>, f: Flag)
    ensures Render(flags + [f]) == Render(flags) + FlagText(f)
  {
    var longer := flags + [f];
    assert longer[..|longer| - 1] == flags;
  }

  /** Concatenation regroups freely. */
  lemma ConcatAssoc<T>(x: seq<T>, y: seq<T>, z: seq<T>)
    ensures x + (y + z) == (x + y) + z
  {
  }

  /** A non-empty list is its front followed by its last element. */
  lemma SnocSplit<T>(s: seq<T>)
    requires |s| > 0
    ensures s[..|s| - 1] + [s[|s| - 1]] == s
  {
  }

  /** One step of `RenderAppend`: a flag added after `b` is rendered after `b`'s text. */
  lemma RenderAppendStep(a: seq<Flag>, b: seq<Flag>, f: Flag)
    requires Render(a + b) == Render(a) + Render(b)
    ensures Render(a + (b + [f])) == Render(a) + Render(b + [f])
  {
    ConcatAssoc(a, b, [f]);
    RenderSnoc(a + b, f);
    RenderSnoc(b, f);
    ConcatAssoc(Render(a), Render(b), FlagText(f));
  }

  /** Rendering two lists in a row renders each and concatenates the texts. */
  lemma {:induction false} RenderAppend(a: seq<Flag>, b: seq<Flag>)
    ensures Render(a + b) == Render(a) + Render(b)
    decreases |b|
  {
    if |b| == 0 {
      assert a + b == a;
    } else {
      var front := b[..|b| - 1];
      RenderAppend(a, front);
      RenderAppendStep(a, front, b[|b| - 1]);
      SnocSplit(b);
    }
  }

  /** The constructor's pieces are the ranks below this; the report pieces come after. */
  const ConstructorPieces: nat := 6

  predicate Ordered(flags: seq<Flag>) {
    forall i, j :: 0 <= i < j < |flags| ==> Rank(flags[i]) < Rank(flags[j])
  }

  /** A constructor piece agrees with the option it comes from. */
  predicate FromOptions(o: Options, interpolate: string -> string, f: Flag) {
    match f
    case UserArgs(t) => Php.Given(o.args) && t == Php.ToStr(o.args.value)
    case Verbose => Php.Given(o.verbose)
    case Diff => Php.Given(o.diff)
    case Rules(r) => Php.Given(o.rules) && r == Php.ToStr(o.rules.value)
    case Config(p) => Php.Given(o.config) && p == interpolate(Php.ToStr(o.config.value))
    case DryRun => Php.Given(o.errors)
    case JsonReport => false
    case UdiffFormat => false
  }

  /** The plugin's state after the constructor. */
  datatype Fixer = Fixer(flags: seq<Flag>, config: bool, errors: bool, reportErrors: bool, allowedWarnings: Option<int>)

  /** What the constructor guarantees `execute`: only constructor pieces, and the report settings only with `errors`. */
  predicate Constructed(f: Fixer) {
    && (forall i :: 0 <= i < |f.flags| ==> Rank(f.flags[i]) < ConstructorPieces)
    && (f.allowedWarnings.Some? <==> f.errors)
    && (f.reportErrors ==> f.errors)
  }

  /** The piece of rank `k`, present exactly when its option is truthy. */
  function Slot(o: Options, interpolate: string -> string, k: nat): (r: Option<Flag>)
    ensures r.Some? ==> Rank(r.value) == k && FromOptions(o, interpolate, r.value)
  {
    if k == 0 then (if Php.Given(o.args) then Some(UserArgs(Php.ToStr(o.args.value))) else None)
    else if k == 1 then (if Php.Given(o.verbose) then Some(Verbose) else None)
    else if k == 2 then (if Php.Given(o.diff) then Some(Diff) else None)
    else if k == 3 then (if Php.Given(o.rules) then Some(Rules(Php.ToStr(o.rules.value))) else None)
    else if k == 4 then (if Php.Given(o.config) then Some(Config(interpolate(Php.ToStr(o.config.value)))) else None)
    else if k == 5 then (if Php.Given(o.errors) then Some(DryRun) else None)
    else None
  }

  /** The pieces of rank below `n`, in rank order. */
  function Collect(o: Options, interpolate: string -> string, n: nat): (flags: seq<Flag>)
    ensures Ordered(flags)
    ensures forall i :: 0 <= i < |flags| ==> Rank(flags[i]) < n && FromOptions(o, interpolate, flags[i])
    ensures forall k :: 0 <= k < n && Slot(o, interpolate, k).Some? ==> Slot(o, interpolate, k).value in flags
    decreases n
  {
    if n == 0 then []
    else
      var prev := Collect(o, interpolate, n - 1);
      match Slot(o, interpolate, n - 1)
      case None => prev
      case Some(f) => prev + [f]
  }

  /**
   * The constructor's argument pieces: one per truthy option, in the fixed order user
   * arguments, verbose, diff, rules, config, dry-run, and nothing else.
   */
  function ArgumentFlags(o: Options, interpolate: string -> string): (flags: seq<Flag>)
    ensures Ordered(flags)
    ensures forall i :: 0 <= i < |flags| ==> Rank(flags[i]) < ConstructorPieces && FromOptions(o, interpolate, flags[i])
  {
    Collect(o, interpolate, ConstructorPieces)
  }

  /** Every piece a truthy option asks for is among the argument pieces. */
  predicate HoldsRequested(o: Options, interpolate: string -> string, flags: seq<Flag>) {
    && (Php.Given(o.args) ==> UserArgs(Php.ToStr(o.args.value)) in flags)
    && (Php.Given(o.verbose) ==> Verbose in flags)
    && (Php.Given(o.diff) ==> Diff in flags)
    && (Php.Given(o.rules) ==> Rules(Php.ToStr(o.rules.value)) in flags)
    && (Php.Given(o.config) ==> Config(interpolate(Php.ToStr(o.config.value))) in flags)
    && (Php.Given(o.errors) ==> DryRun in flags)
  }

  /** Every truthy option contributes its piece. */
  lemma CollectAll(o: Options, interpolate: string -> string)
    ensures HoldsRequested(o, interpolate, ArgumentFlags(o, interpolate))
  {
    assert Slot(o, interpolate, 0).Some? <==> Php.Given(o.args);
    assert Slot(o, interpolate, 1).Some? <==> Php.Given(o.verbose);
    assert Slot(o, interpolate, 2).Some? <==> Php.Given(o.diff);
    assert Slot(o, interpolate, 3).Some? <==> Php.Given(o.rules);
    assert Slot(o, interpolate, 4).Some? <==> Php.Given(o.config);
    assert Slot(o, interpolate, 5).Some? <==> Php.Given(o.errors);
  }

  /** A piece agreeing with the options is in any list holding every requested piece. */
  lemma RequestedMember(o: Options, interpolate: string -> string, flags: seq<Flag>, x: Flag)
    requires HoldsRequested(o, interpolate, flags) && FromOptions(o, interpolate, x)
    ensures x in flags
  {
  }

  /**
   * The constructor: the argument pieces, and the report settings, which exist only with
   * `errors`; the allowed warnings then default to 0.
   */
  function Configure(o: Options, interpolate: string -> string): (f: Fixer)
    ensures f.flags == ArgumentFlags(o, interpolate) && Constructed(f)
    ensures f.config <==> Php.Given(o.config)
    ensures f.errors <==> Php.Given(o.errors)
    ensures f.reportErrors <==> f.errors && Php.Given(o.reportErrors)
    ensures f.errors && !Php.IsSet(o.allowedWarnings) ==> f.allowedWarnings == Some(0)
    ensures f.errors && Php.IsSet(o.allowedWarnings) ==> f.allowedWarnings == Some(Php.IntCast(o.allowedWarnings.value))
  {
    var errors := Php.Given(o.errors);
    var allowed := if !errors then None else if Php.IsSet(o.allowedWarnings) then Some(Php.IntCast(o.allowedWarnings.value)) else Some(0);
    Fixer(ArgumentFlags(o, interpolate), Php.Given(o.config), errors, errors && Php.Given(o.reportErrors), allowed)
  }

  /** Two ordered lists of pieces, each agreeing with the options and holding every piece they ask for, are the same list. */
  lemma ConfigureDetermined(o: Options, interpolate: string -> string, flags: seq<Flag>)
    requires Ordered(flags)
    requires forall i :: 0 <= i < |flags| ==> FromOptions(o, interpolate, flags[i])
    requires HoldsRequested(o, interpolate, flags)
    ensures flags == ArgumentFlags(o, interpolate)
  {
    var g := ArgumentFlags(o, interpolate);
    CollectAll(o, interpolate);
    forall x
      ensures x in flags <==> x in g
    {
      if x in flags {
        var i :| 0 <= i < |flags| && flags[i] == x;
        RequestedMember(o, interpolate, g, x);
      }
      if x in g {
        var i :| 0 <= i < |g| && g[i] == x;
        RequestedMember(o, interpolate, flags, x);
      }
    }
    OrderedByRanks(flags, g);
  }

  /** Two ordered lists with the same pieces start with the same piece: the one of lowest rank. */
  lemma OrderedHeads(a: seq<Flag>, b: seq<Flag>)
    requires Ordered(a) && Ordered(b)
    requires forall f :: f in a <==> f in b
    requires |a| > 0 && |b| > 0
    ensures a[0] == b[0]
  {
    assert a[0] in b;
    var k :| 0 <= k < |b| && b[k] == a[0];
    assert b[0] in a;
    var m :| 0 <= m < |a| && a[m] == b[0];
    assert Rank(b[0]) <= Rank(a[0]) && Rank(a[0]) <= Rank(b[0]);
    assert k == 0;
  }

  /** With the same first piece, the rests of two such lists hold the same pieces. */
  lemma OrderedTails(a: seq<Flag>, b: seq<Flag>)
    requires Ordered(a) && Ordered(b)
    requires forall f :: f in a <==> f in b
    requires |a| > 0 && |b| > 0 && a[0] == b[0]
    ensures forall f :: f in a[1..] <==> f in b[1..]
  {
    forall f
      ensures f in a[1..] <==> f in b[1..]
    {
      if f in a[1..] {
        var i :| 0 <= i < |a| - 1 && a[1..][i] == f;
        assert Rank(a[0]) < Rank(a[i + 1]);
        assert f in b;
        var j :| 0 <= j < |b| && b[j] == f;
        assert j != 0;
        assert b[1..][j - 1] == f;
      }
      if f in b[1..] {
        var i :| 0 <= i < |b| - 1 && b[1..][i] == f;
        assert Rank(b[0]) < Rank(b[i + 1]);
        assert f in a;
        var j :| 0 <= j < |a| && a[j] == f;
        assert j != 0;
        assert a[1..][j - 1] == f;
      }
    }
  }

  /** Two ordered lists with the same pieces are equal. */
  lemma {:induction false} OrderedByRanks(a: seq<Flag>, b: seq<Flag>)
    requires Ordered(a) && Ordered(b)
    requires forall f :: f in a <==> f in b
    ensures a == b
    decreases |a| + |b|
  {
    if |a| > 0 {
      assert a[0] in b;
    }
    if |b| > 0 {
      assert b[0] in a;
    }
    if |a| > 0 && |b| > 0 {
      OrderedHeads(a, b);
      OrderedTails(a, b);
      OrderedByRanks(a[1..], b[1..]);
      assert a == [a[0]] + a[1..] && b == [b[0]] + b[1..];
    }
  }

  // ---------------------------------------------------------------------------
  // Version probe
  // ---------------------------------------------------------------------------

  /** A version `x.y.z`, compared as `version_compare` compares such triples. */
  datatype Version = Version(major: nat, minor: nat, patch: nat)

  predicate Below(a: Version, b: Version) {
    a.major < b.major || (a.major == b.major && (a.minor < b.minor || (a.minor == b.minor && a.patch < b.patch)))
  }

  const UdiffIntroduced := Version(2, 8, 0)
  const Major3 := Version(3, 0, 0)

  /** The `--diff-format udiff` option exists from 2.8.0 and is the default from 3.0.0 on. */
  function SupportsUdiff(v: Version): (b: bool)
    ensures b ==> v.major == 2 && v.minor >= 8
    ensures v.major == 2 && v.minor >= 8 ==> b
  {
    !Below(v, UdiffIntroduced) && Below(v, Major3)
  }

  /** Length of the run of digits starting at `i`. */
  function DigitsAt(s: string, i: nat): (n: nat)
    requires i <= |s|
    ensures i + n <= |s| && forall p :: i <= p < i + n ==> Php.IsDigit(s[p])
    ensures i + n < |s| ==> !Php.IsDigit(s[i + n])
    decreases |s| - i
  {
    if i < |s| && Php.IsDigit(s[i]) then 1 + DigitsAt(s, i + 1) else 0
  }

  /** The number the `n` digits starting at `i` spell. */
  function ValueAt(s: string, i: nat, n: nat): nat
    requires i + n <= |s| && forall p :: i <= p < i + n ==> Php.IsDigit(s[p])
    decreases n
  {
    if n == 0 then 0 else ValueAt(s, i, n - 1) * 10 + Php.DigitValue(s[i + n - 1])
  }

  /** The greedy match of `\d+` at `i`: its value and the position after it. */
  function NumberAt(s: string, i: nat): (r: Option<(nat, nat)>)
    requires i <= |s|
    ensures r.Some? ==> i < r.value.1 <= |s|
  {
    var a := DigitsAt(s, i);
    if a == 0 then None else Some((ValueAt(s, i, a), i + a))
  }

  /** The greedy match of `\d+\.` at `i`: the number and the position after the dot. */
  function NumberDotAt(s: string, i: nat): (r: Option<(nat, nat)>)
    requires i <= |s|
    ensures r.Some? ==> i < r.value.1 <= |s|
  {
    match NumberAt(s, i)
    case None => None
    case Some((n, e)) => if e < |s| && s[e] == '.' then Some((n, e + 1)) else None
  }

  /** The greedy match of `\d+\.\d+\.\d+` starting exactly at `i`, with the position after it. */
  function MatchAt(s: string, i: nat): (r: Option<(Version, nat)>)
    requires i <= |s|
    ensures r.Some? ==> i < r.value.1 <= |s|
  {
    match NumberDotAt(s, i)
    case None => None
    case Some((a, j)) =>
      match NumberDotAt(s, j)
      case None => None
      case Some((b, k)) =>
        match NumberAt(s, k)
        case None => None
        case Some((c, e)) => Some((Version(a, b, c), e))
  }

  /** What the pattern matches at each position of `s`, the end included. */
  function Matches(s: string): (ms: seq<Option<(Version, nat)>>)
    ensures |ms| == |s| + 1
    ensures forall k :: 0 <= k <= |s| ==> ms[k] == MatchAt(s, k)
  {
    seq(|s| + 1, k requires 0 <= k <= |s| => MatchAt(s, k))
  }

  /** Where `preg_match` finds its match from `i` on: the leftmost position that matches. */
  function FirstFrom<T>(ms: seq<Option<T>>, i: nat): (r: Option<nat>)
    requires i <= |ms|
    ensures r.Some? ==> i <= r.value < |ms| && ms[r.value].Some?
    ensures r.Some? ==> forall k :: i <= k < r.value ==> ms[k].None?
    ensures r.None? ==> forall k :: i <= k < |ms| ==> ms[k].None?
    decreases |ms| - i
  {
    if i == |ms| then None
    else if ms[i].Some? then Some(i)
    else FirstFrom(ms, i + 1)
  }

  /** The version the `--version` output reports, if any. */
  function ParseVersion(output: string): (r: Option<Version>)
    ensures r.None? <==> forall k :: 0 <= k <= |output| ==> MatchAt(output, k).None?
  {
    var ms := Matches(output);
    match FirstFrom(ms, 0)
    case None => None
    case Some(k) => Some(ms[k].value.0)
  }

  function VersionText(v: Version): string {
    Php.NatToString(v.major) + "." + Php.NatToString(v.minor) + "." + Php.NatToString(v.patch)
  }

  predicate NoDigits(s: string) {
    forall i :: 0 <= i < |s| ==> !Php.IsDigit(s[i])
  }

  /** A run of `n` digits followed by a non-digit (or nothing) is read in full. */
  lemma {:induction false} DigitsAtRun(s: string, i: nat, n: nat)
    requires i + n <= |s| && forall p :: i <= p < i + n ==> Php.IsDigit(s[p])
    requires i + n == |s| || !Php.IsDigit(s[i + n])
    ensures DigitsAt(s, i) == n
    decreases n
  {
    if n > 0 {
      DigitsAtRun(s, i + 1, n - 1);
    }
  }

  /** The digits at `i` spell the number their text does. */
  lemma {:induction false} ValueAtText(s: string, i: nat, d: string)
    requires Php.AllDigits(d) && i + |d| <= |s| && s[i..i + |d|] == d
    ensures forall p :: i <= p < i + |d| ==> Php.IsDigit(s[p])
    ensures ValueAt(s, i, |d|) == Php.DigitsValue(d)
    decreases |d|
  {
    forall p | i <= p < i + |d|
      ensures Php.IsDigit(s[p])
    {
      assert s[p] == d[p - i];
    }
    if |d| > 0 {
      var init := d[..|d| - 1];
      assert s[i..i + |init|] == init;
      ValueAtText(s, i, init);
      assert s[i + |d| - 1] == d[|d| - 1];
    }
  }

  /** The digits at `start` through `start + n`, with `n` positive. */
  predicate DigitRun(s: string, start: nat, n: nat) {
    0 < n && start + n <= |s| && forall p :: start <= p < start + n ==> Php.IsDigit(s[p])
  }

  /** A run of `n` digits followed by a non-digit or the end is read as the number it spells. */
  lemma NumberAtRun(s: string, i: nat, n: nat)
    requires DigitRun(s, i, n)
    requires i + n == |s| || !Php.IsDigit(s[i + n])
    ensures NumberAt(s, i) == Some((ValueAt(s, i, n), i + n))
  {
    DigitsAtRun(s, i, n);
  }

  /** A run of `n` digits followed by a dot is read as the number it spells, ending after the dot. */
  lemma DottedNumberRun(s: string, i: nat, n: nat)
    requires DigitRun(s, i, n) && i + n < |s| && s[i + n] == '.'
    ensures NumberDotAt(s, i) == Some((ValueAt(s, i, n), i + n + 1))
  {
    NumberAtRun(s, i, n);
  }

  /**
   * Runs of `a`, `b` and `c` digits from `i`, joined by dots and followed by a non-digit
   * or nothing, match as the three numbers they spell.
   */
  lemma MatchAtRuns(s: string, i: nat, a: nat, b: nat, c: nat)
    requires DigitRun(s, i, a) && i + a < |s| && s[i + a] == '.'
    requires DigitRun(s, i + a + 1, b) && i + a + 1 + b < |s| && s[i + a + 1 + b] == '.'
    requires DigitRun(s, i + a + b + 2, c)
    requires i + a + b + c + 2 == |s| || !Php.IsDigit(s[i + a + b + c + 2])
    ensures MatchAt(s, i) == Some((Version(ValueAt(s, i, a), ValueAt(s, i + a + 1, b), ValueAt(s, i + a + b + 2, c)), i + a + b + c + 2))
  {
    DottedNumberRun(s, i, a);
    DottedNumberRun(s, i + a + 1, b);
    NumberAtRun(s, i + a + b + 2, c);
  }

  /** Where the three numbers and the two dots of `x.y.z` sit inside a string. */
  lemma DottedSlices(s: string, i: nat, x: string, y: string, z: string)
    requires i + |x| + |y| + |z| + 2 <= |s| && s[i..i + |x| + |y| + |z| + 2] == x + "." + y + "." + z
    ensures s[i..i + |x|] == x && s[i + |x|] == '.'
    ensures s[i + |x| + 1..i + |x| + 1 + |y|] == y && s[i + |x| + 1 + |y|] == '.'
    ensures s[i + |x| + |y| + 2..i + |x| + |y| + 2 + |z|] == z
  {
    var t := x + "." + y + "." + z;
    var j, k := i + |x| + 1, i + |x| + |y| + 2;
    var rest := y + "." + z;
    assert t == x + "." + rest;
    assert t[..|x|] == x && t[|x|] == '.' && t[|x| + 1..] == rest;
    assert rest[..|y|] == y && rest[|y|] == '.' && rest[|y| + 1..] == z;
    assert s[i..i + |x|] == t[..|x|];
    assert s[j..j + |y|] == rest[..|y|];
    assert s[k..k + |z|] == rest[|y| + 1..];
    assert s[i + |x|] == t[|x|] && s[j + |y|] == rest[|y|];
  }

  /** The rendering of a number, at `i`, is a run of digits spelling that number. */
  lemma NumberText(s: string, i: nat, n: nat)
    requires i + |Php.NatToString(n)| <= |s| && s[i..i + |Php.NatToString(n)|] == Php.NatToString(n)
    ensures DigitRun(s, i, |Php.NatToString(n)|) && ValueAt(s, i, |Php.NatToString(n)|) == n
  {
    ValueAtText(s, i, Php.NatToString(n));
    Php.DigitsValueOfNatToString(n);
  }

  /** Where the rendering of a version sits in a string: three runs of digits spelling its numbers, joined by dots. */
  lemma VersionRuns(s: string, i: nat, v: Version)
    requires i + |VersionText(v)| <= |s| && s[i..i + |VersionText(v)|] == VersionText(v)
    ensures var a, b, c := |Php.NatToString(v.major)|, |Php.NatToString(v.minor)|, |Php.NatToString(v.patch)|;
            && a + b + c + 2 == |VersionText(v)|
            && DigitRun(s, i, a) && s[i + a] == '.' && ValueAt(s, i, a) == v.major
            && DigitRun(s, i + a + 1, b) && s[i + a + 1 + b] == '.' && ValueAt(s, i + a + 1, b) == v.minor
            && DigitRun(s, i + a + b + 2, c) && ValueAt(s, i + a + b + 2, c) == v.patch
  {
    var x, y, z := Php.NatToString(v.major), Php.NatToString(v.minor), Php.NatToString(v.patch);
    assert VersionText(v) == x + "." + y + "." + z;
    DottedSlices(s, i, x, y, z);
    NumberText(s, i, v.major);
    NumberText(s, i + |x| + 1, v.minor);
    NumberText(s, i + |x| + |y| + 2, v.patch);
  }

  /** Runs of digits spelling a version's numbers, joined by dots, match as that version. */
  lemma MatchAtVersionRuns(s: string, i: nat, v: Version, a: nat, b: nat, c: nat)
    requires DigitRun(s, i, a) && i + a < |s| && s[i + a] == '.' && ValueAt(s, i, a) == v.major
    requires DigitRun(s, i + a + 1, b) && i + a + 1 + b < |s| && s[i + a + 1 + b] == '.' && ValueAt(s, i + a + 1, b) == v.minor
    requires DigitRun(s, i + a + b + 2, c) && ValueAt(s, i + a + b + 2, c) == v.patch
    requires i + a + b + c + 2 == |s| || !Php.IsDigit(s[i + a + b + c + 2])
    ensures MatchAt(s, i).Some? && MatchAt(s, i).value.0 == v
  {
    MatchAtRuns(s, i, a, b, c);
  }

  /** The rendering of a version, followed by a non-digit or nothing, matches as that version. */
  lemma MatchAtVersion(s: string, i: nat, v: Version)
    requires i + |VersionText(v)| <= |s| && s[i..i + |VersionText(v)|] == VersionText(v)
    requires i + |VersionText(v)| == |s| || !Php.IsDigit(s[i + |VersionText(v)|])
    ensures MatchAt(s, i).Some? && MatchAt(s, i).value.0 == v
  {
    VersionRuns(s, i, v);
    MatchAtVersionRuns(s, i, v, |Php.NatToString(v.major)|, |Php.NatToString(v.minor)|, |Php.NatToString(v.patch)|);
  }

  /** Nothing matches at a non-digit. */
  lemma NoMatchAtNonDigit(s: string, p: nat)
    requires p < |s| && !Php.IsDigit(s[p])
    ensures MatchAt(s, p).None?
  {
  }

  /** The version found is the one matched at the leftmost position where the pattern matches. */
  lemma ParseVersionLeftmost(output: string, k: nat)
    requires k <= |output| && MatchAt(output, k).Some?
    requires forall p :: 0 <= p < k ==> MatchAt(output, p).None?
    ensures ParseVersion(output) == Some(MatchAt(output, k).value.0)
  {
    FirstFromSkips(Matches(output), 0, k);
  }

  /**
   * The version a banner reports is read back: a banner with no digits before the
   * version and none right after it gives that version.
   */
  lemma ParseVersionOfBanner(before: string, v: Version, after: string)
    requires NoDigits(before)
    requires |after| == 0 || !Php.IsDigit(after[0])
    ensures ParseVersion(before + VersionText(v) + after) == Some(v)
  {
    var t := VersionText(v);
    var s := before + t + after;
    var i := |before|;
    assert s[i..i + |t|] == t;
    if i + |t| < |s| {
      assert s[i + |t|] == after[0];
    }
    MatchAtVersion(s, i, v);
    forall p | 0 <= p < i
      ensures MatchAt(s, p).None?
    {
      assert s[p] == before[p];
      NoMatchAtNonDigit(s, p);
    }
    ParseVersionLeftmost(s, i);
  }

  /** The search stops at the first position that matches. */
  lemma {:induction false} FirstFromSkips<T>(ms: seq<Option<T>>, from: nat, i: nat)
    requires from <= i < |ms|
    requires forall p :: from <= p < i ==> ms[p].None?
    requires ms[i].Some?
    ensures FirstFrom(ms, from) == Some(i)
    decreases i - from
  {
    if from < i {
      FirstFromSkips(ms, from + 1, i);
    }
  }

  // ---------------------------------------------------------------------------
  // Report
  // ---------------------------------------------------------------------------

  datatype LineKind = Added | Removed | Unchanged
  datatype DiffLine = DiffLine(kind: LineKind, content: string)

  /** A diff chunk as the diff parser returns it. */
  datatype Chunk = Chunk(start: nat, lines: seq<DiffLine>)

  /** One entry of the report's `files`; `appliedFixers` is empty when the report has none. */
  datatype FileReport = FileReport(name: string, appliedFixers: seq<string>, chunks: seq<Chunk>)

  /** A build error of low severity reported by the plugin. */
  datatype ReportedError = ReportedError(message: string, file: string, line: Option<int>)

  /** The number of unchanged lines before the first change. */
  function LeadingUnchanged(lines: seq<DiffLine>): (n: nat)
    ensures n <= |lines|
    ensures forall i :: 0 <= i < n ==> lines[i].kind == Unchanged
    ensures n < |lines| ==> lines[n].kind != Unchanged
    decreases |lines|
  {
    if |lines| > 0 && lines[0].kind == Unchanged then 1 + LeadingUnchanged(lines[1..]) else 0
  }

  /** The line a chunk's error points at: none for a chunk starting at 0, else its start plus the leading unchanged lines. */
  function FirstModifiedLine(c: Chunk): Option<int> {
    if c.start == 0 then None else Some(c.start + LeadingUnchanged(c.lines))
  }

  function Symbol(k: LineKind): string {
    match k
    case Added => "+"
    case Removed => "-"
    case Unchanged => " "
  }

  function ChunkMessage(diff: seq<string>): string {
    "PHP CS Fixer suggestion:\r\n```diff\r\n" + Php.Implode("\r\n", diff) + "\r\n```"
  }

  function DiffText(lines: seq<DiffLine>): seq<string> {
    seq(|lines|, i requires 0 <= i < |lines| => Symbol(lines[i].kind) + lines[i].content)
  }

  function ChunkError(file: string, c: Chunk): ReportedError {
    ReportedError(ChunkMessage(DiffText(c.lines)), file, FirstModifiedLine(c))
  }

  function FixersError(f: FileReport): ReportedError {
    ReportedError("PHP CS Fixer failed fixers: " + Php.Implode(", ", f.appliedFixers), f.name, None)
  }

  /** The errors a file contributes: one per chunk, then one for its failed fixers if it has any. */
  function FileErrors(f: FileReport): seq<ReportedError> {
    seq(|f.chunks|, i requires 0 <= i < |f.chunks| => ChunkError(f.name, f.chunks[i]))
    + (if |f.appliedFixers| > 0 then [FixersError(f)] else [])
  }

  function TotalChunks(files: seq<FileReport>): nat
    decreases |files|
  {
    if |files| == 0 then 0 else TotalChunks(files[..|files| - 1]) + |files[|files| - 1].chunks|
  }

  function AllErrors(files: seq<FileReport>): seq<ReportedError>
    decreases |files|
  {
    if |files| == 0 then [] else AllErrors(files[..|files| - 1]) + FileErrors(files[|files| - 1])
  }

  function WithFixers(files: seq<FileReport>): nat
    decreases |files|
  {
    if |files| == 0 then 0 else WithFixers(files[..|files| - 1]) + (if |files[|files| - 1].appliedFixers| > 0 then 1 else 0)
  }

  /** With error reporting on, there is one error per chunk plus one per file with failed fixers. */
  lemma {:induction false} ErrorCount(files: seq<FileReport>)
    ensures |AllErrors(files)| == TotalChunks(files) + WithFixers(files)
    decreases |files|
  {
    if |files| > 0 {
      ErrorCount(files[..|files| - 1]);
    }
  }

  /** The reported line and the rendered diff of one chunk, walking its lines as the plugin does. */
  method ScanChunk(c: Chunk) returns (line: Option<int>, diff: seq<string>)
    ensures line == FirstModifiedLine(c)
    ensures |diff| == |c.lines|
    ensures forall i :: 0 <= i < |diff| ==> diff[i] == Symbol(c.lines[i].kind) + c.lines[i].content
  {
    var first: int := c.start;
    var found := false;
    if c.start == 0 {
      found := true;
    }
    diff := [];
    var i := 0;
    while i < |c.lines|
      invariant 0 <= i <= |c.lines|
      invariant diff == DiffText(c.lines[..i])
      invariant c.start != 0 && !found ==> i <= LeadingUnchanged(c.lines) && first == c.start + i
      invariant c.start != 0 && found ==> first == c.start + LeadingUnchanged(c.lines)
      invariant c.start == 0 ==> found
    {
      diff := diff + [Symbol(c.lines[i].kind) + c.lines[i].content];
      if !found {
        if c.lines[i].kind == Unchanged {
          first := first + 1;
        } else {
          found := true;
        }
      }
      i := i + 1;
    }
    assert c.lines[..i] == c.lines;
    if c.start == 0 {
      line := None;
    } else {
      line := Some(first);
    }
  }

  /** The chunks of one file: how many there are and the error each one reports. */
  method ScanFile(f: FileReport) returns (count: nat, chunkErrors: seq<ReportedError>)
    ensures count == |f.chunks|
    ensures |chunkErrors| == |f.chunks|
    ensures forall k :: 0 <= k < |f.chunks| ==> chunkErrors[k] == ChunkError(f.name, f.chunks[k])
  {
    count := 0;
    chunkErrors := [];
    while count < |f.chunks|
      invariant count <= |f.chunks| && |chunkErrors| == count
      invariant forall k :: 0 <= k < count ==> chunkErrors[k] == ChunkError(f.name, f.chunks[k])
    {
      var line, diff := ScanChunk(f.chunks[count]);
      assert diff == DiffText(f.chunks[count].lines);
      chunkErrors := chunkErrors + [ReportedError(ChunkMessage(diff), f.name, line)];
      count := count + 1;
    }
  }

  /** Taking one more file adds its chunks to the count and its errors to the list. */
  lemma ReportStep(files: seq<FileReport>, i: nat)
    requires i < |files|
    ensures TotalChunks(files[..i + 1]) == TotalChunks(files[..i]) + |files[i].chunks|
    ensures AllErrors(files[..i + 1]) == AllErrors(files[..i]) + FileErrors(files[i])
  {
    assert files[..i + 1][..i] == files[..i];
  }

  /** The chunk errors of a file followed by its fixers error are the file's errors. */
  lemma FileErrorsSplit(f: FileReport, chunkErrors: seq<ReportedError>)
    requires |chunkErrors| == |f.chunks|
    requires forall k :: 0 <= k < |f.chunks| ==> chunkErrors[k] == ChunkError(f.name, f.chunks[k])
    ensures chunkErrors + (if |f.appliedFixers| > 0 then [FixersError(f)] else []) == FileErrors(f)
  {
    assert chunkErrors == seq(|f.chunks|, i requires 0 <= i < |f.chunks| => ChunkError(f.name, f.chunks[i]));
  }

  /**
   * `processReport` over a readable report: the warning count is the total number of
   * chunks; with error reporting on, the errors are those of every file in order, and
   * without it there are none.
   */
  method ProcessReport(files: seq<FileReport>, reportErrors: bool) returns (warnings: nat, errors: seq<ReportedError>)
    ensures warnings == TotalChunks(files)
    ensures errors == if reportErrors then AllErrors(files) else []
  {
    warnings := 0;
    errors := [];
    var i := 0;
    while i < |files|
      invariant 0 <= i <= |files|
      invariant warnings == TotalChunks(files[..i])
      invariant errors == if reportErrors then AllErrors(files[..i]) else []
    {
      var count, chunkErrors := ScanFile(files[i]);
      ReportStep(files, i);
      FileErrorsSplit(files[i], chunkErrors);
      warnings := warnings + count;
      if reportErrors {
        var fixers := if |files[i].appliedFixers| > 0 then [FixersError(files[i])] else [];
        errors := errors + (chunkErrors + fixers);
      }
      i := i + 1;
    }
    assert files[..i] == files;
  }

  // ---------------------------------------------------------------------------
  // execute
  // ---------------------------------------------------------------------------

  /** The default configuration files, newest naming first for 3.x. */
  function ConfigCandidates(v: Version): (names: seq<string>)
    ensures |names| == 2
  {
    if !Below(v, Major3) then [".php-cs-fixer.php", ".php-cs-fixer.dist.php"] else [".php_cs", ".php_cs.dist"]
  }

  /** The position of the first candidate present under the build path. */
  function FirstPresent(buildPath: string, names: seq<string>, present: set<string>): (r: Option<nat>)
    ensures r.Some? ==> r.value < |names| && buildPath + names[r.value] in present
    ensures r.Some? ==> forall j :: 0 <= j < r.value ==> buildPath + names[j] !in present
    ensures r.None? ==> forall j :: 0 <= j < |names| ==> buildPath + names[j] !in present
    decreases |names|
  {
    if |names| == 0 then None
    else if buildPath + names[0] in present then Some(0)
    else
      match FirstPresent(buildPath, names[1..], present)
      case None => None
      case Some(k) => Some(k + 1)
  }

  /** The failure rule: more warnings than allowed, with -1 meaning no limit. */
  predicate TooManyWarnings(allowed: int, warnings: nat) {
    allowed != -1 && warnings > allowed
  }

  datatype Outcome =
    | VersionUnknown                 // the version probe printed no version: an exception
    | ReportUnreadable               // the JSON report is not an array: an exception
    | Ran(directory: string, added: seq<Flag>, success: bool, warnings: Option<nat>, errors: seq<ReportedError>)

  /** The pieces `execute` appends after the constructor's: a found configuration file, then the report options. */
  function AddedFlags(found: Option<string>, errors: bool, udiff: bool): (added: seq<Flag>)
    ensures found.Some? ==> |added| > 0 && added[0] == Config("./" + found.value)
    ensures found.None? ==> forall i :: 0 <= i < |added| ==> !added[i].Config?
    ensures JsonReport in added <==> errors
    ensures UdiffFormat in added <==> errors && udiff
    ensures Ordered(added)
    ensures forall f :: f in added <==> AddedMember(found, errors, udiff, f)
  {
    (if found.Some? then [Config("./" + found.value)] else [])
    + (if errors then [JsonReport] + (if udiff then [UdiffFormat] else []) else [])
  }

  /** The pieces `execute` may append: the found configuration file, and the report options when asked for. */
  predicate AddedMember(found: Option<string>, errors: bool, udiff: bool, f: Flag) {
    || (found.Some? && f == Config("./" + found.value))
    || (errors && f == JsonReport)
    || (errors && udiff && f == UdiffFormat)
  }

  /** Appending those pieces in rank order can be done only one way. */
  lemma AddedFlagsDetermined(found: Option<string>, errors: bool, udiff: bool, flags: seq<Flag>)
    requires Ordered(flags)
    requires forall f :: f in flags <==> AddedMember(found, errors, udiff, f)
    ensures flags == AddedFlags(found, errors, udiff)
  {
    OrderedByRanks(flags, AddedFlags(found, errors, udiff));
  }

  /** The configuration file `execute` found: none when one was configured, else the first candidate present. */
  function FoundConfig(config: bool, buildPath: string, present: set<string>, v: Version): (found: Option<string>)
    ensures config ==> found.None?
    ensures !config ==> (found.Some? <==> FirstPresent(buildPath, ConfigCandidates(v), present).Some?)
    ensures !config && found.Some? ==>
              found.value == ConfigCandidates(v)[FirstPresent(buildPath, ConfigCandidates(v), present).value]
  {
    var names := ConfigCandidates(v);
    var index := if config then None else FirstPresent(buildPath, names, present);
    if index.Some? then Some(names[index.value]) else None
  }

  /** The found configuration file, if any, heads the appended pieces; otherwise none is a `Config`. */
  lemma FoundConfigFacts(config: bool, buildPath: string, present: set<string>, v: Version, errors: bool, udiff: bool)
    ensures var added := AddedFlags(FoundConfig(config, buildPath, present, v), errors, udiff);
            var names := ConfigCandidates(v);
            && (config ==> forall i :: 0 <= i < |added| ==> !added[i].Config?)
            && (!config ==>
                  match FirstPresent(buildPath, names, present)
                  case Some(k) => |added| > 0 && added[0] == Config("./" + names[k])
                  case None => forall i :: 0 <= i < |added| ==> !added[i].Config?)
  {
  }

  /**
   * `execute`. `report` is the decoded report of the fix run: none when it is not an
   * array. A configuration file is looked for only when none was configured, and the
   * first present is used; the target directory is the plugin's directory, or `.` when
   * that is empty and there is no configuration; with `errors` the report options are
   * added, the warnings counted and the run fails above the allowed count. The argument
   * string is the constructor's pieces followed by `added`.
   */
  function Execute(
    f: Fixer, directory: string, buildPath: string, present: set<string>,
    versionOutput: string, fixSucceeded: bool, report: Option<seq<FileReport>>
  ): (r: Outcome)
    requires Constructed(f)
    ensures r == VersionUnknown <==> ParseVersion(versionOutput).None?
    ensures r == ReportUnreadable <==> ParseVersion(versionOutput).Some? && f.errors && report.None?
    ensures r.Ran? ==> (Php.StrTruthy(directory) ==> r.directory == directory)
    ensures r.Ran? && f.config ==>
              && (forall i :: 0 <= i < |r.added| ==> !r.added[i].Config?)
              && (!Php.StrTruthy(directory) ==> r.directory == "")
    ensures r.Ran? && !f.config ==>
              var names := ConfigCandidates(ParseVersion(versionOutput).value);
              match FirstPresent(buildPath, names, present)
              case Some(k) =>
                && |r.added| > 0 && r.added[0] == Config("./" + names[k])
                && (!Php.StrTruthy(directory) ==> r.directory == "")
              case None =>
                && (forall i :: 0 <= i < |r.added| ==> !r.added[i].Config?)
                && (!Php.StrTruthy(directory) ==> r.directory == ".")
    ensures r.Ran? ==>
              r.added == AddedFlags(
                FoundConfig(f.config, buildPath, present, ParseVersion(versionOutput).value),
                f.errors, SupportsUdiff(ParseVersion(versionOutput).value))
    ensures r.Ran? ==> (JsonReport in r.added <==> f.errors)
    ensures r.Ran? ==> (UdiffFormat in r.added <==> f.errors && SupportsUdiff(ParseVersion(versionOutput).value))
    ensures r.Ran? && !f.errors ==> r.success == fixSucceeded && r.warnings == None && r.errors == []
    ensures r.Ran? && f.errors ==>
              && r.warnings == Some(TotalChunks(report.value))
              && r.success == (fixSucceeded && !TooManyWarnings(f.allowedWarnings.value, TotalChunks(report.value)))
              && r.errors == if f.reportErrors then AllErrors(report.value) else []
  {
    match ParseVersion(versionOutput)
    case None => VersionUnknown
    case Some(v) =>
      var found := FoundConfig(f.config, buildPath, present, v);
      FoundConfigFacts(f.config, buildPath, present, v, f.errors, SupportsUdiff(v));
      var dir := if Php.StrTruthy(directory) then directory else "";
      var target := if !f.config && found.None? && !Php.StrTruthy(dir) then "." else dir;
      var added := AddedFlags(found, f.errors, SupportsUdiff(v));
      if !f.errors then Ran(target, added, fixSucceeded, None, [])
      else if report.None? then ReportUnreadable
      else
        var warnings := TotalChunks(report.value);
        var success := fixSucceeded && !TooManyWarnings(f.allowedWarnings.value, warnings);
        Ran(target, added, success, Some(warnings), if f.reportErrors then AllErrors(report.value) else [])
  }

  /**
   * The argument string `execute` passes to the fix command: the constructor's arguments
   * followed by the flags `execute` added.
   */
  function Arguments(f: Fixer, r: Outcome): (s: string)
    requires r.Ran?
    ensures s == Render(f.flags) + Render(r.added)
  {
    RenderAppend(f.flags, r.added);
    Render(f.flags + r.added)
  }
}
