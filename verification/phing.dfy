/**
 * The Phing plugin, `Plugin\Phing`: its defaults, the option setters (a single string
 * becomes a one-element list), the rendering of properties and targets, and the command
 * line `execute` assembles. File existence is an input set; running the command is left
 * out.
 */
module Phing {
  import opened Wrappers
  import Php

  const DefaultBuildFile: string := "build.xml"
  const DefaultTarget: string := "build"
  const BaseDirProperty: string := "project.basedir"
  const Logger: string := "-logger phing.listener.DefaultLogger"
  const MergeStderr: string := "2>&1"

  /** An option that is either one string or a list. */
  datatype OneOrMany<T> = One(s: string) | Many(items: T)

  /** The plugin options the constructor reads; a missing or null option is none. */
  datatype Options = Options(
    buildFile: Option<string>,
    targets: Option<OneOrMany<seq<Php.Value>>>,
    properties: Option<OneOrMany<seq<Php.Entry<Php.Value>>>>,
    propertyFile: Option<string>
  )

  /** The plugin's state. `directory` comes from the plugin base class. */
  datatype Plugin = Plugin(
    directory: string,
    buildFile: string,
    targets: seq<Php.Value>,
    properties: seq<Php.Entry<Php.Value>>,
    propertyFile: Option<string>
  )

  datatype Construction =
    | Constructed(plugin: Plugin)
    | BuildFileMissing       // `setBuildFile` threw
    | PropertyFileMissing    // `setPropertyFile` threw

  /** `setTargets`: a string becomes the only target; a list is stored as given. */
  function SetTargets(p: Plugin, targets: OneOrMany<seq<Php.Value>>): (r: Plugin)
    ensures targets.One? ==> r.targets == [Php.Str(targets.s)]
    ensures targets.Many? ==> r.targets == targets.items
    ensures r.(targets := p.targets) == p
  {
    match targets
    case One(s) => p.(targets := [Php.Str(s)])
    case Many(items) => p.(targets := items)
  }

  /** `setProperties`: a string becomes the list holding it under key 0; a list is stored as given. */
  function SetProperties(p: Plugin, properties: OneOrMany<seq<Php.Entry<Php.Value>>>): (r: Plugin)
    ensures properties.One? ==> r.properties == [Php.Entry(Php.IntKey(0), Php.Str(properties.s))]
    ensures properties.Many? ==> r.properties == properties.items
    ensures r.(properties := p.properties) == p
  {
    match properties
    case One(s) => p.(properties := [Php.Entry(Php.IntKey(0), Php.Str(s))])
    case Many(items) => p.(properties := items)
  }

  /**
   * The constructor: defaults `build.xml` and the single target `build`, then each set
   * option through its setter. The build file must exist under the directory, and the
   * property file under the directory followed by a slash.
   */
  function Construct(directory: string, o: Options, present: set<string>): (r: Construction)
    ensures r.BuildFileMissing? <==> o.buildFile.Some? && directory + o.buildFile.value !in present
    ensures r.PropertyFileMissing? <==>
              !r.BuildFileMissing? && o.propertyFile.Some? && directory + "/" + o.propertyFile.value !in present
    ensures r.Constructed? ==>
              && r.plugin.directory == directory
              && r.plugin.buildFile == o.buildFile.GetOr(DefaultBuildFile)
              && r.plugin.propertyFile == o.propertyFile
              && (o.targets.None? ==> r.plugin.targets == [Php.Str(DefaultTarget)])
              && (o.properties.None? ==> r.plugin.properties == [])
    ensures r.Constructed? && o.targets.Some? && o.targets.value.One? ==> r.plugin.targets == [Php.Str(o.targets.value.s)]
    ensures r.Constructed? && o.targets.Some? && o.targets.value.Many? ==> r.plugin.targets == o.targets.value.items
    ensures r.Constructed? && o.properties.Some? && o.properties.value.One? ==>
              r.plugin.properties == [Php.Entry(Php.IntKey(0), Php.Str(o.properties.value.s))]
    ensures r.Constructed? && o.properties.Some? && o.properties.value.Many? ==> r.plugin.properties == o.properties.value.items
  {
    var p := Plugin(directory, DefaultBuildFile, [Php.Str(DefaultTarget)], [], None);
    if o.buildFile.Some? && directory + o.buildFile.value !in present then BuildFileMissing
    else
      var p := if o.buildFile.Some? then p.(buildFile := o.buildFile.value) else p;
      var p := if o.targets.Some? then SetTargets(p, o.targets.value) else p;
      var p := if o.properties.Some? then SetProperties(p, o.properties.value) else p;
      if o.propertyFile.Some? && directory + "/" + o.propertyFile.value !in present then PropertyFileMissing
      else Constructed(p.(propertyFile := o.propertyFile))
  }

  /** `getBuildFilePath`. */
  function BuildFilePath(p: Plugin): (path: string)
    ensures Php.StartsWith(path, p.directory) && path[|p.directory|..] == p.buildFile
  {
    p.directory + p.buildFile
  }

  /** Each target as text, in order. */
  function TargetTexts(p: Plugin): (texts: seq<string>)
    ensures |texts| == |p.targets|
    ensures forall i :: 0 <= i < |p.targets| ==> texts[i] == Php.ToStr(p.targets[i])
  {
    seq(|p.targets|, i requires 0 <= i < |p.targets| => Php.ToStr(p.targets[i]))
  }

  /** `targetsToString`: the targets separated by single spaces. */
  function TargetsString(p: Plugin): (s: string)
    ensures |p.targets| == 0 ==> s == ""
    ensures |p.targets| == 1 ==> s == Php.ToStr(p.targets[0])
  {
    Php.Implode(" ", TargetTexts(p))
  }

  /** Split at the spaces, the targets string gives back every target when no target holds a space. */
  lemma TargetsStringSplits(p: Plugin)
    requires |p.targets| > 0
    requires forall i :: 0 <= i < |p.targets| ==> ' ' !in Php.ToStr(p.targets[i])
    ensures Php.Explode(' ', TargetsString(p)) == TargetTexts(p)
  {
    Php.ExplodeImplode(' ', TargetTexts(p));
  }

  /** The text of an array key. */
  function KeyText(k: Php.Key): string {
    match k
    case IntKey(n) => Php.IntToString(n)
    case StrKey(name) => name
  }

  /** `-D<name>="<value>"`. */
  function PropertyText(e: Php.Entry<Php.Value>): string {
    "-D" + KeyText(e.key) + "=\"" + Php.ToStr(e.val) + "\""
  }

  /**
   * The properties `propertiesToString` renders: the base directory is added under
   * `project.basedir` only when that key is not set, and a set value is never replaced.
   */
  function WithBaseDir(properties: seq<Php.Entry<Php.Value>>, directory: string): (r: seq<Php.Entry<Php.Value>>)
    ensures Php.IsSet(Php.Lookup(properties, Php.StrKey(BaseDirProperty))) ==> r == properties
    ensures !Php.IsSet(Php.Lookup(properties, Php.StrKey(BaseDirProperty))) ==>
              Php.Lookup(r, Php.StrKey(BaseDirProperty)) == Some(Php.Str(directory))
    ensures forall k :: k != Php.StrKey(BaseDirProperty) ==> Php.Lookup(r, k) == Php.Lookup(properties, k)
    ensures forall k :: k in Php.Keys(properties) ==> k in Php.Keys(r)
    ensures Php.IsSet(Php.Lookup(r, Php.StrKey(BaseDirProperty)))
  {
    var key := Php.StrKey(BaseDirProperty);
    if Php.IsSet(Php.Lookup(properties, key)) then properties
    else
      var r := Php.Assign(properties, key, Php.Str(directory));
      Php.AssignThenLookup(properties, key, Php.Str(directory), key);
      assert forall k :: k != key ==> Php.Lookup(r, k) == Php.Lookup(properties, k) by {
        forall k | k != key
          ensures Php.Lookup(r, k) == Php.Lookup(properties, k)
        {
          Php.AssignThenLookup(properties, key, Php.Str(directory), k);
        }
      }
      assert forall k :: k in Php.Keys(properties) ==> k in Php.Keys(r) by {
        forall k | k in Php.Keys(properties)
          ensures k in Php.Keys(r)
        {
          var i :| 0 <= i < |properties| && Php.Keys(properties)[i] == k;
          assert Php.Keys(r)[i] == k;
        }
      }
      r
  }

  /** Each property rendered as `-D<name>="<value>"`, in array order. */
  function PropertyTexts(props: seq<Php.Entry<Php.Value>>): (texts: seq<string>)
    ensures |texts| == |props|
    ensures forall i :: 0 <= i < |props| ==> texts[i] == PropertyText(props[i])
  {
    seq(|props|, i requires 0 <= i < |props| => PropertyText(props[i]))
  }

  /** `propertiesToString`: the properties with the base directory, each rendered, separated by single spaces. */
  function PropertiesString(p: Plugin): (s: string)
    ensures Php.StartsWith(s, "-D")
  {
    var props := WithBaseDir(p.properties, p.directory);
    var texts := PropertyTexts(props);
    assert |props| > 0 by {
      assert Php.Lookup(props, Php.StrKey(BaseDirProperty)).Some?;
    }
    ImplodeOpens(" ", texts);
    Php.Implode(" ", texts)
  }

  /**
   * Split at the spaces, the properties string gives back every rendered property, the
   * base directory included, when none holds a space.
   */
  lemma PropertiesStringSplits(p: Plugin)
    requires var texts := PropertyTexts(WithBaseDir(p.properties, p.directory));
             forall i :: 0 <= i < |texts| ==> ' ' !in texts[i]
    ensures Php.Explode(' ', PropertiesString(p)) == PropertyTexts(WithBaseDir(p.properties, p.directory))
  {
    var props := WithBaseDir(p.properties, p.directory);
    assert Php.Lookup(props, Php.StrKey(BaseDirProperty)).Some?;
    Php.ExplodeImplode(' ', PropertyTexts(props));
  }

  /** A non-empty implode opens with its first piece. */
  lemma ImplodeOpens(sep: string, parts: seq<string>)
    requires |parts| > 0
    ensures Php.StartsWith(Php.Implode(sep, parts), parts[0])
  {
  }

  /** The pieces of the command, in order. */
  function CommandParts(exe: string, p: Plugin): (parts: seq<string>)
    ensures |parts| == if Php.OptStrTruthy(p.propertyFile) then 6 else 5
    ensures parts[0] == exe + " -f " + BuildFilePath(p)
    ensures Php.OptStrTruthy(p.propertyFile) ==> parts[1] == "-propertyfile " + p.propertyFile.value
    ensures parts[|parts| - 4..] == [PropertiesString(p), Logger, TargetsString(p), MergeStderr]
  {
    [exe + " -f " + BuildFilePath(p)]
    + (if Php.OptStrTruthy(p.propertyFile) then ["-propertyfile " + p.propertyFile.value] else [])
    + [PropertiesString(p), Logger, TargetsString(p), MergeStderr]
  }

  /** Four pieces joined by single spaces. */
  lemma ImplodeFour(a: string, b: string, c: string, d: string)
    ensures Php.Implode(" ", [a, b, c, d]) == a + " " + b + " " + c + " " + d
  {
    var l3: seq<string> := [d];
    var l2 := [c] + l3;
    var l1 := [b] + l2;
    assert l2[1..] == l3;
    assert Php.Implode(" ", l2) == c + " " + d;
    assert l1[1..] == l2;
    assert Php.Implode(" ", l1) == b + " " + c + " " + d;
    assert [a, b, c, d] == [a] + l1 && [a, b, c, d][1..] == l1;
  }

  /**
   * The command line `execute` runs: its pieces joined by single spaces. It opens with the
   * executable and the build file and closes with the stream redirection.
   */
  function Command(exe: string, p: Plugin): (c: string)
    ensures Php.StartsWith(c, exe + " -f " + BuildFilePath(p))
    ensures |c| >= |MergeStderr| && c[|c| - |MergeStderr|..] == MergeStderr
  {
    var parts := CommandParts(exe, p);
    assert parts[|parts| - 1] == MergeStderr by {
      assert parts[|parts| - 1] == parts[|parts| - 4..][3];
    }
    ImplodeOpens(" ", parts);
    ImplodeCloses(" ", parts);
    Php.Implode(" ", parts)
  }

  /** A non-empty implode closes with its last piece. */
  lemma {:induction false} ImplodeCloses(sep: string, parts: seq<string>)
    requires |parts| > 0
    ensures var r := Php.Implode(sep, parts);
            |r| >= |parts[|parts| - 1]| && r[|r| - |parts[|parts| - 1]|..] == parts[|parts| - 1]
    decreases |parts|
  {
    if |parts| > 1 {
      ImplodeCloses(sep, parts[1..]);
    }
  }

  /**
   * The command opens with the executable and the build file, passes the property file
   * only when one is set, and ends with the properties, the logger, the targets and the
   * stream redirection.
   */
  lemma CommandShape(exe: string, p: Plugin)
    ensures var tail := PropertiesString(p) + " " + Logger + " " + TargetsString(p) + " " + MergeStderr;
            Command(exe, p) ==
              exe + " -f " + BuildFilePath(p) + " "
              + (if Php.OptStrTruthy(p.propertyFile) then "-propertyfile " + p.propertyFile.value + " " else "")
              + tail
  {
    var parts := CommandParts(exe, p);
    var last := [PropertiesString(p), Logger, TargetsString(p), MergeStderr];
    ImplodeFour(PropertiesString(p), Logger, TargetsString(p), MergeStderr);
    if Php.OptStrTruthy(p.propertyFile) {
      var head := [parts[0], parts[1]];
      assert parts == head + last;
      Php.ImplodeAppend(" ", head, last);
      assert head[1..] == [parts[1]];
    } else {
      var head := [parts[0]];
      assert parts == head + last;
      Php.ImplodeAppend(" ", head, last);
    }
  }

  /** With no properties configured, the only property passed is the base directory. */
  lemma DefaultPropertiesAreBaseDir(p: Plugin)
    requires p.properties == []
    ensures PropertiesString(p) == "-Dproject.basedir=\"" + p.directory + "\""
  {
    var props := WithBaseDir(p.properties, p.directory);
    assert props == [Php.Entry(Php.StrKey(BaseDirProperty), Php.Str(p.directory))];
  }

  /** The default plugin runs the single target `build`. */
  lemma DefaultTargets(directory: string, present: set<string>)
    ensures var r := Construct(directory, Options(None, None, None, None), present);
            r.Constructed? && TargetsString(r.plugin) == DefaultTarget
            && BuildFilePath(r.plugin) == directory + DefaultBuildFile
  {
  }
}
