/**
 * The dashboard, `Controller\HomeController::index`: the configured widgets split into a
 * left and a right column. The configuration lookup is an input; rendering is left out.
 */
module Dashboard {
  import opened Wrappers
  import Php

  /** The two columns, each an ordered array from widget name to widget parameters. */
  datatype Columns = Columns(left: seq<Php.Entry<Php.Value>>, right: seq<Php.Entry<Php.Value>>)

  const SideKey: Php.Key := Php.StrKey("side")

  /** A widget goes right exactly when its parameters set `side` to the string `right`. */
  predicate OnRight(params: Php.Value) {
    params.Arr? && Php.Lookup(params.entries, SideKey) == Some(Php.Str("right"))
  }

  function SideParams(side: string): Php.Value {
    Php.Arr([Php.Entry(SideKey, Php.Str(side))])
  }

  /** The widgets used when none are configured: all projects on the left, last builds on the right. */
  const DefaultWidgets: seq<Php.Entry<Php.Value>> := [
    Php.Entry(Php.StrKey("all_projects"), SideParams("left")),
    Php.Entry(Php.StrKey("last_builds"), SideParams("right"))
  ]

  /**
   * Each widget, in configuration order, is stored under its name in the column its side
   * chooses. Whatever the configuration, a widget is in exactly one column, with its
   * parameters unchanged, and the columns hold nothing else.
   */
  function Place(config: seq<Php.Entry<Php.Value>>): (c: Columns)
    requires Php.UniqueKeys(config)
    ensures forall k :: Php.Lookup(c.right, k) ==
              (if Php.Lookup(config, k).Some? && OnRight(Php.Lookup(config, k).value) then Php.Lookup(config, k) else None)
    ensures forall k :: Php.Lookup(c.left, k) ==
              (if Php.Lookup(config, k).Some? && !OnRight(Php.Lookup(config, k).value) then Php.Lookup(config, k) else None)
    decreases |config|
  {
    if |config| == 0 then Columns([], [])
    else
      var init := config[..|config| - 1];
      var e := config[|config| - 1];
      assert config == init + [e];
      var c := Place(init);
      var r := if OnRight(e.val) then c.(right := Php.Assign(c.right, e.key, e.val))
               else c.(left := Php.Assign(c.left, e.key, e.val));
      assert Php.Lookup(init, e.key).None?;
      forall k
        ensures Php.Lookup(r.right, k) ==
                (if Php.Lookup(config, k).Some? && OnRight(Php.Lookup(config, k).value) then Php.Lookup(config, k) else None)
        ensures Php.Lookup(r.left, k) ==
                (if Php.Lookup(config, k).Some? && !OnRight(Php.Lookup(config, k).value) then Php.Lookup(config, k) else None)
      {
        Php.LookupSnoc(init, e, k);
        Php.AssignThenLookup(c.right, e.key, e.val, k);
        Php.AssignThenLookup(c.left, e.key, e.val, k);
      }
      r
  }

  /** `index`: the configured widgets, or the default ones when none are configured. */
  function Index(configured: Option<seq<Php.Entry<Php.Value>>>): (c: Columns)
    requires configured.Some? ==> Php.UniqueKeys(configured.value)
    ensures configured.Some? ==> c == Place(configured.value)
    ensures configured.None? ==> c == Place(DefaultWidgets)
  {
    Place(configured.GetOr(DefaultWidgets))
  }

  /** Without configuration the dashboard shows all projects on the left and the last builds on the right. */
  lemma DefaultLayout()
    ensures Index(None) == Columns([DefaultWidgets[0]], [DefaultWidgets[1]])
  {
    var c := Place(DefaultWidgets);
    assert DefaultWidgets[..1] == [DefaultWidgets[0]];
    assert Place([DefaultWidgets[0]]) == Columns([DefaultWidgets[0]], []) by {
      assert [DefaultWidgets[0]][..0] == [];
      assert !OnRight(SideParams("left"));
    }
    assert OnRight(SideParams("right"));
  }

  /** Anything but the exact string `right` keeps a widget on the left, even a missing or null side. */
  lemma LeftUnlessExactlyRight(params: seq<Php.Entry<Php.Value>>)
    requires Php.Lookup(params, SideKey) != Some(Php.Str("right"))
    ensures !OnRight(Php.Arr(params))
    ensures !OnRight(Php.Str("right")) && !OnRight(Php.Null)
  {
  }
}
