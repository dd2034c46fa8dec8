/**
  The `sample_plugin` example crate as the analyzer's database sees it: `bevy_ecs` declares the
  trait `Component`, and `sample_plugin`'s root module holds `struct Point { x: f64, y: f64 }`
  with the `impl Component for Point` that `#[derive(Component)]` expands to.
*/
module SamplePlugin {
  import opened Wrappers
  import opened Hir
  import opened Locator
  import opened PathBuilder
  import opened Analyzer

  /**
    Crates, in enumeration order: a crate without a display name,
    `bevy_ecs`, `bevy` and `sample_plugin`. Module 1 is `bevy_ecs`'s root, module 3 is
    `sample_plugin`'s root; `plugin` is the list of impl blocks of that root module and
    `pluginDecls` its declarations.
  */
  function Workspace(pluginDecls: seq<Decl>, plugin: seq<ImplInfo>): Database
  {
    Database(
      [ CrateInfo(None, [0]),
        CrateInfo(Some("bevy_ecs"), [1]),
        CrateInfo(Some("bevy"), [2]),
        CrateInfo(Some("sample_plugin"), [3]) ],
      [ ModuleInfo(None, None, [OtherDecl], []),
        ModuleInfo(None, None, [OtherDecl, TraitDecl(0)], []),
        ModuleInfo(None, None, [], []),
        ModuleInfo(None, None, [OtherDecl] + pluginDecls, plugin) ],
      [ StructInfo(Text("Point"), 3, 3, [Text("x"), Text("y")]) ],
      [ Text("Component"), Text("Component") ])
  }

  /** The workspace of the example: `#[derive(Component)]` on `Point`. */
  function SampleDatabase(): Database
  {
    Workspace([], [ImplInfo(Some(0), StructTy(0))])
  }

  /** The workspace is well formed for any plugin declarations and impl blocks with in-range handles. */
  lemma SampleValid(pluginDecls: seq<Decl>, plugin: seq<ImplInfo>)
    requires forall d | d in pluginDecls :: d.TraitDecl? ==> d.id < 2
    requires forall i | i in plugin ::
      && (i.implemented.Some? ==> i.implemented.value < 2)
      && (i.selfTy.StructTy? ==> i.selfTy.id < 1)
    ensures Workspace(pluginDecls, plugin).Valid()
  {
    var db := Workspace(pluginDecls, plugin);
    assert db.ModuleWellFormed(3);
  }

  /** `bevy_ecs` is crate 1, its trait `Component` is trait 0, `sample_plugin` is crate 3. */
  lemma SampleLookups(pluginDecls: seq<Decl>, plugin: seq<ImplInfo>)
    requires forall d | d in pluginDecls :: d.TraitDecl? ==> d.id < 2
    requires forall i | i in plugin ::
      && (i.implemented.Some? ==> i.implemented.value < 2)
      && (i.selfTy.StructTy? ==> i.selfTy.id < 1)
    ensures Workspace(pluginDecls, plugin).Valid()
    ensures FindCrate(Workspace(pluginDecls, plugin).crates, DependencyCrate) == Some(1)
    ensures FindTrait(Workspace(pluginDecls, plugin), 1, ComponentTrait) == Some(0)
    ensures FindCrate(Workspace(pluginDecls, plugin).crates, "sample_plugin") == Some(3)
    ensures CrateImpls(Workspace(pluginDecls, plugin), [3]) == plugin
  {
    SampleValid(pluginDecls, plugin);
    var db := Workspace(pluginDecls, plugin);
    SampleBevyComponent(db);
    assert [3][1..] == [];
    assert CrateImpls(db, [3]) == plugin + CrateImpls(db, []);
  }

  /** In any database whose first two modules and crates are the sample's, `Component` is trait 0. */
  lemma SampleBevyComponent(db: Database)
    requires db.Valid() && |db.crates| >= 2 && |db.modules| >= 2 && |db.traits| >= 1
    requires db.crates[1].modules == [1]
    requires db.modules[1].declarations == [OtherDecl, TraitDecl(0)]
    requires db.traits[0] == Text("Component")
    ensures FindTrait(db, 1, ComponentTrait) == Some(0)
  {
    var decls := CrateDeclarations(db, [1]);
    assert [1][1..] == [];
    assert CrateDeclarations(db, []) == [];
    assert decls == db.modules[1].declarations + CrateDeclarations(db, []);
    assert decls == [OtherDecl, TraitDecl(0)];
    assert FindTraitIn(db, decls[1..], ComponentTrait) == Some(0);
  }

  /** `Point` sits in `sample_plugin`'s unnamed root, so its path is `sample_plugin::Point`. */
  lemma SamplePointPath()
    ensures SampleDatabase().Valid() && PathResolvable(SampleDatabase(), 0)
    ensures StructPath(SampleDatabase(), 0) == "sample_plugin::Point"
  {
    var db := SampleDatabase();
    SampleValid([], [ImplInfo(Some(0), StructTy(0))]);
    assert PathResolvable(db, 0);
    assert db.modules[3].parent.None? && db.modules[3].name.None?;
    RootStructPath(db, 0);
  }

  /** `Point` is emitted with its name, the path `sample_plugin::Point` and its fields in order. */
  lemma SamplePoint()
    ensures SampleDatabase().Valid() && PathResolvable(SampleDatabase(), 0)
    ensures ComponentOf(SampleDatabase(), 0) == PluginComponent("Point", "sample_plugin::Point", ["x", "y"])
  {
    var db := SampleDatabase();
    SamplePointPath();
    var point := ComponentOf(db, 0);
    assert point.fields == ["x", "y"];
  }

  /** The example's analysis: one component `Point` at `sample_plugin::Point` with fields `x`, `y`. */
  lemma SamplePluginAnalysis()
    ensures SampleDatabase().Valid()
    ensures Analyze(SampleDatabase(), "sample_plugin")
         == Ok(PluginCrate("sample_plugin", [PluginComponent("Point", "sample_plugin::Point", ["x", "y"])]))
  {
    var db := SampleDatabase();
    var plugin := [ImplInfo(Some(0), StructTy(0))];
    SampleLookups([], plugin);
    SampleExtract();
    assert db.crates[3].modules == [3];
    AnalyzeSucceeds(db, "sample_plugin", 1, 0, 3);
  }

  /** The one impl block of the example yields the one component `Point`. */
  lemma SampleExtract()
    ensures SampleDatabase().Valid()
    ensures AllEmittable(SampleDatabase(), [ImplInfo(Some(0), StructTy(0))], 0)
    ensures Extract(SampleDatabase(), [ImplInfo(Some(0), StructTy(0))], 0)
         == [PluginComponent("Point", "sample_plugin::Point", ["x", "y"])]
  {
    var db := SampleDatabase();
    var plugin := [ImplInfo(Some(0), StructTy(0))];
    SamplePoint();
    assert AllEmittable(db, plugin, 0);
    assert Extract(db, plugin[1..], 0) == [];
    assert Extract(db, plugin, 0) == [ComponentOf(db, 0)];
  }

  /** Without the derive, `sample_plugin` is analysed to an empty component list, not an error. */
  lemma SampleWithoutDerive()
    ensures Workspace([], []).Valid()
    ensures Analyze(Workspace([], []), "sample_plugin") == Ok(PluginCrate("sample_plugin", []))
  {
    SampleLookups([], []);
  }

  /**
    When `sample_plugin` declares a trait of its own named `Component` and `Point` implements that
    one, nothing is emitted: the impl is of a different trait with the same name.
  */
  lemma SampleLocalComponentTrait()
    ensures Workspace([TraitDecl(1)], [ImplInfo(Some(1), StructTy(0))]).Valid()
    ensures Analyze(Workspace([TraitDecl(1)], [ImplInfo(Some(1), StructTy(0))]), "sample_plugin")
         == Ok(PluginCrate("sample_plugin", []))
  {
    var plugin := [ImplInfo(Some(1), StructTy(0))];
    SampleLookups([TraitDecl(1)], plugin);
    var db := Workspace([TraitDecl(1)], plugin);
    assert !Qualifies(plugin[0], 0);
    ExtractEmpty(db, plugin, 0);
  }

  /** Asking for a crate that is not in the workspace fails rather than yielding an empty result. */
  lemma SampleMissingPlugin()
    ensures SampleDatabase().Valid()
    ensures Analyze(SampleDatabase(), "other_plugin") == Err(PluginCrateNotFound)
  {
    SampleValid([], [ImplInfo(Some(0), StructTy(0))]);
    var db := SampleDatabase();
    SampleBevyComponent(db);
    assert FindCrate(db.crates, DependencyCrate) == Some(1);
    assert FindCrate(db.crates, "other_plugin").None?;
  }
}
