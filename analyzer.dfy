/** Component extraction and result assembly: `analyze`, `PluginCrate`, `PluginComponent`. */
module Analyzer {
  import opened Wrappers
  import opened Hir
  import opened Locator
  import opened PathBuilder

  datatype PluginComponent = PluginComponent(name: string, path: string, fields: seq<string>)

  datatype PluginCrate = PluginCrate(name: string, components: seq<PluginComponent>)

  /** The conditions on which `analyze` panics; each aborts the whole analysis. */
  datatype AnalyzeError =
    | DependencyNotFound          // "Did not find bevy_ecs"
    | ComponentNotFound           // "Did not find Component"
    | PluginCrateNotFound         // "Did not find plugin crate"
    | ProviderInvariantViolation  // an `unwrap` in `build_struct_path`

  /** The crate that declares the marker trait, and the trait's name. */
  const DependencyCrate: string := "bevy_ecs"
  const ComponentTrait: string := "Component"

  /** The names of a struct's fields, in declaration order. */
  function FieldNames(fields: seq<Name>): (r: seq<string>)
    ensures |r| == |fields|
    ensures forall i | 0 <= i < |fields| :: r[i] == NameToString(fields[i])
  {
    if fields == [] then [] else [NameToString(fields[0])] + FieldNames(fields[1..])
  }

  /** The component emitted for struct `s`. */
  function ComponentOf(db: Database, s: StructId): (c: PluginComponent)
    requires db.Valid() && s < |db.structs| && PathResolvable(db, s)
    ensures c.name == db.structs[s].name.text
    ensures c.path == StructPath(db, s)
    ensures var prefix := db.crates[db.structs[s].krate].displayName.value + "::";
      |c.path| >= |prefix| + |c.name| && c.path[..|prefix|] == prefix
    ensures |c.path| >= |c.name| + 2 && c.path[|c.path| - |c.name| - 2..] == "::" + c.name
    ensures |c.fields| == |db.structs[s].fields|
    ensures forall i | 0 <= i < |c.fields| :: c.fields[i] == NameToString(db.structs[s].fields[i])
  {
    var st := db.structs[s];
    StructPathShape(db, s);
    PluginComponent(NameToString(st.name), StructPath(db, s), FieldNames(st.fields))
  }

  /** The impl blocks of the given modules, one module after another (`flat_map`). */
  function CrateImpls(db: Database, ms: seq<ModuleId>): (r: seq<ImplInfo>)
    requires db.Valid() && db.ModuleIdsValid(ms)
    ensures forall i | 0 <= i < |r| :: r[i].selfTy.StructTy? ==> r[i].selfTy.id < |db.structs|
    ensures forall x :: x in r <==> exists j | 0 <= j < |ms| :: x in db.modules[ms[j]].impls
  {
    if ms == [] then []
    else
      assert db.ModuleWellFormed(ms[0]);
      db.modules[ms[0]].impls + CrateImpls(db, ms[1..])
  }

  /**
    An impl block yields a component when it implements the resolved trait itself (the same
    trait, not merely one with the same name) and its self type is a struct.
  */
  predicate Qualifies(impl: ImplInfo, component: TraitId)
  {
    impl.implemented == Some(component) && impl.selfTy.StructTy?
  }

  /** A qualifying impl block's struct is in the arena and `build_struct_path` will not panic on it. */
  predicate Emittable(db: Database, impl: ImplInfo, component: TraitId)
    requires db.Valid()
  {
    Qualifies(impl, component) ==> impl.selfTy.id < |db.structs| && PathResolvable(db, impl.selfTy.id)
  }

  predicate AllEmittable(db: Database, impls: seq<ImplInfo>, component: TraitId)
    requires db.Valid()
  {
    forall i | 0 <= i < |impls| :: Emittable(db, impls[i], component)
  }

  /**
    The `filter` and `filter_map` of `analyze`: one component per qualifying impl block, in the
    order of the impl blocks, with no sorting and no deduplication.
  */
  function Extract(db: Database, impls: seq<ImplInfo>, component: TraitId): (r: seq<PluginComponent>)
    requires db.Valid() && AllEmittable(db, impls, component)
    ensures |r| <= |impls|
  {
    if impls == [] then []
    else
      assert Emittable(db, impls[0], component);
      assert AllEmittable(db, impls[1..], component) by {
        assert forall i | 0 <= i < |impls[1..]| :: impls[1..][i] == impls[i + 1];
      }
      var rest := Extract(db, impls[1..], component);
      if Qualifies(impls[0], component) then [ComponentOf(db, impls[0].selfTy.id)] + rest else rest
  }

  /** Every extracted component is the component of some qualifying impl block. */
  lemma {:induction false} ExtractSound(db: Database, impls: seq<ImplInfo>, component: TraitId)
    requires db.Valid() && AllEmittable(db, impls, component)
    ensures forall c | c in Extract(db, impls, component) :: exists i | 0 <= i < |impls| ::
      Qualifies(impls[i], component) && c == ComponentOf(db, impls[i].selfTy.id)
  {
    if impls != [] {
      var tail := impls[1..];
      assert forall i | 0 <= i < |tail| :: tail[i] == impls[i + 1];
      assert AllEmittable(db, tail, component);
      ExtractSound(db, tail, component);
      forall c | c in Extract(db, impls, component)
        ensures exists i | 0 <= i < |impls| :: Qualifies(impls[i], component) && c == ComponentOf(db, impls[i].selfTy.id)
      {
        if c !in Extract(db, tail, component) {
          assert Qualifies(impls[0], component) && c == ComponentOf(db, impls[0].selfTy.id);
        } else {
          var i :| 0 <= i < |tail| && Qualifies(tail[i], component) && c == ComponentOf(db, tail[i].selfTy.id);
          assert tail[i] == impls[i + 1];
        }
      }
    }
  }

  /** Every qualifying impl block yields its component. */
  lemma {:induction false} ExtractComplete(db: Database, impls: seq<ImplInfo>, component: TraitId)
    requires db.Valid() && AllEmittable(db, impls, component)
    ensures forall i | 0 <= i < |impls| :: Qualifies(impls[i], component) ==>
      ComponentOf(db, impls[i].selfTy.id) in Extract(db, impls, component)
  {
    if impls != [] {
      var tail := impls[1..];
      assert forall i | 0 <= i < |tail| :: tail[i] == impls[i + 1];
      assert AllEmittable(db, tail, component);
      ExtractComplete(db, tail, component);
      forall i | 0 < i < |impls| && Qualifies(impls[i], component)
        ensures ComponentOf(db, impls[i].selfTy.id) in Extract(db, impls, component)
      {
        assert impls[i] == tail[i - 1];
      }
    }
  }

  /** Nothing is extracted exactly when no impl block qualifies; an empty result is not an error. */
  lemma {:induction false} ExtractEmpty(db: Database, impls: seq<ImplInfo>, component: TraitId)
    requires db.Valid() && AllEmittable(db, impls, component)
    ensures Extract(db, impls, component) == [] <==> forall i | 0 <= i < |impls| :: !Qualifies(impls[i], component)
  {
    if impls != [] {
      var tail := impls[1..];
      assert forall i | 0 <= i < |tail| :: tail[i] == impls[i + 1];
      assert AllEmittable(db, tail, component);
      ExtractEmpty(db, tail, component);
    }
  }

  /** `analyze`, given the loaded workspace database instead of a path. */
  function Analyze(db: Database, name: string): (r: Result<PluginCrate, AnalyzeError>)
    requires db.Valid()
    ensures r.Ok? ==> r.value.name == name
    ensures (forall j | 0 <= j < |db.crates| :: !HasDisplayName(db.crates[j], DependencyCrate))
      ==> r == Err(DependencyNotFound)
    ensures FindCrate(db.crates, DependencyCrate).Some?
      && FindTrait(db, FindCrate(db.crates, DependencyCrate).value, ComponentTrait).None?
      ==> r == Err(ComponentNotFound)
    ensures (forall j | 0 <= j < |db.crates| :: !HasDisplayName(db.crates[j], name)) ==> r.Err?
    ensures FindCrate(db.crates, DependencyCrate).Some?
      && FindTrait(db, FindCrate(db.crates, DependencyCrate).value, ComponentTrait).Some?
      && FindCrate(db.crates, name).None?
      ==> r == Err(PluginCrateNotFound)
    ensures FindCrate(db.crates, DependencyCrate).Some?
      && FindTrait(db, FindCrate(db.crates, DependencyCrate).value, ComponentTrait).Some?
      && FindCrate(db.crates, name).Some?
      ==> (r == Err(ProviderInvariantViolation) <==>
           !AllEmittable(db, CrateImpls(db, db.crates[FindCrate(db.crates, name).value].modules),
                         FindTrait(db, FindCrate(db.crates, DependencyCrate).value, ComponentTrait).value))
    ensures r.Ok? ==> (FindCrate(db.crates, name).Some?
      && |r.value.components| <= |CrateImpls(db, db.crates[FindCrate(db.crates, name).value].modules)|)
  {
    match FindCrate(db.crates, DependencyCrate)
    case None => Err(DependencyNotFound)
    case Some(ecs) =>
      match FindTrait(db, ecs, ComponentTrait)
      case None => Err(ComponentNotFound)
      case Some(component) =>
        match FindCrate(db.crates, name)
        case None => Err(PluginCrateNotFound)
        case Some(k) =>
          var impls := CrateImpls(db, db.crates[k].modules);
          if AllEmittable(db, impls, component) then Ok(PluginCrate(name, Extract(db, impls, component)))
          else Err(ProviderInvariantViolation)
  }

  lemma AllEmittableAppend(db: Database, a: seq<ImplInfo>, b: seq<ImplInfo>, component: TraitId)
    requires db.Valid()
    ensures AllEmittable(db, a + b, component) <==> AllEmittable(db, a, component) && AllEmittable(db, b, component)
  {
    assert forall i | 0 <= i < |a| :: a[i] == (a + b)[i];
    assert forall i | 0 <= i < |b| :: b[i] == (a + b)[|a| + i];
    assert forall i | 0 <= i < |a + b| :: (a + b)[i] == if i < |a| then a[i] else b[i - |a|];
  }

  /** Extraction over a concatenation is the concatenation of the extractions: encounter order is kept. */
  lemma {:induction false} ExtractAppend(db: Database, a: seq<ImplInfo>, b: seq<ImplInfo>, component: TraitId)
    requires db.Valid() && AllEmittable(db, a, component) && AllEmittable(db, b, component)
    ensures AllEmittable(db, a + b, component)
    ensures Extract(db, a + b, component) == Extract(db, a, component) + Extract(db, b, component)
  {
    AllEmittableAppend(db, a, b, component);
    if a == [] {
      assert a + b == b;
    } else {
      assert (a + b)[0] == a[0];
      assert (a + b)[1..] == a[1..] + b;
      assert forall i | 0 <= i < |a[1..]| :: a[1..][i] == a[i + 1];
      ExtractAppend(db, a[1..], b, component);
    }
  }

  /**
    An impl block that does not qualify (another trait, even one with the same name, or a self
    type that is not a struct) contributes nothing, wherever it stands.
  */
  lemma ExtractSkips(db: Database, a: seq<ImplInfo>, x: ImplInfo, b: seq<ImplInfo>, component: TraitId)
    requires db.Valid() && AllEmittable(db, a + b, component)
    requires !Qualifies(x, component)
    ensures AllEmittable(db, a + [x] + b, component)
    ensures Extract(db, a + [x] + b, component) == Extract(db, a + b, component)
  {
    AllEmittableAppend(db, a, b, component);
    assert AllEmittable(db, [x], component) by { assert [x][0] == x; }
    ExtractAppend(db, a, [x], component);
    ExtractAppend(db, a + [x], b, component);
    ExtractAppend(db, a, b, component);
  }

  /** A qualifying impl block contributes exactly one component, in its own position. */
  lemma ExtractKeeps(db: Database, a: seq<ImplInfo>, x: ImplInfo, b: seq<ImplInfo>, component: TraitId)
    requires db.Valid() && AllEmittable(db, a + [x] + b, component)
    requires Qualifies(x, component)
    ensures AllEmittable(db, a, component) && AllEmittable(db, b, component)
    ensures x.selfTy.id < |db.structs| && PathResolvable(db, x.selfTy.id)
    ensures Extract(db, a + [x] + b, component)
         == Extract(db, a, component) + [ComponentOf(db, x.selfTy.id)] + Extract(db, b, component)
  {
    AllEmittableAppend(db, a + [x], b, component);
    AllEmittableAppend(db, a, [x], component);
    assert Emittable(db, [x][0], component);
    ExtractAppend(db, a, [x], component);
    ExtractAppend(db, a + [x], b, component);
  }

  /**
    Extracting from a crate's impl blocks goes module by module: the components of one module
    come before those of every later module.
  */
  lemma {:induction false} ExtractModuleOrder(db: Database, ms: seq<ModuleId>, component: TraitId)
    requires db.Valid() && db.ModuleIdsValid(ms) && |ms| >= 1
    requires AllEmittable(db, CrateImpls(db, ms), component)
    ensures AllEmittable(db, db.modules[ms[0]].impls, component)
    ensures AllEmittable(db, CrateImpls(db, ms[1..]), component)
    ensures Extract(db, CrateImpls(db, ms), component)
         == Extract(db, db.modules[ms[0]].impls, component) + Extract(db, CrateImpls(db, ms[1..]), component)
  {
    var head := db.modules[ms[0]].impls;
    var tail := CrateImpls(db, ms[1..]);
    assert CrateImpls(db, ms) == head + tail;
    assert forall i | 0 <= i < |head| :: head[i] == (head + tail)[i];
    assert forall i | 0 <= i < |tail| :: tail[i] == (head + tail)[|head| + i];
    ExtractAppend(db, head, tail, component);
  }

  /**
    When the three lookups succeed and every qualifying struct has a textual name and a named
    crate, the analysis succeeds with the components extracted from the plugin crate's impl blocks.
  */
  lemma AnalyzeSucceeds(db: Database, name: string, ecs: CrateId, component: TraitId, k: CrateId)
    requires db.Valid()
    requires FindCrate(db.crates, DependencyCrate) == Some(ecs)
    requires FindTrait(db, ecs, ComponentTrait) == Some(component)
    requires FindCrate(db.crates, name) == Some(k)
    requires AllEmittable(db, CrateImpls(db, db.crates[k].modules), component)
    ensures Analyze(db, name)
         == Ok(PluginCrate(name, Extract(db, CrateImpls(db, db.crates[k].modules), component)))
  {
  }

  /**
    When the three lookups succeed and every qualifying struct has a textual name and a named
    crate, the analysis succeeds: every component of the result comes from a qualifying impl block
    of the plugin crate, and every such impl block yields its component.
  */
  lemma AnalyzeComponents(db: Database, name: string, ecs: CrateId, component: TraitId, k: CrateId)
    requires db.Valid()
    requires FindCrate(db.crates, DependencyCrate) == Some(ecs)
    requires FindTrait(db, ecs, ComponentTrait) == Some(component)
    requires FindCrate(db.crates, name) == Some(k)
    requires AllEmittable(db, CrateImpls(db, db.crates[k].modules), component)
    ensures Analyze(db, name)
         == Ok(PluginCrate(name, Extract(db, CrateImpls(db, db.crates[k].modules), component)))
    ensures var impls := CrateImpls(db, db.crates[k].modules);
      var cs := Analyze(db, name).value.components;
      && AllEmittable(db, impls, component)
      && (forall c | c in cs :: exists i | 0 <= i < |impls| ::
            Qualifies(impls[i], component) && c == ComponentOf(db, impls[i].selfTy.id))
      && (forall i | 0 <= i < |impls| :: Qualifies(impls[i], component) ==> ComponentOf(db, impls[i].selfTy.id) in cs)
  {
    var impls := CrateImpls(db, db.crates[k].modules);
    AnalyzeSucceeds(db, name, ecs, component, k);
    ExtractSound(db, impls, component);
    ExtractComplete(db, impls, component);
  }

  /** A plugin crate with no impl block of the resolved trait on a struct is analysed to an empty list, not an error. */
  lemma AnalyzeNoComponents(db: Database, name: string, ecs: CrateId, component: TraitId, k: CrateId)
    requires db.Valid()
    requires FindCrate(db.crates, DependencyCrate) == Some(ecs)
    requires FindTrait(db, ecs, ComponentTrait) == Some(component)
    requires FindCrate(db.crates, name) == Some(k)
    requires forall impl | impl in CrateImpls(db, db.crates[k].modules) :: !Qualifies(impl, component)
    ensures Analyze(db, name) == Ok(PluginCrate(name, []))
  {
    var impls := CrateImpls(db, db.crates[k].modules);
    forall i | 0 <= i < |impls| ensures Emittable(db, impls[i], component) {
      assert impls[i] in impls;
    }
    ExtractEmpty(db, impls, component);
  }
}
