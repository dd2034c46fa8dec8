/** Looking up a crate by display name and a trait by name within a crate (`find_crate`, `find_trait`). */
module Locator {
  import opened Wrappers
  import opened Hir

  /** A crate matches when it has a display name and its canonical name equals `name` exactly. */
  predicate HasDisplayName(c: CrateInfo, name: string)
  {
    c.displayName == Some(name)
  }

  /**
    `find_crate`: the index of the first crate, in `Crate::all` order, whose display name is
    `name`; crates without a display name never match.
  */
  function FindCrate(crates: seq<CrateInfo>, name: string): (r: Option<CrateId>)
    ensures r.Some? ==> r.value < |crates| && HasDisplayName(crates[r.value], name)
    ensures r.Some? ==> crates[r.value].displayName.Some?
    ensures r.Some? ==> forall j | 0 <= j < r.value :: !HasDisplayName(crates[j], name)
    ensures r.None? <==> forall j | 0 <= j < |crates| :: !HasDisplayName(crates[j], name)
  {
    if crates == [] then None
    else if HasDisplayName(crates[0], name) then Some(0)
    else
      match FindCrate(crates[1..], name)
      case None => None
      case Some(j) => Some(j + 1)
  }

  /** A declaration is the trait sought when it is a trait whose name has the text `name`. */
  predicate IsTraitNamed(db: Database, d: Decl, name: string)
    requires d.TraitDecl? ==> d.id < |db.traits|
  {
    d.TraitDecl? && AsText(db.traits[d.id]) == Some(name)
  }

  predicate DeclsWellFormed(db: Database, decls: seq<Decl>)
  {
    forall d | d in decls :: d.TraitDecl? ==> d.id < |db.traits|
  }

  /** No declaration before position `n` is a trait named `name`. */
  predicate NoneNamedBefore(db: Database, decls: seq<Decl>, name: string, n: nat)
    requires DeclsWellFormed(db, decls) && n <= |decls|
  {
    forall j | 0 <= j < n :: !IsTraitNamed(db, decls[j], name)
  }

  /**
    The `find_map` of `find_trait`: the first declaration that is a trait with a textual name
    equal to `name`. Other declarations and traits whose name has no text are skipped.
  */
  function FindTraitIn(db: Database, decls: seq<Decl>, name: string): (r: Option<TraitId>)
    requires DeclsWellFormed(db, decls)
    ensures r.Some? ==> exists i | 0 <= i < |decls| ::
      decls[i] == TraitDecl(r.value) && IsTraitNamed(db, decls[i], name) && NoneNamedBefore(db, decls, name, i)
    ensures r.None? <==> NoneNamedBefore(db, decls, name, |decls|)
  {
    if decls == [] then None
    else if IsTraitNamed(db, decls[0], name) then
      assert NoneNamedBefore(db, decls, name, 0);
      Some(decls[0].id)
    else
      var r := FindTraitIn(db, decls[1..], name);
      if r.Some? then
        var i :| 0 <= i < |decls[1..]| && decls[1..][i] == TraitDecl(r.value)
          && IsTraitNamed(db, decls[1..][i], name) && NoneNamedBefore(db, decls[1..], name, i);
        assert decls[i + 1] == TraitDecl(r.value) && NoneNamedBefore(db, decls, name, i + 1);
        r
      else
        r
  }

  /** The declarations of the given modules, one module after another (`flat_map`). */
  function CrateDeclarations(db: Database, ms: seq<ModuleId>): (r: seq<Decl>)
    requires db.Valid() && db.ModuleIdsValid(ms)
    ensures DeclsWellFormed(db, r)
  {
    if ms == [] then []
    else
      assert db.ModuleWellFormed(ms[0]);
      db.modules[ms[0]].declarations + CrateDeclarations(db, ms[1..])
  }

  /** `find_trait`: the first trait named `name` among the declarations of crate `k`'s modules. */
  function FindTrait(db: Database, k: CrateId, name: string): (r: Option<TraitId>)
    requires db.Valid() && k < |db.crates|
    ensures r.Some? ==> r.value < |db.traits| && AsText(db.traits[r.value]) == Some(name)
    ensures r.None? <==> forall j | 0 <= j < |db.crates[k].modules| :: ModuleTrait(db, db.crates[k].modules[j], name).None?
    ensures r.Some? ==> exists j | 0 <= j < |db.crates[k].modules| ::
      && r == ModuleTrait(db, db.crates[k].modules[j], name)
      && forall i | 0 <= i < j :: ModuleTrait(db, db.crates[k].modules[i], name).None?
  {
    FindTraitModuleOrder(db, db.crates[k].modules, name);
    FindTraitIn(db, CrateDeclarations(db, db.crates[k].modules), name)
  }

  /** Searching a concatenation finds the first part's trait, or failing that the second part's. */
  lemma {:induction false} FindTraitInAppend(db: Database, a: seq<Decl>, b: seq<Decl>, name: string)
    requires DeclsWellFormed(db, a) && DeclsWellFormed(db, b)
    ensures DeclsWellFormed(db, a + b)
    ensures FindTraitIn(db, a + b, name)
         == if FindTraitIn(db, a, name).Some? then FindTraitIn(db, a, name) else FindTraitIn(db, b, name)
  {
    if a == [] {
      assert a + b == b;
    } else {
      assert (a + b)[0] == a[0];
      assert (a + b)[1..] == a[1..] + b;
      FindTraitInAppend(db, a[1..], b, name);
    }
  }

  /** The first trait named `name` among the declarations of module `m` alone. */
  function ModuleTrait(db: Database, m: ModuleId, name: string): (r: Option<TraitId>)
    requires db.Valid() && m < |db.modules|
  {
    assert db.ModuleWellFormed(m);
    FindTraitIn(db, db.modules[m].declarations, name)
  }

  /** Searching the declarations of several modules searches the first module, then the rest. */
  lemma CrateDeclarationsStep(db: Database, ms: seq<ModuleId>, name: string)
    requires db.Valid() && db.ModuleIdsValid(ms) && |ms| >= 1
    ensures FindTraitIn(db, CrateDeclarations(db, ms), name)
         == if ModuleTrait(db, ms[0], name).Some? then ModuleTrait(db, ms[0], name)
            else FindTraitIn(db, CrateDeclarations(db, ms[1..]), name)
  {
    assert db.ModuleWellFormed(ms[0]);
    FindTraitInAppend(db, db.modules[ms[0]].declarations, CrateDeclarations(db, ms[1..]), name);
  }

  /**
    `find_trait` searches module by module: it finds nothing exactly when no module holds a match,
    and otherwise finds the first match of the first module that holds one.
  */
  lemma {:induction false} FindTraitModuleOrder(db: Database, ms: seq<ModuleId>, name: string)
    requires db.Valid() && db.ModuleIdsValid(ms)
    ensures FindTraitIn(db, CrateDeclarations(db, ms), name).None?
        <==> forall j | 0 <= j < |ms| :: ModuleTrait(db, ms[j], name).None?
    ensures FindTraitIn(db, CrateDeclarations(db, ms), name).Some? ==>
      exists j | 0 <= j < |ms| ::
        && FindTraitIn(db, CrateDeclarations(db, ms), name) == ModuleTrait(db, ms[j], name)
        && forall i | 0 <= i < j :: ModuleTrait(db, ms[i], name).None?
  {
    if ms != [] {
      var tail := ms[1..];
      assert forall j | 0 <= j < |tail| :: tail[j] == ms[j + 1];
      CrateDeclarationsStep(db, ms, name);
      FindTraitModuleOrder(db, tail, name);
      var r := FindTraitIn(db, CrateDeclarations(db, ms), name);
      if ModuleTrait(db, ms[0], name).None? {
        assert r == FindTraitIn(db, CrateDeclarations(db, tail), name);
        if r.Some? {
          var j :| 0 <= j < |tail| && r == ModuleTrait(db, tail[j], name)
            && forall i | 0 <= i < j :: ModuleTrait(db, tail[i], name).None?;
          assert forall i | 0 <= i < j + 1 :: ModuleTrait(db, ms[i], name).None?;
        }
      }
    }
  }
}
