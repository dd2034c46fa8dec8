/**
  The semantic model of a Rust workspace that rust-analyzer's `HirDatabase` supplies to the
  analyzer, reduced to the queries the analyzer makes. Every entity is an index into an arena;
  two handles denote the same entity exactly when their indices are equal, as rust-analyzer's
  interned ids do.
*/
module Hir {
  import opened Wrappers

  type CrateId = nat
  type ModuleId = nat
  type StructId = nat
  type TraitId = nat

  /** A rust-analyzer `Name`: an identifier, or the position of a tuple-struct field. */
  datatype Name = Text(text: string) | TupleField(index: nat)

  /** `Name::as_text`: only identifiers have a text. */
  function AsText(n: Name): (t: Option<string>)
  {
    match n
    case Text(s) => Some(s)
    case TupleField(_) => None
  }

  /** `Name::to_string`: identifiers print as themselves, tuple fields as their decimal index. */
  function NameToString(n: Name): (s: string)
  {
    match n
    case Text(s) => s
    case TupleField(i) => Decimal(i)
  }

  function Decimal(n: nat): (s: string)
    ensures |s| >= 1
    decreases n
  {
    if n < 10 then ["0123456789"[n]] else Decimal(n / 10) + ["0123456789"[n % 10]]
  }

  /** A crate: its display name (which a crate may lack), and its modules in order. */
  datatype CrateInfo = CrateInfo(displayName: Option<string>, modules: seq<ModuleId>)

  /** A top-level declaration of a module (`ModuleDef`): a trait, or any other kind of item. */
  datatype Decl = TraitDecl(id: TraitId) | OtherDecl

  /** What `self_ty(db).as_adt()` yields for an impl block. */
  datatype SelfTy = StructTy(id: StructId) | EnumTy | UnionTy | NonAdtTy

  /** An impl block: the trait it implements, if any, and its self type. */
  datatype ImplInfo = ImplInfo(implemented: Option<TraitId>, selfTy: SelfTy)

  /** A module: its name (the crate root has none), its parent, its declarations and its impl blocks. */
  datatype ModuleInfo = ModuleInfo(
    name: Option<Name>,
    parent: Option<ModuleId>,
    declarations: seq<Decl>,
    impls: seq<ImplInfo>)

  /** A struct: its name, owning module, owning crate and field names in declaration order. */
  datatype StructInfo = StructInfo(name: Name, owner: ModuleId, krate: CrateId, fields: seq<Name>)

  /** The whole database: `Crate::all` order, and arenas of modules, structs and trait names. */
  datatype Database = Database(
    crates: seq<CrateInfo>,
    modules: seq<ModuleInfo>,
    structs: seq<StructInfo>,
    traits: seq<Name>)
  {
    /**
      Every handle points into its arena, and a module's parent has a smaller index than the
      module itself, so that the module tree has no cycles and walking up it terminates.
    */
    predicate Valid()
    {
      && (forall k | 0 <= k < |crates| :: ModuleIdsValid(crates[k].modules))
      && (forall m | 0 <= m < |modules| :: ModuleWellFormed(m))
      && (forall s | 0 <= s < |structs| :: structs[s].owner < |modules| && structs[s].krate < |crates|)
    }

    /** Every id in `ms` names a module of the arena. */
    predicate ModuleIdsValid(ms: seq<ModuleId>)
    {
      forall j | 0 <= j < |ms| :: ms[j] < |modules|
    }

    predicate ModuleWellFormed(m: ModuleId)
      requires m < |modules|
    {
      && (modules[m].parent.Some? ==> modules[m].parent.value < m)
      && (forall d | d in modules[m].declarations :: d.TraitDecl? ==> d.id < |traits|)
      && (forall i | i in modules[m].impls ::
            && (i.implemented.Some? ==> i.implemented.value < |traits|)
            && (i.selfTy.StructTy? ==> i.selfTy.id < |structs|))
    }
  }

  /** The text of a module's name: `module.name(db).and_then(|n| n.as_text())`. */
  function ModuleText(name: Option<Name>): Option<string>
  {
    if name.Some? then AsText(name.value) else None
  }
}
