# bevy_plugin_analyzer: a Dafny model of component discovery

`bevy_plugin_analyzer` finds every struct in a plugin crate that implements Bevy's ECS
`Component` trait. It returns each struct's name, its declaration path
(`crate::module::…::Struct`) and its field names. The work is a read-only query over
rust-analyzer's semantic model of the workspace. It has four parts:

- `find_crate`: a first-match search by display name.
- `find_trait`: a first-match search for a named trait across a crate's modules.
- `build_struct_path`: a walk up the module tree.
- `analyze`: filters impl blocks by trait identity and self type, then assembles a
  `PluginCrate`.

The model has these modules:

- `Hir` (`hir.dfy`) stands in for rust-analyzer's `HirDatabase`. It is a plain datatype of
  arenas: crates with an optional display name and their modules, and modules with an optional
  name, a parent, declarations and impl blocks. It also holds structs (name, owning module,
  owning crate, field names) and trait names. Handles are indices, so "the same trait" means
  the same index, not the same name. `Database.Valid()` requires every handle to be in range. That
  covers the module ids listed for crates; the parents, declared traits, implemented traits and
  self-type structs of modules; and the owners and crates of structs. It also requires every
  module's parent to have a smaller index than the module, which makes the
  walk to the root terminate.
- `Locator` (`locator.dfy`) holds `find_crate` and `find_trait` as functions.
- `PathBuilder` (`path_builder.dfy`) holds `build_struct_path`. `BuildStructPath` is a method
  with the source's loop. It is proved equal to the function `StructPath`: the crate name, the
  named modules from the root down, and the struct name, joined by `::`.
- `Analyzer` (`analyzer.dfy`) holds the extraction pipeline and `analyze`. The source's
  panics become the `AnalyzeError` cases of a `Result`.
- `SamplePlugin` (`sample_plugin.dfy`) is the `sample_plugin` example workspace. Its lemmas
  give the expected analysis results for that workspace and for variants of it.

## Model

| member | source | states |
|---|---|---|
| `Locator.FindCrate` | src/lib.rs:20-32 | The result is the index of a crate whose display name equals the argument, and no earlier crate matches. It is `None` exactly when no crate matches. A crate without a display name is never returned. |
| `Locator.FindTraitIn` | src/lib.rs:39-50 | The result is the id of a trait declaration whose name has a text equal to the argument, and no earlier declaration is such a trait. It is `None` exactly when no declaration is one. |
| `Locator.FindTraitInAppend` | src/lib.rs:38-39 | Searching flattened declarations finds the first part's trait, or else searches the second part. |
| `Locator.CrateDeclarationsStep` | src/lib.rs:35-39 | Searching several modules' declarations searches the first module, then the rest. |
| `Locator.FindTrait` | src/lib.rs:34-51 | `find_trait` returns a trait whose name has the text sought. It returns `None` exactly when no module of the crate declares such a trait. Otherwise it returns the first match of the first module, in the crate's module order, that declares one. |
| `Locator.FindTraitModuleOrder` | src/lib.rs:34-51 | `find_trait` finds nothing exactly when no module of the crate holds a matching trait. Otherwise it returns the first match of the first module that holds one (module order, then declaration order). |
| `PathBuilder.BuildStructPath` | src/lib.rs:53-65 | The path the loop builds is the crate's canonical name, the textual names of the modules from the root down to the struct's module, and the struct's name, joined by `::`. |
| `PathBuilder.JoinPathSnoc` | src/lib.rs:58 | Adding a last segment to a path appends `::` and that segment. |
| `PathBuilder.StructPathShape` | src/lib.rs:54-64 | Every struct path starts with `crate::` and ends with `::` followed by the struct's name. |
| `PathBuilder.RootStructPath` | src/lib.rs:55-64 | A struct declared directly in the unnamed crate root has the path `crate::Name`. |
| `PathBuilder.NestedStructPath` | src/lib.rs:55-64 | A struct in module `b` inside `a` inside the unnamed root has the path `crate::a::b::Name`. |
| `Analyzer.FieldNames` | src/lib.rs:102-106 | The emitted field names are the struct's field names, one per field, in declaration order. |
| `Analyzer.ComponentOf` | src/lib.rs:99-107 | An emitted component carries the struct's name and its field names in order. Its path is the struct's declaration path, so it starts with `crate::` and ends with `::Name`. |
| `Analyzer.CrateImpls` | src/lib.rs:89-92 | The flattened impl blocks are exactly those of the crate's modules: an impl block is in the list iff some module of the crate holds it. |
| `Analyzer.Extract` | src/lib.rs:89-109 | Extraction emits at most one component per impl block. |
| `Analyzer.ExtractSound` | src/lib.rs:93-107 | Every emitted component comes from an impl block of exactly the resolved trait whose self type is a struct. |
| `Analyzer.ExtractComplete` | src/lib.rs:93-107 | Every impl block of the resolved trait on a struct yields its struct's component. |
| `Analyzer.ExtractEmpty` | src/lib.rs:89-109 | The component list is empty exactly when no impl block qualifies. |
| `Analyzer.ExtractAppend` | src/lib.rs:89-109 | Extracting from concatenated impl lists concatenates the results. Encounter order is kept, with no sorting and no deduplication. |
| `Analyzer.ExtractSkips` | src/lib.rs:93-97 | An impl block of another trait (even one with the same name), or one on a non-struct self type, contributes nothing, wherever it stands. |
| `Analyzer.ExtractKeeps` | src/lib.rs:94-108 | A qualifying impl block contributes exactly its struct's component, in its own position. |
| `Analyzer.ExtractModuleOrder` | src/lib.rs:89-92 | The components of a crate's first module come before those of the later modules. |
| `Analyzer.Analyze` | src/lib.rs:84-113 | A successful result carries the requested name. It fails with `DependencyNotFound` when no crate is named `bevy_ecs`. It fails with `ComponentNotFound` when that crate declares no `Component` trait. With both found, it fails with `PluginCrateNotFound` when no crate has the requested name. With all three found, it fails with `ProviderInvariantViolation` exactly when some qualifying struct lacks a textual name or a crate display name. A missing plugin crate is always an error. A successful result has at most as many components as the plugin crate has impl blocks. |
| `Analyzer.AnalyzeSucceeds` | src/lib.rs:84-113 | When the three lookups succeed and every qualifying struct's path can be built, the analysis succeeds. It returns the requested name and the components extracted from the plugin crate's impl blocks. |
| `Analyzer.AnalyzeComponents` | src/lib.rs:84-109 | Under the same conditions the analysis succeeds. Its components are then exactly those of the plugin crate's qualifying impl blocks: each comes from one, and each one yields its component. |
| `Analyzer.AnalyzeNoComponents` | src/lib.rs:89-113 | A plugin crate with no qualifying impl block yields an empty component list, not an error. |
| `SamplePlugin.SamplePointPath` | examples/sample_plugin/src/lib.rs:3-4 | `Point` sits in the unnamed root of `sample_plugin`, so its path is `sample_plugin::Point`. |
| `SamplePlugin.SamplePoint` | examples/sample_plugin/src/lib.rs:3-7 | `Point` is emitted with name `Point`, path `sample_plugin::Point` and fields `x`, `y`. |
| `SamplePlugin.SampleExtract` | examples/sample_plugin/src/lib.rs:3-7 | The one `Component` impl block of the example yields the one component `Point`. |
| `SamplePlugin.SamplePluginAnalysis` | examples/sample.rs:5 | Analysing `sample_plugin` yields exactly one component: `Point`, `sample_plugin::Point`, `["x", "y"]`. |
| `SamplePlugin.SampleWithoutDerive` | src/lib.rs:89-113 | Without the derive, `sample_plugin` yields an empty component list. |
| `SamplePlugin.SampleLocalComponentTrait` | src/lib.rs:93 | A local trait that is also named `Component` is not `bevy_ecs`'s trait, so its impls are not emitted. |
| `SamplePlugin.SampleMissingPlugin` | src/lib.rs:87 | Analysing a crate that is not in the workspace fails with `PluginCrateNotFound`. |

## Left out

- Loading the workspace (`CargoConfig`, `LoadCargoConfig`, `load_workspace_at`, src/lib.rs:68-83) is I/O, build-script execution and macro expansion inside rust-analyzer. `Analyze` instead takes the loaded `Hir.Database` as a parameter, and a load failure is not modelled.
- rust-analyzer's internals are not modelled: trait resolution, `self_ty().as_adt()`, name interning, and crate display-name normalisation. They appear only as stored fields of the database. A trait is identified by its arena index.
- Enumeration order: `Crate::all`, `modules`, `declarations` and `impl_defs` are taken to be the sequence order of the database.
- The two `unwrap` calls of `build_struct_path` are preconditions of `BuildStructPath` and `StructPath` (`PathResolvable`). In `Analyze` they become one `ProviderInvariantViolation` error, checked over all qualifying impl blocks before extraction. A panic aborts the whole analysis, so the outcome is the same. The model does not say which offending impl block the panic names.
- The `ProviderInvariantViolation` error does not name the offending struct, because the panic it stands for carries no data either.
- The component's name uses `to_string()`, while the path uses `as_text().unwrap()`. These agree for every struct the model lets through, since `PathResolvable` requires a textual name. `Name::to_string` of a tuple field is rendered as its decimal index. Raw identifiers (`r#…`) are not modelled.
- examples/sample.rs: path canonicalisation and the `println!` output are not modelled.
- The `f64` field types of the example struct are not modelled; only field names are extracted.
