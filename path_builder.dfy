/** The declaration path of a struct: `build_struct_path`. */
module PathBuilder {
  import opened Wrappers
  import opened Hir

  /**
    The texts of the names of the modules from the crate root down to module `m`, outermost
    first; a module whose name has no text (the crate root) contributes nothing.
  */
  function ModuleSegments(db: Database, m: ModuleId): (segments: seq<string>)
    requires db.Valid() && m < |db.modules|
    decreases m
  {
    assert db.ModuleWellFormed(m);
    var above := if db.modules[m].parent.Some? then ModuleSegments(db, db.modules[m].parent.value) else [];
    match ModuleText(db.modules[m].name)
    case Some(n) => above + [n]
    case None => above
  }

  /** The parts joined with the path separator `::`. */
  function JoinPath(parts: seq<string>): (path: string)
    requires |parts| >= 1
  {
    if |parts| == 1 then parts[0] else parts[0] + "::" + JoinPath(parts[1..])
  }

  /** `build_struct_path` unwraps the struct's textual name and its crate's display name. */
  predicate PathResolvable(db: Database, s: StructId)
    requires db.Valid() && s < |db.structs|
  {
    AsText(db.structs[s].name).Some? && db.crates[db.structs[s].krate].displayName.Some?
  }

  /**
    The declaration path of struct `s`: its crate's canonical name, the named modules from the
    root down to the struct's module, and the struct's name, separated by `::`.
  */
  function StructPath(db: Database, s: StructId): (path: string)
    requires db.Valid() && s < |db.structs| && PathResolvable(db, s)
  {
    var st := db.structs[s];
    JoinPath([db.crates[st.krate].displayName.value] + ModuleSegments(db, st.owner) + [st.name.text])
  }

  /**
    `build_struct_path`: start from the struct's name and walk from its module up to the root,
    prepending `name::` for every module whose name has a text; finally prepend the crate's
    canonical name and `::`.
  */
  method BuildStructPath(db: Database, s: StructId) returns (path: string)
    requires db.Valid() && s < |db.structs| && PathResolvable(db, s)
    ensures path == StructPath(db, s)
  {
    var st := db.structs[s];
    var workingName := st.name.text;
    ghost var below := [workingName];
    var maybeModule: Option<ModuleId> := Some(st.owner);
    while maybeModule.Some?
      invariant maybeModule.Some? ==> maybeModule.value < |db.modules|
      invariant |below| >= 1 && workingName == JoinPath(below)
      invariant (if maybeModule.Some? then ModuleSegments(db, maybeModule.value) else []) + below
             == ModuleSegments(db, st.owner) + [st.name.text]
      decreases if maybeModule.Some? then maybeModule.value + 1 else 0
    {
      var m := maybeModule.value;
      assert db.ModuleWellFormed(m);
      match ModuleText(db.modules[m].name) {
        case Some(n) =>
          assert ([n] + below)[1..] == below;
          workingName := n + "::" + workingName;
          below := [n] + below;
        case None =>
      }
      maybeModule := db.modules[m].parent;
    }
    var crateName := db.crates[st.krate].displayName.value;
    assert below == ModuleSegments(db, st.owner) + [st.name.text];
    assert [crateName] + ModuleSegments(db, st.owner) + [st.name.text] == [crateName] + below;
    assert ([crateName] + below)[1..] == below;
    path := crateName + "::" + workingName;
  }

  /** Appending a part to a path adds `::` and that part at the end. */
  lemma {:induction false} JoinPathSnoc(parts: seq<string>, last: string)
    requires |parts| >= 1
    ensures JoinPath(parts + [last]) == JoinPath(parts) + "::" + last
  {
    if |parts| > 1 {
      assert (parts + [last])[1..] == parts[1..] + [last];
      JoinPathSnoc(parts[1..], last);
    } else {
      assert (parts + [last])[1..] == [last];
    }
  }

  /** Every struct path starts with `crate::` and ends with `::` and the struct's name. */
  lemma StructPathShape(db: Database, s: StructId)
    requires db.Valid() && s < |db.structs| && PathResolvable(db, s)
    ensures var st := db.structs[s];
      var p := StructPath(db, s);
      var prefix := db.crates[st.krate].displayName.value + "::";
      var suffix := "::" + st.name.text;
      && |p| >= |prefix| + |st.name.text|
      && p[..|prefix|] == prefix
      && p[|p| - |suffix|..] == suffix
  {
    var st := db.structs[s];
    var crateName := db.crates[st.krate].displayName.value;
    var inner := [crateName] + ModuleSegments(db, st.owner);
    assert [crateName] + ModuleSegments(db, st.owner) + [st.name.text] == inner + [st.name.text];
    JoinPathSnoc(inner, st.name.text);
    var rest := ModuleSegments(db, st.owner) + [st.name.text];
    assert ([crateName] + rest)[1..] == rest;
    assert [crateName] + rest == inner + [st.name.text];
    assert StructPath(db, s) == crateName + "::" + JoinPath(rest);
  }

  /** A struct declared directly in an unnamed crate root has the path `crate::Name`. */
  lemma RootStructPath(db: Database, s: StructId)
    requires db.Valid() && s < |db.structs| && PathResolvable(db, s)
    requires db.modules[db.structs[s].owner].parent.None?
    requires db.modules[db.structs[s].owner].name.None?
    ensures StructPath(db, s)
         == db.crates[db.structs[s].krate].displayName.value + "::" + db.structs[s].name.text
  {
    var st := db.structs[s];
    assert ModuleSegments(db, st.owner) == [];
    var parts := [db.crates[st.krate].displayName.value] + ModuleSegments(db, st.owner) + [st.name.text];
    assert parts == [db.crates[st.krate].displayName.value, st.name.text];
    assert parts[1..] == [st.name.text];
    assert JoinPath(parts[1..]) == st.name.text;
  }

  /**
    A struct in module `b`, a child of `a`, a child of the unnamed root, has the path
    `crate::a::b::Name`.
  */
  lemma NestedStructPath(db: Database, s: StructId, root: ModuleId, a: ModuleId, b: ModuleId, na: string, nb: string)
    requires db.Valid() && s < |db.structs| && PathResolvable(db, s)
    requires root < |db.modules| && a < |db.modules| && b < |db.modules|
    requires db.structs[s].owner == b
    requires db.modules[b].parent == Some(a) && db.modules[b].name == Some(Text(nb))
    requires db.modules[a].parent == Some(root) && db.modules[a].name == Some(Text(na))
    requires db.modules[root].parent.None? && db.modules[root].name.None?
    ensures StructPath(db, s)
         == db.crates[db.structs[s].krate].displayName.value + "::" + na + "::" + nb + "::" + db.structs[s].name.text
  {
    var st := db.structs[s];
    assert ModuleSegments(db, root) == [];
    assert ModuleSegments(db, a) == [na];
    assert ModuleSegments(db, b) == [na, nb];
    var parts := [db.crates[st.krate].displayName.value] + ModuleSegments(db, st.owner) + [st.name.text];
    assert parts == [db.crates[st.krate].displayName.value, na, nb, st.name.text];
    assert parts[1..] == [na, nb, st.name.text];
    assert parts[1..][1..] == [nb, st.name.text];
    assert parts[1..][1..][1..] == [st.name.text];
    assert JoinPath(parts[1..][1..][1..]) == st.name.text;
    assert JoinPath(parts[1..][1..]) == nb + "::" + st.name.text;
    assert JoinPath(parts[1..]) == na + "::" + (nb + "::" + st.name.text);
  }
}
