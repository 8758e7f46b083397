/**
 The layer overlay of scripts/oci_artifact.py: `remove_tree` and `apply_layer` on the
 `state` dict, the filter to tracked paths, and the final check of the tracked binaries.
 They implement "Whiteouts" and "Opaque Whiteout" of the filesystem changeset chapter
 (layer.md) of the OCI Image Format Specification.

 A canonical path is the sequence of its components; [] is the root, which the code writes ".".
 */
module Overlay {
  import opened Outcomes

  type Path = seq<string>

  datatype Node = Directory | File(sha256: Option<string>) | Link(target: string)

  type Tree = map<Path, Node>

  datatype Layer = Layer(entries: Tree, whiteouts: seq<Path>, opaques: seq<Path>)

  /** `existing.startswith(path + "/")`; no name starts with "./", so nothing is under the root. */
  predicate Under(existing: Path, path: Path) {
    path != [] && path < existing
  }

  predicate Erases(path: Path, existing: Path) {
    existing == path || Under(existing, path)
  }

  function Removed(tree: Tree, path: Path, childrenOnly: bool): Tree {
    map p | p in tree && !(Under(p, path) || (p == path && !childrenOnly)) :: tree[p]
  }

  /******* The closed form of one layer *******/

  /** What the whiteouts and opaque markers of a layer leave of the lower layers. */
  function Uncovered(lower: Tree, layer: Layer): Tree {
    map p | p in lower && !Whited(p, layer.whiteouts) && !Opaqued(p, layer.opaques) :: lower[p]
  }

  predicate Whited(p: Path, whiteouts: seq<Path>) {
    exists w :: w in whiteouts && Erases(w, p)
  }

  /** `state.clear()` for the root, `remove_tree` of the children otherwise. */
  predicate Empties(marked: Path, existing: Path) {
    marked == [] || Under(existing, marked)
  }

  predicate Opaqued(p: Path, opaques: seq<Path>) {
    exists o :: o in opaques && Empties(o, p)
  }

  /** An entry that is a non-directory, or takes the place of one, hides everything below it. */
  predicate Hides(entry: Path, lower: Tree, entries: Tree)
    requires entry in entries
  {
    !entries[entry].Directory? || (entry in lower && !lower[entry].Directory?)
  }

  predicate Survives(p: Path, lower: Tree, entries: Tree) {
    p in lower && forall e :: e in entries && Under(p, e) ==> !Hides(e, lower, entries)
  }

  /** A proper ancestor of an entry, the root excluded. */
  predicate Ancestor(p: Path, entries: Tree) {
    p != [] && exists e :: e in entries && p < e
  }

  function Ancestors(entries: Tree): set<Path> {
    set e, k | e in entries && 0 < k < |e| :: e[..k]
  }

  lemma AncestorsAre(entries: Tree, p: Path)
    ensures p in Ancestors(entries) <==> Ancestor(p, entries)
  {
    if Ancestor(p, entries) {
      var e :| e in entries && p < e;
      assert p == e[..|p|];
    }
  }

  /** The state that the entries produce over `lower`: own value, survivor, implied directory, or nothing. */
  function Placed(lower: Tree, entries: Tree): Tree {
    map p | p in lower.Keys + entries.Keys + Ancestors(entries)
            && (p in entries || Survives(p, lower, entries) || p in Ancestors(entries))
      :: if p in entries then entries[p] else if Survives(p, lower, entries) then lower[p] else Directory
  }

  function Applied(lower: Tree, layer: Layer): Tree {
    Placed(Uncovered(lower, layer), layer.entries)
  }

  /** The closed form, path by path. */
  lemma PlacedAt(lower: Tree, entries: Tree, p: Path)
    ensures p in Placed(lower, entries) <==> p in entries || Survives(p, lower, entries) || Ancestor(p, entries)
    ensures p in Placed(lower, entries) ==>
              Placed(lower, entries)[p] == if p in entries then entries[p]
                                           else if Survives(p, lower, entries) then lower[p] else Directory
  {
    AncestorsAre(entries, p);
  }

  /******* One entry at a time *******/

  /** The parents loop: every missing ancestor becomes a directory. */
  function WithParents(tree: Tree, path: Path): Tree {
    map p | p in tree.Keys + (set k | 0 < k < |path| :: path[..k]) :: if p in tree then tree[p] else Directory
  }

  predicate Clears(tree: Tree, path: Path, value: Node) {
    !value.Directory? || (path in tree && !tree[path].Directory?)
  }

  function Put(tree: Tree, path: Path, value: Node): Tree {
    var parented := WithParents(tree, path);
    var cleared := if Clears(parented, path, value) then Removed(parented, path, false) else parented;
    cleared[path := value]
  }

  lemma PutAt(tree: Tree, path: Path, value: Node, p: Path)
    ensures p in Put(tree, path, value)
            <==> p == path || ((p in tree || (p != [] && p < path)) && !(Under(p, path) && Clears(tree, path, value)))
    ensures p in Put(tree, path, value) ==>
              Put(tree, path, value)[p] == if p == path then value else if p in tree then tree[p] else Directory
  {
    ParentOf(path, p);
    ParentOf(path, path);
  }

  lemma PutBeside(lower: Tree, done: Tree, path: Path, value: Node, p: Path)
    requires path !in done && !Under(p, path)
    ensures p in Put(Placed(lower, done), path, value) <==> p in Placed(lower, done[path := value])
    ensures p in Placed(lower, done[path := value]) ==>
              Put(Placed(lower, done), path, value)[p] == Placed(lower, done[path := value])[p]
  {
    PutAt(Placed(lower, done), path, value, p);
    PlacedAt(lower, done, p);
    PlacedAt(lower, done[path := value], p);
    AncestorWith(done, path, value, p);
    SurvivesBeside(lower, done, path, value, p);
  }

  lemma PutBelow(lower: Tree, done: Tree, path: Path, value: Node, p: Path)
    requires path !in done && Under(p, path) && forall e :: e in done ==> |e| <= |path|
    ensures p in Put(Placed(lower, done), path, value) <==> p in Placed(lower, done[path := value])
    ensures p in Placed(lower, done[path := value]) ==>
              Put(Placed(lower, done), path, value)[p] == Placed(lower, done[path := value])[p]
  {
    PutAt(Placed(lower, done), path, value, p);
    PlacedAt(lower, done, p);
    PlacedAt(lower, done, path);
    PlacedAt(lower, done[path := value], p);
    AncestorWith(done, path, value, p);
    SurvivesBelow(lower, done, path, value, p);
    assert Survives(p, lower, done) && path in lower ==> Survives(path, lower, done);
  }

  lemma AncestorWith(done: Tree, path: Path, value: Node, p: Path)
    ensures Ancestor(p, done[path := value]) <==> Ancestor(p, done) || (p != [] && p < path)
  {
    if Ancestor(p, done) {
      var e :| e in done && p < e;
      assert e in done[path := value];
    }
    if p < path {
      assert path in done[path := value];
    }
  }

  /** Placing one more entry, none of the earlier ones being deeper, is one turn of the loop. */
  lemma PutExtendsPlaced(lower: Tree, done: Tree, path: Path, value: Node)
    requires path !in done && forall e :: e in done ==> |e| <= |path|
    ensures Put(Placed(lower, done), path, value) == Placed(lower, done[path := value])
  {
    var one, all := Put(Placed(lower, done), path, value), Placed(lower, done[path := value]);
    forall p: Path
      ensures (p in one <==> p in all) && (p in all ==> one[p] == all[p])
    {
      if Under(p, path) {
        PutBelow(lower, done, path, value, p);
      } else {
        PutBeside(lower, done, path, value, p);
      }
    }
  }

  lemma ParentOf(path: Path, p: Path)
    ensures p in (set k | 0 < k < |path| :: path[..k]) <==> p != [] && p < path
  {
    if p != [] && p < path {
      assert p == path[..|p|];
    }
  }

  lemma SurvivesBeside(lower: Tree, done: Tree, path: Path, value: Node, p: Path)
    requires path !in done && !Under(p, path)
    ensures Survives(p, lower, done[path := value]) <==> Survives(p, lower, done)
  {
    var entries := done[path := value];
    forall e | e in done && Under(p, e) ensures Hides(e, lower, entries) == Hides(e, lower, done) {
    }
    if Survives(p, lower, entries) {
      forall e | e in done && Under(p, e) ensures !Hides(e, lower, done) {
        assert e in entries && !Hides(e, lower, entries);
      }
    }
  }

  lemma SurvivesBelow(lower: Tree, done: Tree, path: Path, value: Node, p: Path)
    requires path !in done && Under(p, path)
    ensures Survives(p, lower, done[path := value])
            <==> Survives(p, lower, done) && value.Directory? && !(path in lower && !lower[path].Directory?)
  {
    var entries := done[path := value];
    forall e | e in done ensures Hides(e, lower, entries) == Hides(e, lower, done) {
    }
    assert path in entries
        && (Hides(path, lower, entries) <==> !value.Directory? || (path in lower && !lower[path].Directory?));
    if Survives(p, lower, entries) {
      forall e | e in done && Under(p, e) ensures !Hides(e, lower, done) {
        assert e in entries && !Hides(e, lower, entries);
      }
    }
  }

  /******* The state dict *******/

  lemma Shallowest(paths: set<Path>) returns (path: Path)
    requires paths != {}
    ensures path in paths && forall q :: q in paths ==> |path| <= |q|
    decreases paths
  {
    path :| path in paths;
    if exists q :: q in paths && |q| < |path| {
      var shorter :| shorter in paths && |shorter| < |path|;
      var rest := set q | q in paths && |q| < |path|;
      assert shorter in rest && path !in rest;
      path := Shallowest(rest);
    }
  }

  class FileState {
    var nodes: Tree

    constructor ()
      ensures nodes == map[]
    {
      nodes := map[];
    }

    /** `remove_tree` iterates over a copy of the keys. */
    method RemoveTree(path: Path, childrenOnly: bool)
      modifies this
      ensures nodes == Removed(old(nodes), path, childrenOnly)
    {
      var todo := nodes.Keys;
      while todo != {}
        invariant todo <= old(nodes).Keys
        invariant nodes == map p | p in old(nodes)
                  && (p in todo || p in Removed(old(nodes), path, childrenOnly)) :: old(nodes)[p]
        decreases todo
      {
        var existing :| existing in todo;
        if Under(existing, path) || (existing == path && !childrenOnly) {
          nodes := nodes - {existing};
        }
        todo := todo - {existing};
      }
    }

    method AddParents(path: Path)
      modifies this
      ensures nodes == WithParents(old(nodes), path)
    {
      for k := 1 to Max(1, |path|)
        invariant nodes == map p | p in old(nodes).Keys + (set j | 0 < j < k && j <= |path| :: path[..j])
                             :: if p in old(nodes) then old(nodes)[p] else Directory
      {
        ghost var names := set j | 0 < j < k && j <= |path| :: path[..j];
        assert (set j | 0 < j < k + 1 && j <= |path| :: path[..j]) == names + {path[..k]};
        if path[..k] !in nodes {
          nodes := nodes[path[..k] := Directory];
        }
      }
      assert (set j | 0 < j < Max(1, |path|) && j <= |path| :: path[..j]) == (set j | 0 < j < |path| :: path[..j]);
    }

    /** The whiteout loop of `apply_layer`. */
    method ClearWhiteouts(whiteouts: seq<Path>)
      modifies this
      ensures nodes == map p | p in old(nodes) && !Whited(p, whiteouts) :: old(nodes)[p]
    {
      for i := 0 to |whiteouts|
        invariant nodes == map p | p in old(nodes) && !Whited(p, whiteouts[..i]) :: old(nodes)[p]
      {
        assert whiteouts[..i + 1] == whiteouts[..i] + [whiteouts[i]];
        MarksWith(whiteouts[..i], whiteouts[i]);
        RemoveTree(whiteouts[i], false);
      }
      assert whiteouts[..|whiteouts|] == whiteouts;
    }

    /** The opaque loop of `apply_layer`. */
    method ClearOpaques(opaques: seq<Path>)
      modifies this
      ensures nodes == map p | p in old(nodes) && !Opaqued(p, opaques) :: old(nodes)[p]
    {
      for i := 0 to |opaques|
        invariant nodes == map p | p in old(nodes) && !Opaqued(p, opaques[..i]) :: old(nodes)[p]
      {
        assert opaques[..i + 1] == opaques[..i] + [opaques[i]];
        MarksWith(opaques[..i], opaques[i]);
        if opaques[i] == [] {
          nodes := map[];
        } else {
          RemoveTree(opaques[i], true);
        }
      }
      assert opaques[..|opaques|] == opaques;
    }

    /**
     The entry loop of `apply_layer`; the code breaks ties of depth by name, here any of the shallowest may come first.
     */
    method PlaceEntries(entries: Tree)
      modifies this
      ensures nodes == Placed(old(nodes), entries)
    {
      ghost var lower := nodes;
      var todo := entries.Keys;
      NothingPlaced(lower);
      assert entries - todo == map[];
      while todo != {}
        invariant todo <= entries.Keys
        invariant nodes == Placed(lower, entries - todo)
        invariant ByDepth(entries, todo)
        decreases todo
      {
        ghost var first := Shallowest(todo);
        var path :| path in todo && forall q :: q in todo ==> |path| <= |q|;
        PlacedNext(lower, entries, todo, path);
        PlaceEntry(path, entries[path]);
        todo := todo - {path};
      }
      assert entries - todo == entries;
    }

    method ApplyLayer(layer: Layer)
      modifies this
      ensures nodes == Applied(old(nodes), layer)
    {
      ClearWhiteouts(layer.whiteouts);
      ClearOpaques(layer.opaques);
      assert nodes == Uncovered(old(nodes), layer);
      PlaceEntries(layer.entries);
    }

    /** One turn of the entry loop. */
    method PlaceEntry(path: Path, value: Node)
      modifies this
      ensures nodes == Put(old(nodes), path, value)
    {
      AddParents(path);
      if !value.Directory? || (path in nodes && !nodes[path].Directory?) {
        RemoveTree(path, false);
      }
      nodes := nodes[path := value];
    }
  }

  /** The entries still to come are at least as deep as those already placed. */
  ghost predicate ByDepth(entries: Tree, todo: set<Path>) {
    forall e, q :: e in entries && e !in todo && q in todo ==> |e| <= |q|
  }

  lemma PlacedNext(lower: Tree, entries: Tree, todo: set<Path>, path: Path)
    requires path in todo && todo <= entries.Keys && ByDepth(entries, todo)
    requires forall q :: q in todo ==> |path| <= |q|
    ensures Put(Placed(lower, entries - todo), path, entries[path]) == Placed(lower, entries - (todo - {path}))
    ensures ByDepth(entries, todo - {path})
  {
    PutExtendsPlaced(lower, entries - todo, path, entries[path]);
    assert (entries - todo)[path := entries[path]] == entries - (todo - {path});
  }

  lemma MarksWith(marks: seq<Path>, mark: Path)
    ensures forall p :: Whited(p, marks + [mark]) <==> Whited(p, marks) || Erases(mark, p)
    ensures forall p :: Opaqued(p, marks + [mark]) <==> Opaqued(p, marks) || Empties(mark, p)
  {
    assert mark in marks + [mark];
    forall p ensures Whited(p, marks) ==> Whited(p, marks + [mark]) {
      if Whited(p, marks) {
        var w :| w in marks && Erases(w, p);
        assert w in marks + [mark];
      }
    }
    forall p ensures Opaqued(p, marks) ==> Opaqued(p, marks + [mark]) {
      if Opaqued(p, marks) {
        var o :| o in marks && Empties(o, p);
        assert o in marks + [mark];
      }
    }
  }

  lemma NothingPlaced(lower: Tree)
    ensures Placed(lower, map[]) == lower
  {
    forall p: Path ensures (p in Placed(lower, map[]) <==> p in lower)
        && (p in lower ==> Placed(lower, map[])[p] == lower[p]) {
      PlacedAt(lower, map[], p);
    }
  }

  /******* What a layer keeps *******/

  /** Every present path has all its ancestors present. */
  ghost predicate Rooted(tree: Tree) {
    forall p, a :: p in tree && a != [] && a < p ==> a in tree
  }

  lemma LayersStayRooted(lower: Tree, layer: Layer)
    requires Rooted(lower)
    ensures Rooted(Applied(lower, layer))
  {
    var base := Uncovered(lower, layer);
    forall p, a: Path | p in Applied(lower, layer) && a != [] && a < p ensures a in Applied(lower, layer) {
      PlacedAt(base, layer.entries, p);
      PlacedAt(base, layer.entries, a);
      if p in layer.entries {
        assert Ancestor(a, layer.entries);
      } else if Survives(p, base, layer.entries) {
        UncoveredIsRooted(lower, layer, p, a);
      } else {
        var e :| e in layer.entries && p < e;
        assert a < e;
      }
    }
  }

  lemma UncoveredIsRooted(lower: Tree, layer: Layer, p: Path, a: Path)
    requires Rooted(lower) && p in Uncovered(lower, layer) && a != [] && a < p
    ensures a in Uncovered(lower, layer)
  {
    MarksReachDown(layer.whiteouts, a, p);
    MarksReachDown(layer.opaques, a, p);
  }

  lemma MarksReachDown(marks: seq<Path>, a: Path, p: Path)
    requires a != [] && a < p
    ensures Whited(a, marks) ==> Whited(p, marks)
    ensures Opaqued(a, marks) ==> Opaqued(p, marks)
  {
    if Whited(a, marks) {
      var w :| w in marks && Erases(w, a);
      assert Erases(w, p);
    }
    if Opaqued(a, marks) {
      var o :| o in marks && Empties(o, a);
      assert Empties(o, p);
    }
  }

  /**
   Every entry of a layer ends with exactly its own value, and a lower path survives exactly under the stated
   conditions.
   */
  lemma LayerClosedForm(lower: Tree, layer: Layer, p: Path)
    ensures p in layer.entries ==> p in Applied(lower, layer) && Applied(lower, layer)[p] == layer.entries[p]
    ensures p !in layer.entries ==>
              var kept := && p in lower && !Whited(p, layer.whiteouts) && !Opaqued(p, layer.opaques)
                          && forall e :: e in layer.entries && Under(p, e) ==>
                               && layer.entries[e].Directory?
                               && (e in lower && !Whited(e, layer.whiteouts) && !Opaqued(e, layer.opaques) ==>
                                    lower[e].Directory?);
              && (p in Applied(lower, layer) <==> kept || Ancestor(p, layer.entries))
              && (kept ==> Applied(lower, layer)[p] == lower[p])
              && (!kept && Ancestor(p, layer.entries) ==> Applied(lower, layer)[p] == Directory)
  {
    PlacedAt(Uncovered(lower, layer), layer.entries, p);
  }
}
