/**
 The verdict of scripts/oci_artifact.py in terms of tar members alone: which layer a target's bytes come from, and what
 later layers may not do to it. The definitions here follow "Whiteouts" and "Opaque Whiteout" of the filesystem
 changeset chapter (layer.md) of the OCI Image Format Specification, and use nothing of the overlay that they are
 compared with.
 */
module OverlayVerdict {
  import opened Outcomes
  import opened Overlay
  import opened OverlayProjection

  /******* Members *******/

  /** Names that begin with ".wh." mark removals and are never files of the image. */
  predicate WhiteoutNamed(m: Member) {
    m.path != [] && ".wh." <= m.path[|m.path| - 1]
  }

  predicate IsRootFolder(m: Member) {
    m.path == [] && m.kind.Folder?
  }

  /** A member that puts something at `p`; the root directory itself is passed over. */
  predicate Provides(m: Member, p: Path) {
    m.path == p && !WhiteoutNamed(m) && !IsRootFolder(m)
  }

  /** An empty file ".wh.x" beside `x` removes `x` and all below it. */
  predicate WhitesOut(m: Member, p: Path) {
    exists k :: 0 < k <= |p| && WhitesOutAt(m, p, k)
  }

  predicate WhitesOutAt(m: Member, p: Path, k: nat)
    requires 0 < k <= |p|
  {
    p[k - 1] != ".wh..opq" && m.path == p[..k - 1] + [".wh." + p[k - 1]]
  }

  /** ".wh..wh..opq" removes all that lower layers hold below its own directory. */
  predicate BlanksOut(m: Member, p: Path) {
    && m.path != [] && m.path[|m.path| - 1] == ".wh..wh..opq"
    && (|m.path| == 1 || m.path[..|m.path| - 1] < p)
  }

  predicate SoundMember(m: Member) {
    if WhiteoutNamed(m) then
      var name := m.path[|m.path| - 1];
      m.kind.Regular? && m.kind.size == 0 && (name != ".wh..wh..opq" ==> name !in {".wh.", ".wh..", ".wh..."})
    else !m.kind.Special?
  }

  /** A layer that the member loop accepts: bounded, sound, and with no name twice except for directories. */
  ghost predicate SoundLayer(members: seq<Member>) {
    && |members| <= 200000
    && (forall m :: m in members && !IsRootFolder(m) ==> SoundMember(m))
    && (forall i, j :: 0 <= i < j < |members| && members[i].path == members[j].path
                       && !IsRootFolder(members[i]) && !IsRootFolder(members[j]) ==>
                         members[i].kind.Folder? && members[j].kind.Folder?)
  }

  /******* Layers *******/

  ghost predicate Provided(members: seq<Member>, p: Path) {
    exists m :: m in members && Provides(m, p)
  }

  ghost predicate Cleared(members: seq<Member>, p: Path) {
    exists m :: m in members && (WhitesOut(m, p) || BlanksOut(m, p))
  }

  /** After the first `n` layers, `p` is present and not a directory. */
  ghost predicate NonDirectory(images: seq<seq<Member>>, n: nat, p: Path)
    requires n <= |images|
    decreases n, 0
  {
    n > 0 &&
    if Provided(images[n - 1], p) then exists m :: m in images[n - 1] && Provides(m, p) && !m.kind.Folder?
    else NonDirectory(images, n - 1, p) && Untouched(images, n, p)
  }

  /** Layer `n - 1` neither removes `p` nor puts a non-directory, or a directory in place of one, above it. */
  ghost predicate Untouched(images: seq<seq<Member>>, n: nat, p: Path)
    requires 0 < n <= |images|
    decreases n - 1, 1
  {
    && !Cleared(images[n - 1], p)
    && forall m :: m in images[n - 1] && m.path != [] && m.path < p && Provides(m, m.path) ==>
         m.kind.Folder? && !NonDirectory(images, n - 1, m.path)
  }

  /** After the first `n` layers, `p` is a regular file with this hash. */
  ghost predicate HoldsFile(images: seq<seq<Member>>, n: nat, p: Path, sha256: string)
    requires n <= |images|
    decreases n
  {
    n > 0 &&
    if Provided(images[n - 1], p) then
      exists m :: m in images[n - 1] && Provides(m, p) && m.kind.Regular? && m.kind.sha256 == sha256
    else HoldsFile(images, n - 1, p, sha256) && Untouched(images, n, p)
  }

  /** The bytes of a held file come from one layer, and no later layer provides, removes or hides the path. */
  lemma {:induction false} HeldFromOneLayer(images: seq<seq<Member>>, n: nat, p: Path, sha256: string)
    requires n <= |images|
    ensures HoldsFile(images, n, p, sha256)
            <==> exists l :: 0 <= l < n && FromLayer(images, l, n, p, sha256)
    decreases n
  {
    if n > 0 {
      if Provided(images[n - 1], p) {
        if HoldsFile(images, n, p, sha256) {
          assert FromLayer(images, n - 1, n, p, sha256);
        }
        if exists l :: 0 <= l < n && FromLayer(images, l, n, p, sha256) {
          var l :| 0 <= l < n && FromLayer(images, l, n, p, sha256);
          assert l < n - 1 ==> Leaves(images, n - 1, p);
        }
      } else {
        HeldFromOneLayer(images, n - 1, p, sha256);
        if HoldsFile(images, n, p, sha256) {
          var l :| 0 <= l < n - 1 && FromLayer(images, l, n - 1, p, sha256);
          assert FromLayer(images, l, n, p, sha256);
        }
        if exists l :: 0 <= l < n && FromLayer(images, l, n, p, sha256) {
          var l :| 0 <= l < n && FromLayer(images, l, n, p, sha256);
          assert l < n - 1;
          assert FromLayer(images, l, n - 1, p, sha256);
          assert Leaves(images, n - 1, p);
        }
      }
    }
  }

  ghost predicate FromLayer(images: seq<seq<Member>>, l: nat, n: nat, p: Path, sha256: string)
    requires l < n <= |images|
  {
    && (exists m :: m in images[l] && Provides(m, p) && m.kind.Regular? && m.kind.sha256 == sha256)
    && forall k :: l < k < n ==> Leaves(images, k, p)
  }

  ghost predicate Leaves(images: seq<seq<Member>>, k: nat, p: Path)
    requires k < |images|
  {
    !Provided(images[k], p) && Untouched(images, k + 1, p)
  }

  /******* Comparison with the overlay *******/

  lemma MarkerNames(m: Member)
    ensures IsMarker(m) <==> WhiteoutNamed(m)
    ensures RootFolder(m) <==> IsRootFolder(m)
    ensures !IsRootFolder(m) ==> (Flaw(m).None? <==> SoundMember(m))
  {
    if WhiteoutNamed(m) {
      var leaf := m.path[|m.path| - 1];
      assert leaf == ".wh." + leaf[4..];
      assert ".wh." + "" == ".wh." && ".wh." + "." == ".wh.." && ".wh." + ".." == ".wh...";
    }
  }

  lemma {:induction false} TwiceInSeq(members: seq<Member>, m: Member)
    ensures multiset(members)[m] >= 2 <==> exists i, j :: 0 <= i < j < |members| && members[i] == members[j] == m
  {
    if |members| > 0 {
      var front, last := members[..|members| - 1], members[|members| - 1];
      assert multiset(members) == multiset(front) + multiset{last} by { assert members == front + [last]; }
      TwiceInSeq(front, m);
      if multiset(members)[m] >= 2 {
        if multiset(front)[m] >= 2 {
          var i, j :| 0 <= i < j < |front| && front[i] == front[j] == m;
          assert members[i] == members[j] == m;
        } else {
          assert last == m && m in front;
          var i :| 0 <= i < |front| && front[i] == m;
          assert members[i] == members[|front|] == m;
        }
      }
      if i, j :| 0 <= i < j < |members| && members[i] == members[j] == m {
        if j < |front| {
          assert front[i] == front[j] == m;
        } else {
          assert front[i] == m && m in multiset(front);
        }
      }
    }
  }

  lemma SoundIsAdmissible(members: seq<Member>)
    ensures SoundLayer(members) <==> Admissible(multiset(members))
  {
    var all := multiset(members);
    forall m { MarkerNames(m); }
    if SoundLayer(members) {
      forall m, o | m in all && o in all && Counted(m) && Counted(o) && m.path == o.path ensures m == o {
        var i :| 0 <= i < |members| && members[i] == m;
        var j :| 0 <= j < |members| && members[j] == o;
      }
      forall m | m in all && Counted(m) && !m.kind.Folder? ensures all[m] == 1 {
        TwiceInSeq(members, m);
      }
    }
    if Admissible(all) {
      forall i, j | 0 <= i < j < |members| && members[i].path == members[j].path
                    && !IsRootFolder(members[i]) && !IsRootFolder(members[j])
        ensures members[i].kind.Folder? && members[j].kind.Folder?
      {
        assert members[i] in all && members[j] in all;
        TwiceInSeq(members, members[i]);
      }
      forall m | m in members && !IsRootFolder(m) ensures SoundMember(m) {
        assert m in all;
      }
    }
  }

  /** The paths of all members. */
  function AllPaths(images: seq<seq<Member>>): set<Path> {
    set i, j | 0 <= i < |images| && 0 <= j < |images[i]| :: images[i][j].path
  }

  lemma PathsCovered(images: seq<seq<Member>>)
    ensures forall members, m :: members in images && m in members ==> m.path in AllPaths(images)
  {
    forall members, m | members in images && m in members ensures m.path in AllPaths(images) {
      var i :| 0 <= i < |images| && images[i] == members;
      var j :| 0 <= j < |members| && members[j] == m;
      assert images[i][j].path == m.path;
    }
  }

  lemma HiddenIs(m: Member, p: Path)
    requires IsMarker(m) && !OpaqueMarker(m)
    ensures Erases(Hidden(m), p) <==> WhitesOut(m, p)
  {
    var leaf, n := m.path[|m.path| - 1], |m.path|;
    assert leaf == ".wh." + leaf[4..];
    assert ".wh." + ".wh..opq" == OPAQUE_MARKER;
    if Erases(Hidden(m), p) {
      assert Hidden(m) == p[..n];
      assert p[n - 1] == leaf[4..] && p[..n - 1] == m.path[..n - 1];
      assert WhitesOutAt(m, p, n);
    }
    if WhitesOut(m, p) {
      var k :| 0 < k <= |p| && WhitesOutAt(m, p, k);
      assert k == n && leaf == ".wh." + p[k - 1];
      assert leaf[4..] == p[k - 1];
      assert Hidden(m) == p[..k];
    }
  }

  lemma WhitingIsMarked(m: Member, p: Path)
    requires WhitesOut(m, p)
    ensures IsMarker(m) && !OpaqueMarker(m)
  {
    var k :| 0 < k <= |p| && WhitesOutAt(m, p, k);
    var leaf := m.path[|m.path| - 1];
    assert leaf == ".wh." + p[k - 1] && leaf[4..] == p[k - 1] && OPAQUE_MARKER[4..] == ".wh..opq";
  }

  lemma OpaqueIs(m: Member, p: Path)
    ensures OpaqueMarker(m) && Empties(Parent(m.path), p) <==> BlanksOut(m, p)
  {
    if m.path != [] && m.path[|m.path| - 1] == OPAQUE_MARKER {
      assert ".wh." <= OPAQUE_MARKER;
    }
  }

  /** One reading, path by path, against the members it was read from. */
  lemma MarksAre(layer: Layer, members: seq<Member>, p: Path)
    requires DescribesMarks(layer, multiset(members))
    ensures Whited(p, layer.whiteouts) || Opaqued(p, layer.opaques) <==> Cleared(members, p)
  {
    var all := multiset(members);
    if Whited(p, layer.whiteouts) {
      var w :| w in layer.whiteouts && Erases(w, p);
      assert Hidings(all, w);
      var m :| m in all && IsMarker(m) && !OpaqueMarker(m) && Hidden(m) == w;
      HiddenIs(m, p);
    }
    if Opaqued(p, layer.opaques) {
      var o :| o in layer.opaques && Empties(o, p);
      assert Blanks(all, o);
      var m :| m in all && OpaqueMarker(m) && Parent(m.path) == o;
      OpaqueIs(m, p);
    }
    if Cleared(members, p) {
      var m :| m in members && (WhitesOut(m, p) || BlanksOut(m, p));
      assert m in all;
      if WhitesOut(m, p) {
        WhitingIsMarked(m, p);
        HiddenIs(m, p);
        assert Hidings(all, Hidden(m));
      } else {
        OpaqueIs(m, p);
        assert Blanks(all, Parent(m.path));
      }
    }
  }

  lemma EntriesAre(layer: Layer, members: seq<Member>, targets: map<Path, string>, all: set<Path>, m: Member, p: Path)
    requires DescribesEntries(layer.entries, multiset(members), targets, all) && Admissible(multiset(members))
    requires forall o :: o in members ==> o.path in all
    ensures p in layer.entries <==> Provided(members, p)
    ensures m in members && Provides(m, p) ==>
              && layer.entries[p] == NodeOf(m, targets) && (layer.entries[p].Directory? <==> m.kind.Folder?)
  {
    MarkerNames(m);
    if p in layer.entries {
      assert Enters(multiset(members), p);
      var o :| o in multiset(members) && Counted(o) && !IsMarker(o) && o.path == p;
      MarkerNames(o);
      assert o in members && Provides(o, p);
    }
    if Provided(members, p) {
      var o :| o in members && Provides(o, p);
      MarkerNames(o);
      assert o in multiset(members);
    }
    if m in members && Provides(m, p) {
      assert m in multiset(members);
    }
  }

  /** What the final check can tell of a path after one more layer. */
  lemma SeenApplied(lower: Tree, layer: Layer, p: Path)
    ensures Seen(Applied(lower, layer), p)
         == if p in layer.entries then layer.entries[p]
            else if !Whited(p, layer.whiteouts) && !Opaqued(p, layer.opaques) && Exposed(p, lower, layer.entries)
            then Seen(lower, p) else Directory
  {
    var base := Uncovered(lower, layer);
    SeenPlaced(base, layer.entries, p);
    if !Whited(p, layer.whiteouts) && !Opaqued(p, layer.opaques) {
      forall e | e in layer.entries && Under(p, e) ensures Seen(base, e) == Seen(lower, e) {
        MarksReachDown(layer.whiteouts, e, p);
        MarksReachDown(layer.opaques, e, p);
      }
      assert Exposed(p, base, layer.entries) <==> Exposed(p, lower, layer.entries);
    }
  }

  /** The overlay after `n` layers agrees with the definitions above. */
  ghost predicate Agrees(tree: Tree, images: seq<seq<Member>>, n: nat, targets: map<Path, string>)
    requires n <= |images|
  {
    && (forall p :: NonDirectory(images, n, p) <==> !Seen(tree, p).Directory?)
    && (forall t, h :: t in targets ==> (HoldsFile(images, n, t, h) <==> Seen(tree, t) == File(Some(h))))
  }

  lemma ExposedIs(images: seq<seq<Member>>, n: nat, lower: Tree, layer: Layer, targets: map<Path, string>,
                  all: set<Path>,
                  p: Path)
    requires 0 < n <= |images| && Agrees(lower, images, n - 1, targets) && Admissible(multiset(images[n - 1]))
    requires DescribesEntries(layer.entries, multiset(images[n - 1]), targets, all)
    requires DescribesMarks(layer, multiset(images[n - 1])) && forall o :: o in images[n - 1] ==> o.path in all
    ensures !Whited(p, layer.whiteouts) && !Opaqued(p, layer.opaques) && Exposed(p, lower, layer.entries)
            <==> Untouched(images, n, p)
  {
    var members := images[n - 1];
    MarksAre(layer, members, p);
    if Exposed(p, lower, layer.entries) {
      forall m | m in members && m.path != [] && m.path < p && Provides(m, m.path)
        ensures m.kind.Folder? && !NonDirectory(images, n - 1, m.path)
      {
        EntriesAre(layer, members, targets, all, m, m.path);
        assert Provided(members, m.path);
      }
    }
    if Untouched(images, n, p) {
      forall e | e in layer.entries && Under(p, e) ensures layer.entries[e].Directory? && Seen(lower, e).Directory? {
        EntriesAre(layer, members, targets, all, Member(e, Folder), e);
        var m :| m in members && Provides(m, e);
        EntriesAre(layer, members, targets, all, m, e);
      }
    }
  }

  lemma AgreesStep(images: seq<seq<Member>>, n: nat, lower: Tree, layer: Layer, targets: map<Path, string>,
                   all: set<Path>)
    requires 0 < n <= |images| && Agrees(lower, images, n - 1, targets) && Admissible(multiset(images[n - 1]))
    requires DescribesEntries(layer.entries, multiset(images[n - 1]), targets, all)
    requires DescribesMarks(layer, multiset(images[n - 1])) && forall o :: o in images[n - 1] ==> o.path in all
    ensures Agrees(Applied(lower, layer), images, n, targets)
  {
    var members, after := images[n - 1], Applied(lower, layer);
    forall p ensures NonDirectory(images, n, p) <==> !Seen(after, p).Directory? {
      SeenApplied(lower, layer, p);
      ExposedIs(images, n, lower, layer, targets, all, p);
      forall m { EntriesAre(layer, members, targets, all, m, p); }
    }
    forall t, h | t in targets ensures HoldsFile(images, n, t, h) <==> Seen(after, t) == File(Some(h)) {
      SeenApplied(lower, layer, t);
      ExposedIs(images, n, lower, layer, targets, all, t);
      forall m { EntriesAre(layer, members, targets, all, m, t); }
    }
  }

  lemma ReadWhenSound(members: seq<Member>, targets: map<Path, string>, all: set<Path>)
    ensures Read(members, targets, all).Ok? <==> SoundLayer(members)
  {
    SoundIsAdmissible(members);
    ReadIgnoresOrder(members, targets, all);
  }

  lemma {:induction false} AssembledWhenSound(images: seq<seq<Member>>, n: nat, targets: map<Path, string>,
                                              all: set<Path>)
    requires n <= |images|
    ensures Assembled(images[..n], targets, all).Some? <==> forall i :: 0 <= i < n ==> SoundLayer(images[i])
    decreases n
  {
    if n > 0 {
      AssembledWhenSound(images, n - 1, targets, all);
      AssembledNext(images, n, targets, all);
      ReadWhenSound(images[n - 1], targets, all);
    }
  }

  lemma NothingAgrees(images: seq<seq<Member>>, targets: map<Path, string>, all: set<Path>)
    ensures Assembled(images[..0], targets, all) == Some([]) && Agrees(Overlaid([]), images, 0, targets)
  {
  }

  lemma {:induction false} AssembledAgrees(images: seq<seq<Member>>, n: nat, targets: map<Path, string>, all: set<Path>)
    requires n <= |images| && forall members, m :: members in images && m in members ==> m.path in all
    requires Assembled(images[..n], targets, all).Some?
    ensures Agrees(Overlaid(Assembled(images[..n], targets, all).value), images, n, targets)
    decreases n
  {
    if n > 0 {
      AssembledNext(images, n, targets, all);
      AssembledAgrees(images, n - 1, targets, all);
      NextAgrees(images, n, targets, all);
    } else {
      NothingAgrees(images, targets, all);
    }
  }

  lemma AssembledNext(images: seq<seq<Member>>, n: nat, targets: map<Path, string>, all: set<Path>)
    requires 0 < n <= |images|
    ensures var before, after := Assembled(images[..n - 1], targets, all), Assembled(images[..n], targets, all);
            var last := Read(images[n - 1], targets, all);
            && (after.Some? <==> before.Some? && last.Ok?)
            && (after.Some? ==> Overlaid(after.value) == Applied(Overlaid(before.value), last.value.layer))
  {
    assert images[..n][..n - 1] == images[..n - 1];
    var before, after := Assembled(images[..n - 1], targets, all), Assembled(images[..n], targets, all);
    if after.Some? {
      assert after.value[..|before.value|] == before.value;
    }
  }

  lemma NextAgrees(images: seq<seq<Member>>, n: nat, targets: map<Path, string>, all: set<Path>)
    requires 0 < n <= |images| && forall members, m :: members in images && m in members ==> m.path in all
    requires Assembled(images[..n - 1], targets, all).Some? && Assembled(images[..n], targets, all).Some?
    requires Agrees(Overlaid(Assembled(images[..n - 1], targets, all).value), images, n - 1, targets)
    ensures Agrees(Overlaid(Assembled(images[..n], targets, all).value), images, n, targets)
  {
    AssembledNext(images, n, targets, all);
    ReadIgnoresOrder(images[n - 1], targets, all);
    assert images[n - 1] in images;
    AgreesStep(images, n, Overlaid(Assembled(images[..n - 1], targets, all).value),
               Read(images[n - 1], targets, all).value.layer, targets, all);
  }

  /**
   The verdict from the tar members. An image verifies if and only if every layer is sound and each target ends as a
   regular file of exactly its expected hash below nothing but directories.
   */
  lemma VerdictFromMembers(images: seq<seq<Member>>, targets: map<Path, string>)
    ensures Verified(images, targets, Relevant(targets))
            <==> && (forall i :: 0 <= i < |images| ==> SoundLayer(images[i]))
                 && forall t :: t in targets ==>
                      && HoldsFile(images, |images|, t, targets[t])
                      && forall k :: 0 < k < |t| ==> !NonDirectory(images, |images|, t[..k])
  {
    var all := AllPaths(images);
    PathsCovered(images);
    TrackedVerdictIsFullVerdict(images, targets, all);
    AssembledWhenSound(images, |images|, targets, all);
    assert images[..|images|] == images;
    var layers := Assembled(images, targets, all);
    if layers.Some? {
      AssembledAgrees(images, |images|, targets, all);
      AcceptsIs(Overlaid(layers.value), images, targets);
    }
  }

  lemma AcceptsIs(tree: Tree, images: seq<seq<Member>>, targets: map<Path, string>)
    requires Agrees(tree, images, |images|, targets)
    ensures Accepts(tree, targets)
            <==> forall t :: t in targets ==>
                   && HoldsFile(images, |images|, t, targets[t])
                   && forall k :: 0 < k < |t| ==> !NonDirectory(images, |images|, t[..k])
  {
    forall t | t in targets
      ensures HoldsFile(images, |images|, t, targets[t]) <==> t in tree && tree[t] == File(Some(targets[t]))
    {
    }
  }

  /**
   What no verified image can hide: each target comes from a regular member of its expected hash in one layer, and no
   later layer has any member at it, a whiteout of it or of a directory above it, an opaque marker above it, or anything
   but directories above it.
   */
  lemma VerifiedTargetStands(images: seq<seq<Member>>, targets: map<Path, string>, t: Path)
    requires Verified(images, targets, Relevant(targets)) && t in targets
    ensures exists l :: 0 <= l < |images| && Stands(images, l, t, targets[t])
  {
    VerdictFromMembers(images, targets);
    HeldFromOneLayer(images, |images|, t, targets[t]);
    var l :| 0 <= l < |images| && FromLayer(images, l, |images|, t, targets[t]);
    assert Stands(images, l, t, targets[t]) by {
      forall k, m | l < k < |images| && m in images[k]
        ensures !Provides(m, t) && !WhitesOut(m, t) && !BlanksOut(m, t)
                && (m.path != [] && m.path < t && !WhiteoutNamed(m) ==> m.kind.Folder?)
      {
        assert Leaves(images, k, t);
      }
    }
  }

  ghost predicate Stands(images: seq<seq<Member>>, l: nat, t: Path, sha256: string)
    requires l < |images|
  {
    && (exists m :: m in images[l] && m.path == t && m.kind.Regular? && m.kind.sha256 == sha256)
    && forall k, m :: l < k < |images| && m in images[k] ==>
         && !Provides(m, t) && !WhitesOut(m, t) && !BlanksOut(m, t)
         && (m.path != [] && m.path < t && !WhiteoutNamed(m) ==> m.kind.Folder?)
  }
}
