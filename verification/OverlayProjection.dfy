/**
 Why scripts/oci_artifact.py may track only the target executables and their ancestors:
 the filtered overlay reaches the same verdict as the overlay of every entry, and the
 order of members inside a layer's tar does not matter.
 */
module OverlayProjection {
  import opened Outcomes
  import opened Overlay

  /** The tracked paths: every target and every proper ancestor of a target, the root excluded. */
  function Relevant(targets: map<Path, string>): set<Path> {
    targets.Keys + (set t, k | t in targets && 0 < k < |t| :: t[..k])
  }

  ghost predicate AncestorClosed(paths: set<Path>) {
    forall p, a :: p in paths && a != [] && a < p ==> a in paths
  }

  lemma RelevantIsClosed(targets: map<Path, string>)
    ensures AncestorClosed(Relevant(targets))
  {
    forall p, a: Path | p in Relevant(targets) && a != [] && a < p ensures a in Relevant(targets) {
      if p in targets {
        assert a == p[..|a|];
      } else {
        var t, k :| t in targets && 0 < k < |t| && p == t[..k];
        assert a == t[..|a|];
      }
    }
  }

  /** `name in relevant` in the member loop. */
  function Filtered(layer: Layer, relevant: set<Path>): Layer {
    layer.(entries := map p | p in layer.entries && p in relevant :: layer.entries[p])
  }

  /** What the final check can tell about a path: an absent one reads as a directory. */
  function Seen(tree: Tree, p: Path): Node {
    if p in tree then tree[p] else Directory
  }

  ghost predicate Alike(full: Tree, kept: Tree, relevant: set<Path>) {
    forall p :: p in relevant ==> Seen(full, p) == Seen(kept, p)
  }

  predicate Exposed(p: Path, lower: Tree, entries: Tree) {
    forall e :: e in entries && Under(p, e) ==> entries[e].Directory? && Seen(lower, e).Directory?
  }

  lemma SeenPlaced(lower: Tree, entries: Tree, p: Path)
    ensures Seen(Placed(lower, entries), p)
         == if p in entries then entries[p] else if Exposed(p, lower, entries) then Seen(lower, p) else Directory
  {
    PlacedAt(lower, entries, p);
    if p in lower && Exposed(p, lower, entries) {
      forall e | e in entries && Under(p, e) ensures !Hides(e, lower, entries) {
      }
    }
    if Survives(p, lower, entries) {
      forall e | e in entries && Under(p, e) ensures entries[e].Directory? && Seen(lower, e).Directory? {
        assert !Hides(e, lower, entries);
      }
    }
  }

  lemma UncoveredAlike(full: Tree, kept: Tree, layer: Layer, relevant: set<Path>)
    requires Alike(full, kept, relevant)
    ensures Alike(Uncovered(full, layer), Uncovered(kept, Filtered(layer, relevant)), relevant)
  {
    forall p | p in relevant
      ensures Seen(Uncovered(full, layer), p) == Seen(Uncovered(kept, Filtered(layer, relevant)), p)
    {
      assert Seen(full, p) == Seen(kept, p);
    }
  }

  lemma PlacedAlike(full: Tree, kept: Tree, entries: Tree, relevant: set<Path>)
    requires Alike(full, kept, relevant) && AncestorClosed(relevant)
    ensures Alike(Placed(full, entries), Placed(kept, map p | p in entries && p in relevant :: entries[p]), relevant)
  {
    var some := map p | p in entries && p in relevant :: entries[p];
    forall p | p in relevant ensures Seen(Placed(full, entries), p) == Seen(Placed(kept, some), p) {
      SeenPlaced(full, entries, p);
      SeenPlaced(kept, some, p);
      assert Seen(full, p) == Seen(kept, p);
      if Exposed(p, kept, some) {
        forall e | e in entries && Under(p, e) ensures entries[e].Directory? && Seen(full, e).Directory? {
          assert e in some;
        }
      }
      if Exposed(p, full, entries) {
        forall e | e in some && Under(p, e) ensures some[e].Directory? && Seen(kept, e).Directory? {
          assert e in entries;
        }
      }
    }
  }

  lemma LayerProjects(full: Tree, kept: Tree, layer: Layer, relevant: set<Path>)
    requires Alike(full, kept, relevant) && AncestorClosed(relevant)
    ensures Alike(Applied(full, layer), Applied(kept, Filtered(layer, relevant)), relevant)
  {
    UncoveredAlike(full, kept, layer, relevant);
    PlacedAlike(Uncovered(full, layer), Uncovered(kept, Filtered(layer, relevant)), layer.entries, relevant);
  }

  /******* The whole image *******/

  function Overlaid(layers: seq<Layer>): Tree {
    if |layers| == 0 then map[] else Applied(Overlaid(layers[..|layers| - 1]), layers[|layers| - 1])
  }

  function FilteredAll(layers: seq<Layer>, relevant: set<Path>): seq<Layer> {
    seq(|layers|, i requires 0 <= i < |layers| => Filtered(layers[i], relevant))
  }

  /** The loop over the runtime layers. */
  method ApplyAll(layers: seq<Layer>) returns (state: FileState)
    ensures fresh(state) && state.nodes == Overlaid(layers)
  {
    state := new FileState();
    for i := 0 to |layers|
      invariant fresh(state) && state.nodes == Overlaid(layers[..i])
    {
      assert layers[..i + 1][..i] == layers[..i];
      state.ApplyLayer(layers[i]);
    }
    assert layers[..|layers|] == layers;
  }

  /** The final check: each target is a file with its expected hash, and no ancestor is anything but a directory. */
  predicate Accepts(tree: Tree, targets: map<Path, string>) {
    forall t :: t in targets ==>
      && t in tree && tree[t] == File(Some(targets[t]))
      && forall k :: 0 < k < |t| ==> Seen(tree, t[..k]).Directory?
  }

  lemma {:induction false} OverlayProjects(layers: seq<Layer>, relevant: set<Path>)
    requires AncestorClosed(relevant)
    ensures Alike(Overlaid(layers), Overlaid(FilteredAll(layers, relevant)), relevant)
  {
    if |layers| > 0 {
      var front, last := layers[..|layers| - 1], layers[|layers| - 1];
      OverlayProjects(front, relevant);
      assert FilteredAll(layers, relevant)[..|layers| - 1] == FilteredAll(front, relevant);
      assert last in layers;
      LayerProjects(Overlaid(front), Overlaid(FilteredAll(front, relevant)), last, relevant);
    }
  }

  /**
   Overlay projection. Tracking only targets and their ancestors gives, for every list of layers, the verdict and the
   final contents of the targets that the overlay of all entries gives.
   */
  lemma TrackingIsEnough(layers: seq<Layer>, targets: map<Path, string>)
    ensures var full, kept := Overlaid(layers), Overlaid(FilteredAll(layers, Relevant(targets)));
            && (Accepts(full, targets) <==> Accepts(kept, targets))
            && (forall t :: t in targets ==> Seen(full, t) == Seen(kept, t))
  {
    var relevant := Relevant(targets);
    var full, kept := Overlaid(layers), Overlaid(FilteredAll(layers, relevant));
    RelevantIsClosed(targets);
    OverlayProjects(layers, relevant);
    forall t, k | t in targets && 0 < k < |t| ensures Seen(full, t[..k]) == Seen(kept, t[..k]) {
      assert t[..k] in relevant;
    }
    forall t | t in targets ensures Seen(full, t) == Seen(kept, t) {
      assert t in relevant;
    }
  }

  /******* Reading a layer's members *******/

  datatype Kind = Regular(size: nat, sha256: string) | Folder | Symbolic(target: string) | Hard(target: string)
                | Special

  datatype Member = Member(path: Path, kind: Kind)

  datatype LayerError = TooManyMembers | DuplicatePath | BadWhiteout | BadChild | UnsupportedNode

  const MAX_MEMBERS := 200000

  predicate RootFolder(member: Member) {
    member.path == [] && member.kind.Folder?
  }

  predicate IsMarker(member: Member) {
    member.path != [] && ".wh." <= member.path[|member.path| - 1]
  }

  const OPAQUE_MARKER := ".wh..wh..opq"

  /** The checks that concern one member alone. */
  function Flaw(member: Member): Option<LayerError> {
    if IsMarker(member) then
      var leaf := member.path[|member.path| - 1];
      if !member.kind.Regular? || member.kind.size != 0 then Some(BadWhiteout)
      else if leaf != OPAQUE_MARKER && leaf[4..] in {"", ".", ".."} then Some(BadChild)
      else None
    else if member.kind.Special? then Some(UnsupportedNode)
    else None
  }

  predicate OpaqueMarker(member: Member) {
    IsMarker(member) && member.path[|member.path| - 1] == OPAQUE_MARKER
  }

  function Parent(path: Path): Path
    requires path != []
  {
    path[..|path| - 1]
  }

  function Hidden(member: Member): Path
    requires IsMarker(member)
  {
    Parent(member.path) + [member.path[|member.path| - 1][4..]]
  }

  function NodeOf(member: Member, targets: map<Path, string>): Node {
    match member.kind
    case Regular(_, sha256) => File(if member.path in targets then Some(sha256) else None)
    case Symbolic(target) => Link(target)
    case Hard(target) => Link(target)
    case _ => Directory
  }

  /** The loop's own state: the layer so far and what has been seen under each name. */
  datatype Reading = Reading(layer: Layer, seen: map<Path, bool>)

  function ReadOne(reading: Reading, member: Member, count: nat, targets: map<Path, string>, relevant: set<Path>)
    : Result<Reading, LayerError>
  {
    if count > MAX_MEMBERS then Err(TooManyMembers)
    else if RootFolder(member) then Ok(reading)
    else if member.path in reading.seen && !(member.kind.Folder? && reading.seen[member.path]) then Err(DuplicatePath)
    else if Flaw(member).Some? then Err(Flaw(member).value)
    else
      var layer := reading.layer;
      Ok(Reading(if OpaqueMarker(member) then layer.(opaques := layer.opaques + [Parent(member.path)])
                 else if IsMarker(member) then layer.(whiteouts := layer.whiteouts + [Hidden(member)])
                 else if member.path in relevant then
                     layer.(entries := layer.entries[member.path := NodeOf(member, targets)])
                 else layer,
                 reading.seen[member.path := member.kind.Folder?]))
  }

  function Read(members: seq<Member>, targets: map<Path, string>, relevant: set<Path>): Result<Reading, LayerError> {
    if |members| == 0 then Ok(Reading(Layer(map[], [], []), map[]))
    else
      var before := Read(members[..|members| - 1], targets, relevant);
      if before.Err? then before else ReadOne(before.value, members[|members| - 1], |members|, targets, relevant)
  }

  /** The member loop of `verify_oci_archive`. */
  method ReadLayer(members: seq<Member>, targets: map<Path, string>, relevant: set<Path>)
    returns (result: Result<Layer, LayerError>)
    ensures result == match Read(members, targets, relevant)
                      case Ok(reading) => Ok(reading.layer)
                      case Err(error) => Err(error)
  {
    var entries: Tree, whiteouts: seq<Path>, opaques: seq<Path>, seen: map<Path, bool> := map[], [], [], map[];
    for n := 0 to |members|
      invariant Read(members[..n], targets, relevant) == Ok(Reading(Layer(entries, whiteouts, opaques), seen))
    {
      var member := members[n];
      assert members[..n + 1][..n] == members[..n];
      FailsOn(members, n + 1, targets, relevant);
      if n + 1 > MAX_MEMBERS {
        return Err(TooManyMembers);
      }
      if !RootFolder(member) {
        if member.path in seen && !(member.kind.Folder? && seen[member.path]) {
          return Err(DuplicatePath);
        }
        if Flaw(member).Some? {
          return Err(Flaw(member).value);
        }
        seen := seen[member.path := member.kind.Folder?];
        if OpaqueMarker(member) {
          opaques := opaques + [Parent(member.path)];
        } else if IsMarker(member) {
          whiteouts := whiteouts + [Hidden(member)];
        } else if member.path in relevant {
          entries := entries[member.path := NodeOf(member, targets)];
        }
      }
    }
    assert members[..|members|] == members;
    return Ok(Layer(entries, whiteouts, opaques));
  }

  lemma {:induction false} FailsOn(members: seq<Member>, n: nat, targets: map<Path, string>, relevant: set<Path>)
    requires n <= |members|
    ensures Read(members[..n], targets, relevant).Err? ==>
                Read(members, targets, relevant) == Read(members[..n], targets, relevant)
    decreases |members|
  {
    if n == |members| {
      assert members[..n] == members;
    } else {
      assert members[..|members| - 1][..n] == members[..n];
      FailsOn(members[..|members| - 1], n, targets, relevant);
    }
  }

  /******* Order of members *******/

  predicate Counted(member: Member) {
    !RootFolder(member)
  }

  /** A description of the accepted member lists that does not mention their order. */
  ghost predicate Admissible(members: multiset<Member>) {
    && |members| <= MAX_MEMBERS
    && (forall m :: m in members && Counted(m) ==> Flaw(m).None?)
    && (forall m, o :: m in members && o in members && Counted(m) && Counted(o) && m.path == o.path ==> m == o)
    && (forall m :: m in members && Counted(m) && !m.kind.Folder? ==> members[m] == 1)
  }

  ghost predicate Names(members: multiset<Member>, p: Path) {
    exists m :: m in members && Counted(m) && m.path == p
  }

  ghost predicate DescribesSeen(seen: map<Path, bool>, members: multiset<Member>) {
    && (forall p :: p in seen <==> Names(members, p))
    && (forall m :: m in members && Counted(m) ==> m.path in seen && seen[m.path] == m.kind.Folder?)
  }

  ghost predicate Enters(members: multiset<Member>, p: Path) {
    exists m :: m in members && Counted(m) && !IsMarker(m) && m.path == p
  }

  ghost predicate DescribesEntries(entries: Tree, members: multiset<Member>, targets: map<Path, string>,
                                   relevant: set<Path>) {
    && (forall p :: p in entries <==> p in relevant && Enters(members, p))
    && (forall m :: m in members && Counted(m) && !IsMarker(m) && m.path in entries ==>
         entries[m.path] == NodeOf(m, targets))
  }

  ghost predicate Hidings(members: multiset<Member>, p: Path) {
    exists m :: m in members && IsMarker(m) && !OpaqueMarker(m) && Hidden(m) == p
  }

  ghost predicate Blanks(members: multiset<Member>, p: Path) {
    exists m :: m in members && OpaqueMarker(m) && Parent(m.path) == p
  }

  ghost predicate DescribesMarks(layer: Layer, members: multiset<Member>) {
    && (forall p :: p in layer.whiteouts <==> Hidings(members, p))
    && (forall p :: p in layer.opaques <==> Blanks(members, p))
  }

  ghost predicate Describes(reading: Reading, members: multiset<Member>, targets: map<Path, string>,
                            relevant: set<Path>) {
    && DescribesSeen(reading.seen, members)
    && DescribesEntries(reading.layer.entries, members, targets, relevant)
    && DescribesMarks(reading.layer, members)
  }

  lemma AcceptedIsAdmissible(reading: Reading, members: multiset<Member>, m: Member, targets: map<Path, string>,
                             relevant: set<Path>)
    requires Admissible(members) && DescribesSeen(reading.seen, members)
    requires ReadOne(reading, m, |members| + 1, targets, relevant).Ok?
    ensures Admissible(members + multiset{m})
  {
    var more := members + multiset{m};
    if Counted(m) {
      forall o | o in members && Counted(o) && o.path == m.path ensures o == m && m.kind.Folder? {
        assert reading.seen[o.path] == o.kind.Folder?;
      }
    }
    forall o | o in more && Counted(o) && !o.kind.Folder? ensures more[o] == 1 {
      if o in members {
        assert members[o] == 1;
      }
    }
  }

  lemma AdmissibleIsAccepted(reading: Reading, members: multiset<Member>, m: Member, targets: map<Path, string>,
                             relevant: set<Path>)
    requires DescribesSeen(reading.seen, members) && Admissible(members + multiset{m})
    ensures ReadOne(reading, m, |members| + 1, targets, relevant).Ok?
  {
    var more := members + multiset{m};
    assert |more| == |members| + 1 && m in more;
    if Counted(m) && m.path in reading.seen {
      assert Names(members, m.path);
      var o :| o in members && Counted(o) && o.path == m.path;
      assert o in more && o == m;
      assert more[m] >= 2;
    }
  }

  lemma AcceptsOne(reading: Reading, members: multiset<Member>, m: Member, targets: map<Path, string>,
                   relevant: set<Path>)
    requires Admissible(members) && DescribesSeen(reading.seen, members)
    ensures ReadOne(reading, m, |members| + 1, targets, relevant).Ok? <==> Admissible(members + multiset{m})
  {
    if ReadOne(reading, m, |members| + 1, targets, relevant).Ok? {
      AcceptedIsAdmissible(reading, members, m, targets, relevant);
    }
    if Admissible(members + multiset{m}) {
      AdmissibleIsAccepted(reading, members, m, targets, relevant);
    }
  }

  lemma SeenOne(seen: map<Path, bool>, members: multiset<Member>, m: Member)
    requires DescribesSeen(seen, members) && (Counted(m) && m.path in seen ==> seen[m.path] == m.kind.Folder?)
    ensures DescribesSeen(if Counted(m) then seen[m.path := m.kind.Folder?] else seen, members + multiset{m})
  {
    var more := members + multiset{m};
    var after := if Counted(m) then seen[m.path := m.kind.Folder?] else seen;
    forall p ensures p in after <==> Names(more, p) {
      if Names(members, p) {
        var o :| o in members && Counted(o) && o.path == p;
        assert o in more;
      }
      if Counted(m) && p == m.path {
        assert m in more;
      }
    }
  }

  lemma EntriesOne(entries: Tree, members: multiset<Member>, m: Member, targets: map<Path, string>, relevant: set<Path>)
    requires DescribesEntries(entries, members, targets, relevant)
    requires forall o :: o in members && Counted(o) && Counted(m) && o.path == m.path ==> o == m
    ensures DescribesEntries(if Counted(m) && !IsMarker(m) && m.path in relevant then
            entries[m.path := NodeOf(m, targets)]
                             else entries, members + multiset{m}, targets, relevant)
  {
    var more := members + multiset{m};
    var after := if Counted(m) && !IsMarker(m) && m.path in relevant then entries[m.path := NodeOf(m, targets)]
        else entries;
    forall p ensures p in after <==> p in relevant && Enters(more, p) {
      if Enters(members, p) {
        var o :| o in members && Counted(o) && !IsMarker(o) && o.path == p;
        assert o in more;
      }
      if Counted(m) && !IsMarker(m) && p == m.path {
        assert m in more;
      }
    }
  }

  lemma MarksOne(layer: Layer, members: multiset<Member>, m: Member)
    requires DescribesMarks(layer, members)
    ensures DescribesMarks(if OpaqueMarker(m) then layer.(opaques := layer.opaques + [Parent(m.path)])
                           else if IsMarker(m) then layer.(whiteouts := layer.whiteouts + [Hidden(m)]) else layer,
                           members + multiset{m})
  {
    var more := members + multiset{m};
    assert m in more;
    forall p ensures Hidings(members, p) ==> Hidings(more, p) {
      if Hidings(members, p) {
        var o :| o in members && IsMarker(o) && !OpaqueMarker(o) && Hidden(o) == p;
        assert o in more;
      }
    }
    forall p ensures Blanks(members, p) ==> Blanks(more, p) {
      if Blanks(members, p) {
        var o :| o in members && OpaqueMarker(o) && Parent(o.path) == p;
        assert o in more;
      }
    }
  }

  lemma ReadsOne(reading: Reading, members: multiset<Member>, m: Member, targets: map<Path, string>,
                 relevant: set<Path>)
    requires Admissible(members) && Describes(reading, members, targets, relevant)
    requires ReadOne(reading, m, |members| + 1, targets, relevant).Ok?
    ensures Describes(ReadOne(reading, m, |members| + 1, targets, relevant).value, members + multiset{m}, targets,
            relevant)
  {
    AcceptsOne(reading, members, m, targets, relevant);
    SeenOne(reading.seen, members, m);
    assert Counted(m) ==> m in members + multiset{m};
    forall o | o in members && Counted(o) && Counted(m) && o.path == m.path ensures o == m {
      assert o in members + multiset{m};
    }
    EntriesOne(reading.layer.entries, members, m, targets, relevant);
    MarksOne(reading.layer, members, m);
  }

  lemma StepIgnoresOrder(reading: Reading, members: multiset<Member>, m: Member, targets: map<Path, string>,
                         relevant: set<Path>)
    requires Admissible(members) && Describes(reading, members, targets, relevant)
    ensures var after := ReadOne(reading, m, |members| + 1, targets, relevant);
            && (after.Ok? <==> Admissible(members + multiset{m}))
            && (after.Ok? ==> Describes(after.value, members + multiset{m}, targets, relevant))
  {
    AcceptsOne(reading, members, m, targets, relevant);
    if ReadOne(reading, m, |members| + 1, targets, relevant).Ok? {
      ReadsOne(reading, members, m, targets, relevant);
    }
  }

  /** A member list is accepted exactly when its unordered contents are admissible, and those contents fix the layer. */
  lemma {:induction false} ReadIgnoresOrder(members: seq<Member>, targets: map<Path, string>, relevant: set<Path>)
    ensures Read(members, targets, relevant).Ok? <==> Admissible(multiset(members))
    ensures Read(members, targets, relevant).Ok? ==>
              Describes(Read(members, targets, relevant).value, multiset(members), targets, relevant)
  {
    if |members| > 0 {
      var front, last := members[..|members| - 1], members[|members| - 1];
      assert multiset(members) == multiset(front) + multiset{last} by { assert members == front + [last]; }
      ReadIgnoresOrder(front, targets, relevant);
      if Read(front, targets, relevant).Ok? {
        StepIgnoresOrder(Read(front, targets, relevant).value, multiset(front), last, targets, relevant);
      } else {
        InadmissibleStays(multiset(front), last);
      }
    } else {
      NothingRead(targets, relevant);
    }
  }

  lemma NothingRead(targets: map<Path, string>, relevant: set<Path>)
    ensures Admissible(multiset{}) && Describes(Reading(Layer(map[], [], []), map[]), multiset{}, targets, relevant)
  {
  }

  lemma InadmissibleStays(members: multiset<Member>, m: Member)
    ensures Admissible(members + multiset{m}) ==> Admissible(members)
  {
    var more := members + multiset{m};
    assert forall o :: o in members ==> o in more && 0 < members[o] <= more[o];
  }

  lemma DescribedAlike(a: Reading, b: Reading, members: multiset<Member>, targets: map<Path, string>,
                       relevant: set<Path>)
    requires Describes(a, members, targets, relevant) && Describes(b, members, targets, relevant)
    ensures a.layer.entries == b.layer.entries
    ensures forall p :: p in a.layer.whiteouts <==> p in b.layer.whiteouts
    ensures forall p :: p in a.layer.opaques <==> p in b.layer.opaques
  {
    forall p | p in a.layer.entries ensures p in b.layer.entries && a.layer.entries[p] == b.layer.entries[p] {
      assert Enters(members, p);
    }
    forall p | p in b.layer.entries ensures p in a.layer.entries {
      assert Enters(members, p);
    }
    forall p ensures (p in a.layer.whiteouts <==> p in b.layer.whiteouts)
        && (p in a.layer.opaques <==> p in b.layer.opaques) {
      assert p in a.layer.whiteouts <==> Hidings(members, p);
      assert p in a.layer.opaques <==> Blanks(members, p);
    }
  }

  /**
   Reordering the members of a layer's tar changes neither its acceptance nor the state it leaves over any lower
   layers.
   */
  lemma TarOrderIsIrrelevant(a: seq<Member>, b: seq<Member>, targets: map<Path, string>, relevant: set<Path>,
                             lower: Tree)
    requires multiset(a) == multiset(b)
    ensures Read(a, targets, relevant).Ok? <==> Read(b, targets, relevant).Ok?
    ensures Read(a, targets, relevant).Ok? ==>
              Applied(lower, Read(a, targets, relevant).value.layer)
                  == Applied(lower, Read(b, targets, relevant).value.layer)
  {
    ReadIgnoresOrder(a, targets, relevant);
    ReadIgnoresOrder(b, targets, relevant);
    if Read(a, targets, relevant).Ok? {
      var x, y := Read(a, targets, relevant).value, Read(b, targets, relevant).value;
      DescribedAlike(x, y, multiset(a), targets, relevant);
      SameMarks(x.layer.whiteouts, y.layer.whiteouts);
      SameMarks(x.layer.opaques, y.layer.opaques);
      assert Uncovered(lower, x.layer) == Uncovered(lower, y.layer);
    }
  }

  lemma SameMarks(a: seq<Path>, b: seq<Path>)
    requires forall p :: p in a <==> p in b
    ensures forall p :: (Whited(p, a) <==> Whited(p, b)) && (Opaqued(p, a) <==> Opaqued(p, b))
  {
    forall p ensures (Whited(p, a) <==> Whited(p, b)) && (Opaqued(p, a) <==> Opaqued(p, b)) {
      if Whited(p, a) { var w :| w in a && Erases(w, p); assert w in b; }
      if Whited(p, b) { var w :| w in b && Erases(w, p); assert w in a; }
      if Opaqued(p, a) { var o :| o in a && Empties(o, p); assert o in b; }
      if Opaqued(p, b) { var o :| o in b && Empties(o, p); assert o in a; }
    }
  }

  /******* Filtering while reading *******/

  ghost predicate FilteredReading(some: Result<Reading, LayerError>, every: Result<Reading, LayerError>,
                                  relevant: set<Path>) {
    if every.Err? then some == every
    else some.Ok? && some.value.seen == every.value.seen && some.value.layer == Filtered(every.value.layer, relevant)
  }

  lemma ReadOneFilters(some: Reading, every: Reading, m: Member, count: nat, targets: map<Path, string>,
                       relevant: set<Path>, all: set<Path>)
    requires m.path in all && some.seen == every.seen && some.layer == Filtered(every.layer, relevant)
    ensures FilteredReading(ReadOne(some, m, count, targets, relevant), ReadOne(every, m, count, targets, all),
            relevant)
  {
    var after := every.layer.entries[m.path := NodeOf(m, targets)];
    assert (map p | p in after && p in relevant :: after[p])
        == if m.path in relevant then some.layer.entries[m.path := NodeOf(m, targets)] else some.layer.entries;
  }

  /** Skipping untracked members while reading is filtering the layer that reading everything gives. */
  lemma {:induction false} ReadFilters(members: seq<Member>, targets: map<Path, string>, relevant: set<Path>,
                                       all: set<Path>)
    requires forall m :: m in members ==> m.path in all
    ensures FilteredReading(Read(members, targets, relevant), Read(members, targets, all), relevant)
  {
    if |members| > 0 {
      var front, last := members[..|members| - 1], members[|members| - 1];
      ReadFilters(front, targets, relevant, all);
      assert last in members;
      if Read(front, targets, all).Ok? {
        ReadOneFilters(Read(front, targets, relevant).value, Read(front, targets, all).value, last, |members|,
                       targets, relevant, all);
      }
    }
  }

  /** All members of all layers, read and overlaid; None when some layer is refused. */
  function Assembled(images: seq<seq<Member>>, targets: map<Path, string>, relevant: set<Path>): Option<seq<Layer>> {
    if |images| == 0 then Some([])
    else
      var before := Assembled(images[..|images| - 1], targets, relevant);
      var last := Read(images[|images| - 1], targets, relevant);
      if before.None? || last.Err? then None else Some(before.value + [last.value.layer])
  }

  lemma {:induction false} AssembledFilters(images: seq<seq<Member>>, targets: map<Path, string>, relevant: set<Path>,
                                            all: set<Path>)
    requires forall members, m :: members in images && m in members ==> m.path in all
    ensures var some, every := Assembled(images, targets, relevant), Assembled(images, targets, all);
            (some.Some? <==> every.Some?) && (some.Some? ==> some.value == FilteredAll(every.value, relevant))
  {
    if |images| > 0 {
      var front, last := images[..|images| - 1], images[|images| - 1];
      AssembledFilters(front, targets, relevant, all);
      assert last in images;
      ReadFilters(last, targets, relevant, all);
    }
  }

  predicate Verified(images: seq<seq<Member>>, targets: map<Path, string>, relevant: set<Path>) {
    var layers := Assembled(images, targets, relevant);
    layers.Some? && Accepts(Overlaid(layers.value), targets)
  }

  /**
   From tar members to verdict: keeping only tracked paths verifies exactly the images that keeping every path
   verifies.
   */
  lemma TrackedVerdictIsFullVerdict(images: seq<seq<Member>>, targets: map<Path, string>, all: set<Path>)
    requires forall members, m :: members in images && m in members ==> m.path in all
    ensures Verified(images, targets, Relevant(targets)) <==> Verified(images, targets, all)
  {
    AssembledFilters(images, targets, Relevant(targets), all);
    if Assembled(images, targets, all).Some? {
      TrackingIsEnough(Assembled(images, targets, all).value, targets);
    }
  }
}
