/**
 The descriptor walk and the bounded layer reader of scripts/oci_artifact.py.

 An archive gives, for each blob digest, the tar member stored under that name (its
 actual size and the digest of its actual bytes) and, where it parses, its JSON document.
 */
module Descriptors {
  import opened Outcomes

  datatype Media = Index | Manifest | Config | RawLayer | GzipLayer | Attestation | Unknown

  datatype Descriptor = Descriptor(digest: string, size: int, media: Media)

  datatype Blob = Blob(isFile: bool, size: nat, contentDigest: string)

  datatype Document = Document(manifests: seq<Descriptor>, config: Option<Descriptor>, layers: seq<Descriptor>)

  datatype Archive = Archive(blobs: map<string, Blob>, documents: map<string, Document>)

  datatype OciError = TooDeep | BadDigest | UnknownMedia | MissingBlob | ContentDiffers | BadMetadata

  const MAX_DEPTH := 32
  const MAX_METADATA := 4 * 1024 * 1024

  predicate WellFormed(digest: string) {
    |digest| == 71 && digest[..7] == "sha256:"
    && forall i :: 7 <= i < 71 ==> '0' <= digest[i] <= '9' || 'a' <= digest[i] <= 'f'
  }

  predicate Container(media: Media) {
    media.Index? || media.Manifest?
  }

  function Children(document: Document): seq<Descriptor> {
    document.manifests + (if document.config.Some? then [document.config.value] else []) + document.layers
  }

  /** The stored member is a file of exactly the stated size. */
  predicate Sized(archive: Archive, d: Descriptor) {
    d.digest in archive.blobs && archive.blobs[d.digest].isFile && archive.blobs[d.digest].size == d.size
  }

  predicate Intact(archive: Archive, digest: string) {
    digest in archive.blobs && archive.blobs[digest].isFile && archive.blobs[digest].contentDigest == digest
  }

  /** A reference that the walk has accepted. */
  predicate Accepted(archive: Archive, visited: set<string>, d: Descriptor) {
    d.digest in visited && WellFormed(d.digest) && !d.media.Unknown? && Sized(archive, d) && Intact(archive, d.digest)
  }

  /**
   An accepted reference, written out: a known kind, a SHA-256 digest, and the stored file of that size and content.
   */
  lemma AcceptedMeans(archive: Archive, visited: set<string>, d: Descriptor)
    ensures Accepted(archive, visited, d)
            <==> && d.digest in visited && d.media in {Index, Manifest, Config, RawLayer, GzipLayer, Attestation}
                 && |d.digest| == 71 && d.digest[..7] == "sha256:"
                 && (forall i :: 7 <= i < 71 ==> '0' <= d.digest[i] <= '9' || 'a' <= d.digest[i] <= 'f')
                 && d.digest in archive.blobs && archive.blobs[d.digest].isFile
                 && archive.blobs[d.digest].size == d.size && archive.blobs[d.digest].contentDigest == d.digest
  {
  }

  /** What is wrong with one reference, in the order the code tests it. */
  function Fault(archive: Archive, d: Descriptor): Option<OciError> {
    if !WellFormed(d.digest) then Some(BadDigest)
    else if d.media.Unknown? then Some(UnknownMedia)
    else if !Sized(archive, d) then Some(MissingBlob)
    else if archive.blobs[d.digest].contentDigest != d.digest then Some(ContentDiffers)
    else if Container(d.media) && (archive.blobs[d.digest].size > MAX_METADATA || d.digest !in archive.documents)
    then Some(BadMetadata)
    else None
  }

  /** Each fault written out; the first that applies is the one reported. */
  lemma FaultMeans(archive: Archive, d: Descriptor)
    ensures var fault, named := Fault(archive, d), WellFormed(d.digest) && d.media != Unknown;
            var stored := named && d.digest in archive.blobs && archive.blobs[d.digest].isFile
                          && archive.blobs[d.digest].size == d.size;
            var whole := stored && archive.blobs[d.digest].contentDigest == d.digest;
            var expandable := d.size <= 4194304 && d.digest in archive.documents;
            && (fault == Some(BadDigest) <==> !WellFormed(d.digest))
            && (fault == Some(UnknownMedia) <==> WellFormed(d.digest) && d.media == Unknown)
            && (fault == Some(MissingBlob) <==> named && !stored)
            && (fault == Some(ContentDiffers) <==> stored && !whole)
            && (fault == Some(BadMetadata) <==> whole && d.media in {Index, Manifest} && !expandable)
            && (fault == None <==> whole && (d.media in {Index, Manifest} ==> expandable))
  {
  }

  /** A chain of references from `root`, each followed from the document of the one before. */
  ghost predicate Chain(archive: Archive, root: Descriptor, chain: seq<Descriptor>) {
    |chain| > 0 ==>
      && var from := End(root, chain[..|chain| - 1]);
         && Container(from.media) && from.digest in archive.documents
         && chain[|chain| - 1] in Children(archive.documents[from.digest])
         && Chain(archive, root, chain[..|chain| - 1])
  }

  /** A reference of a document is one of its manifests, its configuration or one of its layers. */
  lemma ChildrenAre(document: Document, c: Descriptor)
    ensures c in Children(document)
            <==> c in document.manifests || document.config == Some(c) || c in document.layers
  {
  }

  function End(root: Descriptor, chain: seq<Descriptor>): Descriptor {
    if |chain| == 0 then root else chain[|chain| - 1]
  }

  /** The chain explains the error: it runs past the depth bound, or ends at a reference with just that fault. */
  ghost predicate Explains(archive: Archive, d: Descriptor, depth: nat, chain: seq<Descriptor>, error: OciError) {
    && Chain(archive, d, chain)
    && if error.TooDeep? then depth + |chain| == MAX_DEPTH + 1 else Fault(archive, End(d, chain)) == Some(error)
  }

  ghost predicate Explained(archive: Archive, d: Descriptor, depth: nat, error: OciError) {
    exists chain: seq<Descriptor> :: Explains(archive, d, depth, chain, error)
  }

  lemma {:induction false} ChainPrepend(archive: Archive, d: Descriptor, child: Descriptor, chain: seq<Descriptor>)
    requires Container(d.media) && d.digest in archive.documents && child in Children(archive.documents[d.digest])
    requires Chain(archive, child, chain)
    ensures Chain(archive, d, [child] + chain) && End(d, [child] + chain) == End(child, chain)
  {
    var longer := [child] + chain;
    if |chain| > 0 {
      ChainPrepend(archive, d, child, chain[..|chain| - 1]);
      assert longer[..|longer| - 1] == [child] + chain[..|chain| - 1];
    } else {
      assert longer[..0] == [];
    }
  }

  lemma ChildExplains(archive: Archive, d: Descriptor, child: Descriptor, depth: nat, error: OciError)
    requires Container(d.media) && d.digest in archive.documents && child in Children(archive.documents[d.digest])
    requires Explained(archive, child, depth + 1, error)
    ensures Explained(archive, d, depth, error)
  {
    var chain: seq<Descriptor> :| Explains(archive, child, depth + 1, chain, error);
    ChainPrepend(archive, d, child, chain);
    assert Explains(archive, d, depth, [child] + chain, error);
  }

  lemma OwnFaultExplains(archive: Archive, d: Descriptor, depth: nat, error: OciError)
    requires if error.TooDeep? then depth == MAX_DEPTH + 1 else Fault(archive, d) == Some(error)
    ensures Explained(archive, d, depth, error)
  {
    assert Explains(archive, d, depth, [], error);
  }

  /** A small enough document whose every reference has been accepted. */
  predicate ClosedAt(archive: Archive, visited: set<string>, x: string) {
    && x in archive.blobs && archive.blobs[x].size <= MAX_METADATA && x in archive.documents
    && forall c :: c in Children(archive.documents[x]) ==> Accepted(archive, visited, c)
  }

  predicate Closed(archive: Archive, visited: set<string>, expanded: set<string>) {
    forall x :: x in expanded ==> ClosedAt(archive, visited, x)
  }

  /** The chain leads from `d` to `x`, and each reference it follows is held by an expanded document. */
  ghost predicate Leads(archive: Archive, expanded: set<string>, d: Descriptor, chain: seq<Descriptor>, x: Descriptor) {
    && Chain(archive, d, chain) && End(d, chain) == x
    && forall i :: 0 <= i < |chain| ==> End(d, chain[..i]).digest in expanded
  }

  ghost predicate Reached(archive: Archive, expanded: set<string>, d: Descriptor, x: Descriptor) {
    exists chain: seq<Descriptor> :: Leads(archive, expanded, d, chain, x)
  }

  lemma ReachesItself(archive: Archive, expanded: set<string>, d: Descriptor)
    ensures Reached(archive, expanded, d, d)
  {
    assert Leads(archive, expanded, d, [], d);
  }

  lemma ReachedMore(archive: Archive, some: set<string>, more: set<string>, d: Descriptor, x: Descriptor)
    requires some <= more && Reached(archive, some, d, x)
    ensures Reached(archive, more, d, x)
  {
    var chain: seq<Descriptor> :| Leads(archive, some, d, chain, x);
    assert Leads(archive, more, d, chain, x);
  }

  lemma ReachedThrough(archive: Archive, expanded: set<string>, d: Descriptor, child: Descriptor, x: Descriptor)
    requires Container(d.media) && d.digest in archive.documents && child in Children(archive.documents[d.digest])
    requires d.digest in expanded && Reached(archive, expanded, child, x)
    ensures Reached(archive, expanded, d, x)
  {
    var chain: seq<Descriptor> :| Leads(archive, expanded, child, chain, x);
    var longer := [child] + chain;
    ChainPrepend(archive, d, child, chain);
    forall i | 0 <= i < |longer| ensures End(d, longer[..i]).digest in expanded {
      if i > 0 {
        assert longer[..i] == [child] + chain[..i - 1];
        assert End(d, longer[..i]) == End(child, chain[..i - 1]);
      }
    }
    assert Leads(archive, expanded, d, longer, x);
  }

  class Walker {
    const archive: Archive
    var verified: set<string>
    var visited: set<string>
    /** The reference under which each visited digest was first reached. */
    ghost var first: map<string, Descriptor>

    constructor (archive: Archive)
      ensures this.archive == archive && Valid()
      ensures verified == visited == {} && first == map[]
    {
      this.archive := archive;
      verified, visited, first := {}, {}, map[];
    }

    ghost predicate Valid()
      reads this
    {
      && first.Keys == visited <= verified
      && (forall x :: x in verified ==> Intact(archive, x))
      && (forall x :: x in first ==> first[x].digest == x)
    }

    /** The visited digests that were first reached as an index or a manifest. */
    ghost function Expanded(): set<string>
      reads this
    {
      set x | x in first && Container(first[x].media)
    }

    method CheckBlob(d: Descriptor) returns (error: Option<OciError>)
      requires Valid()
      modifies this`verified
      ensures Valid() && verified == old(verified) + if error.None? then {d.digest} else {}
      ensures error.None? <==> WellFormed(d.digest) && Sized(archive, d) && Intact(archive, d.digest)
      ensures error.Some? && !d.media.Unknown? ==> error == Fault(archive, d)
    {
      if !WellFormed(d.digest) {
        return Some(BadDigest);
      }
      if !Sized(archive, d) {
        return Some(MissingBlob);
      }
      if d.digest !in verified {
        if archive.blobs[d.digest].contentDigest != d.digest {
          return Some(ContentDiffers);
        }
        verified := verified + {d.digest};
      }
      return None;
    }

    /**
     `visit`: accepted references only, each document expanded once, and every newly expanded document closed on
     return.
     */
    method Visit(d: Descriptor, depth: nat) returns (error: Option<OciError>)
      requires Valid() && depth <= MAX_DEPTH + 1
      modifies this`verified, this`visited, this`first
      ensures Valid() && old(visited) <= visited && Extends(old(first), first)
      ensures error.None? ==> Accepted(archive, visited, d)
      ensures error.None? ==> Closed(archive, visited, Expanded() - old(Expanded()))
      ensures Traced(archive, d, old(first), first, Expanded() - old(Expanded()))
      ensures error.Some? ==> Explained(archive, d, depth, error.value)
      ensures depth > MAX_DEPTH ==> error == Some(TooDeep)
      decreases MAX_DEPTH + 1 - depth, 2
    {
      if Fault(archive, d).Some? {
        OwnFaultExplains(archive, d, depth, Fault(archive, d).value);
      }
      if depth > MAX_DEPTH {
        OwnFaultExplains(archive, d, depth, TooDeep);
        return Some(TooDeep);
      }
      if !WellFormed(d.digest) {
        return Some(BadDigest);
      }
      if d.media.Unknown? {
        return Some(UnknownMedia);
      }
      error := CheckBlob(d);
      if error.Some? || d.digest in visited {
        return;
      }
      error := Enter(d, depth);
    }

    /** The rest of `visit`, for an accepted reference to a digest that is new. */
    method Enter(d: Descriptor, depth: nat) returns (error: Option<OciError>)
      requires Valid() && depth <= MAX_DEPTH && d.digest !in visited
      requires WellFormed(d.digest) && !d.media.Unknown? && Sized(archive, d) && d.digest in verified
      modifies this`verified, this`visited, this`first
      ensures Valid() && old(visited) <= visited && Extends(old(first), first)
      ensures error.None? ==> Accepted(archive, visited, d) && Closed(archive, visited, Expanded() - old(Expanded()))
      ensures Traced(archive, d, old(first), first, Expanded() - old(Expanded()))
      ensures error.Some? ==> Explained(archive, d, depth, error.value)
      decreases MAX_DEPTH + 1 - depth, 1
    {
      visited, first := visited + {d.digest}, first[d.digest := d];
      ReachesItself(archive, Expanded() - old(Expanded()), d);
      if Container(d.media) {
        ghost var expanded := Expanded();
        assert expanded == old(Expanded()) + {d.digest} && d.digest !in old(Expanded());
        error := Expand(d, depth);
        assert {d.digest} + (Expanded() - expanded) == Expanded() - old(Expanded());
        ReachesItself(archive, Expanded() - old(Expanded()), d);
      } else {
        error := CheckBlob(d);
        assert Expanded() == old(Expanded());
      }
    }

    /** The branch of `visit` for an index or a manifest. */
    method Expand(d: Descriptor, depth: nat) returns (error: Option<OciError>)
      requires Valid() && depth <= MAX_DEPTH && Container(d.media) && Accepted(archive, visited, d)
      modifies this`verified, this`visited, this`first
      ensures Reaching(d, old(first), old(Expanded())) && old(visited) <= visited
      ensures error.None? ==> Closed(archive, visited, {d.digest} + (Expanded() - old(Expanded())))
      ensures error.Some? ==> Explained(archive, d, depth, error.value)
      decreases MAX_DEPTH + 1 - depth, 0
    {
      if archive.blobs[d.digest].size > MAX_METADATA || d.digest !in archive.documents {
        OwnFaultExplains(archive, d, depth, BadMetadata);
        return Some(BadMetadata);
      }
      error := VisitAll(d, Children(archive.documents[d.digest]), depth + 1);
      if error.Some? {
        ghost var child :| child in Children(archive.documents[d.digest])
            && Explained(archive, child, depth + 1, error.value);
        ChildExplains(archive, d, child, depth, error.value);
      }
    }

    /** What the walk of a document has reached since `start`, when the expanded digests were `outset`. */
    ghost predicate Reaching(parent: Descriptor, start: map<string, Descriptor>, outset: set<string>)
      reads this
    {
      && Valid() && Extends(start, first) && outset <= Expanded()
      && Traced(archive, parent, start, first, {parent.digest} + (Expanded() - outset))
    }

    /** The references in `done` are accepted, and everything expanded since `outset` is closed. */
    ghost predicate Settled(outset: set<string>, done: seq<Descriptor>)
      reads this
    {
      AllAccepted(archive, visited, done) && Closed(archive, visited, Expanded() - outset)
    }

    /** One turn of a child loop. */
    method VisitChild(ghost parent: Descriptor, child: Descriptor, depth: nat, ghost done: seq<Descriptor>,
                      ghost start: map<string, Descriptor>, ghost outset: set<string>)
      returns (error: Option<OciError>)
      requires 0 < depth <= MAX_DEPTH + 1 && Reaching(parent, start, outset) && Settled(outset, done)
      requires HasChild(archive, parent, child)
      modifies this`verified, this`visited, this`first
      ensures Reaching(parent, start, outset)
      ensures error.None? ==> Settled(outset, done + [child])
      ensures error.Some? ==> Explained(archive, child, depth, error.value)
      decreases MAX_DEPTH + 1 - depth, 3
    {
      ghost var before, known, seen := Expanded(), first, visited;
      error := Visit(child, depth);
      assert before <= Expanded();
      TracedStep(archive, start, known, first, parent, outset, before, Expanded(), child);
      if error.None? {
        ClosedStep(archive, seen, visited, outset, before, Expanded());
        AllAcceptedMore(archive, seen, visited, done, child);
      }
    }

    /** The three child loops, one after the other over one list. */
    method VisitAll(ghost parent: Descriptor, children: seq<Descriptor>, depth: nat) returns (error: Option<OciError>)
      requires Valid() && 0 < depth <= MAX_DEPTH + 1
      requires forall child :: child in children ==> HasChild(archive, parent, child)
      modifies this`verified, this`visited, this`first
      ensures Reaching(parent, old(first), old(Expanded()))
      ensures error.None? ==> Settled(old(Expanded()), children)
      ensures error.Some? ==> exists child :: child in children && Explained(archive, child, depth, error.value)
      decreases MAX_DEPTH + 1 - depth, 4
    {
      ghost var start, outset := first, Expanded();
      for n := 0 to |children|
        invariant Reaching(parent, start, outset) && Settled(outset, children[..n])
      {
        error := VisitChild(parent, children[n], depth, children[..n], start, outset);
        if error.Some? {
          return;
        }
        assert children[..n + 1] == children[..n] + [children[n]];
      }
      assert children[..|children|] == children;
      return None;
    }
  }

  lemma AllAcceptedMore(archive: Archive, before: set<string>, after: set<string>, references: seq<Descriptor>,
                        d: Descriptor)
    requires AllAccepted(archive, before, references) && before <= after && Accepted(archive, after, d)
    ensures AllAccepted(archive, after, references + [d])
  {
  }

  predicate AllAccepted(archive: Archive, visited: set<string>, references: seq<Descriptor>) {
    forall c :: c in references ==> Accepted(archive, visited, c)
  }

  ghost predicate Extends(before: map<string, Descriptor>, after: map<string, Descriptor>) {
    forall x :: x in before ==> x in after && after[x] == before[x]
  }

  /** Everything newly reached is reached from `d` through expanded documents. */
  ghost predicate Traced(archive: Archive, d: Descriptor, before: map<string, Descriptor>,
                         after: map<string, Descriptor>, expanded: set<string>)
  {
    forall x :: x in after && x !in before ==> Reached(archive, expanded, d, after[x])
  }

  predicate HasChild(archive: Archive, d: Descriptor, child: Descriptor) {
    Container(d.media) && d.digest in archive.documents && child in Children(archive.documents[d.digest])
  }

  lemma TracedStep(archive: Archive, start: map<string, Descriptor>, before: map<string, Descriptor>,
                   after: map<string, Descriptor>, p: Descriptor, e0: set<string>, e1: set<string>, e2: set<string>,
                   child: Descriptor)
    requires Extends(start, before) && Extends(before, after) && e0 <= e1 <= e2 && HasChild(archive, p, child)
    requires Traced(archive, p, start, before, {p.digest} + (e1 - e0)) && Traced(archive, child, before, after, e2 - e1)
    ensures Traced(archive, p, start, after, {p.digest} + (e2 - e0))
  {
    var all := {p.digest} + (e2 - e0);
    forall x | x in after && x !in start ensures Reached(archive, all, p, after[x]) {
      if x in before {
        ReachedMore(archive, {p.digest} + (e1 - e0), all, p, before[x]);
      } else {
        ReachedMore(archive, e2 - e1, all, child, after[x]);
        ReachedThrough(archive, all, p, child, after[x]);
      }
    }
  }

  lemma ClosedStep(archive: Archive, v1: set<string>, v2: set<string>, e0: set<string>, e1: set<string>,
                   e2: set<string>)
    requires v1 <= v2 && e0 <= e1 <= e2 && Closed(archive, v1, e1 - e0) && Closed(archive, v2, e2 - e1)
    ensures Closed(archive, v2, e2 - e0)
  {
    forall x | x in e2 - e0 ensures ClosedAt(archive, v2, x) {
      if x in e1 {
        assert x in e1 - e0 && ClosedAt(archive, v1, x);
      } else {
        assert x in e2 - e1;
      }
    }
  }

  /** No digest is referred to both as a container and as a leaf. */
  ghost predicate Consistent(archive: Archive, root: Descriptor, containers: set<string>) {
    && (Container(root.media) <==> root.digest in containers)
    && forall x, c :: x in archive.documents && c in Children(archive.documents[x]) ==>
         (Container(c.media) <==> c.digest in containers)
  }

  /** Under consistent typing the digests expanded by a walk are exactly the visited containers. */
  lemma VisitedContainersAreExpanded(archive: Archive, root: Descriptor, first: map<string, Descriptor>,
                                     expanded: set<string>, containers: set<string>)
    requires Consistent(archive, root, containers)
    requires expanded == set x | x in first && Container(first[x].media)
    requires forall x :: x in first ==> first[x].digest == x && Reached(archive, expanded, root, first[x])
    ensures forall x :: x in first ==> (x in containers <==> x in expanded)
  {
    forall x | x in first ensures x in containers <==> x in expanded {
      var chain: seq<Descriptor> :| Leads(archive, expanded, root, chain, first[x]);
      if chain != [] {
        assert first[x] in Children(archive.documents[End(root, chain[..|chain| - 1]).digest]);
      }
    }
  }

  /**
   After a successful walk of a consistently typed graph, every reference that any chain reaches has been accepted.
   */
  lemma {:induction false} ChainsAreAccepted(archive: Archive, root: Descriptor, visited: set<string>,
                                             expanded: set<string>,
                                             containers: set<string>, chain: seq<Descriptor>)
    requires Consistent(archive, root, containers) && Chain(archive, root, chain)
    requires Accepted(archive, visited, root) && Closed(archive, visited, expanded)
    requires forall x :: x in visited && x in containers ==> x in expanded
    ensures Accepted(archive, visited, End(root, chain))
  {
    if |chain| > 0 {
      var front := chain[..|chain| - 1];
      ChainsAreAccepted(archive, root, visited, expanded, containers, front);
      var from := End(root, front);
      if |front| > 0 {
        assert from in Children(archive.documents[End(root, front[..|front| - 1]).digest]);
      }
      assert from.digest in expanded && ClosedAt(archive, visited, from.digest);
    }
  }

  /**
   Walking from the root: nothing is visited but what a chain of references from the root reaches. On success the
   visited digests are intact, and, unless some digest is referred to both as a container and as a leaf, every
   reference that any chain reaches has been accepted; a failure is explained by a chain that is too long or ends at a
   faulty reference.
   */
  method Walk(archive: Archive, root: Descriptor) returns (walker: Walker, error: Option<OciError>)
    ensures fresh(walker) && walker.archive == archive && walker.Valid()
    ensures forall x :: x in walker.visited ==>
              x in walker.first && walker.first[x].digest == x
                  && Reached(archive, walker.Expanded(), root, walker.first[x])
    ensures error.Some? ==> Explained(archive, root, 0, error.value)
    ensures error.None? ==>
              && Accepted(archive, walker.visited, root) && Closed(archive, walker.visited, walker.Expanded())
              && (forall x :: x in walker.visited ==> Intact(archive, x))
    // Nothing held by an index or manifest that was expanded is left unvisited, and expanding is bounded.
    ensures error.None? ==>
              forall x :: x in walker.visited && walker.first[x].media in {Index, Manifest} ==>
                && x in archive.blobs && archive.blobs[x].size <= 4194304 && x in archive.documents
                && (forall c :: c in archive.documents[x].manifests ==> Accepted(archive, walker.visited, c))
                && (archive.documents[x].config.Some? ==>
                      Accepted(archive, walker.visited, archive.documents[x].config.value))
                && (forall c :: c in archive.documents[x].layers ==> Accepted(archive, walker.visited, c))
    ensures error == Some(TooDeep) ==> exists chain: seq<Descriptor> :: Chain(archive, root, chain) && |chain| == 33
    ensures error.None? ==>
              forall containers, chain :: Consistent(archive, root, containers) && Chain(archive, root, chain) ==>
                Accepted(archive, walker.visited, End(root, chain))
  {
    walker := new Walker(archive);
    assert walker.Expanded() == {};
    error := walker.Visit(root, 0);
    assert walker.Expanded() - {} == walker.Expanded();
    if error == Some(TooDeep) {
      ghost var chain: seq<Descriptor> :| Explains(archive, root, 0, chain, TooDeep);
      assert Chain(archive, root, chain) && |chain| == 33;
    }
    if error.None? {
      ExpandedHoldAll(archive, walker.visited, walker.Expanded());
    }
    if error.None? {
      forall containers, chain | Consistent(archive, root, containers) && Chain(archive, root, chain)
        ensures Accepted(archive, walker.visited, End(root, chain))
      {
        VisitedContainersAreExpanded(archive, root, walker.first, walker.Expanded(), containers);
        ChainsAreAccepted(archive, root, walker.visited, walker.Expanded(), containers, chain);
      }
    }
  }

  /** A closed document leaves none of its manifests, its configuration or its layers out. */
  lemma ExpandedHoldAll(archive: Archive, visited: set<string>, expanded: set<string>)
    requires Closed(archive, visited, expanded)
    ensures forall x :: x in expanded ==>
              && x in archive.blobs && archive.blobs[x].size <= 4194304 && x in archive.documents
              && (forall c :: c in archive.documents[x].manifests ==> Accepted(archive, visited, c))
              && (archive.documents[x].config.Some? ==> Accepted(archive, visited, archive.documents[x].config.value))
              && (forall c :: c in archive.documents[x].layers ==> Accepted(archive, visited, c))
  {
    forall x | x in expanded
      ensures ClosedAt(archive, visited, x)
      ensures forall c :: c in archive.documents[x].manifests ==> c in Children(archive.documents[x])
      ensures archive.documents[x].config.Some? ==> archive.documents[x].config.value in Children(archive.documents[x])
      ensures forall c :: c in archive.documents[x].layers ==> c in Children(archive.documents[x])
    {
    }
  }
}
