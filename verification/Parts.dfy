/**
 Archive parts: splitting and publishing (scripts/grafana_release_20261107_delivery.py),
 the transport inventory and reassembly (scripts/fetch_grafana_candidate.py).

 A digest of bytes is the bytes themselves; a part's name is its index under the archive's own prefix.
 */
module Parts {
  import opened Outcomes

  type Bytes = seq<bv8>

  const PART_BYTES := 64 * 1024 * 1024
  const MAX_PARTS := 32

  datatype Part = Part(index: nat, bytes: nat, sha256: Bytes)

  datatype Binding = Binding(bytes: int, sha256: Bytes)

  /** Block `i` of the archive, as sequential reads deliver it. */
  function Block(archive: Bytes, i: nat): Bytes
    requires i * PART_BYTES <= |archive|
  {
    archive[i * PART_BYTES..Min((i + 1) * PART_BYTES, |archive|)]
  }

  function PartCount(total: nat): nat {
    (total + PART_BYTES - 1) / PART_BYTES
  }

  lemma BlockFits(archive: Bytes, i: nat)
    ensures i < PartCount(|archive|) <==> i * PART_BYTES < |archive|
  {
  }

  function Plan(archive: Bytes): seq<Part> {
    seq(PartCount(|archive|), i requires 0 <= i < PartCount(|archive|) =>
        BlockFits(archive, i); Part(i, |Block(archive, i)|, Block(archive, i)))
  }

  predicate Matches(archive: Bytes, binding: Binding) {
    binding.bytes == |archive| && binding.sha256 == archive
  }

  /** `part_plan`: it succeeds exactly on the reviewed archive of 1 byte to 2 GiB, with the blocks in order. */
  method PartPlan(archive: Bytes, binding: Binding) returns (result: Option<seq<Part>>)
    ensures result.Some? <==> 0 < |archive| <= MAX_PARTS * PART_BYTES && Matches(archive, binding)
    ensures result.Some? <==> 0 < |archive| <= 2147483648 && binding.bytes == |archive| && binding.sha256 == archive
    ensures result.Some? ==> result.value == Plan(archive)
  {
    var parts: seq<Part> := [];
    var cursor := 0;
    while cursor < |archive|
      invariant cursor == Min(|parts| * PART_BYTES, |archive|) && |parts| <= PartCount(|archive|)
      invariant parts == Plan(archive)[..|parts|] && |parts| <= MAX_PARTS
    {
      BlockFits(archive, |parts|);
      if |parts| >= MAX_PARTS {
        return None;
      }
      var block := archive[cursor..Min(cursor + PART_BYTES, |archive|)];
      assert block == Block(archive, |parts|);
      parts := parts + [Part(|parts|, |block|, block)];
      cursor := cursor + |block|;
    }
    BlockFits(archive, |parts|);
    assert parts == Plan(archive);
    if parts == [] || |archive| != binding.bytes || archive != binding.sha256 {
      return None;
    }
    return Some(parts);
  }

  /** The sizes that `validate_transport` requires of an inventory for `total` bytes. */
  predicate ValidSizes(sizes: seq<nat>, total: nat) {
    && 0 < |sizes| <= MAX_PARTS && |sizes| == PartCount(total)
    && forall i :: 0 <= i < |sizes| ==> sizes[i] == Min(PART_BYTES, total - i * PART_BYTES)
  }

  function Sizes(parts: seq<Part>): seq<nat> {
    seq(|parts|, i requires 0 <= i < |parts| => parts[i].bytes)
  }

  function Total(sizes: seq<nat>): nat {
    if |sizes| == 0 then 0 else Total(sizes[..|sizes| - 1]) + sizes[|sizes| - 1]
  }

  /** A plan's sizes are exactly the required ones: each 1 byte to 64 MiB, together the whole archive. */
  lemma PlanHasValidSizes(archive: Bytes)
    requires 0 < |archive| <= MAX_PARTS * PART_BYTES
    ensures ValidSizes(Sizes(Plan(archive)), |archive|)
    ensures Total(Sizes(Plan(archive))) == |archive|
    ensures forall part :: part in Plan(archive) ==> 1 <= part.bytes <= PART_BYTES
    ensures |Plan(archive)| <= 32
    ensures forall i :: 0 <= i < |Plan(archive)| ==>
              && Plan(archive)[i].index == i && |Plan(archive)[i].sha256| == Plan(archive)[i].bytes
              && (i < |Plan(archive)| - 1 ==> Plan(archive)[i].bytes == 67108864)
              && Plan(archive)[i].bytes <= 67108864
  {
    var sizes := Sizes(Plan(archive));
    forall i | 0 <= i < |sizes| ensures sizes[i] == Min(PART_BYTES, |archive| - i * PART_BYTES) >= 1 {
      BlockFits(archive, i);
    }
    CountFits(|archive|);
    ValidSizesSum(sizes, |archive|, |sizes|);
    assert sizes[..|sizes|] == sizes;
  }

  lemma CountFits(total: nat)
    requires 0 < total <= MAX_PARTS * PART_BYTES
    ensures 0 < PartCount(total) <= MAX_PARTS && PartCount(total) * PART_BYTES >= total
  {
  }

  lemma {:induction false} ValidSizesSum(sizes: seq<nat>, total: nat, n: nat)
    requires ValidSizes(sizes, total) && n <= |sizes|
    ensures Total(sizes[..n]) == Min(n * PART_BYTES, total)
  {
    if n > 0 {
      ValidSizesSum(sizes, total, n - 1);
      assert sizes[..n][..n - 1] == sizes[..n - 1];
    }
  }

  /******* Reassembly *******/

  function Concatenated(blocks: seq<Bytes>): Bytes {
    if |blocks| == 0 then [] else Concatenated(blocks[..|blocks| - 1]) + blocks[|blocks| - 1]
  }

  function Digests(parts: seq<Part>): seq<Bytes> {
    seq(|parts|, i requires 0 <= i < |parts| => parts[i].sha256)
  }

  /** Where the bytes of one part come from: a cached file, or a response with its status and declared length. */
  datatype Source = Cached(content: Bytes) | Response(content: Bytes, status: int, declared: Option<int>)

  /** The size and digest checks that each part must pass before it is used. */
  predicate Checked(part: Part, content: Bytes) {
    |content| == part.bytes && content == part.sha256
  }

  predicate Fetched(part: Part, source: Source) {
    && Checked(part, source.content)
    && (source.Response? ==> source.status == 200 && (source.declared.None? || source.declared.value == part.bytes))
  }

  const READ_BYTES := 1024 * 1024

  /** Appends a stream block by block, and gives up as soon as the total passes the bound. */
  method CopyBounded(before: Bytes, stream: Bytes, bound: int) returns (copied: Option<Bytes>)
    ensures copied.Some? <==> stream == [] || |before| + |stream| <= bound
    ensures copied.Some? ==> copied.value == before + stream
  {
    var written, cursor := before, 0;
    while cursor < |stream|
      invariant cursor <= |stream| && written == before + stream[..cursor]
      invariant cursor > 0 ==> |written| <= bound
    {
      var next := Min(cursor + READ_BYTES, |stream|);
      assert stream[..cursor] + stream[cursor..next] == stream[..next];
      written, cursor := written + stream[cursor..next], next;
      if |written| > bound {
        return None;
      }
    }
    assert stream[..cursor] == stream;
    return Some(written);
  }

  method FetchPart(part: Part, source: Source) returns (ok: bool)
    ensures ok <==> Fetched(part, source)
    ensures ok <==> && |source.content| == part.bytes && source.content == part.sha256
                    && (source.Response? ==>
                          source.status == 200 && (source.declared == None || source.declared == Some(part.bytes)))
  {
    if source.Cached? {
      return Checked(part, source.content);
    }
    if source.status != 200 || (source.declared.Some? && source.declared.value != part.bytes) {
      return false;
    }
    var copied := CopyBounded([], source.content, part.bytes);
    assert [] + source.content == source.content;
    return copied.Some? && |copied.value| == part.bytes && copied.value == part.sha256;
  }

  /** Joining verified parts in order, bounded by the archive's size throughout. */
  method Assemble(blocks: seq<Bytes>, binding: Binding) returns (archive: Option<Bytes>)
    ensures archive.Some? <==> Matches(Concatenated(blocks), binding)
    ensures archive.Some? ==> archive.value == Concatenated(blocks)
  {
    var assembled: Bytes := [];
    for n := 0 to |blocks|
      invariant assembled == Concatenated(blocks[..n])
    {
      assert blocks[..n + 1][..n] == blocks[..n];
      ConcatenatedGrows(blocks, n + 1);
      var copied := CopyBounded(assembled, blocks[n], binding.bytes);
      if copied.None? {
        return None;
      }
      assembled := copied.value;
    }
    assert blocks[..|blocks|] == blocks;
    return if |assembled| == binding.bytes && assembled == binding.sha256 then Some(assembled) else None;
  }

  lemma {:induction false} ConcatenatedGrows(blocks: seq<Bytes>, n: nat)
    requires n <= |blocks|
    ensures |Concatenated(blocks[..n])| <= |Concatenated(blocks)|
    decreases |blocks|
  {
    if n == |blocks| {
      assert blocks[..n] == blocks;
    } else {
      assert blocks[..|blocks| - 1][..n] == blocks[..n];
      ConcatenatedGrows(blocks[..|blocks| - 1], n);
    }
  }

  /**
   `download_parts`: an archive already at the destination is returned when it is the reviewed one; otherwise checked
   parts from any mix of cached and fresh sources are joined in order and checked as a whole. `published` stands for the
   inventory and the live release.
   */
  method DownloadParts(published: bool, existing: Option<Bytes>, parts: seq<Part>, sources: seq<Source>,
                       binding: Binding)
    returns (archive: Option<Bytes>)
    requires |sources| == |parts|
    ensures archive.Some? ==> Matches(archive.value, binding)
                              && archive.value == if existing.Some? then existing.value
                                   else Concatenated(Digests(parts))
    ensures archive.Some? <==>
              published && if existing.Some? then Matches(existing.value, binding)
                           else (forall i :: 0 <= i < |parts| ==> Fetched(parts[i], sources[i]))
                                && Matches(Concatenated(Digests(parts)), binding)
  {
    if !published {
      return None;
    }
    if existing.Some? {
      return if Matches(existing.value, binding) then existing else None;
    }
    var verified: seq<Bytes> := [];
    for n := 0 to |parts|
      invariant forall i :: 0 <= i < n ==> Fetched(parts[i], sources[i])
      invariant verified == Digests(parts)[..n]
    {
      var ok := FetchPart(parts[n], sources[n]);
      if !ok {
        return None;
      }
      verified := verified + [sources[n].content];
    }
    assert verified == Digests(parts);
    archive := Assemble(verified, binding);
  }

  lemma BlockExtends(archive: Bytes, i: nat)
    requires i * PART_BYTES < |archive|
    ensures archive[..i * PART_BYTES] + Block(archive, i) == archive[..Min((i + 1) * PART_BYTES, |archive|)]
  {
  }

  lemma {:induction false} PlanConcatenates(archive: Bytes, n: nat)
    requires n <= PartCount(|archive|)
    ensures Concatenated(Digests(Plan(archive)[..n])) == archive[..Min(n * PART_BYTES, |archive|)]
  {
    if n > 0 {
      PlanConcatenates(archive, n - 1);
      BlockFits(archive, n - 1);
      BlockExtends(archive, n - 1);
      var blocks := Digests(Plan(archive)[..n]);
      assert blocks[..n - 1] == Digests(Plan(archive)[..n - 1]) && blocks[n - 1] == Block(archive, n - 1);
    } else {
      assert archive[..0] == [];
    }
  }

  /** Round trip: splitting an archive and joining checked parts from anywhere gives the same archive. */
  lemma PartsRoundTrip(archive: Bytes, binding: Binding)
    requires 0 < |archive| <= MAX_PARTS * PART_BYTES && Matches(archive, binding)
    ensures var parts := Plan(archive);
            && Concatenated(Digests(parts)) == archive
            && forall i :: 0 <= i < |parts| ==> Checked(parts[i], parts[i].sha256)
  {
    PlanConcatenates(archive, PartCount(|archive|));
    BlockFits(archive, PartCount(|archive|));
    assert archive[..|archive|] == archive;
    assert Plan(archive)[..|Plan(archive)|] == Plan(archive);
    forall i | 0 <= i < |Plan(archive)| ensures Checked(Plan(archive)[i], Plan(archive)[i].sha256) {
      BlockFits(archive, i);
    }
  }

  /******* Publishing *******/

  /** A release asset under the name of part `index`, with the bytes the server holds. */
  datatype Asset = Asset(index: nat, content: Bytes)

  class Release {
    var draft: bool
    var assets: seq<Asset>

    constructor (draft: bool, assets: seq<Asset>)
      ensures this.draft == draft && this.assets == assets
    {
      this.draft, this.assets := draft, assets;
    }
  }

  predicate Held(assets: seq<Asset>, index: nat) {
    exists a :: a in assets && a.index == index
  }

  lemma HeldStays(before: seq<Asset>, after: seq<Asset>, index: nat)
    requires before <= after
    ensures Held(before, index) ==> Held(after, index)
  {
    if Held(before, index) {
      var a :| a in before && a.index == index;
      assert a in after;
    }
  }

  predicate NamesDistinct(assets: seq<Asset>) {
    forall i, j :: 0 <= i < j < |assets| ==> assets[i].index != assets[j].index
  }

  /** The listing that publication may start from: named parts only, no name twice. */
  predicate Resumable(assets: seq<Asset>, parts: seq<Part>) {
    NamesDistinct(assets) && forall a :: a in assets ==> a.index < |parts|
  }

  predicate AllVerified(assets: seq<Asset>, parts: seq<Part>) {
    forall a :: a in assets ==> a.index < |parts| && Checked(parts[a.index], a.content)
  }

  /**
   Uploading so far, with all parts before `n` visited: nothing lost, only missing parts added, and only to a draft.
   */
  ghost predicate Resumed(before: seq<Asset>, now: seq<Asset>, parts: seq<Part>, received: seq<Bytes>, draft: bool,
                          n: nat)
    requires |received| == |parts|
  {
    && before <= now && Resumable(now, parts) && (!draft ==> now == before)
    && (forall a :: a in now && a.index >= n ==> a in before)
    && forall i :: 0 <= i < n && i < |parts| && !Held(before, i) ==> draft && Checked(parts[i], received[i])
  }

  /** Every part before `n` is held, and what is held under its name is that part. */
  ghost predicate UpToPart(assets: seq<Asset>, parts: seq<Part>, n: nat)
    requires n <= |parts|
  {
    && (forall i :: 0 <= i < n ==> Held(assets, i))
    && forall a :: a in assets && a.index < n ==> Checked(parts[a.index], a.content)
  }

  lemma Uploads(before: seq<Asset>, now: seq<Asset>, parts: seq<Part>, received: seq<Bytes>, n: nat)
    requires |received| == |parts| && n < |parts| && !Held(now, n)
    requires Resumed(before, now, parts, received, true, n) && UpToPart(now, parts, n)
    ensures var after := now + [Asset(n, received[n])];
            && before <= after && Resumable(after, parts) && UpToPart(after, parts, n) && Asset(n, received[n]) in after
            && forall a :: a in after && a.index > n ==> a in before
  {
    var after := now + [Asset(n, received[n])];
    forall i | 0 <= i < n ensures Held(after, i) {
      HeldStays(now, after, i);
    }
    forall a | a in now ensures a.index != n {
      assert a in now;
    }
    assert Asset(n, received[n]) == after[|now|];
  }

  /**
   What GitHub reports beside the assets: the release's own binding, the tag's commit when there is a tag, the draft's
   target.
   */
  datatype Remote = Remote(bound: bool, tag: Option<string>, target: string, finalTag: string)

  /** A missing tag is admitted only for a draft that fixes the source commit. */
  predicate SourceFixed(remote: Remote, draft: bool, source: string) {
    match remote.tag
    case Some(commit) => commit == source
    case None => draft && remote.target == source
  }

  /** Whether a listing, the uploads it lacks and what others add meanwhile let the release become public. */
  ghost predicate Publishable(assets: seq<Asset>, draft: bool, parts: seq<Part>, received: seq<Bytes>,
                              intruders: seq<Asset>)
    requires |received| == |parts|
  {
    && Resumable(assets, parts) && AllVerified(assets, parts) && intruders == []
    && forall i :: 0 <= i < |parts| && !Held(assets, i) ==> draft && Checked(parts[i], received[i])
  }

  /** Reading the archive again gives the planned blocks. */
  predicate Unchanged(parts: seq<Part>, reread: seq<Bytes>) {
    |reread| == |parts| && forall i :: 0 <= i < |parts| ==> reread[i] == parts[i].sha256
  }

  /** One turn of the upload loop: part `n` is uploaded if it is missing, and verified. */
  method UploadPart(release: Release, parts: seq<Part>, received: seq<Bytes>, n: nat, ghost before: seq<Asset>)
    returns (ok: bool)
    requires |received| == |parts| && n < |parts|
    requires Resumed(before, release.assets, parts, received, release.draft, n) && UpToPart(release.assets, parts, n)
    modifies release`assets
    ensures ok ==> Resumed(before, release.assets, parts, received, release.draft, n + 1)
                   && UpToPart(release.assets, parts, n + 1)
    ensures before <= release.assets && (!release.draft ==> release.assets == before)
    ensures !ok ==> !Publishable(before, release.draft, parts, received, [])
  {
    if !Held(release.assets, n) {
      HeldStays(before, release.assets, n);
      if !release.draft {
        return false;
      }
      Uploads(before, release.assets, parts, received, n);
      release.assets := release.assets + [Asset(n, received[n])];
    }
    var asset :| asset in release.assets && asset.index == n;
    return Checked(parts[n], asset.content);
  }

  /** The upload loop of `publish`: every part is present and verified afterwards, or the loop stopped. */
  method UploadMissing(release: Release, parts: seq<Part>, received: seq<Bytes>, reread: seq<Bytes>) returns (ok: bool)
    requires |received| == |reread| == |parts| && Resumable(release.assets, parts)
    modifies release`assets
    ensures old(release.assets) <= release.assets && (!release.draft ==> release.assets == old(release.assets))
    ensures ok <==> Publishable(old(release.assets), release.draft, parts, received, []) && Unchanged(parts, reread)
    ensures ok ==> |release.assets| == |parts| && Names(release.assets) == UpTo(|parts|)
                   && Resumable(release.assets, parts) && AllVerified(release.assets, parts)
  {
    ghost var before := release.assets;
    for n := 0 to |parts|
      invariant Resumed(before, release.assets, parts, received, release.draft, n)
      invariant UpToPart(release.assets, parts, n)
      invariant forall i :: 0 <= i < n ==> reread[i] == parts[i].sha256
    {
      if reread[n] != parts[n].sha256 {
        return false;
      }
      var done := UploadPart(release, parts, received, n, before);
      if !done {
        return false;
      }
    }
    OnePerPart(release.assets, |parts|);
    return true;
  }

  /**
   `publish` of the reviewed parts; `received` is what the server stores of each upload, `intruders` what others upload
   before the second listing, `reread` and `grown` what reading the archive again finds. The method never adds to a
   published release and never drops an asset; the release becomes public only with exactly the verified parts.
   */
  method Publish(release: Release, parts: seq<Part>, received: seq<Bytes>, intruders: seq<Asset>, reread: seq<Bytes>,
                 grown: bool, remote: Remote, source: string, authorized: bool, stillAuthorized: bool)
    returns (ok: bool)
    requires |received| == |reread| == |parts|
    modifies release
    ensures old(release.assets) <= release.assets
    ensures !old(release.draft) ==>
              release.assets == old(release.assets) || release.assets == old(release.assets) + intruders
    ensures var ready := && authorized && stillAuthorized && remote.bound
                         && (|| remote.tag == Some(source)
                             || (remote.tag == None && old(release.draft) && remote.target == source))
                         && Unchanged(parts, reread) && !grown
                         && Publishable(old(release.assets), old(release.draft), parts, received, intruders);
            && (release.draft <==> old(release.draft) && !ready)
            && (ready ==>
                  && |release.assets| == |parts| && Resumable(release.assets, parts)
                  && AllVerified(release.assets, parts))
            && (ok <==> ready && remote.finalTag == source)
    // A public release that was a draft holds, under each part's name, the planned bytes, from the planned source.
    ensures old(release.draft) && !release.draft ==>
              && authorized && stillAuthorized && remote.bound
              && (if remote.tag.Some? then remote.tag.value == source else remote.target == source)
              && |release.assets| == |parts|
              && (forall i, j :: 0 <= i < j < |release.assets| ==> release.assets[i].index != release.assets[j].index)
              && forall a :: a in release.assets ==>
                   a.index < |parts| && a.content == parts[a.index].sha256 && |a.content| == parts[a.index].bytes
  {
    if !authorized || !remote.bound || !SourceFixed(remote, release.draft, source)
        || !Resumable(release.assets, parts) {
      return false;
    }
    var complete := UploadMissing(release, parts, received, reread);
    if !complete || grown {
      return false;
    }
    assert intruders == [] ==> release.assets + intruders == release.assets;
    release.assets := release.assets + intruders;
    if |release.assets| != |parts| || Names(release.assets) != UpTo(|parts|)
       || exists a | a in release.assets :: a.index >= |parts| || !Checked(parts[a.index], a.content) {
      return false;
    }
    if !stillAuthorized {
      return false;
    }
    release.draft := false;
    return remote.finalTag == source;
  }

  function UpTo(n: nat): set<nat> {
    if n == 0 then {} else UpTo(n - 1) + {n - 1}
  }

  lemma {:induction false} UpToHas(n: nat)
    ensures |UpTo(n)| == n && forall i :: i in UpTo(n) <==> 0 <= i < n
  {
    if n > 0 {
      UpToHas(n - 1);
    }
  }

  function Names(assets: seq<Asset>): set<nat> {
    set i | 0 <= i < |assets| :: assets[i].index
  }

  lemma {:induction false} NamesSize(assets: seq<Asset>)
    requires NamesDistinct(assets)
    ensures |Names(assets)| == |assets|
  {
    if |assets| > 0 {
      var last := |assets| - 1;
      NamesSize(assets[..last]);
      assert Names(assets) == Names(assets[..last]) + {assets[last].index};
    }
  }

  /** Distinct names below n that include every one of them number exactly n. */
  lemma OnePerPart(assets: seq<Asset>, n: nat)
    requires NamesDistinct(assets) && forall a :: a in assets ==> a.index < n
    requires forall i :: 0 <= i < n ==> Held(assets, i)
    ensures |assets| == n && Names(assets) == UpTo(n)
  {
    NamesSize(assets);
    UpToHas(n);
    assert Names(assets) == UpTo(n) by {
      forall i | i in UpTo(n) ensures i in Names(assets) {
        assert Held(assets, i);
        var a :| a in assets && a.index == i;
      }
    }
  }
}
