/**
 Merging the sealed snapshots of all attempts (`merge_snapshots` in scripts/ci_budget_ledger.py),
 and what an accepted merge proves although no check states it: the attempts' request
 ranges tile the ledger.
 */
module Merge {
  import opened Outcomes
  import opened Ledger
  import opened CiLedger

  type Key = (int, int)

  function KeyOf(snapshot: Snapshot): Key {
    (snapshot.run.id, snapshot.run.attempt)
  }

  function Start(snapshot: Snapshot): int {
    snapshot.receipt.start
  }

  function Rated(snapshot: Snapshot, agreement: Agreement): nat {
    Rank(agreement, snapshot.receipt.authorization)
  }

  /******* One snapshot per attempt *******/

  function IndexOf(unique: seq<Snapshot>, key: Key): (i: nat)
    ensures i <= |unique| && (i < |unique| ==> KeyOf(unique[i]) == key)
    ensures forall j :: 0 <= j < i ==> KeyOf(unique[j]) != key
  {
    if |unique| == 0 then 0
    else if KeyOf(unique[0]) == key then 0
    else 1 + IndexOf(unique[1..], key)
  }

  predicate Conflict(a: Snapshot, b: Snapshot) {
    a.rows != b.rows || a.origins != b.origins || a.receipt.authorization != b.receipt.authorization
    || a.states.halt != b.states.halt
  }

  /** Python's dict keeps the position of the first insertion and the value of the last. */
  function Put(unique: seq<Snapshot>, snapshot: Snapshot): Result<seq<Snapshot>, ChainError> {
    var i := IndexOf(unique, KeyOf(snapshot));
    if i == |unique| then Ok(unique + [snapshot])
    else if Conflict(unique[i], snapshot) then Err(AmbiguousDuplicate)
    else Ok(unique[i := snapshot])
  }

  function Unique(snapshots: seq<Snapshot>): Result<seq<Snapshot>, ChainError> {
    if |snapshots| == 0 then Ok([])
    else
      var before := Unique(snapshots[..|snapshots| - 1]);
      if before.Err? then before else Put(before.value, snapshots[|snapshots| - 1])
  }

  ghost predicate KeysDistinct(snapshots: seq<Snapshot>) {
    forall i, j :: 0 <= i < j < |snapshots| ==> KeyOf(snapshots[i]) != KeyOf(snapshots[j])
  }

  /******* Sorting *******/

  /** Strictly before, by (number of rows, start, rank). */
  predicate Precedes(a: Snapshot, b: Snapshot, agreement: Agreement) {
    || |a.rows| < |b.rows|
    || (|a.rows| == |b.rows| && Start(a) < Start(b))
    || (|a.rows| == |b.rows| && Start(a) == Start(b) && Rated(a, agreement) < Rated(b, agreement))
  }

  /** Insertion after every element that does not follow it, which makes the sort stable. */
  function Place(sorted: seq<Snapshot>, snapshot: Snapshot, agreement: Agreement): seq<Snapshot> {
    if |sorted| == 0 || !Precedes(snapshot, sorted[|sorted| - 1], agreement) then sorted + [snapshot]
    else Place(sorted[..|sorted| - 1], snapshot, agreement) + [sorted[|sorted| - 1]]
  }

  function Sorted(snapshots: seq<Snapshot>, agreement: Agreement): seq<Snapshot> {
    if |snapshots| == 0 then []
    else Place(Sorted(snapshots[..|snapshots| - 1], agreement), snapshots[|snapshots| - 1], agreement)
  }

  ghost predicate InOrder(snapshots: seq<Snapshot>, agreement: Agreement) {
    forall i, j :: 0 <= i < j < |snapshots| ==> !Precedes(snapshots[j], snapshots[i], agreement)
  }

  ghost predicate SameElements(a: seq<Snapshot>, b: seq<Snapshot>) {
    forall s :: s in a <==> s in b
  }

  lemma {:induction false} PlaceKeepsOrder(sorted: seq<Snapshot>, snapshot: Snapshot, agreement: Agreement)
    requires InOrder(sorted, agreement) && KeysDistinct(sorted)
    requires forall s :: s in sorted ==> KeyOf(s) != KeyOf(snapshot)
    ensures var placed := Place(sorted, snapshot, agreement);
            InOrder(placed, agreement) && KeysDistinct(placed) && SameElements(placed, sorted + [snapshot])
  {
    if |sorted| > 0 && Precedes(snapshot, sorted[|sorted| - 1], agreement) {
      var front, last := sorted[..|sorted| - 1], sorted[|sorted| - 1];
      PlaceKeepsOrder(front, snapshot, agreement);
      var placed := Place(front, snapshot, agreement);
      forall i | 0 <= i < |placed| ensures !Precedes(last, placed[i], agreement) && KeyOf(placed[i]) != KeyOf(last) {
        assert placed[i] in front + [snapshot];
      }
      assert sorted == front + [last];
    }
  }

  lemma {:induction false} SortedIsOrdered(snapshots: seq<Snapshot>, agreement: Agreement)
    requires KeysDistinct(snapshots)
    ensures var sorted := Sorted(snapshots, agreement);
            InOrder(sorted, agreement) && KeysDistinct(sorted) && SameElements(sorted, snapshots)
  {
    if |snapshots| > 0 {
      var front := snapshots[..|snapshots| - 1];
      SortedIsOrdered(front, agreement);
      PlaceKeepsOrder(Sorted(front, agreement), snapshots[|snapshots| - 1], agreement);
      assert snapshots == front + [snapshots[|snapshots| - 1]];
    }
  }

  /******* The scan along the sorted chain *******/

  datatype Cursor = Cursor(rows: seq<Row>, origins: seq<Origin>, halted: bool, rank: nat)

  function Advance(cursor: Cursor, snapshot: Snapshot, agreement: Agreement): Result<Cursor, ChainError> {
    if Start(snapshot) > |cursor.rows| then Err(MissingAttempt)
    else if !(cursor.rows <= snapshot.rows) || !(cursor.origins <= snapshot.origins) then Err(Divergent)
    else if cursor.halted && snapshot.states.halt.None? then Err(HaltRemoved)
    else if Rated(snapshot, agreement) < cursor.rank then Err(AmendmentRemoved)
    else Ok(Cursor(snapshot.rows, snapshot.origins, cursor.halted || snapshot.states.halt.Some?,
                   Rated(snapshot, agreement)))
  }

  function Outset(agreement: Agreement): Cursor {
    Cursor(agreement.baseline, agreement.baselineOrigins, false, 0)
  }

  function Scan(ordered: seq<Snapshot>, agreement: Agreement): Result<Cursor, ChainError> {
    if |ordered| == 0 then Ok(Outset(agreement))
    else
      var before := Scan(ordered[..|ordered| - 1], agreement);
      if before.Err? then before else Advance(before.value, ordered[|ordered| - 1], agreement)
  }

  function Merged(snapshots: seq<Snapshot>, agreement: Agreement): Result<Option<Snapshot>, ChainError> {
    var unique := Unique(snapshots);
    if unique.Err? then Err(unique.error)
    else if exists s :: s in unique.value && PolicyFor(agreement, s.receipt.authorization).None? then
        Err(UnknownAuthorization)
    else
      var ordered := Sorted(unique.value, agreement);
      var scan := Scan(ordered, agreement);
      if scan.Err? then Err(scan.error)
      else if |ordered| == 0 then Ok(None)
      else Ok(Some(ordered[|ordered| - 1]))
  }

  /** The first loop of `merge_snapshots`. */
  method KeepUnique(snapshots: seq<Snapshot>) returns (result: Result<seq<Snapshot>, ChainError>)
    ensures result == Unique(snapshots)
  {
    var unique: seq<Snapshot> := [];
    for n := 0 to |snapshots|
      invariant Unique(snapshots[..n]) == Ok(unique)
    {
      assert snapshots[..n + 1][..n] == snapshots[..n];
      var i := IndexOf(unique, KeyOf(snapshots[n]));
      if i < |unique| && Conflict(unique[i], snapshots[n]) {
        UniqueFailsOn(snapshots, n + 1);
        return Err(AmbiguousDuplicate);
      }
      unique := if i < |unique| then unique[i := snapshots[n]] else unique + [snapshots[n]];
    }
    assert snapshots[..|snapshots|] == snapshots;
    return Ok(unique);
  }

  /** The second loop of `merge_snapshots`. */
  method Walk(ordered: seq<Snapshot>, agreement: Agreement) returns (error: Option<ChainError>)
    ensures error.None? ==> Scan(ordered, agreement).Ok?
    ensures error.Some? ==> Scan(ordered, agreement) == Err(error.value)
  {
    var previous, origins, halted, rank := agreement.baseline, agreement.baselineOrigins, false, 0;
    for n := 0 to |ordered|
      invariant Scan(ordered[..n], agreement) == Ok(Cursor(previous, origins, halted, rank))
    {
      var snapshot := ordered[n];
      assert ordered[..n + 1][..n] == ordered[..n];
      ScanFailsOn(ordered, n + 1, agreement);
      if Start(snapshot) > |previous| {
        return Some(MissingAttempt);
      }
      if !(previous <= snapshot.rows) || !(origins <= snapshot.origins) {
        return Some(Divergent);
      }
      if halted && snapshot.states.halt.None? {
        return Some(HaltRemoved);
      }
      if Rated(snapshot, agreement) < rank {
        return Some(AmendmentRemoved);
      }
      previous, origins := snapshot.rows, snapshot.origins;
      halted, rank := halted || snapshot.states.halt.Some?, Rated(snapshot, agreement);
    }
    assert ordered[..|ordered|] == ordered;
    return None;
  }

  method MergeSnapshots(snapshots: seq<Snapshot>, agreement: Agreement) returns (result: Result<Option<Snapshot>,
                                                                                 ChainError>)
    ensures result == Merged(snapshots, agreement)
  {
    var unique := KeepUnique(snapshots);
    if unique.Err? {
      return Err(unique.error);
    }
    if exists s | s in unique.value :: PolicyFor(agreement, s.receipt.authorization).None? {
      return Err(UnknownAuthorization);
    }
    var ordered := Sorted(unique.value, agreement);
    var error := Walk(ordered, agreement);
    if error.Some? {
      return Err(error.value);
    }
    return Ok(if |ordered| == 0 then None else Some(ordered[|ordered| - 1]));
  }

  /** A failure on a prefix is the failure of the whole. */
  lemma {:induction false} UniqueFailsOn(snapshots: seq<Snapshot>, n: nat)
    requires n <= |snapshots| && Unique(snapshots[..n]).Err?
    ensures Unique(snapshots) == Unique(snapshots[..n])
    decreases |snapshots|
  {
    if n == |snapshots| {
      assert snapshots[..n] == snapshots;
    } else {
      assert snapshots[..|snapshots| - 1][..n] == snapshots[..n];
      UniqueFailsOn(snapshots[..|snapshots| - 1], n);
    }
  }

  lemma {:induction false} ScanFailsOn(ordered: seq<Snapshot>, n: nat, agreement: Agreement)
    requires n <= |ordered|
    ensures Scan(ordered[..n], agreement).Err? ==> Scan(ordered, agreement) == Scan(ordered[..n], agreement)
    decreases |ordered|
  {
    if n == |ordered| {
      assert ordered[..n] == ordered;
    } else {
      assert ordered[..|ordered| - 1][..n] == ordered[..n];
      ScanFailsOn(ordered[..|ordered| - 1], n, agreement);
    }
  }

  /******* Properties of the unique snapshots *******/

  ghost predicate Represented(snapshot: Snapshot, unique: seq<Snapshot>) {
    exists i :: 0 <= i < |unique| && KeyOf(unique[i]) == KeyOf(snapshot) && !Conflict(unique[i], snapshot)
  }

  lemma PutFacts(before: seq<Snapshot>, snapshot: Snapshot)
    requires KeysDistinct(before) && Put(before, snapshot).Ok?
    ensures var after := Put(before, snapshot).value;
            && KeysDistinct(after) && Represented(snapshot, after)
            && (forall s :: s in after ==> s in before || s == snapshot)
            && (forall s :: Represented(s, before) ==> Represented(s, after))
  {
    var after := Put(before, snapshot).value;
    var i := IndexOf(before, KeyOf(snapshot));
    assert after[i] == snapshot;
    forall s | Represented(s, before) ensures Represented(s, after) {
      var j :| 0 <= j < |before| && KeyOf(before[j]) == KeyOf(s) && !Conflict(before[j], s);
      assert KeyOf(after[j]) == KeyOf(s) && !Conflict(after[j], s);
    }
  }

  lemma {:induction false} UniqueFacts(snapshots: seq<Snapshot>)
    requires Unique(snapshots).Ok?
    ensures var unique := Unique(snapshots).value;
            && KeysDistinct(unique)
            && (forall s :: s in unique ==> s in snapshots)
            && (forall s :: s in snapshots ==> Represented(s, unique))
  {
    if |snapshots| > 0 {
      var front, last := snapshots[..|snapshots| - 1], snapshots[|snapshots| - 1];
      UniqueFacts(front);
      PutFacts(Unique(front).value, last);
      assert snapshots == front + [last];
    }
  }

  /******* Tiling *******/

  predicate Covers(snapshot: Snapshot, position: int) {
    Start(snapshot) <= position < |snapshot.rows|
  }

  function OwnerAt(snapshot: Snapshot, position: nat): Key
    requires position < |snapshot.origins|
  {
    (snapshot.origins[position].run, snapshot.origins[position].attempt)
  }

  /** What validation establishes about ownership: each new request carries the key of its own attempt. */
  ghost predicate Owned(snapshot: Snapshot, agreement: Agreement) {
    && |snapshot.rows| == |snapshot.origins|
    && |agreement.baseline| <= Start(snapshot) <= |snapshot.rows|
    && agreement.baseline <= snapshot.rows && agreement.baselineOrigins <= snapshot.origins
    && (forall p :: Start(snapshot) <= p < |snapshot.rows| ==> OwnerAt(snapshot, p) == KeyOf(snapshot))
    && PolicyFor(agreement, snapshot.receipt.authorization).Some?
  }

  ghost predicate AllOwned(snapshots: seq<Snapshot>, agreement: Agreement) {
    forall s :: s in snapshots ==> Owned(s, agreement)
  }

  /** Whatever `validate_snapshot` accepts is owned. */
  lemma GenuineIsOwned(snapshot: Snapshot, agreement: Agreement)
    requires Genuine(snapshot, agreement)
    ensures Owned(snapshot, agreement)
  {
  }

  ghost predicate AllGenuine(snapshots: seq<Snapshot>, agreement: Agreement) {
    forall s :: s in snapshots ==> Genuine(s, agreement)
  }

  lemma AllGenuineAreOwned(snapshots: seq<Snapshot>, agreement: Agreement)
    requires AllGenuine(snapshots, agreement)
    ensures AllOwned(snapshots, agreement)
  {
    forall s | s in snapshots ensures Owned(s, agreement) {
      GenuineIsOwned(s, agreement);
    }
  }

  /** Position `p` belongs to one of the attempts, the one that its origin names. */
  ghost predicate OwnedAt(ordered: seq<Snapshot>, origins: seq<Origin>, p: nat)
    requires p < |origins|
  {
    exists n :: 0 <= n < |ordered| && Covers(ordered[n], p) && KeyOf(ordered[n]) == (origins[p].run, origins[p].attempt)
  }

  function LengthBefore(ordered: seq<Snapshot>, n: nat, agreement: Agreement): nat
    requires n <= |ordered|
  {
    if n == 0 then |agreement.baseline| else |ordered[n - 1].rows|
  }

  /** Element `n` starts exactly where its predecessor, or the baseline, ends. */
  ghost predicate Abuts(ordered: seq<Snapshot>, n: nat, agreement: Agreement)
    requires n < |ordered|
  {
    Start(ordered[n]) == LengthBefore(ordered, n, agreement)
  }

  /** What an accepted scan over owned snapshots with distinct keys has established. */
  ghost predicate Tiled(ordered: seq<Snapshot>, reached: Cursor, agreement: Agreement) {
    && |reached.rows| == |reached.origins| && |agreement.baseline| <= |reached.rows|
    && (forall n :: 0 <= n < |ordered| ==> Abuts(ordered, n, agreement))
    && (forall n :: 0 <= n < |ordered| ==> ordered[n].rows <= reached.rows && ordered[n].origins <= reached.origins)
    && (forall p :: |agreement.baseline| <= p < |reached.rows| ==> OwnedAt(ordered, reached.origins, p))
  }

  lemma DoublyClaimed(front: seq<Snapshot>, before: Cursor, last: Snapshot, agreement: Agreement)
    requires Tiled(front, before, agreement) && Owned(last, agreement)
    requires before.origins <= last.origins && Start(last) < |before.rows|
    requires |before.rows| <= |last.rows|
    ensures exists n :: 0 <= n < |front| && KeyOf(front[n]) == KeyOf(last)
  {
    var p := Start(last);
    assert OwnerAt(last, p) == KeyOf(last);
    assert OwnedAt(front, before.origins, p);
    assert last.origins[p] == before.origins[p];
  }

  /**
   The check `start <= len(previous)` leaves no room for an overlap: a doubly claimed request would have two owners.
   */
  lemma NoOverlap(front: seq<Snapshot>, before: Cursor, last: Snapshot, agreement: Agreement)
    requires Tiled(front, before, agreement) && Owned(last, agreement)
    requires forall n :: 0 <= n < |front| ==> KeyOf(front[n]) != KeyOf(last)
    requires Advance(before, last, agreement).Ok?
    ensures Start(last) == |before.rows|
  {
    if Start(last) < |before.rows| {
      DoublyClaimed(front, before, last, agreement);
    }
  }

  lemma TileOne(front: seq<Snapshot>, before: Cursor, last: Snapshot, agreement: Agreement)
    requires Tiled(front, before, agreement) && Owned(last, agreement)
    requires forall n :: 0 <= n < |front| ==> KeyOf(front[n]) != KeyOf(last)
    requires Advance(before, last, agreement).Ok?
    requires before.rows == if |front| == 0 then agreement.baseline else front[|front| - 1].rows
    ensures Tiled(front + [last], Advance(before, last, agreement).value, agreement)
  {
    var ordered := front + [last];
    NoOverlap(front, before, last, agreement);
    forall n | 0 <= n < |ordered| ensures Abuts(ordered, n, agreement) {
      if n < |front| {
        assert Abuts(front, n, agreement);
      }
    }
    forall p | |agreement.baseline| <= p < |last.rows| ensures OwnedAt(ordered, last.origins, p) {
      if p < |before.rows| {
        assert OwnedAt(front, before.origins, p);
        var n :| 0 <= n < |front| && Covers(front[n], p)
            && KeyOf(front[n]) == (before.origins[p].run, before.origins[p].attempt);
        assert ordered[n] == front[n] && last.origins[p] == before.origins[p];
      } else {
        assert Covers(ordered[|front|], p) && OwnerAt(last, p) == KeyOf(last);
      }
    }
  }

  lemma {:induction false} ChainTiles(ordered: seq<Snapshot>, agreement: Agreement)
    requires AllOwned(ordered, agreement) && KeysDistinct(ordered)
    requires Scan(ordered, agreement).Ok? && |agreement.baseline| == |agreement.baselineOrigins|
    ensures Tiled(ordered, Scan(ordered, agreement).value, agreement)
    ensures Scan(ordered, agreement).value.rows == if |ordered| == 0 then agreement.baseline
            else ordered[|ordered| - 1].rows
    ensures Scan(ordered, agreement).value.origins
         == if |ordered| == 0 then agreement.baselineOrigins else ordered[|ordered| - 1].origins
  {
    if |ordered| > 0 {
      var front, last := ordered[..|ordered| - 1], ordered[|ordered| - 1];
      assert ordered == front + [last];
      ChainTiles(front, agreement);
      TileOne(front, Scan(front, agreement).value, last, agreement);
    }
  }

  /** Everything the accepted merge result says about one position and one supplied snapshot. */
  ghost predicate Accounts(result: Snapshot, snapshot: Snapshot, p: nat)
    requires p < |result.rows| == |result.origins|
  {
    Covers(snapshot, p) ==>
      && KeyOf(snapshot) == OwnerAt(result, p)
      && p < |snapshot.origins| && snapshot.rows[p] == result.rows[p] && snapshot.origins[p] == result.origins[p]
  }

  ghost predicate CoveredBy(snapshots: seq<Snapshot>, p: int) {
    exists s :: s in snapshots && Covers(s, p)
  }

  /** The sorted unique snapshots that a merge scans. */
  function Ordered(snapshots: seq<Snapshot>, agreement: Agreement): seq<Snapshot>
    requires Unique(snapshots).Ok?
  {
    Sorted(Unique(snapshots).value, agreement)
  }

  lemma OrderedFacts(snapshots: seq<Snapshot>, agreement: Agreement)
    requires Unique(snapshots).Ok?
    ensures var ordered := Ordered(snapshots, agreement);
            && KeysDistinct(ordered) && InOrder(ordered, agreement)
            && (forall s :: s in ordered ==> s in snapshots)
            && (forall s :: s in snapshots ==> Represented(s, ordered))
            && (snapshots != [] ==> ordered != [])
  {
    var unique := Unique(snapshots).value;
    UniqueFacts(snapshots);
    SortedIsOrdered(unique, agreement);
    var ordered := Ordered(snapshots, agreement);
    forall s | s in snapshots ensures Represented(s, ordered) {
      var i :| 0 <= i < |unique| && KeyOf(unique[i]) == KeyOf(s) && !Conflict(unique[i], s);
      assert unique[i] in ordered;
    }
    if snapshots != [] {
      assert Represented(snapshots[0], ordered);
    }
  }

  /** The result extends every snapshot, and each request past the baseline is covered and accounted for. */
  ghost predicate Partitioned(snapshots: seq<Snapshot>, agreement: Agreement, result: Snapshot) {
    && result in snapshots && |result.rows| == |result.origins|
    && (forall s :: s in snapshots ==> s.rows <= result.rows && s.origins <= result.origins)
    && (forall p :: |agreement.baseline| <= p < |result.rows| ==> CoveredBy(snapshots, p))
    && (forall p, s :: |agreement.baseline| <= p < |result.rows| && s in snapshots ==> Accounts(result, s, p))
  }

  lemma PrefixesAccount(snapshots: seq<Snapshot>, agreement: Agreement, result: Snapshot)
    requires AllOwned(snapshots, agreement) && |result.rows| == |result.origins|
    requires forall s :: s in snapshots ==> s.rows <= result.rows && s.origins <= result.origins
    ensures forall p, s :: |agreement.baseline| <= p < |result.rows| && s in snapshots ==> Accounts(result, s, p)
  {
    forall p, s | |agreement.baseline| <= p < |result.rows| && s in snapshots ensures Accounts(result, s, p) {
      assert Owned(s, agreement);
      if Covers(s, p) {
        assert OwnerAt(s, p) == KeyOf(s);
      }
    }
  }

  /**
   Tiling. When owned snapshots merge, every request past the baseline was made by exactly one of the attempts, the one
   its origin names, and carries in the result the row that attempt sealed.
   */
  lemma MergeTiles(snapshots: seq<Snapshot>, agreement: Agreement)
    requires AllOwned(snapshots, agreement) && |agreement.baseline| == |agreement.baselineOrigins| && snapshots != []
    ensures Merged(snapshots, agreement).Ok? ==>
              && Merged(snapshots, agreement).value.Some?
              && Partitioned(snapshots, agreement, Merged(snapshots, agreement).value.value)
  {
    if Merged(snapshots, agreement).Ok? {
      OrderedFacts(snapshots, agreement);
      var ordered := Ordered(snapshots, agreement);
      ChainTiles(ordered, agreement);
      var result := ordered[|ordered| - 1];
      forall s | s in snapshots ensures s.rows <= result.rows && s.origins <= result.origins {
        assert Represented(s, ordered);
      }
      forall p | |agreement.baseline| <= p < |result.rows| ensures CoveredBy(snapshots, p) {
        assert OwnedAt(ordered, result.origins, p);
      }
      PrefixesAccount(snapshots, agreement, result);
    }
  }

  lemma OwnedRace(result: Snapshot, agreement: Agreement, a: Snapshot, b: Snapshot)
    requires Owned(a, agreement) && Owned(b, agreement) && a.origins <= result.origins && b.origins <= result.origins
    requires Start(a) == Start(b) && Start(a) < |a.rows| && Start(b) < |b.rows|
    ensures KeyOf(a) == KeyOf(b)
  {
    assert OwnerAt(a, Start(a)) == KeyOf(a) && OwnerAt(b, Start(b)) == KeyOf(b);
  }

  /** Two attempts that both spend from the same opening length are never both in an accepted merge. */
  lemma RacingAttemptsNeverMerge(snapshots: seq<Snapshot>, agreement: Agreement, a: Snapshot, b: Snapshot)
    requires Sound(agreement) && AllGenuine(snapshots, agreement) && a in snapshots && b in snapshots
    requires KeyOf(a) != KeyOf(b) && Start(a) == Start(b) && Start(a) < |a.rows| && Start(b) < |b.rows|
    ensures Merged(snapshots, agreement).Err?
  {
    AllGenuineAreOwned(snapshots, agreement);
    if Merged(snapshots, agreement).Ok? {
      MergeTiles(snapshots, agreement);
      OwnedRace(Merged(snapshots, agreement).value.value, agreement, a, b);
    }
  }

  /******* What acceptance means, whatever was supplied *******/

  /** What every later snapshot of an accepted chain keeps of an earlier one. */
  ghost predicate Follows(a: Snapshot, b: Snapshot, agreement: Agreement) {
    && a.rows <= b.rows && a.origins <= b.origins
    && (a.states.halt.Some? ==> b.states.halt.Some?)
    && Rated(a, agreement) <= Rated(b, agreement)
  }

  lemma {:induction false} AcceptedChain(ordered: seq<Snapshot>, agreement: Agreement)
    requires Scan(ordered, agreement).Ok?
    ensures |ordered| > 0 ==>
              var last := ordered[|ordered| - 1];
              Scan(ordered, agreement).value
              == Cursor(last.rows, last.origins, last.states.halt.Some?, Rated(last, agreement))
    ensures forall i, j :: 0 <= i < j < |ordered| ==> Follows(ordered[i], ordered[j], agreement)
    ensures forall n :: 0 <= n < |ordered| ==> Grounded(ordered, n, agreement)
  {
    if |ordered| > 0 {
      var front, last := ordered[..|ordered| - 1], ordered[|ordered| - 1];
      AcceptedChain(front, agreement);
      forall n | 0 <= n < |ordered| ensures Grounded(ordered, n, agreement) {
        if n < |front| {
          assert Grounded(front, n, agreement);
        } else if n > 0 {
          assert Grounded(front, n - 1, agreement);
        }
      }
    }
  }

  /** Element `n` extends the baseline and starts within what comes before it. */
  ghost predicate Grounded(ordered: seq<Snapshot>, n: nat, agreement: Agreement)
    requires n < |ordered|
  {
    && agreement.baseline <= ordered[n].rows && agreement.baselineOrigins <= ordered[n].origins
    && Start(ordered[n]) <= LengthBefore(ordered, n, agreement)
  }

  /** The snapshot at `i` is the last one supplied for its attempt. */
  ghost predicate LastOfKey(snapshots: seq<Snapshot>, i: nat)
    requires i < |snapshots|
  {
    forall j :: i < j < |snapshots| ==> KeyOf(snapshots[j]) != KeyOf(snapshots[i])
  }

  lemma {:induction false} LastsAreKept(snapshots: seq<Snapshot>, i: nat)
    requires Unique(snapshots).Ok? && i < |snapshots| && LastOfKey(snapshots, i)
    ensures snapshots[i] in Unique(snapshots).value
    decreases |snapshots|
  {
    var front, last := snapshots[..|snapshots| - 1], snapshots[|snapshots| - 1];
    UniqueFacts(front);
    if i < |front| {
      assert LastOfKey(front, i);
      LastsAreKept(front, i);
      KeptBesidePut(Unique(front).value, last, snapshots[i]);
    } else {
      var at := IndexOf(Unique(front).value, KeyOf(last));
      assert Unique(snapshots).value[at] == last;
    }
  }

  lemma KeptBesidePut(before: seq<Snapshot>, snapshot: Snapshot, other: Snapshot)
    requires Put(before, snapshot).Ok? && other in before && KeyOf(other) != KeyOf(snapshot)
    ensures other in Put(before, snapshot).value
  {
    var j :| 0 <= j < |before| && before[j] == other;
    assert Put(before, snapshot).value[j] == other;
  }

  /** Two snapshots supplied for one attempt say the same. */
  ghost predicate Agree(a: Snapshot, b: Snapshot) {
    && a.rows == b.rows && a.origins == b.origins
    && a.receipt.authorization == b.receipt.authorization && a.states.halt == b.states.halt
  }

  /** An earlier part of the log, in everything that may never be taken back. */
  ghost predicate Preserved(a: Snapshot, b: Snapshot, agreement: Agreement) {
    && a.rows <= b.rows && a.origins <= b.origins
    && (a.states.halt.Some? ==> b.states.halt.Some?)
    && (b.receipt.authorization == agreement.root ==> a.receipt.authorization == agreement.root)
  }

  /** Everything that an attempt started after is there: the baseline, or another attempt that reaches its start. */
  ghost predicate Continued(snapshots: seq<Snapshot>, s: Snapshot, agreement: Agreement) {
    || s.receipt.start <= |agreement.baseline|
    || exists t :: t in snapshots && KeyOf(t) != KeyOf(s) && s.receipt.start <= |t.rows| <= |s.rows|
  }

  lemma OrderedRepresents(snapshots: seq<Snapshot>, agreement: Agreement, s: Snapshot) returns (n: nat)
    requires Unique(snapshots).Ok? && s in snapshots
    ensures n < |Ordered(snapshots, agreement)|
    ensures KeyOf(Ordered(snapshots, agreement)[n]) == KeyOf(s) && Agree(Ordered(snapshots, agreement)[n], s)
  {
    OrderedFacts(snapshots, agreement);
    assert Represented(s, Ordered(snapshots, agreement));
    n :| 0 <= n < |Ordered(snapshots, agreement)| && KeyOf(Ordered(snapshots, agreement)[n]) == KeyOf(s)
         && !Conflict(Ordered(snapshots, agreement)[n], s);
  }

  lemma SortedIsOrderedUnique(snapshots: seq<Snapshot>, agreement: Agreement, n: nat)
    requires Unique(snapshots).Ok? && n < |Ordered(snapshots, agreement)|
    ensures Ordered(snapshots, agreement)[n] in Unique(snapshots).value
  {
    UniqueFacts(snapshots);
    SortedIsOrdered(Unique(snapshots).value, agreement);
    assert Ordered(snapshots, agreement)[n] in Ordered(snapshots, agreement);
  }

  /**
   No accepted merge of any snapshots loses anything: the result is one of them and preserves each, halts and
   authorizations included; shorter ones are preserved by longer ones; repeated attempts agree; and no attempt starts
   beyond what is there.
   */
  lemma AcceptedMergePreserves(snapshots: seq<Snapshot>, agreement: Agreement)
    requires snapshots != []
    ensures Merged(snapshots, agreement).Ok? ==>
              && Merged(snapshots, agreement).value.Some?
              && var result := Merged(snapshots, agreement).value.value;
                 && result in snapshots
                 && (forall s :: s in snapshots ==>
                       && Preserved(s, result, agreement) && agreement.baseline <= s.rows
                       && s.receipt.authorization in {agreement.root, Authorized(agreement)})
                 && (forall s, t :: s in snapshots && t in snapshots && |s.rows| < |t.rows| ==>
                       Preserved(s, t, agreement))
                 && (forall s, t :: s in snapshots && t in snapshots && KeyOf(s) == KeyOf(t) ==> Agree(s, t))
                 && (forall i :: 0 <= i < |snapshots| && LastOfKey(snapshots, i) ==>
                       Continued(snapshots, snapshots[i], agreement))
  {
    if Merged(snapshots, agreement).Ok? {
      OrderedFacts(snapshots, agreement);
      var result := Merged(snapshots, agreement).value.value;
      forall s | s in snapshots
        ensures Preserved(s, result, agreement) && agreement.baseline <= s.rows
        ensures s.receipt.authorization in {agreement.root, Authorized(agreement)}
      {
        ResultPreserves(snapshots, agreement, s);
      }
      forall s, t | s in snapshots && t in snapshots
        ensures |s.rows| < |t.rows| ==> Preserved(s, t, agreement)
        ensures KeyOf(s) == KeyOf(t) ==> Agree(s, t)
      {
        LongerPreserves(snapshots, agreement, s, t);
      }
      forall i | 0 <= i < |snapshots| && LastOfKey(snapshots, i) ensures Continued(snapshots, snapshots[i], agreement) {
        LastIsContinued(snapshots, agreement, i);
      }
    }
  }

  lemma ResultPreserves(snapshots: seq<Snapshot>, agreement: Agreement, s: Snapshot)
    requires Merged(snapshots, agreement).Ok? && s in snapshots
    ensures Merged(snapshots, agreement).value.Some?
    ensures Preserved(s, Merged(snapshots, agreement).value.value, agreement) && agreement.baseline <= s.rows
    ensures s.receipt.authorization in {agreement.root, Authorized(agreement)}
  {
    var ordered := Ordered(snapshots, agreement);
    var n := OrderedRepresents(snapshots, agreement, s);
    SortedIsOrderedUnique(snapshots, agreement, n);
    SortedIsOrderedUnique(snapshots, agreement, |ordered| - 1);
    AcceptedChain(ordered, agreement);
    assert Grounded(ordered, n, agreement);
    assert n < |ordered| - 1 ==> Follows(ordered[n], ordered[|ordered| - 1], agreement);
  }

  lemma LongerPreserves(snapshots: seq<Snapshot>, agreement: Agreement, s: Snapshot, t: Snapshot)
    requires Merged(snapshots, agreement).Ok? && s in snapshots && t in snapshots
    ensures |s.rows| < |t.rows| ==> Preserved(s, t, agreement)
    ensures KeyOf(s) == KeyOf(t) ==> Agree(s, t)
  {
    OrderedFacts(snapshots, agreement);
    var ordered := Ordered(snapshots, agreement);
    var m := OrderedRepresents(snapshots, agreement, s);
    var n := OrderedRepresents(snapshots, agreement, t);
    SortedIsOrderedUnique(snapshots, agreement, m);
    SortedIsOrderedUnique(snapshots, agreement, n);
    AcceptedChain(ordered, agreement);
    if |s.rows| < |t.rows| {
      assert Precedes(ordered[m], ordered[n], agreement);
      assert Follows(ordered[m], ordered[n], agreement);
    }
  }

  lemma LastIsContinued(snapshots: seq<Snapshot>, agreement: Agreement, i: nat)
    requires Merged(snapshots, agreement).Ok? && i < |snapshots| && LastOfKey(snapshots, i)
    ensures Continued(snapshots, snapshots[i], agreement)
  {
    var n := KeptAt(snapshots, agreement, i);
    StartIsContinued(snapshots, agreement, n);
  }

  lemma KeptAt(snapshots: seq<Snapshot>, agreement: Agreement, i: nat) returns (n: nat)
    requires Unique(snapshots).Ok? && i < |snapshots| && LastOfKey(snapshots, i)
    ensures n < |Ordered(snapshots, agreement)| && Ordered(snapshots, agreement)[n] == snapshots[i]
  {
    LastsAreKept(snapshots, i);
    UniqueFacts(snapshots);
    SortedIsOrdered(Unique(snapshots).value, agreement);
    assert snapshots[i] in Ordered(snapshots, agreement);
    n :| 0 <= n < |Ordered(snapshots, agreement)| && Ordered(snapshots, agreement)[n] == snapshots[i];
  }

  lemma StartIsContinued(snapshots: seq<Snapshot>, agreement: Agreement, n: nat)
    requires Merged(snapshots, agreement).Ok? && n < |Ordered(snapshots, agreement)|
    ensures Continued(snapshots, Ordered(snapshots, agreement)[n], agreement)
  {
    OrderedFacts(snapshots, agreement);
    var ordered := Ordered(snapshots, agreement);
    AcceptedChain(ordered, agreement);
    assert Grounded(ordered, n, agreement);
    if n > 0 {
      assert ordered[n - 1] in snapshots && Follows(ordered[n - 1], ordered[n], agreement);
    }
  }

  /** What each refusal of a merge has found among the supplied snapshots. */
  ghost predicate Justified(snapshots: seq<Snapshot>, agreement: Agreement, error: ChainError) {
    match error
    case AmbiguousDuplicate =>
      exists s, t :: s in snapshots && t in snapshots && KeyOf(s) == KeyOf(t) && !Agree(s, t)
    case UnknownAuthorization =>
      exists s :: s in snapshots && s.receipt.authorization != agreement.root
                  && s.receipt.authorization != Authorized(agreement)
    case MissingAttempt =>
      exists s :: s in snapshots && s.receipt.start > |agreement.baseline|
                  && forall t :: t in snapshots && |t.rows| < |s.rows| ==> |t.rows| < s.receipt.start
    case Divergent =>
      || (exists s :: s in snapshots && !(agreement.baseline <= s.rows && agreement.baselineOrigins <= s.origins))
      || exists s, t :: s in snapshots && t in snapshots && |s.rows| <= |t.rows|
                        && !(s.rows <= t.rows && s.origins <= t.origins)
    case HaltRemoved =>
      exists s, t :: s in snapshots && t in snapshots && |s.rows| <= |t.rows|
                     && s.states.halt.Some? && t.states.halt.None?
    case AmendmentRemoved =>
      exists s, t :: s in snapshots && t in snapshots && |s.rows| <= |t.rows|
                     && s.receipt.authorization != agreement.root && t.receipt.authorization == agreement.root
    case _ => false
  }

  lemma {:induction false} FirstFailure(ordered: seq<Snapshot>, agreement: Agreement) returns (n: nat)
    requires Scan(ordered, agreement).Err?
    ensures n < |ordered| && Scan(ordered[..n], agreement).Ok?
    ensures Advance(Scan(ordered[..n], agreement).value, ordered[n], agreement) == Err(Scan(ordered, agreement).error)
  {
    var front := ordered[..|ordered| - 1];
    if Scan(front, agreement).Ok? {
      n := |front|;
    } else {
      n := FirstFailure(front, agreement);
      assert front[..n] == ordered[..n];
    }
  }

  lemma {:induction false} ConflictFound(snapshots: seq<Snapshot>, agreement: Agreement)
    requires Unique(snapshots).Err?
    ensures Unique(snapshots).error == AmbiguousDuplicate && Justified(snapshots, agreement, AmbiguousDuplicate)
  {
    var front, last := snapshots[..|snapshots| - 1], snapshots[|snapshots| - 1];
    assert snapshots == front + [last];
    if Unique(front).Err? {
      ConflictFound(front, agreement);
      var s, t :| s in front && t in front && KeyOf(s) == KeyOf(t) && !Agree(s, t);
      assert s in snapshots && t in snapshots;
    } else {
      UniqueFacts(front);
      var i := IndexOf(Unique(front).value, KeyOf(last));
      assert Unique(front).value[i] in snapshots && last in snapshots;
    }
  }

  lemma GapFound(snapshots: seq<Snapshot>, agreement: Agreement, n: nat)
    requires Unique(snapshots).Ok? && n < |Ordered(snapshots, agreement)|
    requires Scan(Ordered(snapshots, agreement)[..n], agreement).Ok?
    requires Start(Ordered(snapshots, agreement)[n]) > LengthBefore(Ordered(snapshots, agreement), n, agreement)
    ensures Justified(snapshots, agreement, MissingAttempt)
  {
    OrderedFacts(snapshots, agreement);
    var ordered := Ordered(snapshots, agreement);
    AcceptedChain(ordered[..n], agreement);
    if n > 0 {
      assert Grounded(ordered[..n], n - 1, agreement);
    }
    forall t | t in snapshots && |t.rows| < |ordered[n].rows| ensures |t.rows| < Start(ordered[n]) {
      var k := OrderedRepresents(snapshots, agreement, t);
      assert Precedes(ordered[k], ordered[n], agreement);
      if k < n - 1 {
        assert Follows(ordered[..n][k], ordered[..n][n - 1], agreement);
      }
    }
    assert ordered[n] in snapshots;
  }

  /** Every refusal of a merge is justified by the supplied snapshots themselves. */
  lemma RefusedMergeIsJustified(snapshots: seq<Snapshot>, agreement: Agreement)
    ensures Merged(snapshots, agreement).Err? ==>
              Justified(snapshots, agreement, Merged(snapshots, agreement).error)
    ensures Merged(snapshots, agreement) == Ok(None) <==> snapshots == []
  {
    if Unique(snapshots).Err? {
      ConflictFound(snapshots, agreement);
    } else {
      SomethingIsOrdered(snapshots, agreement);
      if exists s :: s in Unique(snapshots).value && PolicyFor(agreement, s.receipt.authorization).None? {
        UnknownFound(snapshots, agreement);
      } else if Scan(Ordered(snapshots, agreement), agreement).Err? {
        RefusedScanIsJustified(snapshots, agreement);
      }
    }
  }

  lemma SomethingIsOrdered(snapshots: seq<Snapshot>, agreement: Agreement)
    requires Unique(snapshots).Ok?
    ensures Ordered(snapshots, agreement) == [] <==> snapshots == []
  {
    OrderedFacts(snapshots, agreement);
    if Ordered(snapshots, agreement) != [] {
      assert Ordered(snapshots, agreement)[0] in snapshots;
    }
  }

  lemma UnknownFound(snapshots: seq<Snapshot>, agreement: Agreement)
    requires Unique(snapshots).Ok?
    requires exists s :: s in Unique(snapshots).value && PolicyFor(agreement, s.receipt.authorization).None?
    ensures Justified(snapshots, agreement, UnknownAuthorization)
  {
    UniqueFacts(snapshots);
    var s :| s in Unique(snapshots).value && PolicyFor(agreement, s.receipt.authorization).None?;
    assert s in snapshots;
  }

  lemma RefusedScanIsJustified(snapshots: seq<Snapshot>, agreement: Agreement)
    requires Unique(snapshots).Ok? && Scan(Ordered(snapshots, agreement), agreement).Err?
    ensures Justified(snapshots, agreement, Scan(Ordered(snapshots, agreement), agreement).error)
  {
    var n := FirstFailure(Ordered(snapshots, agreement), agreement);
    FailureIsJustified(snapshots, agreement, n);
  }

  lemma FailureIsJustified(snapshots: seq<Snapshot>, agreement: Agreement, n: nat)
    requires Unique(snapshots).Ok? && n < |Ordered(snapshots, agreement)|
    requires Scan(Ordered(snapshots, agreement)[..n], agreement).Ok?
    requires Advance(Scan(Ordered(snapshots, agreement)[..n], agreement).value, Ordered(snapshots, agreement)[n],
                     agreement).Err?
    ensures Justified(snapshots, agreement,
                      Advance(Scan(Ordered(snapshots, agreement)[..n], agreement).value,
                              Ordered(snapshots, agreement)[n], agreement).error)
  {
    OrderedFacts(snapshots, agreement);
    var ordered := Ordered(snapshots, agreement);
    AcceptedChain(ordered[..n], agreement);
    assert ordered[n] in snapshots;
    if Start(ordered[n]) > LengthBefore(ordered, n, agreement) {
      GapFound(snapshots, agreement, n);
    }
    if n > 0 {
      assert ordered[n - 1] in snapshots && !Precedes(ordered[n], ordered[n - 1], agreement);
    }
  }

  /******* The origin check after the merge *******/

  /** The `verified` dict of `reconcile`: the head commit of each verified attempt. */
  function Heads(snapshots: seq<Snapshot>): map<Key, string> {
    if |snapshots| == 0 then map[]
    else
      var last := snapshots[|snapshots| - 1];
      Heads(snapshots[..|snapshots| - 1])[KeyOf(last) := last.run.head]
  }

  predicate OriginVerified(heads: map<Key, string>, origin: Origin) {
    (origin.run, origin.attempt) in heads && heads[(origin.run, origin.attempt)] == origin.head
  }

  /** The loop of `reconcile` over the origins of the merged ledger. */
  method CheckOrigins(snapshots: seq<Snapshot>, latest: Snapshot, agreement: Agreement) returns (ok: bool)
    ensures ok <==> forall p ::
            |agreement.baseline| <= p < |latest.origins| ==> OriginVerified(Heads(snapshots), latest.origins[p])
  {
    var verified := Heads(snapshots);
    for p := |agreement.baseline| to Max(|agreement.baseline|, |latest.origins|)
      invariant forall q :: |agreement.baseline| <= q < p ==> OriginVerified(verified, latest.origins[q])
    {
      if !OriginVerified(verified, latest.origins[p]) {
        return false;
      }
    }
    return true;
  }

  /** `reconcile` asks for the run of an attempt once, however many artifacts the attempt has. */
  ghost predicate OneRunPerKey(snapshots: seq<Snapshot>) {
    forall s, t :: s in snapshots && t in snapshots && KeyOf(s) == KeyOf(t) ==> s.run == t.run
  }

  lemma {:induction false} HeadsHas(snapshots: seq<Snapshot>, s: Snapshot)
    requires OneRunPerKey(snapshots) && s in snapshots
    ensures KeyOf(s) in Heads(snapshots) && Heads(snapshots)[KeyOf(s)] == s.run.head
  {
    var front, last := snapshots[..|snapshots| - 1], snapshots[|snapshots| - 1];
    assert last in snapshots;
    if KeyOf(s) != KeyOf(last) {
      HeadsHas(front, s);
    }
  }

  /**
   With one run per attempt, an origin passes the check exactly when some verified attempt made it at its head commit.
   */
  lemma OriginVerifiedMeans(snapshots: seq<Snapshot>, origin: Origin)
    requires OneRunPerKey(snapshots)
    ensures OriginVerified(Heads(snapshots), origin)
            <==> exists s :: s in snapshots && s.run == Run(origin.run, origin.attempt, origin.head)
  {
    var key := (origin.run, origin.attempt);
    HeadsComeFrom(snapshots, key);
    if key in Heads(snapshots) {
      var s :| s in snapshots && KeyOf(s) == key;
      HeadsHas(snapshots, s);
    }
    if s :| s in snapshots && s.run == Run(origin.run, origin.attempt, origin.head) {
      HeadsHas(snapshots, s);
    }
  }

  lemma {:induction false} HeadsComeFrom(snapshots: seq<Snapshot>, key: Key)
    ensures key in Heads(snapshots) ==> exists s :: s in snapshots && KeyOf(s) == key
  {
    if |snapshots| > 0 {
      var front, last := snapshots[..|snapshots| - 1], snapshots[|snapshots| - 1];
      HeadsComeFrom(front, key);
      assert last in snapshots && forall s :: s in front ==> s in snapshots;
    }
  }

  ghost predicate Headed(snapshot: Snapshot) {
    forall p :: 0 <= Start(snapshot) <= p < |snapshot.origins| ==> snapshot.origins[p].head == snapshot.run.head
  }

  lemma GenuineIsHeaded(snapshot: Snapshot, agreement: Agreement)
    requires Genuine(snapshot, agreement)
    ensures Headed(snapshot)
  {
  }

  /** After an accepted merge of genuine snapshots the origin check of `reconcile` cannot fail. */
  lemma OriginCheckNeverFails(snapshots: seq<Snapshot>, agreement: Agreement)
    requires Sound(agreement) && AllGenuine(snapshots, agreement) && OneRunPerKey(snapshots) && snapshots != []
    ensures Merged(snapshots, agreement).Ok? ==>
              && Merged(snapshots, agreement).value.Some?
              && var latest := Merged(snapshots, agreement).value.value;
                 forall p :: |agreement.baseline| <= p < |latest.origins| ==>
                     OriginVerified(Heads(snapshots), latest.origins[p])
  {
    AllGenuineAreOwned(snapshots, agreement);
    MergeTiles(snapshots, agreement);
    if Merged(snapshots, agreement).Ok? {
      var latest := Merged(snapshots, agreement).value.value;
      forall p | |agreement.baseline| <= p < |latest.origins|
          ensures OriginVerified(Heads(snapshots), latest.origins[p]) {
        assert CoveredBy(snapshots, p);
        var s :| s in snapshots && Covers(s, p);
        assert Accounts(latest, s, p);
        GenuineIsHeaded(s, agreement);
        HeadsHas(snapshots, s);
      }
    }
  }
}
