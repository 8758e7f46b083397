/**
 Honest histories: attempts that open one after another from the merge of all earlier
 seals, spend, learn of usage, and seal (scripts/ci_budget_ledger.py and the loop of
 scripts/reconcile_ci_budget.py). The sealed copies refine one append-only log, and the
 merge accepts exactly the collections in which no spending attempt is missing.
 */
module Chain {
  import opened Outcomes
  import opened Ledger
  import opened CiLedger
  import opened Merge

  /******* Linear histories *******/

  function CursorAt(seals: seq<Snapshot>, n: nat, agreement: Agreement): Cursor
    requires n <= |seals|
  {
    if n == 0 then Outset(agreement)
    else Cursor(seals[n - 1].rows, seals[n - 1].origins, seals[n - 1].states.halt.Some?, Rated(seals[n - 1], agreement))
  }

  predicate Spends(snapshot: Snapshot) {
    Start(snapshot) < |snapshot.rows|
  }

  /** A seal continues the log exactly where its predecessor left it. */
  ghost predicate Continues(cursor: Cursor, seal: Snapshot, agreement: Agreement) {
    && Start(seal) == |cursor.rows|
    && cursor.rows <= seal.rows && cursor.origins <= seal.origins
    && cursor.rank <= Rated(seal, agreement)
    && (cursor.halted ==> !Spends(seal))
    && (!Spends(seal) ==> seal.states.halt.Some? == cursor.halted)
  }

  ghost predicate Linked(seals: seq<Snapshot>, n: nat, agreement: Agreement)
    requires n < |seals|
  {
    Continues(CursorAt(seals, n, agreement), seals[n], agreement)
  }

  ghost predicate Linear(seals: seq<Snapshot>, agreement: Agreement) {
    && KeysDistinct(seals) && AllOwned(seals, agreement)
    && forall n :: 0 <= n < |seals| ==> Linked(seals, n, agreement)
  }

  lemma {:induction false} LaterFollows(seals: seq<Snapshot>, agreement: Agreement, p: nat, q: nat)
    requires Linear(seals, agreement) && p < q < |seals|
    ensures Follows(seals[p], seals[q], agreement) && |seals[p].rows| <= Start(seals[q])
    ensures |seals[p].rows| == |seals[q].rows| ==> seals[p].states.halt.Some? == seals[q].states.halt.Some?
    decreases q
  {
    assert Linked(seals, q, agreement);
    if p + 1 < q {
      LaterFollows(seals, agreement, p, q - 1);
    }
  }

  /** Any two seals that the sort leaves in this order follow one another, ties included. */
  lemma SortedPairFollows(seals: seq<Snapshot>, agreement: Agreement, p: nat, q: nat)
    requires Linear(seals, agreement) && p < |seals| && q < |seals| && p != q
    requires !Precedes(seals[q], seals[p], agreement)
    ensures Follows(seals[p], seals[q], agreement)
  {
    if p < q {
      LaterFollows(seals, agreement, p, q);
    } else {
      LaterFollows(seals, agreement, q, p);
      assert Owned(seals[p], agreement) && Owned(seals[q], agreement);
    }
  }

  /******* Which collections merge *******/

  ghost predicate DrawnFrom(supplied: seq<Snapshot>, seals: seq<Snapshot>) {
    forall s :: s in supplied ==> s in seals
  }

  /** No attempt that spent is missing before an attempt that is present. */
  ghost predicate Complete(supplied: seq<Snapshot>, seals: seq<Snapshot>) {
    forall p, q :: 0 <= p < q < |seals| && seals[q] in supplied && Spends(seals[p]) ==> seals[p] in supplied
  }

  lemma {:induction false} HistoryHasNoConflict(supplied: seq<Snapshot>, seals: seq<Snapshot>)
    requires KeysDistinct(seals) && DrawnFrom(supplied, seals)
    ensures Unique(supplied).Ok? && SameElements(Unique(supplied).value, supplied)
  {
    if |supplied| > 0 {
      var front, last := supplied[..|supplied| - 1], supplied[|supplied| - 1];
      assert supplied == front + [last];
      HistoryHasNoConflict(front, seals);
      var before := Unique(front).value;
      var i := IndexOf(before, KeyOf(last));
      if i < |before| {
        assert before[i] in front && last in supplied;
        SameKeySameSeal(seals, before[i], last);
        assert before[i := last] == before;
      }
    }
  }

  lemma SameKeySameSeal(seals: seq<Snapshot>, a: Snapshot, b: Snapshot)
    requires KeysDistinct(seals) && a in seals && b in seals && KeyOf(a) == KeyOf(b)
    ensures a == b
  {
    var i :| 0 <= i < |seals| && seals[i] == a;
    var j :| 0 <= j < |seals| && seals[j] == b;
  }

  /** The only check of the scan that an honest history can fail. */
  ghost predicate Reaches(ordered: seq<Snapshot>, n: nat, agreement: Agreement)
    requires n < |ordered|
  {
    Start(ordered[n]) <= LengthBefore(ordered, n, agreement)
  }

  ghost predicate Gapless(ordered: seq<Snapshot>, agreement: Agreement) {
    forall n :: 0 <= n < |ordered| ==> Reaches(ordered, n, agreement)
  }

  ghost predicate Chained(ordered: seq<Snapshot>, agreement: Agreement) {
    && AllOwned(ordered, agreement)
    && forall i, j :: 0 <= i < j < |ordered| ==> Follows(ordered[i], ordered[j], agreement)
  }

  lemma {:induction false} ScanOfChained(ordered: seq<Snapshot>, agreement: Agreement)
    requires Chained(ordered, agreement)
    ensures Scan(ordered, agreement).Ok? <==> Gapless(ordered, agreement)
    ensures Scan(ordered, agreement).Err? ==> Scan(ordered, agreement).error == MissingAttempt
    ensures Scan(ordered, agreement).Ok? ==> Scan(ordered, agreement).value == CursorAt(ordered, |ordered|, agreement)
  {
    if |ordered| > 0 {
      var front, last := ordered[..|ordered| - 1], ordered[|ordered| - 1];
      ScanOfChained(front, agreement);
      assert forall n :: 0 <= n < |front| ==> Reaches(front, n, agreement) == Reaches(ordered, n, agreement);
      assert Gapless(ordered, agreement) <==> Gapless(front, agreement) && Reaches(ordered, |front|, agreement);
      assert CursorAt(front, |front|, agreement) == CursorAt(ordered, |front|, agreement);
      assert Owned(last, agreement);
      if |front| > 0 {
        assert Follows(ordered[|front| - 1], ordered[|front|], agreement);
      }
    }
  }

  lemma OrderedIsChained(supplied: seq<Snapshot>, seals: seq<Snapshot>, agreement: Agreement)
    requires Linear(seals, agreement) && DrawnFrom(supplied, seals)
    ensures Unique(supplied).Ok?
    ensures var ordered := Ordered(supplied, agreement);
            && SameElements(ordered, supplied) && Chained(ordered, agreement) && InOrder(ordered, agreement)
            && KeysDistinct(ordered)
  {
    HistoryHasNoConflict(supplied, seals);
    UniqueFacts(supplied);
    SortedIsOrdered(Unique(supplied).value, agreement);
    var ordered := Ordered(supplied, agreement);
    forall i, j | 0 <= i < j < |ordered| ensures Follows(ordered[i], ordered[j], agreement) {
      assert ordered[i] in supplied && ordered[j] in supplied;
      var p :| 0 <= p < |seals| && seals[p] == ordered[i];
      var q :| 0 <= q < |seals| && seals[q] == ordered[j];
      SortedPairFollows(seals, agreement, p, q);
    }
  }

  /** The last attempt before `q` that spent, when there is one, ended where `q` starts. */
  lemma {:induction false} LastSpender(seals: seq<Snapshot>, agreement: Agreement, q: nat) returns (p: nat)
    requires Linear(seals, agreement) && q < |seals|
    ensures Start(seals[q]) == |agreement.baseline|
            || (p < q && Spends(seals[p]) && |seals[p].rows| == Start(seals[q]))
    decreases q
  {
    assert Linked(seals, q, agreement);
    if q > 0 {
      if Spends(seals[q - 1]) {
        return q - 1;
      }
      assert Owned(seals[q - 1], agreement);
      p := LastSpender(seals, agreement, q - 1);
    } else {
      p := 0;
    }
  }

  lemma CompleteIsGapless(supplied: seq<Snapshot>, seals: seq<Snapshot>, agreement: Agreement)
    requires Linear(seals, agreement) && DrawnFrom(supplied, seals) && Complete(supplied, seals)
    requires Unique(supplied).Ok?
    ensures Gapless(Ordered(supplied, agreement), agreement)
  {
    OrderedIsChained(supplied, seals, agreement);
    var ordered := Ordered(supplied, agreement);
    forall j | 0 <= j < |ordered| ensures Reaches(ordered, j, agreement) {
      assert ordered[j] in supplied;
      var q :| 0 <= q < |seals| && seals[q] == ordered[j];
      var p := LastSpender(seals, agreement, q);
      if Start(seals[q]) == |agreement.baseline| {
        if j > 0 { assert Owned(ordered[j - 1], agreement); }
      } else {
        assert seals[p] in ordered;
        var i :| 0 <= i < |ordered| && ordered[i] == seals[p];
        assert Owned(seals[q], agreement) && Precedes(seals[p], seals[q], agreement);
        assert i < j;
        if i < j - 1 { assert Follows(ordered[i], ordered[j - 1], agreement); }
      }
    }
  }

  lemma MissingSpenderLeavesGap(supplied: seq<Snapshot>, seals: seq<Snapshot>, agreement: Agreement, p: nat, q: nat)
    requires Linear(seals, agreement) && DrawnFrom(supplied, seals) && Unique(supplied).Ok?
    requires p < q < |seals| && seals[q] in supplied && Spends(seals[p]) && seals[p] !in supplied
    ensures !Gapless(Ordered(supplied, agreement), agreement)
  {
    OrderedIsChained(supplied, seals, agreement);
    var ordered := Ordered(supplied, agreement);
    var j := FirstAfter(ordered, seals, agreement, p, q);
    assert Owned(seals[p], agreement);
    assert !Reaches(ordered, j, agreement);
  }

  /** The first element of the sorted collection that comes after position `p` of the history. */
  lemma FirstAfter(ordered: seq<Snapshot>, seals: seq<Snapshot>, agreement: Agreement, p: nat, q: nat) returns (j: nat)
    requires Linear(seals, agreement) && DrawnFrom(ordered, seals)
    requires p < q < |seals| && seals[q] in ordered && seals[p] !in ordered
    ensures j < |ordered| && |seals[p].rows| <= Start(ordered[j])
    ensures j > 0 ==> |ordered[j - 1].rows| <= Start(seals[p])
  {
    j := 0;
    while !exists r :: p < r < |seals| && seals[r] == ordered[j]
      invariant j < |ordered|
      invariant exists i :: j <= i < |ordered| && ordered[i] == seals[q]
      invariant j > 0 ==> |ordered[j - 1].rows| <= Start(seals[p])
      decreases |ordered| - j
    {
      assert ordered[j] in seals;
      var r :| 0 <= r < |seals| && seals[r] == ordered[j];
      assert r < p;
      LaterFollows(seals, agreement, r, p);
      j := j + 1;
    }
    var r :| p < r < |seals| && seals[r] == ordered[j];
    LaterFollows(seals, agreement, p, r);
  }

  /** Merging a collection from an honest history depends on nothing but the gaps of its sorted order. */
  lemma MergedOfHistory(supplied: seq<Snapshot>, seals: seq<Snapshot>, agreement: Agreement)
    requires Linear(seals, agreement) && DrawnFrom(supplied, seals)
    ensures Unique(supplied).Ok?
    ensures var ordered := Ordered(supplied, agreement);
            Merged(supplied, agreement) == if !Gapless(ordered, agreement) then Err(MissingAttempt)
                                           else if |ordered| == 0 then Ok(None) else Ok(Some(ordered[|ordered| - 1]))
  {
    OrderedIsChained(supplied, seals, agreement);
    var ordered := Ordered(supplied, agreement);
    ScanOfChained(ordered, agreement);
    HistoryHasNoConflict(supplied, seals);
    forall s | s in Unique(supplied).value ensures PolicyFor(agreement, s.receipt.authorization).Some? {
      assert s in supplied && Owned(s, agreement);
    }
  }

  ghost predicate Latest(result: Snapshot, supplied: seq<Snapshot>, agreement: Agreement) {
    result in supplied && forall s :: s in supplied && s != result ==> Follows(s, result, agreement)
  }

  lemma LastOrderedIsLatest(supplied: seq<Snapshot>, seals: seq<Snapshot>, agreement: Agreement)
    requires Linear(seals, agreement) && DrawnFrom(supplied, seals) && Unique(supplied).Ok?
    ensures var ordered := Ordered(supplied, agreement);
            && (supplied == [] <==> ordered == [])
            && (ordered != [] ==> Latest(ordered[|ordered| - 1], supplied, agreement))
  {
    OrderedIsChained(supplied, seals, agreement);
    var ordered := Ordered(supplied, agreement);
    if supplied != [] {
      assert supplied[0] in ordered;
    }
    if ordered != [] {
      assert ordered[0] in supplied;
      forall s | s in supplied && s != ordered[|ordered| - 1] ensures Follows(s, ordered[|ordered| - 1], agreement) {
        assert s in ordered;
      }
    }
  }

  /**
   Merge completeness. Seals drawn from an honest history, in any order and with repetitions, merge exactly when no
   spending attempt is missing before a present one; the only possible complaint is that missing attempt, and the
   result carries the longest log supplied.
   */
  lemma MergeSucceedsIff(supplied: seq<Snapshot>, seals: seq<Snapshot>, agreement: Agreement)
    requires Linear(seals, agreement) && DrawnFrom(supplied, seals)
    ensures Merged(supplied, agreement).Ok? <==> Complete(supplied, seals)
    ensures Merged(supplied, agreement).Err? ==> Merged(supplied, agreement).error == MissingAttempt
    ensures Merged(supplied, agreement).Ok? ==>
              if supplied == [] then Merged(supplied, agreement).value.None?
              else
                && Merged(supplied, agreement).value.Some?
                && Latest(Merged(supplied, agreement).value.value, supplied, agreement)
  {
    MergedOfHistory(supplied, seals, agreement);
    LastOrderedIsLatest(supplied, seals, agreement);
    if Complete(supplied, seals) {
      CompleteIsGapless(supplied, seals, agreement);
    } else {
      var p, q :| 0 <= p < q < |seals| && seals[q] in supplied && Spends(seals[p]) && seals[p] !in supplied;
      MissingSpenderLeavesGap(supplied, seals, agreement, p, q);
    }
  }
}
