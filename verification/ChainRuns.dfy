/**
 The protocol of CI attempts as a state machine, and what every run of it keeps: the
 chain of copied ledgers is one append-only log under lifetime caps.
 */
module ChainRuns {
  import opened Outcomes
  import opened Ledger
  import opened LedgerSafety
  import opened CiLedger
  import opened Merge
  import opened Chain

  /** An open attempt: its ledger, its identity, and whether it runs under the amendment. */
  datatype Live = Live(tables: Tables, run: Run, amended: bool)

  /** `lost`: the open attempt ended without a sealed ledger although its paid part had started. */
  datatype History = History(seals: seq<Snapshot>, live: Option<Live>, lost: bool)

  datatype Act =
    | Begin(run: Run, amended: bool)
    | Spend(stage: string, request: Request)
    | Learn(index: int, status: int, prompt: Option<nat>, completion: Option<nat>)
    | Finish
    | Abandon(started: bool)

  function Governing(agreement: Agreement, amended: bool): Agreement {
    if amended then agreement else RootOnly(agreement)
  }

  /**
   One step. Attempts are serialized by the workflow's concurrency group; a step that the code refuses, or that the
   serialization rules out, leaves the history as it is. An attempt learns usage only of its own requests. An attempt
   that ends unsealed is passed over when its paid part never started; otherwise no later attempt is ever reconciled,
   which is an assumption of this model: reconciliation refuses a paid attempt without its ledger.
   */
  function Next(agreement: Agreement, history: History, act: Act): History {
    if history.lost then history
    else match act
    case Begin(run, amended) =>
      if history.live.Some? || exists s :: s in history.seals && KeyOf(s) == (run.id, run.attempt) then history
      else
        var governing := Governing(agreement, amended);
        var merged := Merged(history.seals, governing);
        if merged.Err? then history
        else
          var started := Opened(governing, run, merged.value);
          if started.Err? then history else history.(live := Some(Live(started.value, run, amended)))
    case Spend(stage, request) =>
      if history.live.None? then history
      else
        var live := history.live.value;
        var reserved := AfterReserve(live.tables, Worker(Governing(agreement, live.amended), stage), request);
        if reserved.Err? then history else history.(live := Some(live.(tables := reserved.value)))
    case Learn(index, status, prompt, completion) =>
      if history.live.None? then history
      else
        var live := history.live.value;
        if live.tables.states.start.Some? && live.tables.states.start.value < index <= |live.tables.rows| then
          history.(live := Some(live.(tables := AfterSettle(live.tables, index, status, prompt, completion))))
        else history
    case Finish =>
      if history.live.None? then history
      else
        var live := history.live.value;
        var governing := Governing(agreement, live.amended);
        var sealed := Sealed(governing, live.run, live.tables);
        if sealed.Err? then history
        else
          var validated := Validated(sealed.value, live.run, governing);
          if validated.Err? then history else History(history.seals + [validated.value], None, false)
    case Abandon(started) =>
      if history.live.None? then history
      else if started || |history.live.value.tables.rows| > |Tip(agreement, history).rows| then history.(lost := true)
      else history.(live := None)
  }

  function Unfold(agreement: Agreement, history: History, acts: seq<Act>): History {
    if |acts| == 0 then history
    else Next(agreement, Unfold(agreement, history, acts[..|acts| - 1]), acts[|acts| - 1])
  }

  const NOTHING := History([], None, false)

  /******* The log that the copies refine *******/

  function Tip(agreement: Agreement, history: History): Cursor {
    CursorAt(history.seals, |history.seals|, agreement)
  }

  function LogRows(agreement: Agreement, history: History): seq<Row> {
    if history.live.Some? then history.live.value.tables.rows else Tip(agreement, history).rows
  }

  function LogOrigins(agreement: Agreement, history: History): seq<Origin> {
    if history.live.Some? then history.live.value.tables.origins else Tip(agreement, history).origins
  }

  predicate Halted(agreement: Agreement, history: History) {
    if history.live.Some? then history.live.value.tables.states.halt.Some? else Tip(agreement, history).halted
  }

  function PolicyInForce(agreement: Agreement, history: History): Policy {
    if history.live.Some? then CurrentPolicy(Governing(agreement, history.live.value.amended))
    else if Tip(agreement, history).rank == 0 then agreement.rootPolicy
    else CurrentPolicy(agreement)
  }

  /******* The invariant *******/

  ghost predicate LiveContinues(agreement: Agreement, tip: Cursor, live: Live) {
    var governing := Governing(agreement, live.amended);
    && Attempt(governing, live.run, |tip.rows|, live.tables)
    && tip.rows <= live.tables.rows && tip.origins <= live.tables.origins
    && tip.rank <= Rank(agreement, Authorized(governing))
    && (tip.halted ==> live.tables.states.halt.Some? && |live.tables.rows| == |tip.rows|)
    && (|live.tables.rows| == |tip.rows| ==> live.tables.states.halt.Some? == tip.halted)
  }

  ghost predicate Fresh(run: Run, seals: seq<Snapshot>) {
    forall s :: s in seals ==> KeyOf(s) != (run.id, run.attempt)
  }

  ghost predicate Orderly(agreement: Agreement, history: History) {
    && Sound(agreement)
    && AllGenuine(history.seals, agreement) && Linear(history.seals, agreement)
    && (history.live.Some? ==>
          && LiveContinues(agreement, Tip(agreement, history), history.live.value)
          && Fresh(history.live.value.run, history.seals))
  }

  /** Dropping the amendment changes nothing for a history that never used it. */
  lemma RootHistory(agreement: Agreement, seals: seq<Snapshot>)
    requires Sound(agreement) && AllGenuine(seals, agreement) && Linear(seals, agreement)
    requires forall s :: s in seals ==> PolicyFor(RootOnly(agreement), s.receipt.authorization).Some?
    ensures AllGenuine(seals, RootOnly(agreement)) && Linear(seals, RootOnly(agreement))
  {
    forall s | s in seals ensures Genuine(s, RootOnly(agreement)) {
      RootGenuine(agreement, s);
    }
    AllGenuineAreOwned(seals, RootOnly(agreement));
    forall n | 0 <= n < |seals| ensures Linked(seals, n, RootOnly(agreement)) {
      assert Linked(seals, n, agreement);
      assert CursorAt(seals, n, RootOnly(agreement)) == CursorAt(seals, n, agreement);
    }
  }

  lemma RootGenuine(agreement: Agreement, seal: Snapshot)
    requires Sound(agreement) && seal.receipt.authorization == agreement.root
    ensures Genuine(seal, agreement) <==> Genuine(seal, RootOnly(agreement))
  {
    forall package: Package | package.receipt.authorization == agreement.root
      ensures Validated(package, seal.run, agreement) == Validated(package, seal.run, RootOnly(agreement))
    {
      OriginalJudgedAlike(package, seal.run, agreement);
    }
  }

  /** A genuine history always reopens exactly at its tip. */
  lemma BeginContinues(agreement: Agreement, seals: seq<Snapshot>, governing: Agreement)
    requires Sound(governing) && AllGenuine(seals, governing) && Linear(seals, governing) && seals != []
    ensures Merged(seals, governing).Ok? && Merged(seals, governing).value.Some?
    ensures var parent := Merged(seals, governing).value.value;
            var tip := CursorAt(seals, |seals|, governing);
            && parent in seals && parent.rows == tip.rows && parent.origins == tip.origins
            && parent.states.halt.Some? == tip.halted && Rated(parent, governing) == tip.rank
  {
    MergeSucceedsIff(seals, seals, governing);
    LatestIsTip(seals, governing, Merged(seals, governing).value.value);
  }

  lemma LatestIsTip(seals: seq<Snapshot>, governing: Agreement, parent: Snapshot)
    requires Linear(seals, governing) && Latest(parent, seals, governing)
    ensures var tip := CursorAt(seals, |seals|, governing);
            && parent.rows == tip.rows && parent.origins == tip.origins
            && parent.states.halt.Some? == tip.halted && Rated(parent, governing) == tip.rank
  {
    var n := |seals| - 1;
    var p :| 0 <= p < |seals| && seals[p] == parent;
    assert seals[n] in seals;
    if p < n {
      LaterFollows(seals, governing, p, n);
    }
  }

  lemma BeginKeepsOrder(agreement: Agreement, history: History, run: Run, amended: bool)
    requires Orderly(agreement, history)
    ensures Orderly(agreement, Next(agreement, history, Begin(run, amended)))
  {
    var governing := Governing(agreement, amended);
    var after := Next(agreement, history, Begin(run, amended));
    if after != history {
      var seals := history.seals;
      MergedKnowsEveryAuthorization(seals, governing);
      if !amended {
        RootHistory(agreement, seals);
        assert CursorAt(seals, |seals|, governing) == CursorAt(seals, |seals|, agreement)
            by { SameTip(agreement, seals); }
      }
      if seals == [] {
        assert Merged(seals, governing) == Ok(None);
        OpenFreshStartsAttempt(governing, run);
      } else {
        BeginContinues(agreement, seals, governing);
        OpenRestoredStartsAttempt(governing, run, Merged(seals, governing).value.value);
      }
    }
  }

  lemma SameTip(agreement: Agreement, seals: seq<Snapshot>)
    ensures CursorAt(seals, |seals|, RootOnly(agreement)) == CursorAt(seals, |seals|, agreement)
  {
  }

  lemma MergedKnowsEveryAuthorization(seals: seq<Snapshot>, governing: Agreement)
    requires KeysDistinct(seals) && Merged(seals, governing).Ok?
    ensures forall s :: s in seals ==> PolicyFor(governing, s.receipt.authorization).Some?
  {
    HistoryHasNoConflict(seals, seals);
  }

  lemma SpendKeepsOrder(agreement: Agreement, history: History, stage: string, request: Request)
    requires Orderly(agreement, history)
    ensures Orderly(agreement, Next(agreement, history, Spend(stage, request)))
  {
    var after := Next(agreement, history, Spend(stage, request));
    if after != history {
      var live := history.live.value;
      ReserveKeepsAttempt(Governing(agreement, live.amended), live.run, |Tip(agreement, history).rows|, live.tables,
          stage, request);
    }
  }

  lemma LearnKeepsOrder(agreement: Agreement, history: History, index: int, status: int,
                        prompt: Option<nat>, completion: Option<nat>)
    requires Orderly(agreement, history)
    ensures Orderly(agreement, Next(agreement, history, Learn(index, status, prompt, completion)))
  {
    var after := Next(agreement, history, Learn(index, status, prompt, completion));
    if after != history {
      var live := history.live.value;
      SettleKeepsAttempt(Governing(agreement, live.amended), live.run, |Tip(agreement, history).rows|, live.tables,
                         index, status, prompt, completion);
    }
  }

  lemma FinishKeepsOrder(agreement: Agreement, history: History)
    requires Orderly(agreement, history)
    ensures Orderly(agreement, Next(agreement, history, Finish))
  {
    var after := Next(agreement, history, Finish);
    if after != history {
      var live := history.live.value;
      var seal := after.seals[|history.seals|];
      SealContinues(agreement, Tip(agreement, history), live);
      Lengthened(agreement, history.seals, seal);
    }
  }

  lemma Lengthened(agreement: Agreement, seals: seq<Snapshot>, seal: Snapshot)
    requires AllGenuine(seals, agreement) && Linear(seals, agreement) && Genuine(seal, agreement)
    requires Continues(CursorAt(seals, |seals|, agreement), seal, agreement)
    requires forall s :: s in seals ==> KeyOf(s) != KeyOf(seal)
    ensures AllGenuine(seals + [seal], agreement) && Linear(seals + [seal], agreement)
  {
    var after := seals + [seal];
    GenuineIsOwned(seal, agreement);
    forall n | 0 <= n < |after| ensures Linked(after, n, agreement) {
      assert CursorAt(after, n, agreement) == CursorAt(seals, n, agreement);
      if n < |seals| {
        assert Linked(seals, n, agreement);
      }
    }
  }

  lemma SealContinues(agreement: Agreement, tip: Cursor, live: Live)
    requires Sound(agreement) && LiveContinues(agreement, tip, live)
    requires Sealed(Governing(agreement, live.amended), live.run, live.tables).Ok?
    requires var governing := Governing(agreement, live.amended);
             Validated(Sealed(governing, live.run, live.tables).value, live.run, governing).Ok?
    ensures var governing := Governing(agreement, live.amended);
            var seal := Validated(Sealed(governing, live.run, live.tables).value, live.run, governing).value;
            && Continues(tip, seal, agreement) && Genuine(seal, agreement)
            && KeyOf(seal) == (live.run.id, live.run.attempt)
  {
    var governing := Governing(agreement, live.amended);
    SealRoundTrip(governing, live.run, |tip.rows|, live.tables);
    var seal := Validated(Sealed(governing, live.run, live.tables).value, live.run, governing).value;
    assert Genuine(seal, governing);
    if !live.amended {
      RootGenuine(agreement, seal);
    }
  }

  lemma NextKeepsOrder(agreement: Agreement, history: History, act: Act)
    requires Orderly(agreement, history)
    ensures Orderly(agreement, Next(agreement, history, act))
  {
    match act
    case Begin(run, amended) => BeginKeepsOrder(agreement, history, run, amended);
    case Spend(stage, request) => SpendKeepsOrder(agreement, history, stage, request);
    case Learn(index, status, prompt, completion) => LearnKeepsOrder(agreement, history, index, status, prompt,
        completion);
    case Finish => FinishKeepsOrder(agreement, history);
    case Abandon(_) =>
  }

  /******* What every run keeps *******/

  /** A row as it was reserved, without what was learned of it later. */
  function AsReserved(row: Row): Row {
    row.(prompt := None, completion := None, status := None)
  }

  ghost predicate Keeps(earlier: seq<Row>, later: seq<Row>) {
    && |earlier| <= |later|
    && forall i :: 0 <= i < |earlier| ==> AsReserved(later[i]) == AsReserved(earlier[i])
  }

  /**
   Append-only: sealed attempts stay, their rows stay, every request keeps its kind, stage, payload and bounds, and a
   halted log never grows.
   */
  ghost predicate Extends(agreement: Agreement, earlier: History, later: History) {
    && earlier.seals <= later.seals
    && Tip(agreement, earlier).rows <= Tip(agreement, later).rows
    && Tip(agreement, earlier).rows <= LogRows(agreement, later)
    && Keeps(LogRows(agreement, earlier), LogRows(agreement, later))
    && LogOrigins(agreement, earlier) <= LogOrigins(agreement, later)
    && (Halted(agreement, earlier) ==>
         Halted(agreement, later) && |LogRows(agreement, later)| == |LogRows(agreement, earlier)|)
  }

  lemma BeginExtends(agreement: Agreement, history: History, run: Run, amended: bool)
    requires Orderly(agreement, history)
    ensures var after := Next(agreement, history, Begin(run, amended));
            && Extends(agreement, history, after)
            && LogRows(agreement, after) == LogRows(agreement, history)
  {
    var after := Next(agreement, history, Begin(run, amended));
    var governing := Governing(agreement, amended);
    if after != history {
      MergedKnowsEveryAuthorization(history.seals, governing);
      if !amended {
        RootHistory(agreement, history.seals);
        SameTip(agreement, history.seals);
      }
      if history.seals == [] {
        assert Merged(history.seals, governing) == Ok(None);
      } else {
        BeginContinues(agreement, history.seals, governing);
        OpenRestoredStartsAttempt(governing, run, Merged(history.seals, governing).value.value);
      }
    }
  }

  lemma SpendExtends(agreement: Agreement, history: History, stage: string, request: Request)
    requires Orderly(agreement, history)
    ensures Extends(agreement, history, Next(agreement, history, Spend(stage, request)))
  {
    var after := Next(agreement, history, Spend(stage, request));
    if after != history {
      var live := history.live.value;
      ReserveKeepsAttempt(Governing(agreement, live.amended), live.run, |Tip(agreement, history).rows|, live.tables,
          stage, request);
    }
  }

  lemma LearnExtends(agreement: Agreement, history: History, act: Act)
    requires Orderly(agreement, history) && act.Learn?
    ensures Extends(agreement, history, Next(agreement, history, act))
  {
    LearnKeepsOrder(agreement, history, act.index, act.status, act.prompt, act.completion);
    TipWithinLog(agreement, history);
    if Next(agreement, history, act) != history {
      SettleNumbered(history.live.value.tables, act.index, act.status, act.prompt, act.completion);
    }
  }

  /** An attempt that spent nothing leaves the log exactly as its tip. */
  lemma AbandonExtends(agreement: Agreement, history: History, started: bool)
    requires Orderly(agreement, history)
    ensures var after := Next(agreement, history, Abandon(started));
            && Extends(agreement, history, after)
            && LogRows(agreement, after) == LogRows(agreement, history)
  {
    TipAligned(agreement, history.seals);
    TipWithinLog(agreement, history);
  }

  lemma TipAligned(agreement: Agreement, seals: seq<Snapshot>)
    requires Sound(agreement) && AllGenuine(seals, agreement)
    ensures var tip := CursorAt(seals, |seals|, agreement); |tip.rows| == |tip.origins|
  {
    if seals != [] {
      GenuineIsOwned(seals[|seals| - 1], agreement);
    }
  }

  lemma FinishExtends(agreement: Agreement, history: History)
    requires Orderly(agreement, history)
    ensures var after := Next(agreement, history, Finish);
            && Extends(agreement, history, after)
            && LogRows(agreement, after) == LogRows(agreement, history)
  {
    var after := Next(agreement, history, Finish);
    if after != history {
      var live := history.live.value;
      SealRoundTrip(Governing(agreement, live.amended), live.run, |Tip(agreement, history).rows|, live.tables);
      assert after.seals[..|history.seals|] == history.seals;
    }
  }

  lemma NextExtends(agreement: Agreement, history: History, act: Act)
    requires Orderly(agreement, history)
    ensures Extends(agreement, history, Next(agreement, history, act))
  {
    match act
    case Begin(run, amended) => BeginExtends(agreement, history, run, amended);
    case Spend(stage, request) => SpendExtends(agreement, history, stage, request);
    case Learn(_, _, _, _) => LearnExtends(agreement, history, act);
    case Finish => FinishExtends(agreement, history);
    case Abandon(started) => AbandonExtends(agreement, history, started);
  }

  lemma ExtendsTransitive(agreement: Agreement, a: History, b: History, c: History)
    requires Orderly(agreement, c) && Extends(agreement, a, b) && Extends(agreement, b, c)
    ensures Extends(agreement, a, c)
  {
  }

  lemma {:induction false} RunsStayOrderly(agreement: Agreement, history: History, acts: seq<Act>)
    requires Orderly(agreement, history)
    ensures Orderly(agreement, Unfold(agreement, history, acts))
    ensures Extends(agreement, history, Unfold(agreement, history, acts))
  {
    if |acts| > 0 {
      var before := Unfold(agreement, history, acts[..|acts| - 1]);
      RunsStayOrderly(agreement, history, acts[..|acts| - 1]);
      NextKeepsOrder(agreement, before, acts[|acts| - 1]);
      NextExtends(agreement, before, acts[|acts| - 1]);
      ExtendsTransitive(agreement, history, before, Unfold(agreement, history, acts));
    } else {
      TipWithinLog(agreement, history);
    }
  }

  /** In an orderly history the log is numbered, each request has its origin, and the sealed part is a prefix. */
  lemma TipWithinLog(agreement: Agreement, history: History)
    requires Orderly(agreement, history)
    ensures Tip(agreement, history).rows <= LogRows(agreement, history)
    ensures Numbered(LogRows(agreement, history))
            && Aligned(LogRows(agreement, history), LogOrigins(agreement, history))
    ensures agreement.baseline <= LogRows(agreement, history)
  {
    if history.live.None? && history.seals != [] {
      var last := history.seals[|history.seals| - 1];
      assert last in history.seals && Genuine(last, agreement);
    }
  }

  /**
   Log refinement. Every run from nothing keeps one numbered log with an origin for each request; from any moment of
   the run on, sealed attempts and their rows never change, and a halted log gains no request.
   */
  lemma LogRefinement(agreement: Agreement, earlier: seq<Act>, later: seq<Act>)
    requires Sound(agreement)
    ensures var before := Unfold(agreement, NOTHING, earlier);
            var after := Unfold(agreement, before, later);
            && Numbered(LogRows(agreement, after)) && Aligned(LogRows(agreement, after), LogOrigins(agreement, after))
            && agreement.baseline <= LogRows(agreement, after)
            && Linear(after.seals, agreement)
            && Extends(agreement, before, after)
  {
    RunsStayOrderly(agreement, NOTHING, earlier);
    RunsStayOrderly(agreement, Unfold(agreement, NOTHING, earlier), later);
    TipWithinLog(agreement, Unfold(agreement, Unfold(agreement, NOTHING, earlier), later));
  }

  /**
   Every collection of seals that any run leaves behind merges exactly when no spending attempt is missing from it.
   */
  lemma SealsOfAnyRunMerge(agreement: Agreement, acts: seq<Act>, supplied: seq<Snapshot>)
    requires Sound(agreement) && DrawnFrom(supplied, Unfold(agreement, NOTHING, acts).seals)
    ensures Merged(supplied, agreement).Ok? <==> Complete(supplied, Unfold(agreement, NOTHING, acts).seals)
    ensures AllGenuine(supplied, agreement)
  {
    RunsStayOrderly(agreement, NOTHING, acts);
    MergeSucceedsIff(supplied, Unfold(agreement, NOTHING, acts).seals, agreement);
  }

  /******* A run that spends, seals and merges *******/

  const ONE_CALL := Policy(Some("s"), 1, 1, 1, 0, 0, 0, 0, 0, None, map[])
  const ONE_CALL_AGREEMENT := Agreement("s", "r", ONE_CALL, [], [], None)
  const ONE_REQUEST := Request(Llm, "", "", 0, 0)

  function SpendingRun(run: Run): seq<Act> {
    [Begin(run, false), Spend("", ONE_REQUEST), Finish]
  }

  lemma SpendingRunUnfolds(agreement: Agreement, run: Run)
    ensures Unfold(agreement, NOTHING, SpendingRun(run))
         == Next(agreement, Next(agreement, Next(agreement, NOTHING, Begin(run, false)), Spend("", ONE_REQUEST)),
             Finish)
  {
    var acts := SpendingRun(run);
    assert acts[..2][..1] == acts[..1] && acts[..1][..0] == [];
    assert Unfold(agreement, NOTHING, acts[..1]) == Next(agreement, NOTHING, Begin(run, false));
  }

  /** The open attempt of that run, after its one request. */
  lemma SpendingRunSpends(run: Run)
    ensures var started := Next(ONE_CALL_AGREEMENT, NOTHING, Begin(run, false));
            var spent := Next(ONE_CALL_AGREEMENT, started, Spend("", ONE_REQUEST));
            && spent.live.Some? && spent.seals == [] && !spent.lost && spent.live.value.run == run
                 && !spent.live.value.amended
            && |spent.live.value.tables.rows| == 1 && Countable(spent.live.value.tables.rows)
            && Attempt(ONE_CALL_AGREEMENT, run, 0, spent.live.value.tables)
  {
    OpenFreshStartsAttempt(ONE_CALL_AGREEMENT, run);
    assert RootOnly(ONE_CALL_AGREEMENT) == ONE_CALL_AGREEMENT;
    assert Merged([], ONE_CALL_AGREEMENT) == Ok(None);
    var tables := Opened(ONE_CALL_AGREEMENT, run, None).value;
    assert tables.rows == [] && tables.origins == [];
    ReserveKeepsAttempt(ONE_CALL_AGREEMENT, run, 0, tables, "", ONE_REQUEST);
  }

  lemma SpendingRunSeals(run: Run)
    ensures var seals := Unfold(ONE_CALL_AGREEMENT, NOTHING, SpendingRun(run)).seals;
            |seals| == 1 && Spends(seals[0])
  {
    SpendingRunUnfolds(ONE_CALL_AGREEMENT, run);
    SpendingRunSpends(run);
    var started := Next(ONE_CALL_AGREEMENT, NOTHING, Begin(run, false));
    var spent := Next(ONE_CALL_AGREEMENT, started, Spend("", ONE_REQUEST));
    assert RootOnly(ONE_CALL_AGREEMENT) == ONE_CALL_AGREEMENT;
    SealRoundTrip(ONE_CALL_AGREEMENT, run, 0, spent.live.value.tables);
  }

  /** Some run spends, seals and merges: one request under a one-request agreement. */
  lemma SpendingRunMerges(run: Run)
    ensures var seals := Unfold(ONE_CALL_AGREEMENT, NOTHING, SpendingRun(run)).seals;
            && |seals| == 1 && Spends(seals[0])
            && Merged(seals, ONE_CALL_AGREEMENT) == Ok(Some(seals[0]))
  {
    SpendingRunSeals(run);
    RunsStayOrderly(ONE_CALL_AGREEMENT, NOTHING, SpendingRun(run));
    SingleSealMerges(ONE_CALL_AGREEMENT, Unfold(ONE_CALL_AGREEMENT, NOTHING, SpendingRun(run)).seals);
  }

  lemma SingleSealMerges(agreement: Agreement, seals: seq<Snapshot>)
    requires Linear(seals, agreement) && |seals| == 1
    ensures Merged(seals, agreement) == Ok(Some(seals[0]))
  {
    MergeSucceedsIff(seals, seals, agreement);
  }

  /******* Lifetime caps *******/

  /** An amendment only raises request caps. */
  lemma AmendmentOnlyRaises(agreement: Agreement, rows: seq<Row>)
    requires Sound(agreement) && Raises(agreement) && WithinCaps(agreement.rootPolicy, rows)
    ensures WithinCaps(CurrentPolicy(agreement), rows)
    ensures forall meter :: Cap(meter, agreement.rootPolicy).Some? ==>
              && Cap(meter, CurrentPolicy(agreement)).Some?
              && Cap(meter, agreement.rootPolicy).value <= Cap(meter, CurrentPolicy(agreement)).value
    ensures forall side :: Cap(Tokens(side), CurrentPolicy(agreement)) == Cap(Tokens(side), agreement.rootPolicy)
  {
  }

  lemma SpendStaysCapped(tables: Tables, client: Client, request: Request)
    requires WithinCaps(client.policy, tables.rows) && AfterReserve(tables, client, request).Ok?
    ensures WithinCaps(client.policy, AfterReserve(tables, client, request).value.rows)
  {
    AdmittedIffFits(tables.rows, client, request);
    forall meter | Aggregate(meter) && Cap(meter, client.policy).Some?
      ensures Usage(meter, AfterReserve(tables, client, request).value.rows) <= Max(0, Cap(meter, client.policy).value)
    {
      ReserveAppends(tables, client, request, meter);
    }
  }

  /** The policy under which the sealed part of the log was spent. */
  function TipPolicy(agreement: Agreement, history: History): Policy {
    if Tip(agreement, history).rank == 0 then agreement.rootPolicy else CurrentPolicy(agreement)
  }

  ghost predicate Capped(agreement: Agreement, history: History) {
    && WithinCaps(PolicyInForce(agreement, history), LogRows(agreement, history))
    && WithinCaps(TipPolicy(agreement, history), Tip(agreement, history).rows)
  }

  /**
   Lifetime caps. Counting the baseline and every attempt that ever sealed, requests and reservations stay within the
   policy in force through every run, across restores and the amendment.
   */
  lemma {:induction false} LifetimeCapsHold(agreement: Agreement, acts: seq<Act>)
    requires Sound(agreement) && Raises(agreement) && WithinCaps(agreement.rootPolicy, agreement.baseline)
    ensures Capped(agreement, Unfold(agreement, NOTHING, acts))
  {
    if |acts| > 0 {
      var before := Unfold(agreement, NOTHING, acts[..|acts| - 1]);
      LifetimeCapsHold(agreement, acts[..|acts| - 1]);
      RunsStayOrderly(agreement, NOTHING, acts[..|acts| - 1]);
      CapsStep(agreement, before, acts[|acts| - 1]);
    }
  }

  lemma CapsStep(agreement: Agreement, history: History, act: Act)
    requires Orderly(agreement, history) && Raises(agreement) && Capped(agreement, history)
    ensures Capped(agreement, Next(agreement, history, act))
  {
    if Next(agreement, history, act) != history {
      match act
      case Begin(run, amended) =>
        BeginExtends(agreement, history, run, amended);
        BeginCaps(agreement, history, run, amended);
      case Spend(stage, request) =>
        SpendStaysCapped(history.live.value.tables, Worker(Governing(agreement, history.live.value.amended), stage),
            request);
      case Learn(index, status, prompt, completion) =>
        LearnStaysCapped(history.live.value.tables, index, status, prompt, completion,
            PolicyInForce(agreement, history));
      case Finish =>
        FinishExtends(agreement, history);
        FinishCaps(agreement, history);
      case Abandon(started) =>
        AbandonExtends(agreement, history, started);
    }
  }

  lemma BeginCaps(agreement: Agreement, history: History, run: Run, amended: bool)
    requires Orderly(agreement, history) && Next(agreement, history, Begin(run, amended)) != history
    requires Raises(agreement) && Capped(agreement, history)
    ensures var after := Next(agreement, history, Begin(run, amended));
            WithinCaps(PolicyInForce(agreement, after), LogRows(agreement, history))
  {
    BeginKeepsOrder(agreement, history, run, amended);
    if PolicyInForce(agreement, history) == agreement.rootPolicy {
      AmendmentOnlyRaises(agreement, LogRows(agreement, history));
    }
  }

  lemma LearnStaysCapped(tables: Tables, index: int, status: int, prompt: Option<nat>, completion: Option<nat>,
                         policy: Policy)
    requires WithinCaps(policy, tables.rows)
    ensures WithinCaps(policy, AfterSettle(tables, index, status, prompt, completion).rows)
  {
    forall meter | Aggregate(meter)
      ensures Usage(meter, AfterSettle(tables, index, status, prompt, completion).rows) == Usage(meter, tables.rows)
    {
      SettleKeepsCounts(tables, index, status, prompt, completion, meter);
    }
  }

  /** Sealing moves the tip to the attempt's own authorization. */
  lemma FinishCaps(agreement: Agreement, history: History)
    requires Orderly(agreement, history) && Next(agreement, history, Finish) != history
    ensures var after := Next(agreement, history, Finish);
            && PolicyInForce(agreement, after) == TipPolicy(agreement, after) == PolicyInForce(agreement, history)
            && Tip(agreement, after).rows == LogRows(agreement, history)
  {
    var live := history.live.value;
    SealRoundTrip(Governing(agreement, live.amended), live.run, |Tip(agreement, history).rows|, live.tables);
  }

  /******* Lifetime token limits *******/

  /** A step that records usage meets its guard, if it takes effect. */
  ghost predicate StepFits(agreement: Agreement, history: History, act: Act, side: Side, limit: int) {
    act.Learn? && Next(agreement, history, act) != history ==>
      Fits(LogRows(agreement, history), Answer(act.index, act.status, act.prompt, act.completion), side, limit)
  }

  ghost predicate EveryStepFits(agreement: Agreement, acts: seq<Act>, side: Side, limit: int) {
    |acts| > 0 ==>
      && EveryStepFits(agreement, acts[..|acts| - 1], side, limit)
      && StepFits(agreement, Unfold(agreement, NOTHING, acts[..|acts| - 1]), acts[|acts| - 1], side, limit)
  }

  ghost predicate AlwaysWithin(agreement: Agreement, acts: seq<Act>, side: Side, limit: int) {
    && MeetsLimit(LogRows(agreement, Unfold(agreement, NOTHING, acts)), side, limit)
    && (|acts| > 0 ==> AlwaysWithin(agreement, acts[..|acts| - 1], side, limit))
  }

  /** Every step that records usage is the first to do so, on this side, for its request. */
  ghost predicate FirstLearns(agreement: Agreement, acts: seq<Act>, side: Side) {
    |acts| > 0 ==>
      && FirstLearns(agreement, acts[..|acts| - 1], side)
      && var act := acts[|acts| - 1];
         act.Learn? ==>
           FirstUse(LogRows(agreement, Unfold(agreement, NOTHING, acts[..|acts| - 1])),
                    Answer(act.index, act.status, act.prompt, act.completion), side)
  }

  lemma WithinStep(agreement: Agreement, history: History, act: Act, side: Side, limit: int)
    requires Orderly(agreement, history) && limit >= Cap(Tokens(side), agreement.rootPolicy).value
    requires MeetsLimit(LogRows(agreement, history), side, limit)
    ensures MeetsLimit(LogRows(agreement, Next(agreement, history, act)), side, limit)
            <==> StepFits(agreement, history, act, side, limit)
  {
    if Next(agreement, history, act) != history {
      match act
      case Begin(run, amended) => BeginExtends(agreement, history, run, amended);
      case Finish => FinishExtends(agreement, history);
      case Abandon(started) => AbandonExtends(agreement, history, started);
      case Spend(stage, request) => SpendWithin(agreement, history, stage, request, side, limit);
      case Learn(_, _, _, _) => LearnWithin(agreement, history, act, side, limit);
    }
  }

  lemma LearnWithin(agreement: Agreement, history: History, act: Act, side: Side, limit: int)
    requires Orderly(agreement, history) && act.Learn? && Next(agreement, history, act) != history
    ensures MeetsLimit(LogRows(agreement, Next(agreement, history, act)), side, limit)
            <==> Fits(LogRows(agreement, history), Answer(act.index, act.status, act.prompt, act.completion), side,
                limit)
  {
    TipWithinLog(agreement, history);
    SettlementMeetsLimitIff(history.live.value.tables, act.index - 1, act.status, act.prompt, act.completion, side,
        limit);
  }

  lemma SpendWithin(agreement: Agreement, history: History, stage: string, request: Request, side: Side, limit: int)
    requires Orderly(agreement, history) && limit >= Cap(Tokens(side), agreement.rootPolicy).value
    requires MeetsLimit(LogRows(agreement, history), side, limit)
    ensures MeetsLimit(LogRows(agreement, Next(agreement, history, Spend(stage, request))), side, limit)
  {
    if Next(agreement, history, Spend(stage, request)) != history {
      var live := history.live.value;
      ReserveCovered(live.tables, Worker(Governing(agreement, live.amended), stage), request, side);
      ChargeSplits(live.tables.rows, side);
      ChargeSplits(LogRows(agreement, Next(agreement, history, Spend(stage, request))), side);
    }
  }

  /**
   Lifetime tokens, exactly. Counting the baseline and every attempt, the token limit holds at every moment of a run, up
   to the overruns of single requests, exactly when every recorded usage met its guard.
   */
  lemma {:induction false} LifetimeTokensIff(agreement: Agreement, acts: seq<Act>, side: Side, limit: int)
    requires Sound(agreement) && limit >= Cap(Tokens(side), agreement.rootPolicy).value
    requires MeetsLimit(agreement.baseline, side, limit)
    ensures AlwaysWithin(agreement, acts, side, limit) <==> EveryStepFits(agreement, acts, side, limit)
  {
    if |acts| > 0 {
      LifetimeTokensIff(agreement, acts[..|acts| - 1], side, limit);
      RunsStayOrderly(agreement, NOTHING, acts[..|acts| - 1]);
      if AlwaysWithin(agreement, acts[..|acts| - 1], side, limit) {
        WithinStep(agreement, Unfold(agreement, NOTHING, acts[..|acts| - 1]), acts[|acts| - 1], side, limit);
      }
    }
  }

  lemma {:induction false} FirstLearnsFit(agreement: Agreement, acts: seq<Act>, side: Side, limit: int)
    requires Sound(agreement) && limit >= Cap(Tokens(side), agreement.rootPolicy).value
    requires MeetsLimit(agreement.baseline, side, limit) && FirstLearns(agreement, acts, side)
    ensures EveryStepFits(agreement, acts, side, limit)
  {
    if |acts| > 0 {
      var front, act := acts[..|acts| - 1], acts[|acts| - 1];
      FirstLearnsFit(agreement, front, side, limit);
      LifetimeTokensIff(agreement, front, side, limit);
      if act.Learn? {
        FirstUseFits(LogRows(agreement, Unfold(agreement, NOTHING, front)),
                     Answer(act.index, act.status, act.prompt, act.completion), side, limit);
      }
    }
  }

  /**
   Lifetime tokens. When usage is recorded once per request, tokens charged to the baseline and all attempts together
   stay within the root limit, or what the baseline already covered, plus the overruns of single requests.
   */
  lemma LifetimeTokensHold(agreement: Agreement, acts: seq<Act>, side: Side)
    requires Sound(agreement) && FirstLearns(agreement, acts, side)
    ensures var rows := LogRows(agreement, Unfold(agreement, NOTHING, acts));
            Usage(Tokens(side), rows)
            <= Max(Sum(agreement.baseline, Covered(side)), Cap(Tokens(side), agreement.rootPolicy).value)
               + Sum(rows, Overrun(side))
  {
    var limit := Max(Sum(agreement.baseline, Covered(side)), Cap(Tokens(side), agreement.rootPolicy).value);
    ChargeSplits(agreement.baseline, side);
    FirstLearnsFit(agreement, acts, side, limit);
    LifetimeTokensIff(agreement, acts, side, limit);
  }

  /** Under an accepted contract with a nonnegative token remainder that bound is the authorized limit itself. */
  lemma ContractLifetimeTokens(series: string, root: string, authorization: Authorization, runs: seq<PastRun>,
                               file: Option<AmendmentFile>, policy: Policy, acts: seq<Act>, side: Side)
    requires Contract(series, root, authorization, runs, file, policy).Some?
    requires file.Some? ==> file.value.digest != root
    requires (if side.Input? then authorization.remainingInput else authorization.remainingOutput) >= 0
    requires FirstLearns(Contract(series, root, authorization, runs, file, policy).value, acts, side)
    ensures var agreement := Contract(series, root, authorization, runs, file, policy).value;
            MeetsLimit(LogRows(agreement, Unfold(agreement, NOTHING, acts)), side, Cap(Tokens(side), policy).value)
  {
    ContractIsSound(series, root, authorization, runs, file, policy);
    ContractTokens(series, root, authorization, runs, file, policy, side);
    BaselineWithinTokens(Contract(series, root, authorization, runs, file, policy).value, acts, side);
  }

  lemma BaselineWithinTokens(agreement: Agreement, acts: seq<Act>, side: Side)
    requires Sound(agreement) && FirstLearns(agreement, acts, side)
    requires Sum(agreement.baseline, Covered(side)) <= Cap(Tokens(side), agreement.rootPolicy).value
    ensures MeetsLimit(LogRows(agreement, Unfold(agreement, NOTHING, acts)), side,
                       Cap(Tokens(side), agreement.rootPolicy).value)
  {
    LifetimeTokensHold(agreement, acts, side);
  }
}
