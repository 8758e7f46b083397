/**
 Sealed CI attempts of scripts/ci_budget_ledger.py: the cumulative agreement, opening
 an attempt from a snapshot, sealing it, and validating a sealed package.

 Digests hold the digested value (an injective hash). A package stands for the three
 files of the artifact; GitHub's own artifact metadata is reduced to the run identity.
 */
module CiLedger {
  import opened Outcomes
  import opened Ledger
  import opened LedgerSafety
  import opened BudgetStore

  /******* The cumulative agreement *******/

  datatype Amendment = Amendment(authorization: string, policy: Policy, anchor: nat,
                                 preservedRequests: seq<Row>, preservedOrigins: seq<Origin>,
                                 previousCap: int, nextCap: int, additional: int, previousPolicy: Policy)

  datatype Agreement = Agreement(series: string, root: string, rootPolicy: Policy,
                                 baseline: seq<Row>, baselineOrigins: seq<Origin>, amendment: Option<Amendment>)

  datatype PastRun = PastRun(run: Run, requests: seq<Row>)

  datatype Authorization = Authorization(consumed: int, remaining: int, additional: int, previousCap: int, cap: int,
                                         remainingInput: int, remainingOutput: int, notPerRun: bool, noReset: bool)

  /** The baseline runs laid end to end under new request numbers. */
  function BaselineRows(runs: seq<PastRun>): seq<Row> {
    if |runs| == 0 then []
    else
      var before := BaselineRows(runs[..|runs| - 1]);
      before + Renumbered(runs[|runs| - 1].requests, |before|)
  }

  function Renumbered(requests: seq<Row>, offset: int): seq<Row> {
    seq(|requests|, i requires 0 <= i < |requests| => requests[i].(id := offset + i + 1))
  }

  function BaselineOrigins(runs: seq<PastRun>): seq<Origin> {
    if |runs| == 0 then []
    else
      var before := BaselineOrigins(runs[..|runs| - 1]);
      var last := runs[|runs| - 1];
      before + seq(|last.requests|, i requires 0 <= i < |last.requests| =>
                   Origin(|before| + i + 1, last.run.id, last.run.attempt, last.run.head, last.requests[i].id))
  }

  predicate Aligned(rows: seq<Row>, origins: seq<Origin>) {
    && |origins| == |rows|
    && forall i :: 0 <= i < |origins| ==> origins[i].request == i + 1
  }

  lemma {:induction false} BaselineIsNumbered(runs: seq<PastRun>)
    ensures Numbered(BaselineRows(runs)) && Aligned(BaselineRows(runs), BaselineOrigins(runs))
  {
    if |runs| > 0 {
      BaselineIsNumbered(runs[..|runs| - 1]);
    }
  }

  /** Every baseline request keeps all it was recorded with but its number, and its origin names its own run. */
  lemma {:induction false} BaselineKeepsRuns(runs: seq<PastRun>, k: nat, i: nat)
    requires k < |runs| && i < |runs[k].requests|
    ensures var at := |BaselineRows(runs[..k])| + i;
            && at < |BaselineRows(runs)| == |BaselineOrigins(runs)|
            && BaselineRows(runs)[at] == runs[k].requests[i].(id := at + 1)
            && BaselineOrigins(runs)[at] == Origin(at + 1, runs[k].run.id, runs[k].run.attempt, runs[k].run.head,
                                                   runs[k].requests[i].id)
  {
    BaselineIsNumbered(runs);
    BaselineIsNumbered(runs[..|runs| - 1]);
    if k < |runs| - 1 {
      BaselineKeepsRuns(runs[..|runs| - 1], k, i);
      assert runs[..|runs| - 1][..k] == runs[..k];
    }
  }

  function ExpectedPolicy(series: string, authorization: Authorization, rows: seq<Row>): Policy {
    Policy(Some(series), authorization.cap, authorization.cap, authorization.cap, 0, 0, 0,
           Usage(Tokens(Input), rows) + authorization.remainingInput,
           Usage(Tokens(Output), rows) + authorization.remainingOutput, None, map[])
  }

  /** `contract` before any amendment: the baseline, the root policy and the checks that tie them together. */
  function RootContract(series: string, root: string, authorization: Authorization,
                        runs: seq<PastRun>): Option<Agreement> {
    var rows := BaselineRows(runs);
    if || (exists row :: row in rows && (row.prompt.None? || row.completion.None?))
       || |rows| != authorization.consumed
       || |rows| + authorization.remaining != authorization.cap
       || authorization.cap - authorization.previousCap != authorization.additional
       || !authorization.notPerRun || !authorization.noReset
       || (exists row :: row in rows && !row.kind.Llm?) then None
    else Some(Agreement(series, root, ExpectedPolicy(series, authorization, rows), rows, BaselineOrigins(runs), None))
  }

  /** An accepted amendment raises the three request caps to its new cap and leaves the rest of the policy alone. */
  function Revised(policy: Policy, cap: int): Policy {
    policy.(modelHttp := cap, llmHttp := cap, totalHttp := cap)
  }

  const PREVIOUS_CAP := 1358
  const VERIFIED_CONSUMED := 1269
  const ADDITIONAL := 207
  const NEXT_CAP := 1565

  /** The amendment file; `attested` stands for its schema, human answer, flags and activation prerequisites. */
  datatype AmendmentFile = AmendmentFile(digest: string, attested: bool, root: string, previousPolicy: Policy,
                                         previousCap: int, consumed: int, previousRemaining: int, additional: int,
                                         nextCap: int, remaining: int, baseline: (seq<Row>, seq<Origin>),
                                         preservedRequests: seq<Row>, preservedOrigins: seq<Origin>)

  function Amended(agreement: Agreement, file: AmendmentFile): Option<Agreement> {
    if || !file.attested || file.root != agreement.root || file.previousPolicy != agreement.rootPolicy
       || file.previousCap != PREVIOUS_CAP || file.consumed != VERIFIED_CONSUMED || file.previousRemaining != 89
       || file.additional != ADDITIONAL || file.nextCap != NEXT_CAP || file.remaining != 296
       || file.baseline != (agreement.baseline, agreement.baselineOrigins) then None
    else
      var amendment := Amendment(file.digest, Revised(agreement.rootPolicy, NEXT_CAP), VERIFIED_CONSUMED,
                                 file.preservedRequests, file.preservedOrigins, PREVIOUS_CAP, NEXT_CAP, ADDITIONAL,
                                 file.previousPolicy);
      Some(agreement.(amendment := Some(amendment)))
  }

  /** `contract`: `policy` is the content of the current policy file. */
  function Contract(series: string, root: string, authorization: Authorization, runs: seq<PastRun>,
                    file: Option<AmendmentFile>, policy: Policy): Option<Agreement>
  {
    var original := RootContract(series, root, authorization, runs);
    if original.None? then None
    else
      var agreement := if file.None? then original else Amended(original.value, file.value);
      if agreement.None? || CurrentPolicy(agreement.value) != policy then None else agreement
  }

  function Authorized(agreement: Agreement): string {
    if agreement.amendment.Some? then agreement.amendment.value.authorization else agreement.root
  }

  function CurrentPolicy(agreement: Agreement): Policy {
    if agreement.amendment.Some? then agreement.amendment.value.policy else agreement.rootPolicy
  }

  function PolicyFor(agreement: Agreement, authorization: string): Option<Policy> {
    if authorization == Authorized(agreement) then Some(CurrentPolicy(agreement))
    else if authorization == agreement.root then Some(agreement.rootPolicy)
    else None
  }

  /** Position of an authorization among the agreement's versions. */
  function Rank(agreement: Agreement, authorization: string): nat {
    if authorization == agreement.root then 0 else 1
  }

  /** `authorization_contract` for the original authorization. */
  function RootOnly(agreement: Agreement): Agreement {
    agreement.(amendment := None)
  }

  /** What `contract` establishes about every agreement it returns. */
  ghost predicate Sound(agreement: Agreement) {
    && Numbered(agreement.baseline) && Aligned(agreement.baseline, agreement.baselineOrigins)
    && agreement.rootPolicy.series == Some(agreement.series)
    && agreement.rootPolicy.stages == map[]
    && (agreement.amendment.Some? ==>
          var amendment := agreement.amendment.value;
          && amendment.authorization != agreement.root
          && amendment.previousPolicy == agreement.rootPolicy
          && amendment.policy == Revised(agreement.rootPolicy, amendment.nextCap)
          && agreement.rootPolicy.modelHttp == agreement.rootPolicy.llmHttp == agreement.rootPolicy.totalHttp)
  }

  /** What `contract` does not compare: whether the amended cap is at least the root cap. */
  predicate Raises(agreement: Agreement) {
    agreement.amendment.Some? ==> agreement.rootPolicy.totalHttp <= agreement.amendment.value.nextCap
  }

  ghost predicate WithinCaps(policy: Policy, rows: seq<Row>) {
    forall meter :: Aggregate(meter) && Cap(meter, policy).Some? ==>
        Usage(meter, rows) <= Max(0, Cap(meter, policy).value)
  }

  lemma {:induction false} OneKindOnly(rows: seq<Row>, kind: Kind)
    requires forall row :: row in rows ==> row.kind.Llm?
    ensures Usage(PerKind(kind), rows) == if kind.Llm? then |rows| else 0
    ensures Usage(Models, rows) == |rows|
  {
    if |rows| > 0 {
      assert rows[|rows| - 1] in rows;
      OneKindOnly(rows[..|rows| - 1], kind);
    }
  }

  /**
   Every agreement that the contract returns is sound. Nothing compares its root cap with the amended one: an amendment
   raises the caps exactly when the root cap is not already higher. Its baseline is inside the root caps exactly when
   the authorized remainder is not negative, an empty baseline aside.
   */
  lemma ContractIsSound(series: string, root: string, authorization: Authorization, runs: seq<PastRun>,
                        file: Option<AmendmentFile>, policy: Policy)
    requires Contract(series, root, authorization, runs, file, policy).Some?
    requires file.Some? ==> file.value.digest != root
    ensures var agreement := Contract(series, root, authorization, runs, file, policy).value;
            && Sound(agreement) && (Raises(agreement) <==> file.None? || authorization.cap <= NEXT_CAP)
            && (WithinCaps(agreement.rootPolicy, agreement.baseline)
                <==> authorization.remaining >= 0 || authorization.consumed == 0)
            && agreement.rootPolicy.modelHttp - |agreement.baseline| == authorization.remaining
            && agreement.rootPolicy.totalHttp == agreement.rootPolicy.llmHttp == agreement.rootPolicy.modelHttp
               == authorization.cap
            && agreement.rootPolicy.searchHttp == agreement.rootPolicy.embeddingHttp
               == agreement.rootPolicy.rerankerHttp == 0
            && (if file.None? then policy == agreement.rootPolicy
                else policy == agreement.rootPolicy.(totalHttp := 1565, modelHttp := 1565, llmHttp := 1565))
  {
    BaselineIsNumbered(runs);
    var rows := BaselineRows(runs);
    TotalIsLength(rows);
    forall kind { OneKindOnly(rows, kind); }
    assert Aggregate(Total) && Cap(Total, ExpectedPolicy(series, authorization, rows)) == Some(authorization.cap);
  }

  /** What the contract demands of its files, and of every baseline request. */
  lemma ContractDemands(series: string, root: string, authorization: Authorization, runs: seq<PastRun>,
                        file: Option<AmendmentFile>, policy: Policy)
    requires Contract(series, root, authorization, runs, file, policy).Some?
    ensures var agreement := Contract(series, root, authorization, runs, file, policy).value;
            && |agreement.baseline| == authorization.consumed
            && authorization.consumed + authorization.remaining == authorization.cap
            && authorization.cap - authorization.previousCap == authorization.additional
            && authorization.notPerRun && authorization.noReset
            && (forall row :: row in agreement.baseline ==> row.kind.Llm? && row.prompt.Some? && row.completion.Some?)
            && (agreement.amendment.Some? <==> file.Some?)
            && (file.Some? ==>
                  && file.value.attested && file.value.root == root
                  && file.value.previousPolicy == agreement.rootPolicy
                  && file.value.baseline == (agreement.baseline, agreement.baselineOrigins)
                  && agreement.amendment.value.authorization == file.value.digest
                  && agreement.amendment.value.preservedRequests == file.value.preservedRequests
                  && agreement.amendment.value.preservedOrigins == file.value.preservedOrigins
                  && agreement.amendment.value.anchor == file.value.consumed == 1269
                  && agreement.amendment.value.nextCap == file.value.nextCap == 1565
                  && agreement.amendment.value.previousCap == file.value.previousCap == 1358
                  && agreement.amendment.value.additional == file.value.additional == 207)
  {
    assert BaselineRows(runs) == Contract(series, root, authorization, runs, file, policy).value.baseline;
  }

  lemma CoveredIsCharged(rows: seq<Row>, side: Side)
    ensures Sum(rows, Covered(side)) <= Usage(Tokens(side), rows)
  {
    ChargeSplits(rows, side);
  }

  /** The root token limits leave exactly the authorized token remainders above what the baseline was charged. */
  lemma ContractTokens(series: string, root: string, authorization: Authorization, runs: seq<PastRun>,
                       file: Option<AmendmentFile>, policy: Policy, side: Side)
    requires Contract(series, root, authorization, runs, file, policy).Some?
    ensures var agreement := Contract(series, root, authorization, runs, file, policy).value;
            var remainder := if side.Input? then authorization.remainingInput else authorization.remainingOutput;
            && Cap(Tokens(side), agreement.rootPolicy) == Some(Usage(Tokens(side), agreement.baseline) + remainder)
            && Cap(Tokens(side), policy) == Cap(Tokens(side), agreement.rootPolicy)
            && Sum(agreement.baseline, Covered(side)) <= Cap(Tokens(side), agreement.rootPolicy).value - remainder
  {
    var rows := BaselineRows(runs);
    var agreement := Contract(series, root, authorization, runs, file, policy).value;
    assert agreement.baseline == rows && agreement.rootPolicy == ExpectedPolicy(series, authorization, rows);
    CoveredIsCharged(rows, side);
  }

  /** An accepted contract whose amendment lowers the caps: the root authorization already allowed 2000 requests. */
  lemma AmendmentCanLowerTheCap()
    ensures var authorization := Authorization(0, 2000, 500, 1500, 2000, 0, 0, true, true);
            var rootPolicy := ExpectedPolicy("s", authorization, []);
            var file := AmendmentFile("a", true, "r", rootPolicy, PREVIOUS_CAP, VERIFIED_CONSUMED, 89, ADDITIONAL,
                                      NEXT_CAP, 296, ([], []), [], []);
            var accepted := Contract("s", "r", authorization, [], Some(file), Revised(rootPolicy, NEXT_CAP));
            && accepted.Some?
                 && CurrentPolicy(accepted.value).totalHttp == NEXT_CAP < accepted.value.rootPolicy.totalHttp
  {
    assert BaselineRows([]) == [] && BaselineOrigins([]) == [];
  }

  /******* Sealed packages *******/

  datatype Report = Report(policy: Policy, requests: seq<Row>, http: int, chargedInput: int, chargedOutput: int,
                           halt: Option<int>)

  datatype Receipt = Receipt(run: Run, series: string, sealed: bool, authorization: string,
                             baseline: (seq<Row>, seq<Origin>), policy: Policy, start: int, cumulative: int, added: int,
                             requests: seq<Row>, origins: seq<Origin>, sqlite: Tables, json: Report,
                             source: Option<Option<string>>)

  datatype Package = Package(sqlite: Tables, report: Report, receipt: Receipt)

  datatype Snapshot = Snapshot(run: Run, rows: seq<Row>, origins: seq<Origin>, states: States, sqlite: Tables,
                               receipt: Receipt)

  datatype ChainError =
    | LedgerExists | NeedsVerifiedLedger | UnknownAuthorization | Downgrade | AmendmentPrefix | RestoredDiffers
    | InheritedTwice | NoLedger | OtherAttempt | LacksProvenance | Refused(error: LedgerError)
    | ReceiptMismatch | SourceBinding | PrefixDiffers | LacksTransition | ErasedAmendment | Accounting | ReportErases
    | MissingNumbers | AttemptRange | Provenance
    | AmbiguousDuplicate | MissingAttempt | Divergent | HaltRemoved | AmendmentRemoved

  function ReportOf(tables: Tables, policy: Policy): Report {
    Report(policy, tables.rows, |tables.rows|, Usage(Tokens(Input), tables.rows), Usage(Tokens(Output), tables.rows),
           tables.states.halt)
  }

  /** `amendment_record`: the transition for the first `at` requests, provided the verified prefix is intact. */
  function AmendmentRecord(agreement: Agreement, rows: seq<Row>, origins: seq<Origin>, at: int)
    : Result<Transition, ChainError>
    requires agreement.amendment.Some?
  {
    var amendment := agreement.amendment.value;
    if !(amendment.anchor <= at <= |rows|) || rows[..amendment.anchor] != amendment.preservedRequests
       || origins[..Min(amendment.anchor, |origins|)] != amendment.preservedOrigins then Err(AmendmentPrefix)
    else Ok(Transition(amendment.authorization, agreement.root, amendment.previousCap, amendment.nextCap,
                       amendment.additional, at, rows[..at], origins[..Min(at, |origins|)],
                       amendment.previousPolicy, amendment.policy))
  }

  /******* Opening an attempt *******/

  function Initialized(agreement: Agreement): Tables {
    Tables(Some(agreement.rootPolicy), agreement.baseline, agreement.baselineOrigins,
           NO_STATES.(series := Some(agreement.series), authorization := Some(agreement.root)))
  }

  /** The restored tables of a snapshot, with the amendment applied when the agreement carries a newer one. */
  function Restored(agreement: Agreement, snapshot: Snapshot): Result<Tables, ChainError> {
    var authorization := snapshot.receipt.authorization;
    var source := PolicyFor(agreement, authorization);
    if source.None? then Err(UnknownAuthorization)
    else if authorization == Authorized(agreement) then Ok(snapshot.sqlite)
    else if agreement.amendment.None? || authorization != agreement.root then Err(Downgrade)
    else
      var transition := AmendmentRecord(agreement, snapshot.rows, snapshot.origins, |snapshot.rows|);
      var tables := snapshot.sqlite;
      if transition.Err? then Err(transition.error)
      else if tables.stored != source || tables.states.authorization != Some(authorization)
              || tables.states.transition.Some? then Err(RestoredDiffers)
      else Ok(tables.(stored := Some(CurrentPolicy(agreement)),
                      states := tables.states.(authorization := Some(Authorized(agreement)),
                                               transition := Some(transition.value))))
  }

  /** The last transaction of `open_attempt`: the new run owns the ledger from the current length on. */
  function Claimed(tables: Tables, run: Run): Result<Tables, ChainError> {
    var states := tables.states;
    var key := (run.id, run.attempt);
    if states.source.Some? && key in states.inherited then Err(InheritedTwice)
    else
      var inherited := if states.source.None? then states.inherited
                       else states.inherited[key := (states.run, states.source.value)];
      Ok(tables.(states := states.(inherited := inherited, source := None, run := Some(run),
                                   start := Some(|tables.rows|))))
  }

  function Opened(agreement: Agreement, run: Run, snapshot: Option<Snapshot>): Result<Tables, ChainError> {
    match snapshot
    case None =>
      if agreement.amendment.Some? then Err(NeedsVerifiedLedger) else Claimed(Initialized(agreement), run)
    case Some(parent) =>
      var restored := Restored(agreement, parent);
      if restored.Err? then Err(restored.error)
      else
        var connected := AfterConnect(restored.value, true, CurrentPolicy(agreement), false);
        if connected.Err? then Err(Refused(connected.error)) else Claimed(connected.value, run)
  }

  /** `open_attempt` on the file at the ledger's path. */
  method OpenAttempt(db: Database, agreement: Agreement, run: Run, snapshot: Option<Snapshot>)
    returns (error: Option<ChainError>)
    modifies db
    ensures old(db.present) ==> error == Some(LedgerExists) && db.Contents() == old(db.Contents()) && db.present
    ensures !old(db.present) && error.None? ==> db.present && Opened(agreement, run, snapshot) == Ok(db.Contents())
    ensures !old(db.present) && error.Some? ==> Opened(agreement, run, snapshot) == Err(error.value)
    // A history that cannot carry the agreement creates no file.
    ensures error.Some? && (error.value.NeedsVerifiedLedger? || error.value.UnknownAuthorization?
                            || error.value.Downgrade? || error.value.AmendmentPrefix?)
            ==> db.Contents() == old(db.Contents()) && db.present == old(db.present)
  {
    if db.present {
      return Some(LedgerExists);
    }
    match snapshot {
      case None =>
        if agreement.amendment.Some? {
          return Some(NeedsVerifiedLedger);
        }
        Restore(db, Initialized(agreement));
      case Some(parent) =>
        var restored := Restored(agreement, parent);
        if restored.Err? && !restored.error.RestoredDiffers? {
          return Some(restored.error);
        }
        Restore(db, parent.sqlite);
        if restored.Err? {
          return Some(restored.error);
        }
        Restore(db, restored.value);
        var budget := Budget.Open(db, CurrentPolicy(agreement), "evaluation", false);
        if budget.Err? {
          return Some(Refused(budget.error));
        }
    }
    var states := db.states;
    var key := (run.id, run.attempt);
    if states.source.Some? {
      if key in states.inherited {
        return Some(InheritedTwice);
      }
      states := states.(inherited := states.inherited[key := (states.run, states.source.value)]);
    }
    db.states := states.(source := None, run := Some(run), start := Some(|db.rows|));
    return None;
  }

  /** Writes whole tables into the file. */
  method Restore(db: Database, tables: Tables)
    modifies db
    ensures db.present && db.Contents() == tables
  {
    db.present := true;
    db.stored, db.rows, db.origins, db.states := tables.stored, tables.rows, tables.origins, tables.states;
  }

  /******* Sealing *******/

  /** `seal` of an existing ledger file. */
  function Sealed(agreement: Agreement, run: Run, tables: Tables): Result<Package, ChainError> {
    var policy := CurrentPolicy(agreement);
    var connected := AfterConnect(tables, true, policy, false);
    if connected.Err? then Err(Refused(connected.error))
    else if tables.states.run != Some(run) then Err(OtherAttempt)
    else if tables.states.start.None? then Err(Refused(NoStart))
    else if |tables.origins| != |tables.rows| then Err(LacksProvenance)
    else
      var start := tables.states.start.value;
      var report := ReportOf(connected.value, policy);
      Ok(Package(connected.value, report,
                 Receipt(run, agreement.series, true, Authorized(agreement),
                         (agreement.baseline, agreement.baselineOrigins), policy, start,
                         |tables.rows|, |tables.rows| - start, tables.rows, tables.origins, connected.value,
                         report, Some(tables.states.source))))
  }

  method Seal(db: Database, agreement: Agreement, run: Run) returns (result: Result<Package, ChainError>)
    modifies db
    ensures !old(db.present) ==> result == Err(NoLedger)
    ensures old(db.present) ==> result == Sealed(agreement, run, old(db.Contents()))
    ensures result.Ok? ==>
                db.Contents() == result.value.sqlite && db.rows == old(db.rows) && db.origins == old(db.origins)
    ensures result.Err? ==> db.rows == old(db.rows) && db.origins == old(db.origins)
  {
    if !db.present {
      return Err(NoLedger);
    }
    var budget := Budget.Open(db, CurrentPolicy(agreement), "evaluation", false);
    if budget.Err? {
      return Err(Refused(budget.error));
    }
    if db.states.run != Some(run) {
      return Err(OtherAttempt);
    }
    if db.states.start.None? {
      return Err(Refused(NoStart));
    }
    if |db.origins| != |db.rows| {
      return Err(LacksProvenance);
    }
    var start := db.states.start.value;
    var report := ReportOf(db.Contents(), budget.value.client.policy);
    var receipt := Receipt(run, agreement.series, true, Authorized(agreement),
                           (agreement.baseline, agreement.baselineOrigins), CurrentPolicy(agreement), start,
                           |db.rows|, |db.rows| - start, db.rows, db.origins, db.Contents(),
                           report, Some(db.states.source));
    return Ok(Package(db.Contents(), report, receipt));
  }

  /******* Validating *******/

  predicate Countable(rows: seq<Row>) {
    forall i :: 0 <= i < |rows| ==> rows[i].id >= 0 && rows[i].inputBound >= 0 && rows[i].outputBound >= 0
  }

  predicate OwnedFrom(origins: seq<Origin>, start: nat, run: Run) {
    forall i :: start <= i < |origins| ==>
      && origins[i].run == run.id && origins[i].attempt == run.attempt && origins[i].head == run.head
      && origins[i].source == i - start + 1
  }

  /** `validate_snapshot`, check by check in the order of the code. */
  function Validated(package: Package, run: Run, agreement: Agreement): Result<Snapshot, ChainError> {
    var receipt, report := package.receipt, package.report;
    var Tables(stored, rows, origins, states) := package.sqlite;
    var version := PolicyFor(agreement, receipt.authorization);
    if version.None? then Err(UnknownAuthorization)
    else if || receipt.run != run || receipt.series != agreement.series || !receipt.sealed
            || receipt.baseline != (agreement.baseline, agreement.baselineOrigins) || receipt.policy != version.value
            || receipt.sqlite != package.sqlite || receipt.json != report then Err(ReceiptMismatch)
    else if receipt.source.Some? && receipt.source.value != states.source then Err(SourceBinding)
    else if || stored != version || report.policy != version.value || report.requests != rows || report.http != |rows|
            || receipt.cumulative != |rows| || receipt.requests != rows || receipt.origins != origins
            || states.series != Some(agreement.series) || states.authorization != Some(receipt.authorization)
            || !(agreement.baseline <= rows) || !(agreement.baselineOrigins <= origins) then Err(PrefixDiffers)
    else if receipt.authorization != agreement.root && states.transition.None? then Err(LacksTransition)
    else if receipt.authorization != agreement.root
            && AmendmentRecord(agreement, rows, origins, states.transition.value.preserved)
               != Ok(states.transition.value)
    then Err(LacksTransition)
    else if receipt.authorization == agreement.root && states.transition.Some? then Err(ErasedAmendment)
    else if !Countable(rows) then Err(Accounting)
    else if || report.chargedInput != Usage(Tokens(Input), rows) || report.chargedOutput != Usage(Tokens(Output), rows)
            || report.halt != states.halt then Err(ReportErases)
    else if (exists i :: 0 <= i < |rows| && rows[i].id != i + 1) || !Aligned(rows, origins) then Err(MissingNumbers)
    else if !(|agreement.baseline| <= receipt.start <= |rows|) || receipt.added != |rows| - receipt.start
    then Err(AttemptRange)
    else if !OwnedFrom(origins, receipt.start, run) then Err(Provenance)
    else Ok(Snapshot(run, rows, origins, states, package.sqlite, receipt))
  }

  /** The facts about a snapshot that merging and reopening rely on. */
  ghost predicate Genuine(snapshot: Snapshot, agreement: Agreement) {
    exists package :: Validated(package, snapshot.run, agreement) == Ok(snapshot)
  }

  /******* The life of one attempt *******/

  /** What holds of an open ledger from `open_attempt` to `seal`. */
  ghost predicate Attempt(agreement: Agreement, run: Run, start: nat, tables: Tables) {
    var Tables(stored, rows, origins, states) := tables;
    && stored == Some(CurrentPolicy(agreement))
    && states.series == Some(agreement.series) && states.authorization == Some(Authorized(agreement))
    && states.run == Some(run) && states.start == Some(start)
    && Numbered(rows) && Aligned(rows, origins)
    && agreement.baseline <= rows && agreement.baselineOrigins <= origins
    && |agreement.baseline| <= start <= |rows|
    && OwnedFrom(origins, start, run)
    && (agreement.amendment.None? ==> states.transition.None?)
    && (agreement.amendment.Some? ==>
          && states.transition.Some? && states.transition.value.preserved <= start
          && AmendmentRecord(agreement, rows, origins, states.transition.value.preserved)
               == Ok(states.transition.value))
  }

  /** The client that `open_attempt` returns the ledger to: any label, the agreement's policy. */
  function Worker(agreement: Agreement, stage: string): Client {
    Client(CurrentPolicy(agreement), stage)
  }

  lemma ReserveKeepsAttempt(agreement: Agreement, run: Run, start: nat, tables: Tables, stage: string, request: Request)
    requires Attempt(agreement, run, start, tables)
    requires AfterReserve(tables, Worker(agreement, stage), request).Ok?
    ensures var after := AfterReserve(tables, Worker(agreement, stage), request).value;
            && Attempt(agreement, run, start, after)
            && tables.rows <= after.rows && tables.origins <= after.origins
            && |after.rows| == |tables.rows| + 1
  {
    NextIdOfNumbered(tables.rows);
    var after := AfterReserve(tables, Worker(agreement, stage), request).value;
    assert after.rows[..|tables.rows|] == tables.rows && after.origins[..|tables.origins|] == tables.origins;
    if agreement.amendment.Some? {
      var at := tables.states.transition.value.preserved;
      var anchor := agreement.amendment.value.anchor;
      assert after.rows[..at] == tables.rows[..at] && after.rows[..anchor] == tables.rows[..anchor];
      assert after.origins[..at] == tables.origins[..at] && after.origins[..anchor] == tables.origins[..anchor];
    }
  }

  /** A numbered settlement touches exactly its own row. */
  lemma SettleNumbered(tables: Tables, index: int, status: int, prompt: Option<nat>, completion: Option<nat>)
    requires Numbered(tables.rows) && 1 <= index <= |tables.rows|
    ensures AfterSettle(tables, index, status, prompt, completion).rows
         == tables.rows[index - 1 := Settled(tables.rows[index - 1], status, prompt, completion)]
  {
  }

  /** Settling one of the attempt's own requests changes nothing that earlier attempts recorded. */
  lemma SettleKeepsAttempt(agreement: Agreement, run: Run, start: nat, tables: Tables,
                           index: int, status: int, prompt: Option<nat>, completion: Option<nat>)
    requires Attempt(agreement, run, start, tables) && start < index <= |tables.rows|
    ensures var after := AfterSettle(tables, index, status, prompt, completion);
            && Attempt(agreement, run, start, after)
            && after.origins == tables.origins && |after.rows| == |tables.rows|
            && after.rows[..start] == tables.rows[..start]
  {
    SettleNumbered(tables, index, status, prompt, completion);
    var after := AfterSettle(tables, index, status, prompt, completion);
    assert after.rows[..|agreement.baseline|] == tables.rows[..|agreement.baseline|];
    if agreement.amendment.Some? {
      var at := tables.states.transition.value.preserved;
      var anchor := agreement.amendment.value.anchor;
      assert after.rows[..at] == tables.rows[..at] && after.rows[..anchor] == tables.rows[..anchor];
    }
  }

  /**
   Round trip: sealing always succeeds on an open attempt, and the sealed package validates, giving back the same
   rows, origins, start and authorization, exactly when no request was reserved with a negative bound.
   */
  lemma SealRoundTrip(agreement: Agreement, run: Run, start: nat, tables: Tables)
    requires Sound(agreement) && Attempt(agreement, run, start, tables)
    ensures var sealed := Sealed(agreement, run, tables);
            && sealed.Ok?
            && var validated := Validated(sealed.value, run, agreement);
               && (validated.Ok? <==> Countable(tables.rows))
               && (validated.Ok? ==>
                     && validated.value.rows == tables.rows && validated.value.origins == tables.origins
                     && validated.value.receipt.start == start && validated.value.sqlite == tables
                     && validated.value.receipt.authorization == Authorized(agreement))
  {
  }

  /** An ordinary client can make its own ledger unacceptable: a negative output limit is admitted and sealed. */
  lemma NegativeBoundIsSealedButRejected(agreement: Agreement, run: Run, start: nat, tables: Tables, stage: string,
                                         request: Request)
    requires Sound(agreement) && Attempt(agreement, run, start, tables) && request.outputBound < 0
    requires AfterReserve(tables, Worker(agreement, stage), request).Ok?
    ensures var after := AfterReserve(tables, Worker(agreement, stage), request).value;
            && Sealed(agreement, run, after).Ok?
            && Validated(Sealed(agreement, run, after).value, run, agreement).Err?
  {
    ReserveKeepsAttempt(agreement, run, start, tables, stage, request);
    SealRoundTrip(agreement, run, start, AfterReserve(tables, Worker(agreement, stage), request).value);
  }

  /**
   An attempt from nothing admits such a request: one call with an output limit of -1 makes the sealed package invalid.
   */
  lemma NegativeBoundIsAdmitted(run: Run)
    ensures var policy := Policy(Some("s"), 1, 1, 1, 0, 0, 0, 0, 0, None, map[]);
            var agreement := Agreement("s", "r", policy, [], [], None);
            var started := Opened(agreement, run, None);
            && started.Ok?
            && var spent := AfterReserve(started.value, Worker(agreement, ""), Request(Llm, "", "", 0, -1));
               && spent.Ok? && Sealed(agreement, run, spent.value).Ok?
               && Validated(Sealed(agreement, run, spent.value).value, run, agreement).Err?
  {
    var policy := Policy(Some("s"), 1, 1, 1, 0, 0, 0, 0, 0, None, map[]);
    var agreement := Agreement("s", "r", policy, [], [], None);
    OpenFreshStartsAttempt(agreement, run);
    NegativeBoundIsSealedButRejected(agreement, run, 0, Opened(agreement, run, None).value, "",
        Request(Llm, "", "", 0, -1));
  }

  /** Opening from nothing starts an attempt at the baseline, and only under the original authorization. */
  lemma OpenFreshStartsAttempt(agreement: Agreement, run: Run)
    requires Sound(agreement)
    ensures Opened(agreement, run, None).Ok? <==> agreement.amendment.None?
    ensures Opened(agreement, run, None).Ok? ==>
              var tables := Opened(agreement, run, None).value;
              && Attempt(agreement, run, |agreement.baseline|, tables)
              && tables.rows == agreement.baseline && tables.origins == agreement.baselineOrigins
              && tables.states.halt.None?
  {
  }

  /** The prefix on which the amendment was authorized. */
  ghost predicate KeepsAnchor(agreement: Agreement, parent: Snapshot) {
    agreement.amendment.Some? ==>
      var amendment := agreement.amendment.value;
      && amendment.anchor <= |parent.rows| && amendment.anchor <= |parent.origins|
      && parent.rows[..amendment.anchor] == amendment.preservedRequests
      && parent.origins[..amendment.anchor] == amendment.preservedOrigins
  }

  /**
   Opening from a genuine snapshot succeeds if and only if the agreement carries no newer authorization than the
   snapshot or the snapshot still holds the amendment's verified prefix, and this run has not inherited before.
   */
  lemma OpenSucceedsIff(agreement: Agreement, run: Run, parent: Snapshot)
    requires Sound(agreement) && Genuine(parent, agreement)
    ensures Opened(agreement, run, Some(parent)).Ok?
            <==> && (parent.receipt.authorization == agreement.root ==> KeepsAnchor(agreement, parent))
                 && (parent.states.source.Some? ==> (run.id, run.attempt) !in parent.states.inherited)
  {
  }

  /**
   A restored attempt starts without a source binding of its own, and remembers the one it inherited and from whom.
   */
  lemma OpenRestoredInherits(agreement: Agreement, run: Run, parent: Snapshot)
    requires Sound(agreement) && Genuine(parent, agreement) && Opened(agreement, run, Some(parent)).Ok?
    ensures var states := Opened(agreement, run, Some(parent)).value.states;
            && states.source.None? && states.changes == parent.states.changes
            && states.inherited == if parent.states.source.None? then parent.states.inherited
                                   else parent.states.inherited[(run.id, run.attempt) :=
                                          (parent.states.run, parent.states.source.value)]
  {
  }

  /** Sealing succeeds exactly for the run that owns the ledger, under its own policy and series, with every origin. */
  lemma SealSucceedsIff(agreement: Agreement, run: Run, tables: Tables)
    requires Sound(agreement)
    ensures Sealed(agreement, run, tables).Ok?
            <==> && tables.states.run == Some(run) && tables.states.start.Some? && |tables.origins| == |tables.rows|
                 && tables.states.series == Some(agreement.series)
                 && (tables.stored.Some? ==> tables.stored.value == CurrentPolicy(agreement))
    ensures Sealed(agreement, run, tables).Ok? ==>
              var package := Sealed(agreement, run, tables).value;
              && package.sqlite.rows == tables.rows && package.sqlite.origins == tables.origins
              && package.sqlite.states == tables.states && package.sqlite.stored == Some(CurrentPolicy(agreement))
              && package.receipt.start == tables.states.start.value
              && Faithful(package, run, agreement.series, Authorized(agreement), CurrentPolicy(agreement),
                          agreement.baseline, agreement.baselineOrigins)
              && package.receipt.source == Some(tables.states.source)
  {
    SumsMean(tables.rows);
  }

  /** A report and a receipt that state exactly what the packed ledger holds. */
  ghost predicate Faithful(package: Package, run: Run, series: string, authorization: string, policy: Policy,
                           baseline: seq<Row>, baselineOrigins: seq<Origin>)
  {
    var ledger, report, receipt := package.sqlite, package.report, package.receipt;
    && report.policy == policy && report.requests == ledger.rows && report.http == |ledger.rows|
    && report.chargedInput == Sum(ledger.rows, InputCharge) && report.chargedOutput == Sum(ledger.rows, OutputCharge)
    && report.halt == ledger.states.halt
    && receipt.run == run && receipt.series == series && receipt.sealed && receipt.authorization == authorization
    && receipt.baseline == (baseline, baselineOrigins) && receipt.policy == policy
    && receipt.cumulative == |ledger.rows| && receipt.added == |ledger.rows| - receipt.start
    && receipt.requests == ledger.rows && receipt.origins == ledger.origins
    && receipt.sqlite == ledger && receipt.json == report
  }

  /** The ledger of a package continues the baseline under a known authorization, request by request. */
  ghost predicate Continuing(agreement: Agreement, run: Run, authorization: string, start: int, ledger: Tables) {
    var rows, origins := ledger.rows, ledger.origins;
    && ledger.states.series == Some(agreement.series) && ledger.states.authorization == Some(authorization)
    && agreement.baseline <= rows && agreement.baselineOrigins <= origins
    && |agreement.baseline| <= start <= |rows| == |origins|
    && (forall i :: 0 <= i < |rows| ==>
          && rows[i].id == i + 1 == origins[i].request && rows[i].inputBound >= 0 && rows[i].outputBound >= 0)
    && (forall i :: start <= i < |origins| ==>
          && origins[i].run == run.id && origins[i].attempt == run.attempt && origins[i].head == run.head
          && origins[i].source == i - start + 1)
  }

  /** The transition record of an amended ledger, written out. */
  ghost predicate Transitioned(agreement: Agreement, ledger: Tables) {
    && ledger.states.transition.Some? && agreement.amendment.Some?
    && var amendment, record := agreement.amendment.value, ledger.states.transition.value;
       && amendment.anchor <= record.preserved <= |ledger.rows| && record.preserved <= |ledger.origins|
       && ledger.rows[..amendment.anchor] == amendment.preservedRequests
       && ledger.origins[..amendment.anchor] == amendment.preservedOrigins
       && record == Transition(amendment.authorization, agreement.root, amendment.previousCap, amendment.nextCap,
                               amendment.additional, record.preserved, ledger.rows[..record.preserved],
                               ledger.origins[..record.preserved], amendment.previousPolicy, amendment.policy)
  }

  /**
   A package validates if and only if its report and receipt state exactly what its ledger holds, and that ledger
   continues the baseline under a known authorization, with a transition exactly when it is the amended one.
   */
  lemma ValidatesIff(package: Package, run: Run, agreement: Agreement)
    requires Sound(agreement)
    ensures var authorization, ledger := package.receipt.authorization, package.sqlite;
            var policy := if authorization == agreement.root then agreement.rootPolicy else CurrentPolicy(agreement);
            Validated(package, run, agreement).Ok?
            <==> && authorization in {agreement.root, Authorized(agreement)}
                 && ledger.stored == Some(policy)
                 && Faithful(package, run, agreement.series, authorization, policy,
                             agreement.baseline, agreement.baselineOrigins)
                 && (package.receipt.source.Some? ==> package.receipt.source.value == ledger.states.source)
                 && Continuing(agreement, run, authorization, package.receipt.start, ledger)
                 && (if authorization == agreement.root then ledger.states.transition.None?
                     else Transitioned(agreement, ledger))
    ensures Validated(package, run, agreement).Ok? ==>
              Validated(package, run, agreement).value
              == Snapshot(run, package.sqlite.rows, package.sqlite.origins, package.sqlite.states, package.sqlite,
                          package.receipt)
  {
    SumsMean(package.sqlite.rows);
  }

  /** Opening from a genuine snapshot, amended or not, starts an attempt exactly where the snapshot ends. */
  lemma OpenRestoredStartsAttempt(agreement: Agreement, run: Run, parent: Snapshot)
    requires Sound(agreement) && Genuine(parent, agreement) && Opened(agreement, run, Some(parent)).Ok?
    ensures var tables := Opened(agreement, run, Some(parent)).value;
            && Attempt(agreement, run, |parent.rows|, tables)
            && tables.rows == parent.rows && tables.origins == parent.origins
            && tables.states.halt == parent.states.halt
  {
  }

  /** A snapshot sealed under the original authorization is judged the same with and without the amendment. */
  lemma OriginalJudgedAlike(package: Package, run: Run, agreement: Agreement)
    requires Sound(agreement) && package.receipt.authorization == agreement.root
    ensures Validated(package, run, agreement) == Validated(package, run, RootOnly(agreement))
  {
  }
}
