/**
 The database file and the Budget objects that share it (scripts/bounded_evaluation.py).
 Every method is proved to perform exactly one transaction of module Ledger, or to
 leave the tables as it found them.
 */
module BudgetStore {
  import opened Outcomes
  import opened Ledger

  class Database {
    var present: bool
    var stored: Option<Policy>
    var rows: seq<Row>
    var origins: seq<Origin>
    var states: States

    constructor ()
      ensures !present && Contents() == EMPTY
    {
      present, stored, rows, origins, states := false, None, [], [], NO_STATES;
    }

    function Contents(): Tables
      reads this
    {
      Tables(stored, rows, origins, states)
    }

    /** `amend_stages` is a class method of Budget that opens the file by its path. */
    method AmendStages(policy: Policy, authorization: string) returns (error: Option<LedgerError>)
      modifies this
      ensures error.None? ==> Ok(Contents()) == AfterAmendment(old(Contents()), policy, authorization)
      ensures error.Some? ==> Contents() == old(Contents())
                              && Err(error.value) == AfterAmendment(old(Contents()), policy, authorization)
      // The record names both policies and the model requests counted at the transfer; nothing else changes.
      ensures error.None? ==>
                && old(stored).Some? && stored == Some(policy) && rows == old(rows) && origins == old(origins)
                && states == old(states).(changes := old(states).changes
                     + [StageChange(old(stored).value, policy, Usage(Models, old(rows)), authorization)])
    {
      if forall c | c in authorization :: c in WHITESPACE {
        return Some(NoAuthorization);
      }
      if stored.None? {
        return Some(NoPolicy);
      }
      var previous := stored.value;
      if !SameAggregates(previous, policy) {
        return Some(AggregateChange);
      }
      var before := SumStages(previous.stages);
      var after := SumStages(policy.stages);
      if previous.stages.Keys != policy.stages.Keys || before != after
         || exists s | s in policy.stages :: policy.stages[s] < 0 {
        return Some(StageTotals);
      }
      if exists s | s in policy.stages :: Usage(Stage(s), rows) > policy.stages[s] {
        return Some(BelowUsage);
      }
      states := states.(changes :=
          states.changes + [StageChange(previous, policy, Usage(Models, rows), authorization)]);
      stored := Some(policy);
      return None;
    }
  }

  method SumStages(stages: map<string, int>) returns (total: int)
    ensures total == StageTotal(stages)
  {
    var todo := stages;
    total := 0;
    while todo != map[]
      invariant total + StageTotal(todo) == StageTotal(stages)
      decreases |todo|
    {
      var name :| name in todo;
      StageTotalRemove(todo, name);
      total := total + todo[name];
      todo := todo - {name};
    }
  }

  /** One process's handle on a shared database. */
  class Budget {
    const db: Database
    const client: Client

    constructor (db: Database, client: Client)
      ensures this.db == db && this.client == client
    {
      this.db, this.client := db, client;
    }

    static method Open(db: Database, policy: Policy, stage: string, bootstrap: bool)
      returns (result: Result<Budget, LedgerError>)
      modifies db
      ensures result.Ok? ==>
                  fresh(result.value) && result.value.db == db && result.value.client == Client(policy, stage)
                             && db.present
                             && Ok(db.Contents())
                                  == AfterConnect(old(db.Contents()), old(db.present), policy, bootstrap)
      ensures result.Err? ==> db.Contents() == old(db.Contents())
                              && Err(result.error)
                                   == AfterConnect(old(db.Contents()), old(db.present), policy, bootstrap)
      // A series needs its existing ledger, a stored policy is never replaced, and the ledger belongs to the series.
      ensures result.Ok? <==>
                && (policy.series.Some? && !bootstrap ==> old(db.present) && old(db.states.series) == policy.series)
                && (old(db.stored).Some? ==> old(db.stored) == Some(policy))
      ensures result.Ok? ==> db.stored == Some(policy) && db.rows == old(db.rows) && db.origins == old(db.origins)
                             && db.states == old(db.states)
    {
      if policy.series.Some? && !db.present && !bootstrap {
        return Err(QuotaReset);
      }
      db.present := true;
      if db.stored.Some? && db.stored.value != policy {
        return Err(PolicyDiffers);
      }
      if policy.series.Some? && !bootstrap && db.states.series != policy.series {
        return Err(SeriesDiffers);
      }
      if db.stored.None? {
        db.stored := Some(policy);
      }
      var budget := new Budget(db, Client(policy, stage));
      return Ok(budget);
    }

    /** One BEGIN IMMEDIATE transaction; every refusal rolls back to the tables it found. */
    method Reserve(request: Request) returns (result: Result<int, LedgerError>)
      modifies db
      ensures result.Ok? ==> Ok(db.Contents()) == AfterReserve(old(db.Contents()), client, request)
                             && db.rows == old(db.rows) + [NewRow(result.value, client, request)]
      ensures result.Err? ==> db.Contents() == old(db.Contents())
                              && Err(result.error) == AfterReserve(old(db.Contents()), client, request)
      // The row holds what was asked for and no usage yet; its origin holds the run that owns the ledger.
      ensures result.Ok? ==>
                && db.stored == old(db.stored) && db.states == old(db.states) && db.states.halt.None?
                && db.rows == old(db.rows)
                     + [Row(result.value, request.kind, client.stage, request.model, request.payload,
                                                  request.inputBound, request.outputBound, None, None, None)]
                && (db.states.run.None? ==> client.policy.series.None? && db.origins == old(db.origins))
                && (db.states.run.Some? ==>
                      && db.states.start.Some?
                      && var run := db.states.run.value;
                         db.origins == old(db.origins) + [Origin(result.value, run.id, run.attempt, run.head,
                                                                 result.value - db.states.start.value)])
    {
      if db.states.halt.Some? {
        return Err(Stopped);
      }
      if Exceeded(db.rows, client, request) {
        return Err(Exhausted);
      }
      var index := NextId(db.rows);
      if client.policy.series.Some? && db.states.run.None? {
        return Err(NoIdentity);
      }
      if db.states.run.Some? {
        if db.states.start.None? {
          return Err(NoStart);
        }
        if exists o | o in db.origins :: o.request == index {
          return Err(DuplicateOrigin);
        }
        var run := db.states.run.value;
        db.origins := db.origins + [Origin(index, run.id, run.attempt, run.head, index - db.states.start.value)];
      }
      db.rows := db.rows + [NewRow(index, client, request)];
      return Ok(index);
    }

    /**
     Usage is recorded only where the reply proves it; a request without proven usage stays charged at its reservation,
     and only the listed statuses halt the ledger.
     */
    method Settle(index: int, status: int, reply: Reply)
      modifies db
      ensures db.Contents() == AfterSettle(old(db.Contents()), index, status,
                                             Known(reply.prompt, reply.input), Known(reply.completion, reply.output))
      ensures |db.rows| == |old(db.rows)|
      ensures forall i :: 0 <= i < |db.rows| && db.rows[i].id != index ==> db.rows[i] == old(db.rows)[i]
      ensures forall i :: 0 <= i < |db.rows| && db.rows[i].id == index ==>
                && db.rows[i].(prompt := None, completion := None, status := None)
                   == old(db.rows)[i].(prompt := None, completion := None, status := None)
                && db.rows[i].status == Some(status)
                && (reply.prompt.Integer? && reply.prompt.value >= 0 ==> db.rows[i].prompt == Some(reply.prompt.value))
                && (reply.prompt.Missing? && reply.input.Integer? && reply.input.value >= 0 ==>
                      db.rows[i].prompt == Some(reply.input.value))
                && (!(reply.prompt.Integer? && reply.prompt.value >= 0)
                    && !(reply.prompt.Missing? && reply.input.Integer? && reply.input.value >= 0) ==>
                      db.rows[i].prompt.None? && Charge(Input, db.rows[i]) == db.rows[i].inputBound)
                && (reply.completion.Integer? && reply.completion.value >= 0 ==>
                      db.rows[i].completion == Some(reply.completion.value))
                && (reply.completion.Missing? && reply.output.Integer? && reply.output.value >= 0 ==>
                      db.rows[i].completion == Some(reply.output.value))
                && (!(reply.completion.Integer? && reply.completion.value >= 0)
                    && !(reply.completion.Missing? && reply.output.Integer? && reply.output.value >= 0) ==>
                      db.rows[i].completion.None? && Charge(Output, db.rows[i]) == db.rows[i].outputBound)
      ensures db.states.halt == if status in {401, 402, 403, 429, 500, 502, 503, 504} then Some(status)
                                else old(db.states.halt)
      ensures db.states == old(db.states).(halt := db.states.halt)
      ensures db.stored == old(db.stored) && db.origins == old(db.origins)
    {
      var prompt := Known(reply.prompt, reply.input);
      var completion := Known(reply.completion, reply.output);
      db.rows := seq(|db.rows|, i requires 0 <= i < |db.rows| reads db =>
                     if db.rows[i].id == index then Settled(db.rows[i], status, prompt, completion) else db.rows[i]);
      if status in HALTING {
        db.states := db.states.(halt := Some(status));
      }
    }
  }
}
