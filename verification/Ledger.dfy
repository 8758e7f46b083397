/**
 The provider-request ledger of scripts/bounded_evaluation.py: the SQLite tables
 as a value (Tables) and one function per transaction. The classes that carry the
 tables as state, and are proved to perform these transactions, are in Budget.dfy.

 A SHA-256 digest of canonical JSON is modelled as an injective function, so a
 digest field simply holds the value that was digested.
 */
module Ledger {
  import opened Outcomes

  datatype Kind = Llm | Search | Embedding | Reranker

  predicate IsModel(kind: Kind) {
    kind.Llm? || kind.Search?
  }

  datatype Row = Row(id: int, kind: Kind, stage: string, model: string, payload: string,
                     inputBound: int, outputBound: int,
                     prompt: Option<nat>, completion: Option<nat>, status: Option<int>)

  datatype Origin = Origin(request: int, run: int, attempt: int, head: string, source: int)

  /** The identity of one CI attempt; repository and workflow are constants of the series. */
  datatype Run = Run(id: int, attempt: int, head: string)

  datatype Policy = Policy(series: Option<string>, totalHttp: int, modelHttp: int, llmHttp: int, searchHttp: int,
                           embeddingHttp: int, rerankerHttp: int, inputTokens: int, outputTokens: int,
                           reservedTokens: Option<int>, stages: map<string, int>)

  /** The record written when an authorization amendment is applied to a restored ledger. */
  datatype Transition = Transition(authorization: string, previousAuthorization: string, previousCap: int, nextCap: int,
                                   additional: int, preserved: int, requests: seq<Row>, origins: seq<Origin>,
                                   previousPolicy: Policy, nextPolicy: Policy)

  datatype StageChange = StageChange(previous: Policy, next: Policy, httpAtTransfer: int, authorization: string)

  /** The key/value table `state`, one field per key that the accounting reads. */
  datatype States = States(series: Option<string>, authorization: Option<string>, transition: Option<Transition>,
                           run: Option<Run>, start: Option<int>, halt: Option<int>, source: Option<string>,
                           inherited: map<(int, int), (Option<Run>, string)>, changes: seq<StageChange>)

  const NO_STATES := States(None, None, None, None, None, None, None, map[], [])

  datatype Tables = Tables(stored: Option<Policy>, rows: seq<Row>, origins: seq<Origin>, states: States)

  const EMPTY := Tables(None, [], [], NO_STATES)

  datatype LedgerError =
    | QuotaReset | PolicyDiffers | SeriesDiffers
    | Stopped | Exhausted | NoIdentity | NoStart | DuplicateOrigin
    | NoAuthorization | AggregateChange | StageTotals | BelowUsage | NoPolicy

  /** A Budget object's own copy of the policy, and its label. */
  datatype Client = Client(policy: Policy, stage: string)

  datatype Request = Request(kind: Kind, model: string, payload: string, inputBound: nat, outputBound: int)

  /******* Sums over rows *******/

  function Sum(rows: seq<Row>, weight: Row -> int): int {
    if |rows| == 0 then 0 else Sum(rows[..|rows| - 1], weight) + weight(rows[|rows| - 1])
  }

  lemma SumAppend(rows: seq<Row>, row: Row, weight: Row -> int)
    ensures Sum(rows + [row], weight) == Sum(rows, weight) + weight(row)
  {
    assert (rows + [row])[..|rows|] == rows;
  }

  lemma {:induction false} SumUpdate(rows: seq<Row>, i: nat, row: Row, weight: Row -> int)
    requires i < |rows|
    ensures Sum(rows[i := row], weight) == Sum(rows, weight) - weight(rows[i]) + weight(row)
  {
    var last := |rows| - 1;
    if i == last {
      assert rows[i := row][..last] == rows[..last];
    } else {
      SumUpdate(rows[..last], i, row, weight);
      assert rows[i := row][..last] == rows[..last][i := row];
    }
  }

  lemma {:induction false} SumPointwise(a: seq<Row>, b: seq<Row>, weight: Row -> int)
    requires |a| == |b| && forall i :: 0 <= i < |a| ==> weight(a[i]) == weight(b[i])
    ensures Sum(a, weight) == Sum(b, weight)
  {
    if |a| > 0 {
      SumPointwise(a[..|a| - 1], b[..|b| - 1], weight);
    }
  }

  /******* What a row counts for *******/

  datatype Side = Input | Output

  function Bound(side: Side, row: Row): int {
    if side.Input? then row.inputBound else row.outputBound
  }

  function Recorded(side: Side, row: Row): Option<nat> {
    if side.Input? then row.prompt else row.completion
  }

  /** `coalesce(tokens, bound)`: a request without recorded usage costs its reservation. */
  function Charge(side: Side, row: Row): int {
    match Recorded(side, row)
    case Some(tokens) => tokens
    case None => Bound(side, row)
  }

  /** Everything the policy puts a cap on. */
  datatype Meter = Total | PerKind(kind: Kind) | Models | Reserved | Stage(stage: string) | Tokens(side: Side)

  function Weigh(meter: Meter, row: Row): int {
    match meter
    case Total => 1
    case PerKind(kind) => if row.kind == kind then 1 else 0
    case Models => if IsModel(row.kind) then 1 else 0
    case Reserved => row.inputBound + row.outputBound
    case Stage(stage) => if IsModel(row.kind) && row.stage == stage then 1 else 0
    case Tokens(side) => Charge(side, row)
  }

  function Weight(meter: Meter): Row -> int {
    row => Weigh(meter, row)
  }

  function Usage(meter: Meter, rows: seq<Row>): int {
    Sum(rows, Weight(meter))
  }

  function Cap(meter: Meter, policy: Policy): Option<int> {
    match meter
    case Total => Some(policy.totalHttp)
    case PerKind(kind) => Some(KindCap(policy, kind))
    case Models => Some(policy.modelHttp)
    case Reserved => policy.reservedTokens
    case Stage(stage) => if stage in policy.stages then Some(policy.stages[stage]) else None
    case Tokens(side) => Some(if side.Input? then policy.inputTokens else policy.outputTokens)
  }

  function KindCap(policy: Policy, kind: Kind): int {
    match kind
    case Llm => policy.llmHttp
    case Search => policy.searchHttp
    case Embedding => policy.embeddingHttp
    case Reranker => policy.rerankerHttp
  }

  lemma {:induction false} TotalIsLength(rows: seq<Row>)
    ensures Usage(Total, rows) == |rows|
  {
    if |rows| > 0 {
      TotalIsLength(rows[..|rows| - 1]);
    }
  }

  lemma {:induction false} ModelsAreLlmAndSearch(rows: seq<Row>)
    ensures Usage(Models, rows) == Usage(PerKind(Llm), rows) + Usage(PerKind(Search), rows)
  {
    if |rows| > 0 {
      ModelsAreLlmAndSearch(rows[..|rows| - 1]);
    }
  }

  /******* Opening a client *******/

  /** `Budget.__init__`: what the open transaction leaves in the tables. */
  function AfterConnect(tables: Tables, present: bool, policy: Policy, bootstrap: bool): Result<Tables, LedgerError> {
    if policy.series.Some? && !present && !bootstrap then Err(QuotaReset)
    else if tables.stored.Some? && tables.stored != Some(policy) then Err(PolicyDiffers)
    else if policy.series.Some? && !bootstrap && tables.states.series != policy.series then Err(SeriesDiffers)
    else Ok(tables.(stored := Some(policy)))
  }

  /******* Reserving a request *******/

  function MaxId(rows: seq<Row>): int {
    if |rows| == 0 then 0 else Max(MaxId(rows[..|rows| - 1]), rows[|rows| - 1].id)
  }

  /** An INTEGER PRIMARY KEY without AUTOINCREMENT takes the greatest id plus one. */
  function NextId(rows: seq<Row>): int {
    if |rows| == 0 then 1 else MaxId(rows) + 1
  }

  function NewRow(id: int, client: Client, request: Request): Row {
    Row(id, request.kind, client.stage, request.model, request.payload,
        request.inputBound, request.outputBound, None, None, None)
  }

  /** The refusal condition of `reserve`, in the order the code tests it. */
  predicate Exceeded(rows: seq<Row>, client: Client, request: Request) {
    var limits := client.policy;
    var counted := Usage(PerKind(Llm), rows) + Usage(PerKind(Search), rows);
    || |rows| >= limits.totalHttp
    || Usage(PerKind(request.kind), rows) >= KindCap(limits, request.kind)
    || (limits.reservedTokens.Some?
        && Usage(Reserved, rows) + request.inputBound + request.outputBound > limits.reservedTokens.value)
    || (IsModel(request.kind) && counted >= limits.modelHttp)
    || (IsModel(request.kind) && client.stage in limits.stages
        && Usage(Stage(client.stage), rows) >= limits.stages[client.stage])
    || Usage(Tokens(Input), rows) + request.inputBound > limits.inputTokens
    || Usage(Tokens(Output), rows) + request.outputBound > limits.outputTokens
  }

  function AfterReserve(tables: Tables, client: Client, request: Request): Result<Tables, LedgerError> {
    var id := NextId(tables.rows);
    var states := tables.states;
    if states.halt.Some? then Err(Stopped)
    else if Exceeded(tables.rows, client, request) then Err(Exhausted)
    else if client.policy.series.Some? && states.run.None? then Err(NoIdentity)
    else
      var added := tables.(rows := tables.rows + [NewRow(id, client, request)]);
      if states.run.None? then Ok(added)
      else if states.start.None? then Err(NoStart)
      else if exists o :: o in tables.origins && o.request == id then Err(DuplicateOrigin)
      else
        var run := states.run.value;
        Ok(added.(origins := tables.origins + [Origin(id, run.id, run.attempt, run.head, id - states.start.value)]))
  }

  /******* Settling a request *******/

  /** One usage field of a provider reply: absent, of another type, or an integer. */
  datatype Field = Missing | NotInteger | Integer(value: int)

  datatype Reply = Reply(prompt: Field, input: Field, completion: Field, output: Field)

  /** The usage a reply proves; anything else stays charged at its reservation. */
  function Known(primary: Field, fallback: Field): Option<nat> {
    var field := if primary.Missing? then fallback else primary;
    if field.Integer? && field.value >= 0 then Some(field.value) else None
  }

  const HALTING: set<int> := {401, 402, 403, 429, 500, 502, 503, 504}

  function Settled(row: Row, status: int, prompt: Option<nat>, completion: Option<nat>): Row {
    row.(status := Some(status), prompt := prompt, completion := completion)
  }

  function AfterSettle(tables: Tables, index: int, status: int, prompt: Option<nat>, completion: Option<nat>): Tables {
    tables.(rows := seq(|tables.rows|, i requires 0 <= i < |tables.rows| =>
                        if tables.rows[i].id == index then Settled(tables.rows[i], status, prompt, completion)
                        else tables.rows[i]),
            states := if status in HALTING then tables.states.(halt := Some(status)) else tables.states)
  }

  /******* Moving stage allocations *******/

  predicate SameAggregates(a: Policy, b: Policy) {
    a.(stages := map[]) == b.(stages := map[])
  }

  ghost function StageTotal(stages: map<string, int>): int {
    if stages == map[] then 0
    else
      var name :| name in stages;
      stages[name] + StageTotal(stages - {name})
  }

  lemma {:induction false} StageTotalRemove(stages: map<string, int>, name: string)
    requires name in stages
    ensures StageTotal(stages) == stages[name] + StageTotal(stages - {name})
    decreases |stages|
  {
    var first :| first in stages && StageTotal(stages) == stages[first] + StageTotal(stages - {first});
    if first != name {
      StageTotalRemove(stages - {first}, name);
      StageTotalRemove(stages - {name}, first);
      assert stages - {first} - {name} == stages - {name} - {first};
    }
  }

  /** `Budget.amend_stages`, with the digest of the authorization record as the record itself. */
  ghost function AfterAmendment(tables: Tables, policy: Policy, authorization: string): Result<Tables, LedgerError> {
    if forall c :: c in authorization ==> c in WHITESPACE then Err(NoAuthorization)
    else if tables.stored.None? then Err(NoPolicy)
    else
      var previous := tables.stored.value;
      if !SameAggregates(previous, policy) then Err(AggregateChange)
      else if || previous.stages.Keys != policy.stages.Keys
              || StageTotal(previous.stages) != StageTotal(policy.stages)
              || exists s :: s in policy.stages && policy.stages[s] < 0 then Err(StageTotals)
      else if exists s :: s in policy.stages && Usage(Stage(s), tables.rows) > policy.stages[s] then Err(BelowUsage)
      else
        var record := StageChange(previous, policy, Usage(Models, tables.rows), authorization);
        Ok(tables.(stored := Some(policy),
                   states := tables.states.(changes := tables.states.changes + [record])))
  }

  const WHITESPACE: set<char> := {' ', '\t', '\n', '\r', '\U{0B}', '\U{0C}'}
}
