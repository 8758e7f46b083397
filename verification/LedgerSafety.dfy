/**
 Budget safety of the shared ledger, over every interleaving of clients that
 open, reserve, settle and move stage allocations (scripts/bounded_evaluation.py).
 */
module LedgerSafety {
  import opened Outcomes
  import opened Ledger

  /******* What one reservation means *******/

  /** A cap is consulted for a request only when the request counts towards it. */
  predicate Touches(meter: Meter, client: Client, request: Request) {
    match meter
    case PerKind(kind) => kind == request.kind
    case Models => IsModel(request.kind)
    case Stage(stage) => IsModel(request.kind) && stage == client.stage
    case _ => true
  }

  ghost predicate FitsEveryCap(rows: seq<Row>, client: Client, request: Request) {
    var after := rows + [NewRow(NextId(rows), client, request)];
    forall meter :: Touches(meter, client, request) && Cap(meter, client.policy).Some?
                    ==> Usage(meter, after) <= Cap(meter, client.policy).value
  }

  /** The admission test accepts exactly the requests whose row still fits under every cap it counts towards. */
  lemma AdmittedIffFits(rows: seq<Row>, client: Client, request: Request)
    ensures !Exceeded(rows, client, request) <==> FitsEveryCap(rows, client, request)
  {
    var row := NewRow(NextId(rows), client, request);
    forall meter ensures Usage(meter, rows + [row]) == Usage(meter, rows) + Weigh(meter, row) {
      SumAppend(rows, row, Weight(meter));
    }
    TotalIsLength(rows);
    ModelsAreLlmAndSearch(rows);
    if FitsEveryCap(rows, client, request) {
      assert Touches(Total, client, request) && Touches(PerKind(request.kind), client, request);
      assert Touches(Reserved, client, request);
      assert Touches(Tokens(Input), client, request) && Touches(Tokens(Output), client, request);
      assert IsModel(request.kind) ==>
          Touches(Models, client, request) && Touches(Stage(client.stage), client, request);
      assert Cap(Models, client.policy).Some? && Cap(Total, client.policy).Some?;
      assert Cap(Tokens(Input), client.policy).Some? && Cap(Tokens(Output), client.policy).Some?;
    }
  }

  /** The requests of some kinds. */
  function Calls(rows: seq<Row>, kinds: set<Kind>): set<nat> {
    set i | 0 <= i < |rows| && rows[i].kind in kinds
  }

  function StageCalls(rows: seq<Row>, stage: string): set<nat> {
    set i | 0 <= i < |rows| && rows[i].kind in {Llm, Search} && rows[i].stage == stage
  }

  lemma {:induction false} UsageIsCardinality(rows: seq<Row>, meter: Meter, counted: set<nat>)
    requires forall i :: i in counted <==> 0 <= i < |rows| && Weigh(meter, rows[i]) == 1
    requires forall row :: row in rows ==> Weigh(meter, row) in {0, 1}
    ensures Usage(meter, rows) == |counted|
  {
    if |rows| > 0 {
      var last := |rows| - 1;
      assert rows[last] in rows;
      UsageIsCardinality(rows[..last], meter, counted - {last});
    } else {
      assert counted == {};
    }
  }

  function Reservation(row: Row): int {
    row.inputBound + row.outputBound
  }

  function InputCharge(row: Row): int {
    if row.prompt.Some? then row.prompt.value else row.inputBound
  }

  function OutputCharge(row: Row): int {
    if row.completion.Some? then row.completion.value else row.outputBound
  }

  /** What each count means in terms of the recorded requests. */
  lemma CountsMean(rows: seq<Row>, kind: Kind, stage: string)
    ensures Usage(PerKind(kind), rows) == |Calls(rows, {kind})|
    ensures Usage(Models, rows) == |Calls(rows, {Llm, Search})|
    ensures Usage(Stage(stage), rows) == |StageCalls(rows, stage)|
    ensures Usage(Total, rows) == |rows|
  {
    UsageIsCardinality(rows, PerKind(kind), Calls(rows, {kind}));
    UsageIsCardinality(rows, Models, Calls(rows, {Llm, Search}));
    UsageIsCardinality(rows, Stage(stage), StageCalls(rows, stage));
    TotalIsLength(rows);
  }

  /** What each sum means: reservations in full, and recorded usage or else the reservation. */
  lemma SumsMean(rows: seq<Row>)
    ensures Usage(Reserved, rows) == Sum(rows, Reservation)
    ensures Usage(Tokens(Input), rows) == Sum(rows, InputCharge)
    ensures Usage(Tokens(Output), rows) == Sum(rows, OutputCharge)
  {
    SameSum(rows, Weight(Reserved), Reservation);
    SameSum(rows, Weight(Tokens(Input)), InputCharge);
    SameSum(rows, Weight(Tokens(Output)), OutputCharge);
  }

  lemma {:induction false} SameSum(rows: seq<Row>, a: Row -> int, b: Row -> int)
    requires forall row :: a(row) == b(row)
    ensures Sum(rows, a) == Sum(rows, b)
  {
    if |rows| > 0 {
      SameSum(rows[..|rows| - 1], a, b);
    }
  }

  /** The test of `reserve` on the recorded requests themselves. */
  lemma AdmissionMeans(rows: seq<Row>, client: Client, request: Request)
    ensures var limits, model := client.policy, request.kind in {Llm, Search};
            !Exceeded(rows, client, request)
            <==> && |rows| < limits.totalHttp
                 && |Calls(rows, {request.kind})| < (match request.kind
                                                     case Llm => limits.llmHttp
                                                     case Search => limits.searchHttp
                                                     case Embedding => limits.embeddingHttp
                                                     case Reranker => limits.rerankerHttp)
                 && (limits.reservedTokens.Some? ==>
                       Sum(rows, Reservation) + request.inputBound + request.outputBound <= limits.reservedTokens.value)
                 && (model ==> |Calls(rows, {Llm, Search})| < limits.modelHttp)
                 && (model && client.stage in limits.stages ==>
                       |StageCalls(rows, client.stage)| < limits.stages[client.stage])
                 && Sum(rows, InputCharge) + request.inputBound <= limits.inputTokens
                 && Sum(rows, OutputCharge) + request.outputBound <= limits.outputTokens
  {
    CountsMean(rows, request.kind, client.stage);
    SumsMean(rows);
    ModelsAreLlmAndSearch(rows);
  }

  lemma ReserveAppends(tables: Tables, client: Client, request: Request, meter: Meter)
    requires AfterReserve(tables, client, request).Ok?
    ensures var after := AfterReserve(tables, client, request).value;
            && after.rows == tables.rows + [NewRow(NextId(tables.rows), client, request)]
            && after.stored == tables.stored && after.states == tables.states
            && Usage(meter, after.rows) == Usage(meter, tables.rows) + Weigh(meter, NewRow(0, client, request))
  {
    SumAppend(tables.rows, NewRow(NextId(tables.rows), client, request), Weight(meter));
  }

  /** Settling changes no count and no reservation, only what is charged for tokens. */
  lemma SettleKeepsCounts(tables: Tables, index: int, status: int, prompt: Option<nat>, completion: Option<nat>,
                          meter: Meter)
    requires !meter.Tokens?
    ensures Usage(meter, AfterSettle(tables, index, status, prompt, completion).rows) == Usage(meter, tables.rows)
  {
    SumPointwise(AfterSettle(tables, index, status, prompt, completion).rows, tables.rows, Weight(meter));
  }

  /******* Runs of several clients *******/

  datatype World = World(tables: Tables, clients: seq<Client>)

  datatype Event =
    | Open(policy: Policy, stage: string)
    | Ask(client: nat, request: Request)
    | Answer(index: int, status: int, prompt: Option<nat>, completion: Option<nat>)
    | Move(policy: Policy, authorization: string)

  ghost function Step(world: World, event: Event): World {
    match event
    case Open(policy, stage) =>
      var connected := AfterConnect(world.tables, world.tables.stored.Some?, policy, false);
      if connected.Err? then world else World(connected.value, world.clients + [Client(policy, stage)])
    case Ask(client, request) =>
      if client >= |world.clients| then world else
      var reserved := AfterReserve(world.tables, world.clients[client], request);
      if reserved.Err? then world else world.(tables := reserved.value)
    case Answer(index, status, prompt, completion) =>
      world.(tables := AfterSettle(world.tables, index, status, prompt, completion))
    case Move(policy, authorization) =>
      var moved := AfterAmendment(world.tables, policy, authorization);
      if moved.Err? then world else world.(tables := moved.value)
  }

  ghost function Play(world: World, events: seq<Event>): World {
    if |events| == 0 then world else Step(Play(world, events[..|events| - 1]), events[|events| - 1])
  }

  /** Every client agrees with the stored policy on everything but stage allocations. */
  ghost predicate Coherent(world: World) {
    && (world.tables.stored.None? ==> world.clients == [])
    && forall c :: c in world.clients ==> SameAggregates(c.policy, world.tables.stored.value)
  }

  ghost predicate SameCaps(a: World, b: World) {
    a.tables.stored.Some? ==> b.tables.stored.Some? && SameAggregates(a.tables.stored.value, b.tables.stored.value)
  }

  lemma StepCoherent(world: World, event: Event)
    requires Coherent(world)
    ensures Coherent(Step(world, event)) && SameCaps(world, Step(world, event))
  {
  }

  lemma {:induction false} PlayCoherent(world: World, events: seq<Event>)
    requires Coherent(world)
    ensures Coherent(Play(world, events)) && SameCaps(world, Play(world, events))
  {
    if |events| > 0 {
      PlayCoherent(world, events[..|events| - 1]);
      StepCoherent(Play(world, events[..|events| - 1]), events[|events| - 1]);
    }
  }

  predicate Aggregate(meter: Meter) {
    meter.Total? || meter.PerKind? || meter.Models? || meter.Reserved?
  }

  lemma CountStep(before: World, event: Event, meter: Meter)
    requires Coherent(before) && Aggregate(meter)
    ensures var after := Step(before, event).tables;
            if after.stored.Some? && Cap(meter, after.stored.value).Some?
            then Usage(meter, after.rows) <= Max(Usage(meter, before.tables.rows), Cap(meter, after.stored.value).value)
            else after.stored.None? ==> Usage(meter, after.rows) == Usage(meter, before.tables.rows)
  {
    match event
    case Open(_, _) =>
    case Move(_, _) =>
    case Answer(index, status, prompt, completion) =>
      SettleKeepsCounts(before.tables, index, status, prompt, completion, meter);
    case Ask(c, request) =>
      if c < |before.clients| && AfterReserve(before.tables, before.clients[c], request).Ok? {
        assert before.clients[c] in before.clients;
        if Cap(meter, before.clients[c].policy).Some? {
          AskStep(before.tables, before.clients[c], request, meter);
        }
      }
  }

  lemma AskStep(tables: Tables, client: Client, request: Request, meter: Meter)
    requires AfterReserve(tables, client, request).Ok? && Cap(meter, client.policy).Some? && Aggregate(meter)
    ensures Usage(meter, AfterReserve(tables, client, request).value.rows)
         <= Max(Usage(meter, tables.rows), Cap(meter, client.policy).value)
  {
    ReserveAppends(tables, client, request, meter);
    AdmittedIffFits(tables.rows, client, request);
    assert !Touches(meter, client, request) ==> Weigh(meter, NewRow(0, client, request)) == 0;
  }

  /**
   Over every run, whichever clients act and in whatever order, no aggregate count grows past its cap:
   request totals, requests of each kind, model requests and reserved tokens.
   */
  lemma {:induction false} CountsStayCapped(world: World, events: seq<Event>, meter: Meter)
    requires Coherent(world) && Aggregate(meter)
    ensures var last := Play(world, events).tables;
            last.stored.Some? && Cap(meter, last.stored.value).Some? ==>
              Usage(meter, last.rows) <= Max(Usage(meter, world.tables.rows), Cap(meter, last.stored.value).value)
    ensures var last := Play(world, events).tables;
            last.stored.None? ==> Usage(meter, last.rows) == Usage(meter, world.tables.rows)
  {
    if |events| > 0 {
      var before := Play(world, events[..|events| - 1]);
      CountsStayCapped(world, events[..|events| - 1], meter);
      PlayCoherent(world, events[..|events| - 1]);
      StepCoherent(before, events[|events| - 1]);
      CountStep(before, events[|events| - 1], meter);
    }
  }

  /******* What `remaining` promises *******/

  datatype Allowance = Allowance(models: int, total: int, input: int, output: int)

  function Remaining(policy: Policy, rows: seq<Row>): Allowance {
    Allowance(Max(0, policy.modelHttp - Usage(Models, rows)), Max(0, policy.totalHttp - |rows|),
              Max(0, policy.inputTokens - Usage(Tokens(Input), rows)),
              Max(0, policy.outputTokens - Usage(Tokens(Output), rows)))
  }

  /**
   The reported allowance bounds the requests that every continuation can add, by any clients in any order, and, when
   usage is recorded once per request, the tokens too, up to the overruns of single requests.
   */
  lemma RemainingBoundsEveryContinuation(world: World, events: seq<Event>)
    requires Coherent(world) && world.tables.stored.Some?
    ensures var left := Remaining(world.tables.stored.value, world.tables.rows);
            var last := Play(world, events).tables.rows;
            && Usage(Models, last) - Usage(Models, world.tables.rows) <= left.models
            && |last| - |world.tables.rows| <= left.total
    ensures var left := Remaining(world.tables.stored.value, world.tables.rows);
            var last := Play(world, events).tables.rows;
            && (FirstUses(world, events, Input) ==>
                  Usage(Tokens(Input), last) - Usage(Tokens(Input), world.tables.rows)
                      <= left.input + Sum(last, Overrun(Input)))
            && (FirstUses(world, events, Output) ==>
                  Usage(Tokens(Output), last) - Usage(Tokens(Output), world.tables.rows)
                      <= left.output + Sum(last, Overrun(Output)))
  {
    ChargesStayLimited(world, events, Input);
    ChargesStayLimited(world, events, Output);
    ChargeSplits(world.tables.rows, Input);
    ChargeSplits(world.tables.rows, Output);
    ChargeSplits(Play(world, events).tables.rows, Input);
    ChargeSplits(Play(world, events).tables.rows, Output);
    PlayCoherent(world, events);
    CountsStayCapped(world, events, Models);
    CountsStayCapped(world, events, Total);
    TotalIsLength(world.tables.rows);
    TotalIsLength(Play(world, events).tables.rows);
  }

  /**
   The reported allowance is exact: a request with positive bounds is admitted if and only if it fits the allowance and
   the caps that the report leaves out, those of its kind, its stage and the reservations.
   */
  lemma AllowanceIsExact(rows: seq<Row>, client: Client, request: Request)
    requires request.inputBound >= 1 && request.outputBound >= 1
    ensures var left, limits := Remaining(client.policy, rows), client.policy;
            !Exceeded(rows, client, request)
            <==> && left.total >= 1 && (request.kind in {Llm, Search} ==> left.models >= 1)
                 && request.inputBound <= left.input && request.outputBound <= left.output
                 && Usage(PerKind(request.kind), rows) < KindCap(limits, request.kind)
                 && (limits.reservedTokens.Some? ==>
                       Usage(Reserved, rows) + request.inputBound + request.outputBound <= limits.reservedTokens.value)
                 && (request.kind in {Llm, Search} && client.stage in limits.stages ==>
                       Usage(Stage(client.stage), rows) < limits.stages[client.stage])
    ensures var left, limits := Remaining(client.policy, rows), client.policy;
            && left.models == (if |Calls(rows, {Llm, Search})| <= limits.modelHttp
                               then limits.modelHttp - |Calls(rows, {Llm, Search})| else 0)
            && left.total == (if |rows| <= limits.totalHttp then limits.totalHttp - |rows| else 0)
  {
    CountsMean(rows, request.kind, client.stage);
    SumsMean(rows);
    ModelsAreLlmAndSearch(rows);
  }

  /** Corollary of the admission test: a request is admitted only inside the reported allowance. */
  lemma AdmissionStaysInsideRemaining(rows: seq<Row>, client: Client, request: Request)
    ensures var left := Remaining(client.policy, rows);
            !Exceeded(rows, client, request) ==>
              && request.inputBound <= left.input && request.outputBound <= left.output
              && left.total >= 1 && (IsModel(request.kind) ==> left.models >= 1)
  {
    ModelsAreLlmAndSearch(rows);
  }

  /******* Token limits *******/

  function Covered(side: Side): Row -> int {
    row => Min(Charge(side, row), Bound(side, row))
  }

  function Overrun(side: Side): Row -> int {
    row => Max(0, Charge(side, row) - Bound(side, row))
  }

  lemma {:induction false} ChargeSplits(rows: seq<Row>, side: Side)
    ensures Usage(Tokens(side), rows) == Sum(rows, Covered(side)) + Sum(rows, Overrun(side))
    ensures Sum(rows, Overrun(side)) >= 0
  {
    if |rows| > 0 {
      ChargeSplits(rows[..|rows| - 1], side);
    }
  }

  lemma {:induction false} SumNoGreater(a: seq<Row>, b: seq<Row>, weight: Row -> int)
    requires |a| == |b| && forall i :: 0 <= i < |a| ==> weight(a[i]) <= weight(b[i])
    ensures Sum(a, weight) <= Sum(b, weight)
  {
    if |a| > 0 {
      SumNoGreater(a[..|a| - 1], b[..|b| - 1], weight);
    }
  }

  /** The answer is the first one that records usage of this side for its request. */
  ghost predicate FirstUse(rows: seq<Row>, event: Event, side: Side) {
    event.Answer? ==> forall i :: 0 <= i < |rows| && rows[i].id == event.index ==> Recorded(side, rows[i]).None?
  }

  ghost predicate FirstUses(world: World, events: seq<Event>, side: Side) {
    |events| > 0 ==>
      && FirstUses(world, events[..|events| - 1], side)
      && FirstUse(Play(world, events[..|events| - 1]).tables.rows, events[|events| - 1], side)
  }

  /** How far replies have raised the part of the charges that lies within the reservations. */
  ghost function Regrowth(world: World, events: seq<Event>, side: Side): int {
    if |events| == 0 then 0
    else
      var before := Play(world, events[..|events| - 1]);
      var event := events[|events| - 1];
      Regrowth(world, events[..|events| - 1], side) +
      if event.Answer? then
        Max(0, Sum(Step(before, event).tables.rows, Covered(side)) - Sum(before.tables.rows, Covered(side)))
      else 0
  }

  lemma {:induction false} FirstUsesNeverRegrow(world: World, events: seq<Event>, side: Side)
    requires FirstUses(world, events, side)
    ensures Regrowth(world, events, side) == 0
  {
    if |events| > 0 {
      FirstUsesNeverRegrow(world, events[..|events| - 1], side);
      var before := Play(world, events[..|events| - 1]);
      if events[|events| - 1].Answer? {
        SumNoGreater(Step(before, events[|events| - 1]).tables.rows, before.tables.rows, Covered(side));
      }
    }
  }

  /** A reservation is admitted only while the covered part, its own bounds included, fits under the limit. */
  lemma ReserveCovered(tables: Tables, client: Client, request: Request, side: Side)
    requires AfterReserve(tables, client, request).Ok?
    ensures Sum(AfterReserve(tables, client, request).value.rows, Covered(side))
         <= Max(Sum(tables.rows, Covered(side)), Cap(Tokens(side), client.policy).value)
  {
    AdmittedIffFits(tables.rows, client, request);
    assert Touches(Tokens(side), client, request) && Cap(Tokens(side), client.policy).Some?;
    ReserveAppends(tables, client, request, Tokens(side));
    SumAppend(tables.rows, NewRow(NextId(tables.rows), client, request), Covered(side));
    ChargeSplits(tables.rows, side);
  }

  lemma CoveredStep(before: World, event: Event, side: Side)
    requires Coherent(before) && !event.Answer?
    ensures var last := Step(before, event).tables;
            var start := Sum(before.tables.rows, Covered(side));
            Sum(last.rows, Covered(side))
              <= if last.stored.Some? then Max(start, Cap(Tokens(side), last.stored.value).value) else start
  {
    if event.Ask? && event.client < |before.clients|
       && AfterReserve(before.tables, before.clients[event.client], event.request).Ok? {
      var client := before.clients[event.client];
      assert client in before.clients;
      ReserveCovered(before.tables, client, event.request, side);
    }
  }

  lemma {:induction false} CoveredStaysLimited(world: World, events: seq<Event>, side: Side)
    requires Coherent(world)
    ensures var last := Play(world, events).tables;
            var start := Sum(world.tables.rows, Covered(side));
            Sum(last.rows, Covered(side)) - Regrowth(world, events, side)
              <= if last.stored.Some? then Max(start, Cap(Tokens(side), last.stored.value).value) else start
    ensures Regrowth(world, events, side) >= 0
  {
    if |events| > 0 {
      var before := Play(world, events[..|events| - 1]);
      var event := events[|events| - 1];
      CoveredStaysLimited(world, events[..|events| - 1], side);
      PlayCoherent(world, events[..|events| - 1]);
      StepCoherent(before, event);
      if !event.Answer? {
        CoveredStep(before, event, side);
      }
    }
  }

  /**
   From any ledger, charged tokens never exceed the limit, or what the ledger's reservations already covered, by more
   than requests overran their own reservations, plus whatever later replies put back after an earlier one had recorded
   less.
   */
  lemma ChargesStayLimited(world: World, events: seq<Event>, side: Side)
    requires Coherent(world)
    ensures var last := Play(world, events).tables;
            last.stored.Some? ==>
              var limit := Max(Sum(world.tables.rows, Covered(side)), Cap(Tokens(side), last.stored.value).value);
              && Usage(Tokens(side), last.rows) <= limit + Sum(last.rows, Overrun(side)) + Regrowth(world, events, side)
              && (FirstUses(world, events, side) ==>
                   Usage(Tokens(side), last.rows) <= limit + Sum(last.rows, Overrun(side)))
  {
    CoveredStaysLimited(world, events, side);
    ChargeSplits(Play(world, events).tables.rows, side);
    if FirstUses(world, events, side) {
      FirstUsesNeverRegrow(world, events, side);
    }
  }

  /** Only the settled row changes, and with it the covered sum. */
  lemma SettleCovered(tables: Tables, i: nat, status: int, prompt: Option<nat>, completion: Option<nat>, side: Side)
    requires i < |tables.rows|
             && forall j :: 0 <= j < |tables.rows| && j != i ==> tables.rows[j].id != tables.rows[i].id
    ensures var row := tables.rows[i];
            var after := AfterSettle(tables, row.id, status, prompt, completion).rows;
            Sum(after, Covered(side))
            == Sum(tables.rows, Covered(side)) - Covered(side)(row)
                + Covered(side)(Settled(row, status, prompt, completion))
  {
    var row := tables.rows[i];
    assert AfterSettle(tables, row.id, status, prompt, completion).rows
        == tables.rows[i := Settled(row, status, prompt, completion)];
    SumUpdate(tables.rows, i, Settled(row, status, prompt, completion), Covered(side));
  }

  /** Charges exceed the limit by no more than requests overran their own reservations. */
  predicate MeetsLimit(rows: seq<Row>, side: Side, limit: int) {
    Usage(Tokens(side), rows) <= limit + Sum(rows, Overrun(side))
  }

  /**
   A settlement leaves the charges within a limit plus the overruns exactly when what the other requests cover, and what
   this one will cover of its own reservation, fit under the limit: figures that are known before it is recorded.
   */
  lemma SettlementMeetsLimitIff(tables: Tables, i: nat, status: int, prompt: Option<nat>, completion: Option<nat>,
                                side: Side, limit: int)
    requires i < |tables.rows|
             && forall j :: 0 <= j < |tables.rows| && j != i ==> tables.rows[j].id != tables.rows[i].id
    ensures var row := tables.rows[i];
            var after := AfterSettle(tables, row.id, status, prompt, completion).rows;
            MeetsLimit(after, side, limit)
            <==> Sum(tables.rows, Covered(side)) - Covered(side)(row)
                 + Covered(side)(Settled(row, status, prompt, completion)) <= limit
  {
    SettleCovered(tables, i, status, prompt, completion, side);
    ChargeSplits(AfterSettle(tables, tables.rows[i].id, status, prompt, completion).rows, side);
  }

  /** The guard of SettlementMeetsLimitIff, for a settlement event; other events need none. */
  predicate Fits(rows: seq<Row>, event: Event, side: Side, limit: int) {
    event.Answer? ==>
      forall i :: 0 <= i < |rows| && rows[i].id == event.index ==>
        Sum(rows, Covered(side)) - Covered(side)(rows[i])
        + Covered(side)(Settled(rows[i], event.status, event.prompt, event.completion)) <= limit
  }

  /** The first usage recorded for a request always meets its guard. */
  lemma FirstUseFits(rows: seq<Row>, event: Event, side: Side, limit: int)
    requires MeetsLimit(rows, side, limit) && FirstUse(rows, event, side)
    ensures Fits(rows, event, side, limit)
  {
    ChargeSplits(rows, side);
  }

  ghost predicate AllFit(world: World, events: seq<Event>, side: Side, limit: int) {
    |events| > 0 ==>
      && AllFit(world, events[..|events| - 1], side, limit)
      && Fits(Play(world, events[..|events| - 1]).tables.rows, events[|events| - 1], side, limit)
  }

  ghost predicate AlwaysMeets(world: World, events: seq<Event>, side: Side, limit: int) {
    && MeetsLimit(Play(world, events).tables.rows, side, limit)
    && (|events| > 0 ==> AlwaysMeets(world, events[..|events| - 1], side, limit))
  }

  lemma MeetsLimitStep(before: World, event: Event, side: Side, limit: int)
    requires Coherent(before) && Numbered(before.tables.rows) && MeetsLimit(before.tables.rows, side, limit)
    requires var after := Step(before, event).tables;
             after.stored.Some? ==> limit >= Cap(Tokens(side), after.stored.value).value
    ensures MeetsLimit(Step(before, event).tables.rows, side, limit) <==> Fits(before.tables.rows, event, side, limit)
  {
    var rows := before.tables.rows;
    ChargeSplits(rows, side);
    ChargeSplits(Step(before, event).tables.rows, side);
    if event.Answer? {
      if 1 <= event.index <= |rows| {
        SettlementMeetsLimitIff(before.tables, event.index - 1, event.status, event.prompt, event.completion, side,
            limit);
      } else {
        assert Step(before, event).tables.rows == rows;
      }
    } else {
      CoveredStep(before, event, side);
    }
  }

  /**
   The token limit holds at every moment of a run, up to the overruns of single requests, exactly when every settlement
   of the run met its guard. Reservations, new clients and transfers never break it.
   */
  lemma {:induction false} LimitHoldsIff(world: World, events: seq<Event>, side: Side, limit: int)
    requires Coherent(world) && Numbered(world.tables.rows) && MeetsLimit(world.tables.rows, side, limit)
    requires var last := Play(world, events).tables;
             last.stored.Some? ==> limit >= Cap(Tokens(side), last.stored.value).value
    ensures AlwaysMeets(world, events, side, limit) <==> AllFit(world, events, side, limit)
  {
    if |events| > 0 {
      var front := events[..|events| - 1];
      var before := Play(world, front);
      PlayCoherent(world, front);
      StepCoherent(before, events[|events| - 1]);
      NumberedAndHaltIsFinal(world, front);
      LimitHoldsIff(world, front, side, limit);
      if AlwaysMeets(world, front, side, limit) {
        MeetsLimitStep(before, events[|events| - 1], side, limit);
      }
    }
  }

  const SMALL := Policy(None, 9, 9, 9, 0, 0, 0, 10, 10, None, map[])

  lemma SumOfTwo(a: Row, b: Row, weight: Row -> int)
    ensures Sum([a, b], weight) == weight(a) + weight(b)
  {
    SumAppend([], a, weight);
    SumAppend([a], b, weight);
    assert [] + [a] == [a] && [a] + [b] == [a, b];
  }

  /** Replying again after smaller usage was recorded passes the limit although no request overran its reservation. */
  lemma RepeatedAnswerPassesTheLimit()
    ensures var ask := Ask(0, Request(Llm, "", "", 10, 0));
            var events := [Open(SMALL, "a"), ask, Answer(1, 200, Some(0), Some(0)), ask,
                Answer(1, 200, Some(10), Some(0))];
            var last := Play(World(EMPTY, []), events).tables;
            && last.stored == Some(SMALL) && SMALL.inputTokens == 10
            && Usage(Tokens(Input), last.rows) == 20 && Sum(last.rows, Overrun(Input)) == 0
  {
    var ask := Ask(0, Request(Llm, "", "", 10, 0));
    var row := NewRow(1, Client(SMALL, "a"), Request(Llm, "", "", 10, 0));
    var none := World(EMPTY, []);
    var e1 := [Open(SMALL, "a")];
    var e2 := e1 + [ask];
    var e3 := e2 + [Answer(1, 200, Some(0), Some(0))];
    var e4 := e3 + [ask];
    var e5 := e4 + [Answer(1, 200, Some(10), Some(0))];
    assert e5 == [Open(SMALL, "a"), ask, Answer(1, 200, Some(0), Some(0)), ask, Answer(1, 200, Some(10), Some(0))];
    assert e2[..1] == e1 && e3[..2] == e2 && e4[..3] == e3 && e5[..4] == e4;
    assert e1[..0] == [];
    var w1 := World(EMPTY.(stored := Some(SMALL)), [Client(SMALL, "a")]);
    assert Play(none, e1) == w1 by { assert Play(none, []) == none; }
    assert Play(none, e2) == w1.(tables := w1.tables.(rows := [row]));
    var r3 := Settled(row, 200, Some(0), Some(0));
    assert Play(none, e3).tables.rows == [r3];
    assert Play(none, e3) == w1.(tables := w1.tables.(rows := [r3]));
    assert [r3][..0] == [];
    assert Play(none, e4).tables.rows == [r3, row.(id := 2)];
    var rows := Play(none, e5).tables.rows;
    assert rows == [Settled(r3, 200, Some(10), Some(0)), row.(id := 2)];
    SumOfTwo(rows[0], rows[1], Weight(Tokens(Input)));
    SumOfTwo(rows[0], rows[1], Overrun(Input));
  }

  /******* Stage allocations *******/

  ghost predicate StagesCapped(policy: Policy, rows: seq<Row>) {
    forall s :: s in policy.stages ==> Usage(Stage(s), rows) <= Max(0, policy.stages[s])
  }

  /**
   Corollary of the refusals: a transfer keeps the total, the names, the aggregates and every row, and recorded usage
   fits the new stages.
   */
  lemma TransferKeepsTotal(tables: Tables, policy: Policy, authorization: string)
    requires AfterAmendment(tables, policy, authorization).Ok?
    ensures var after := AfterAmendment(tables, policy, authorization).value;
            && after.stored == Some(policy) && after.rows == tables.rows && after.origins == tables.origins
            && SameAggregates(tables.stored.value, policy)
            && StageTotal(policy.stages) == StageTotal(tables.stored.value.stages)
            && policy.stages.Keys == tables.stored.value.stages.Keys
            && StagesCapped(policy, after.rows)
            && forall s :: s in policy.stages ==>
                 0 <= policy.stages[s] && Usage(Stage(s), after.rows) <= policy.stages[s]
  {
  }

  /** Every reservation of the run is made by a client that opened under the policy stored at that moment. */
  ghost predicate ClientsCurrent(world: World, events: seq<Event>) {
    |events| > 0 ==>
      && ClientsCurrent(world, events[..|events| - 1])
      && var before := Play(world, events[..|events| - 1]);
         var event := events[|events| - 1];
         event.Ask? && event.client < |before.clients| ==>
           before.tables.stored == Some(before.clients[event.client].policy)
  }

  /** A reservation keeps the stored stage caps exactly when the stored cap of its own stage had room. */
  lemma ReserveKeepsStagesIff(tables: Tables, client: Client, request: Request)
    requires tables.stored.Some? && StagesCapped(tables.stored.value, tables.rows)
    requires AfterReserve(tables, client, request).Ok?
    ensures var stages := tables.stored.value.stages;
            StagesCapped(tables.stored.value, AfterReserve(tables, client, request).value.rows)
            <==> !IsModel(request.kind) || client.stage !in stages
                 || Usage(Stage(client.stage), tables.rows) < Max(0, stages[client.stage])
  {
    var before, after := tables.rows, AfterReserve(tables, client, request).value.rows;
    var stages := tables.stored.value.stages;
    forall s ensures Usage(Stage(s), after) == Usage(Stage(s), before) + StageWeight(s, client, request) {
      ReserveAppends(tables, client, request, Stage(s));
    }
    if client.stage in stages && StagesCapped(tables.stored.value, after) {
      assert Usage(Stage(client.stage), after)
          == Usage(Stage(client.stage), before) + StageWeight(client.stage, client, request);
    }
  }

  function StageWeight(stage: string, client: Client, request: Request): int {
    if IsModel(request.kind) && client.stage == stage then 1 else 0
  }

  /** An admitted reservation finds room under the stored cap of its stage; other events need none. */
  ghost predicate StageFits(world: World, event: Event) {
    event.Ask? && Step(world, event) != world && world.tables.stored.Some? ==>
      var client, stages := world.clients[event.client], world.tables.stored.value.stages;
      IsModel(event.request.kind) && client.stage in stages ==>
        Usage(Stage(client.stage), world.tables.rows) < Max(0, stages[client.stage])
  }

  ghost predicate AllStagesFit(world: World, events: seq<Event>) {
    |events| > 0 ==>
      && AllStagesFit(world, events[..|events| - 1])
      && StageFits(Play(world, events[..|events| - 1]), events[|events| - 1])
  }

  /** The stored stage caps hold, or nothing is stored and nothing was spent. */
  ghost predicate Staged(tables: Tables) {
    if tables.stored.Some? then StagesCapped(tables.stored.value, tables.rows) else tables.rows == []
  }

  ghost predicate AlwaysStaged(world: World, events: seq<Event>) {
    && Staged(Play(world, events).tables)
    && (|events| > 0 ==> AlwaysStaged(world, events[..|events| - 1]))
  }

  lemma StagedStep(before: World, event: Event)
    requires Coherent(before) && Staged(before.tables)
    ensures Staged(Step(before, event).tables) <==> StageFits(before, event)
  {
    match event
    case Open(_, _) =>
    case Move(_, _) =>
    case Answer(index, status, prompt, completion) =>
      forall s { SettleKeepsCounts(before.tables, index, status, prompt, completion, Stage(s)); }
    case Ask(c, request) =>
      if c < |before.clients| && AfterReserve(before.tables, before.clients[c], request).Ok? {
        ReserveKeepsStagesIff(before.tables, before.clients[c], request);
        assert |Step(before, event).tables.rows| == |before.tables.rows| + 1;
      }
  }

  /**
   The stored stage caps hold at every moment of a run exactly when every admitted reservation found room under them.
   */
  lemma {:induction false} StagesHoldIff(world: World, events: seq<Event>)
    requires Coherent(world) && Staged(world.tables)
    ensures AlwaysStaged(world, events) <==> AllStagesFit(world, events)
  {
    if |events| > 0 {
      var front := events[..|events| - 1];
      PlayCoherent(world, front);
      StagesHoldIff(world, front);
      if AlwaysStaged(world, front) {
        StagedStep(Play(world, front), events[|events| - 1]);
      }
    }
  }

  /** A reservation by a client opened under the stored policy finds room whenever it is admitted. */
  lemma {:induction false} CurrentClientsFit(world: World, events: seq<Event>)
    requires Coherent(world) && ClientsCurrent(world, events)
    ensures AllStagesFit(world, events)
  {
    if |events| > 0 {
      CurrentClientsFit(world, events[..|events| - 1]);
    }
  }

  /** With current clients the stored stage caps hold through every run, transfers included. */
  lemma StagesStayCapped(world: World, events: seq<Event>)
    requires Coherent(world) && ClientsCurrent(world, events) && Staged(world.tables)
    ensures Staged(Play(world, events).tables)
  {
    CurrentClientsFit(world, events);
    StagesHoldIff(world, events);
  }

  /** The stage allocations before and after a transfer of one request from stage "a" to stage "b". */
  const EARLY := SMALL.(stages := map["a" := 1, "b" := 0])
  const MOVED := SMALL.(stages := map["a" := 0, "b" := 1])

  lemma SmallTransferIsAllowed()
    ensures AfterAmendment(EMPTY.(stored := Some(EARLY)), MOVED, "yes").Ok?
  {
    StageTotalRemove(EARLY.stages, "a");
    StageTotalRemove(MOVED.stages, "a");
    assert EARLY.stages - {"a"} == map["b" := 0] && MOVED.stages - {"a"} == map["b" := 1];
    StageTotalRemove(map["b" := 0], "b");
    StageTotalRemove(map["b" := 1], "b");
    assert map["b" := 0] - {"b"} == map[] && map["b" := 1] - {"b"} == map[];
    assert 'y' in "yes" by { assert "yes"[0] == 'y'; }
  }

  /** A client opened before a transfer still spends from its old stage allocation. */
  lemma StaleClientOverspendsItsStage()
    ensures var moved := AfterAmendment(EMPTY.(stored := Some(EARLY)), MOVED, "yes");
            && moved.Ok?
            && var later := AfterReserve(moved.value, Client(EARLY, "a"), Request(Llm, "", "", 0, 0));
               later.Ok? && !StagesCapped(MOVED, later.value.rows)
  {
    SmallTransferIsAllowed();
    var shifted := AfterAmendment(EMPTY.(stored := Some(EARLY)), MOVED, "yes").value;
    ReserveKeepsStagesIff(shifted, Client(EARLY, "a"), Request(Llm, "", "", 0, 0));
  }

  /******* Numbering and the halt *******/

  ghost predicate Numbered(rows: seq<Row>) {
    forall i :: 0 <= i < |rows| ==> rows[i].id == i + 1
  }

  lemma {:induction false} NextIdOfNumbered(rows: seq<Row>)
    requires Numbered(rows)
    ensures NextId(rows) == |rows| + 1 && MaxId(rows) == |rows|
  {
    if |rows| > 0 {
      NextIdOfNumbered(rows[..|rows| - 1]);
    }
  }

  lemma NumberedStep(before: World, event: Event)
    requires Numbered(before.tables.rows)
    ensures var after := Step(before, event).tables;
            && Numbered(after.rows) && |before.tables.rows| <= |after.rows|
            && (before.tables.states.halt.Some? ==> after.states.halt.Some? && |after.rows| == |before.tables.rows|)
  {
    NextIdOfNumbered(before.tables.rows);
  }

  /** Request numbers stay 1..n, and once a halting status has been recorded no run adds a request. */
  lemma {:induction false} NumberedAndHaltIsFinal(world: World, events: seq<Event>)
    requires Numbered(world.tables.rows)
    ensures var last := Play(world, events).tables;
            && Numbered(last.rows) && |world.tables.rows| <= |last.rows|
            && (world.tables.states.halt.Some? ==> last.states.halt.Some? && |last.rows| == |world.tables.rows|)
  {
    if |events| > 0 {
      NumberedAndHaltIsFinal(world, events[..|events| - 1]);
      NumberedStep(Play(world, events[..|events| - 1]), events[|events| - 1]);
    }
  }
}
