/**
 The four stages that give dispositions to blocking findings, and the gate that
 combines them. Every completed stage conserves the raw blocking rows, and each
 route passes exactly the scans whose rows are the reviewed ones.
 */
module Dispositions {
  import opened Outcomes
  import opened Findings

  datatype Reason = BoundMain | CandidateMain | NotSelected | FixedModule | CandidateScope

  datatype Disposed = Disposed(finding: Finding, reason: Reason)

  datatype GateError =
    | Unusable | Evidence | ReviewedRows | Incomplete | SecretPresent | FiveRows | OnlyJose
    | NotFourteen | Companions | OnlyJoseAndHtml | NoFact
    | NotEighteen | UnknownRows | Targets | OnlyReviewed | UnexpectedlyPassed

  datatype Verdict = Verdict(passed: bool, error: Option<GateError>, completed: bool, disposed: seq<Disposed>,
                             unresolved: seq<Finding>, candidateRows: nat)

  /**
   The tuples that the code pins: the two bound rows, the two candidate rows, the legacy jose row, and the advisory
   ids.
   */
  datatype Scope = Scope(bound: set<Key>, candidate: set<Key>, jose: Key, htmlId: string, companionId: string,
                         newTargets: set<string>, newIds: set<string>, unknownId: string, unknownTargets: set<string>)

  ghost predicate Distinct(scope: Scope) {
    && |scope.bound| == |scope.candidate| == 2 && scope.bound !! scope.candidate
    && scope.jose !in scope.bound + scope.candidate
    && scope.jose.id != scope.htmlId && scope.jose.target !in scope.newTargets
    && forall k :: k in scope.bound + scope.candidate ==> k.id != scope.htmlId && k.target !in scope.newTargets
  }

  /** Reviews and recorded evidence that a run reads beside the scan. */
  datatype Reviews = Reviews(bound: bool, candidate: bool, selection: bool, htmlReview: bool, extraReview: bool,
                             html: seq<Key>, htmlSources: set<string>,
                             companions: multiset<Key>, extra: seq<Key>, unknown: multiset<Key>, targets: bool)

  function Legacy(scope: Scope): multiset<Key> {
    multiset{scope.jose} + multiset(scope.bound) + multiset(scope.candidate)
  }

  function Blocking(scan: Scan): seq<Finding>
    requires Usable(scan)
  {
    Filter(Raw(scan), Blocks)
  }

  function Mark(fs: seq<Finding>, reason: Reason): seq<Disposed> {
    seq(|fs|, i requires 0 <= i < |fs| => Disposed(fs[i], reason))
  }

  function Rows(disposed: seq<Disposed>): seq<Finding> {
    seq(|disposed|, i requires 0 <= i < |disposed| => disposed[i].finding)
  }

  lemma RowsOf(a: seq<Disposed>, fs: seq<Finding>, reason: Reason)
    ensures Rows(a + Mark(fs, reason)) == Rows(a) + fs
  {
  }

  /** Dispositioned rows and unresolved rows are together the raw blocking rows, as multisets. */
  ghost predicate Conserves(verdict: Verdict, scan: Scan) {
    Usable(scan) && multiset(Rows(verdict.disposed)) + multiset(verdict.unresolved) == multiset(Blocking(scan))
  }

  /******* Stage one: the bound main build *******/

  const FAILED := Verdict(false, None, false, [], [], 0)

  function FsVerdict(scope: Scope, scan: Scan, evidence: bool): Verdict {
    if !Usable(scan) then FAILED.(error := Some(Unusable))
    else
      var blocking := Blocking(scan);
      var selected := Filter(blocking, Reviewed(scope.bound));
      var rest := Filter(blocking, Not(Reviewed(scope.bound)));
      if !evidence then Verdict(false, Some(Evidence), false, [], blocking, 0)
      else if Keys(selected) != multiset(scope.bound) then Verdict(false, Some(ReviewedRows), true, [], blocking, 0)
      else Verdict(rest == [], None, true, Mark(selected, BoundMain), rest, 0)
  }

  /** The partition loop of `evaluate`, which refuses a repeated row as soon as it meets one. */
  method PartitionOnce(blocking: seq<Finding>, required: set<Key>)
    returns (selected: seq<Finding>, unresolved: seq<Finding>, ok: bool)
    ensures ok <==> Keys(Filter(blocking, Reviewed(required))) == multiset(required)
    ensures ok ==> selected == Filter(blocking, Reviewed(required))
    ensures ok ==> unresolved == Filter(blocking, Not(Reviewed(required)))
  {
    selected, unresolved := [], [];
    var seen: set<Key> := {};
    for n := 0 to |blocking|
      invariant selected == Filter(blocking[..n], Reviewed(required))
      invariant unresolved == Filter(blocking[..n], Not(Reviewed(required)))
      invariant Keys(selected) == multiset(seen) && seen <= required
    {
      var finding := blocking[n];
      FilterNext(blocking, n, Reviewed(required));
      FilterNext(blocking, n, Not(Reviewed(required)));
      if !finding.secret && KeyOf(finding) in required {
        KeysAppend(selected, finding);
        if KeyOf(finding) in seen {
          RepeatedKey(blocking, n, Reviewed(required), required);
          return selected, unresolved, false;
        }
        seen := seen + {KeyOf(finding)};
        selected := selected + [finding];
      } else {
        unresolved := unresolved + [finding];
      }
    }
    assert blocking[..|blocking|] == blocking;
    ok := seen == required;
    SameSets(seen, required);
  }

  lemma SameSets(a: set<Key>, b: set<Key>)
    ensures multiset(a) == multiset(b) <==> a == b
  {
    if multiset(a) == multiset(b) {
      forall k ensures k in a <==> k in b {
        assert k in multiset(a) <==> k in multiset(b);
      }
    }
  }

  lemma {:induction false} KeysOnlyGrow(fs: seq<Finding>, n: nat, keep: Finding -> bool)
    requires n <= |fs|
    ensures Keys(Filter(fs[..n], keep)) <= Keys(Filter(fs, keep))
    decreases |fs|
  {
    if n == |fs| {
      assert fs[..n] == fs;
    } else {
      var front, last := fs[..|fs| - 1], fs[|fs| - 1];
      assert front[..n] == fs[..n];
      KeysOnlyGrow(front, n, keep);
      KeysAppend(Filter(front, keep), last);
    }
  }

  lemma RepeatedKey(fs: seq<Finding>, n: nat, keep: Finding -> bool, required: set<Key>)
    requires n < |fs| && keep(fs[n]) && KeyOf(fs[n]) in Keys(Filter(fs[..n], keep))
    ensures Keys(Filter(fs, keep)) != multiset(required)
  {
    FilterNext(fs, n, keep);
    KeysAppend(Filter(fs[..n], keep), fs[n]);
    KeysOnlyGrow(fs, n + 1, keep);
    TwiceIsNoSet(Keys(Filter(fs[..n], keep)), KeyOf(fs[n]), Keys(Filter(fs, keep)), required);
  }

  lemma TwiceIsNoSet(keys: multiset<Key>, k: Key, all: multiset<Key>, required: set<Key>)
    requires k in keys && keys + multiset{k} <= all
    ensures all != multiset(required)
  {
    assert all[k] >= 2;
  }

  method FsEvaluate(scope: Scope, scan: Scan, evidence: bool) returns (verdict: Verdict)
    ensures verdict == FsVerdict(scope, scan, evidence)
  {
    var findings, secrets := Summarize(scan);
    if findings.None? {
      return FAILED.(error := Some(Unusable));
    }
    var blocking := Filter(findings.value, Blocks);
    if !evidence {
      return Verdict(false, Some(Evidence), false, [], blocking, 0);
    }
    var selected, unresolved, ok := PartitionOnce(blocking, scope.bound);
    if !ok {
      return Verdict(false, Some(ReviewedRows), true, [], blocking, 0);
    }
    return Verdict(unresolved == [], None, true, Mark(selected, BoundMain), unresolved, 0);
  }

  /** Every verdict of the first stage on a usable scan conserves the blocking rows, failures included. */
  lemma FsConserves(scope: Scope, scan: Scan, evidence: bool)
    requires Usable(scan)
    ensures Conserves(FsVerdict(scope, scan, evidence), scan)
  {
    var blocking := Blocking(scan);
    FilterSplits(blocking, Reviewed(scope.bound));
    RowsOf([], Filter(blocking, Reviewed(scope.bound)), BoundMain);
    assert [] + Mark(Filter(blocking, Reviewed(scope.bound)), BoundMain)
        == Mark(Filter(blocking, Reviewed(scope.bound)), BoundMain);
    assert Rows([]) == [] && forall fs: seq<Finding> {:trigger Rows([]) + fs} :: Rows([]) + fs == fs;
  }

  /******* Stage two: the candidate main build *******/

  function ExactTwo(scope: Scope, original: Verdict, evidence: bool): Result<Verdict, GateError> {
    if !original.completed || original.error.Some? || |original.disposed| != 2 then Err(Incomplete)
    else if !evidence then Err(Evidence)
    else
      var selected := Filter(original.unresolved, Reviewed(scope.candidate));
      var rest := Filter(original.unresolved, Not(Reviewed(scope.candidate)));
      if Keys(selected) != multiset(scope.candidate) then Err(ReviewedRows)
      else Ok(Verdict(rest == [], None, true, original.disposed + Mark(selected, CandidateMain), rest, 2))
  }

  /** The partition loop of `apply_exact_two`, which counts first and compares afterwards. */
  method PartitionCounted(unresolved: seq<Finding>, required: set<Key>)
    returns (selected: seq<Finding>, remaining: seq<Finding>, seen: multiset<Key>)
    ensures selected == Filter(unresolved, Reviewed(required))
            && remaining == Filter(unresolved, Not(Reviewed(required)))
    ensures seen == Keys(selected)
  {
    selected, remaining, seen := [], [], multiset{};
    for n := 0 to |unresolved|
      invariant selected == Filter(unresolved[..n], Reviewed(required))
      invariant remaining == Filter(unresolved[..n], Not(Reviewed(required)))
      invariant seen == Keys(selected)
    {
      var finding := unresolved[n];
      FilterNext(unresolved, n, Reviewed(required));
      FilterNext(unresolved, n, Not(Reviewed(required)));
      if !finding.secret && KeyOf(finding) in required {
        KeysAppend(selected, finding);
        seen := seen + multiset{KeyOf(finding)};
        selected := selected + [finding];
      } else {
        remaining := remaining + [finding];
      }
    }
    assert unresolved[..|unresolved|] == unresolved;
  }

  method ApplyExactTwo(scope: Scope, original: Verdict, evidence: bool) returns (result: Result<Verdict, GateError>)
    ensures result == ExactTwo(scope, original, evidence)
  {
    if !original.completed || original.error.Some? || |original.disposed| != 2 {
      return Err(Incomplete);
    }
    if !evidence {
      return Err(Evidence);
    }
    var selected, remaining, seen := PartitionCounted(original.unresolved, scope.candidate);
    if seen != multiset(scope.candidate) {
      return Err(ReviewedRows);
    }
    return Ok(Verdict(remaining == [], None, true, original.disposed + Mark(selected, CandidateMain), remaining, 2));
  }

  /** `evaluate` of the second stage: its verdict carries the error when either stage fails. */
  function SourceVerdict(scope: Scope, scan: Scan, reviews: Reviews): Verdict {
    match ExactTwo(scope, FsVerdict(scope, scan, reviews.bound), reviews.candidate)
    case Ok(verdict) => verdict
    case Err(error) => FAILED.(error := Some(error))
  }

  lemma ExactTwoConserves(scope: Scope, scan: Scan, original: Verdict, evidence: bool)
    requires Conserves(original, scan) && ExactTwo(scope, original, evidence).Ok?
    ensures Conserves(ExactTwo(scope, original, evidence).value, scan)
  {
    FilterSplits(original.unresolved, Reviewed(scope.candidate));
    RowsOf(original.disposed, Filter(original.unresolved, Reviewed(scope.candidate)), CandidateMain);
  }

  /******* Stage three: the exact five rows *******/

  predicate IsVulnerability(f: Finding) {
    !f.secret
  }

  function HasId(id: string): Finding -> bool {
    (f: Finding) => f.id == id
  }

  function Retired(scope: Scope, previous: Verdict, scan: Scan): Result<Verdict, GateError> {
    if !previous.completed || previous.error.Some? || |previous.disposed| != 4 || previous.candidateRows != 2 then
        Err(Incomplete)
    else if !Usable(scan) then Err(Unusable)
    else if !Secretless(scan) then Err(SecretPresent)
    else if |Blocking(scan)| != 5 then Err(FiveRows)
    else if |previous.unresolved| != 1 || Keys(Filter(previous.unresolved, IsVulnerability)) != multiset{scope.jose}
    then Err(OnlyJose)
    else Ok(Verdict(true, None, true, previous.disposed + Mark(previous.unresolved, NotSelected), [], 2))
  }

  /******* The fourteen rows *******/

  function Observed(scan: Scan, id: string): multiset<Key>
    requires Usable(scan)
  {
    Keys(Filter(Raw(scan), HasId(id)))
  }

  predicate AllFrom(fs: seq<Finding>, id: string, sources: set<string>) {
    forall f :: f in fs && f.id == id ==> f.target in sources
  }

  function HtmlRetired(scope: Scope, previous: Verdict, scan: Scan, reviews: Reviews): Result<Verdict, GateError> {
    var html := multiset(reviews.html);
    var remaining := previous.unresolved;
    if !previous.completed || previous.error.Some? || |previous.disposed| != 4 || previous.candidateRows != 2 then
        Err(Incomplete)
    else if !Usable(scan) then Err(Unusable)
    else if !Secretless(scan) then Err(SecretPresent)
    else if Keys(Blocking(scan)) != Legacy(scope) + html || Observed(scan, scope.htmlId) != html
            || |Legacy(scope)| != 5 || |html| != 9 then Err(NotFourteen)
    else if Observed(scan, scope.companionId) != reviews.companions then Err(Companions)
    else if |remaining| != 10 || (exists f :: f in remaining && f.secret)
        || Keys(remaining) != multiset{scope.jose} + html
    then Err(OnlyJoseAndHtml)
    else if !AllFrom(remaining, scope.htmlId, reviews.htmlSources) then Err(NoFact)
    else
      var jose := Filter(remaining, HasId(scope.jose.id));
      var fixed := Filter(remaining, HasId(scope.htmlId));
      Ok(Verdict(true, None, true, previous.disposed + Mark(jose, NotSelected) + Mark(fixed, FixedModule), [], 2))
  }

  /******* The eighteen rows *******/

  function NewRows(scope: Scope): Finding -> bool {
    (f: Finding) => f.target in scope.newTargets && f.id in scope.newIds
  }

  function UnknownRowsOf(scope: Scope): Finding -> bool {
    (f: Finding) => f.id == scope.unknownId && f.target in scope.unknownTargets
  }

  function ReasonFor(scope: Scope, reviews: Reviews, f: Finding): Option<Reason> {
    if f.id == scope.jose.id then Some(NotSelected)
    else if f.id == scope.htmlId then if f.target in reviews.htmlSources then Some(FixedModule) else None
    else if f.target in scope.newTargets then Some(CandidateScope) else None
  }

  function Assignments(scope: Scope, reviews: Reviews, remaining: seq<Finding>): Option<seq<Disposed>> {
    if |remaining| == 0 then Some([])
    else
      var before := Assignments(scope, reviews, remaining[..|remaining| - 1]);
      var last := remaining[|remaining| - 1];
      if before.None? || ReasonFor(scope, reviews, last).None? then None
      else Some(before.value + [Disposed(last, ReasonFor(scope, reviews, last).value)])
  }

  /** The loop of `apply_candidate4`. */
  method Assign(scope: Scope, reviews: Reviews, remaining: seq<Finding>) returns (retired: Option<seq<Disposed>>)
    ensures retired == Assignments(scope, reviews, remaining)
  {
    var list: seq<Disposed> := [];
    for n := 0 to |remaining|
      invariant Assignments(scope, reviews, remaining[..n]) == Some(list)
    {
      assert remaining[..n + 1][..n] == remaining[..n];
      AssignmentsFailOn(scope, reviews, remaining, n + 1);
      var reason := ReasonFor(scope, reviews, remaining[n]);
      if reason.None? {
        return None;
      }
      list := list + [Disposed(remaining[n], reason.value)];
    }
    assert remaining[..|remaining|] == remaining;
    return Some(list);
  }

  lemma {:induction false} AssignmentsFailOn(scope: Scope, reviews: Reviews, remaining: seq<Finding>, n: nat)
    requires n <= |remaining|
    ensures Assignments(scope, reviews, remaining[..n]).None? ==> Assignments(scope, reviews, remaining).None?
    decreases |remaining|
  {
    if n == |remaining| {
      assert remaining[..n] == remaining;
    } else {
      assert remaining[..|remaining| - 1][..n] == remaining[..n];
      AssignmentsFailOn(scope, reviews, remaining[..|remaining| - 1], n);
    }
  }

  function Candidate4(scope: Scope, prior: Verdict, scan: Scan, reviews: Reviews): Result<Verdict, GateError> {
    var html, extra := multiset(reviews.html), multiset(reviews.extra);
    var remaining := prior.unresolved;
    if !Usable(scan) then Err(Unusable)
    else if !Secretless(scan) then Err(SecretPresent)
    else if Keys(Blocking(scan)) != Legacy(scope) + html + extra || Keys(Filter(Raw(scan), NewRows(scope))) != extra
            || |Blocking(scan)| != 18 then Err(NotEighteen)
    else if Observed(scan, scope.companionId) != reviews.companions then Err(Companions)
    else if Keys(Filter(Raw(scan), UnknownRowsOf(scope))) != reviews.unknown then Err(UnknownRows)
    else if !reviews.targets then Err(Targets)
    else if |remaining| != 14 || (exists f :: f in remaining && f.secret)
            || Keys(remaining) != multiset{scope.jose} + html + extra then Err(OnlyReviewed)
    else if Retired(scope, prior, scan).Ok? then Err(UnexpectedlyPassed)
    else
      var given := Assignments(scope, reviews, remaining);
      if given.None? then Err(NoFact)
      else Ok(Verdict(true, None, true, prior.disposed + given.value, [], 2))
  }

  /******* The gate *******/

  type Route = Result<Verdict, GateError>

  /**
   `evaluate` and `main`: the five-row route, then on the maintenance profile the fourteen-row and eighteen-row routes.
   */
  function Combined(five: Route, fourteen: Route, eighteen: Route, reviews: Reviews, maintenance: bool): Verdict {
    if !reviews.selection then FAILED.(error := Some(Evidence))
    else if five.Ok? then five.value
    else if !maintenance then FAILED.(error := Some(five.error))
    else if !reviews.htmlReview then FAILED.(error := Some(Evidence))
    else if fourteen.Ok? then fourteen.value
    else if !fourteen.error.NotFourteen? then FAILED.(error := Some(fourteen.error))
    else if !reviews.extraReview then FAILED.(error := Some(Evidence))
    else if eighteen.Ok? then eighteen.value
    else FAILED.(error := Some(eighteen.error))
  }

  function Gate(scope: Scope, scan: Scan, reviews: Reviews, maintenance: bool): Verdict {
    var previous := SourceVerdict(scope, scan, reviews);
    Combined(Retired(scope, previous, scan), HtmlRetired(scope, previous, scan, reviews),
             Candidate4(scope, previous, scan, reviews), reviews, maintenance)
  }
}
