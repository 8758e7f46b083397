/**
 What a passing gate proves about a scan, and exactly which scans pass: the three
 routes in terms of the raw rows alone.
 */
module DispositionRoutes {
  import opened Outcomes
  import opened Findings
  import opened Dispositions

  /******* Conservation *******/

  lemma SourceConserves(scope: Scope, scan: Scan, reviews: Reviews)
    requires SourceVerdict(scope, scan, reviews).error.None?
    ensures Conserves(SourceVerdict(scope, scan, reviews), scan)
  {
    FsConserves(scope, scan, reviews.bound);
    ExactTwoConserves(scope, scan, FsVerdict(scope, scan, reviews.bound), reviews.candidate);
  }

  lemma RetiredConserves(scope: Scope, previous: Verdict, scan: Scan)
    requires Conserves(previous, scan) && Retired(scope, previous, scan).Ok?
    ensures Conserves(Retired(scope, previous, scan).value, scan)
  {
    RowsOf(previous.disposed, previous.unresolved, NotSelected);
  }

  /** When every row satisfies exactly one of two tests, the two filters split the list. */
  lemma {:induction false} TwoFilters(fs: seq<Finding>, a: Finding -> bool, b: Finding -> bool)
    requires forall f :: f in fs ==> a(f) != b(f)
    ensures multiset(Filter(fs, a)) + multiset(Filter(fs, b)) == multiset(fs)
  {
    if |fs| > 0 {
      var front, last := fs[..|fs| - 1], fs[|fs| - 1];
      assert last in fs;
      TwoFilters(front, a, b);
      assert multiset(fs) == multiset(front) + multiset{last} by { assert fs == front + [last]; }
    }
  }

  lemma ObservedIds(scan: Scan, id: string, k: Key)
    requires Usable(scan) && k in Observed(scan, id)
    ensures k.id == id
  {
    KeysCount(Filter(Raw(scan), HasId(id)));
    FilterKeeps(Raw(scan), HasId(id));
  }

  lemma JoseOrHtml(scope: Scope, remaining: seq<Finding>, html: multiset<Key>)
    requires Distinct(scope) && Keys(remaining) == multiset{scope.jose} + html
             && forall k :: k in html ==> k.id == scope.htmlId
    ensures multiset(Filter(remaining, HasId(scope.jose.id))) + multiset(Filter(remaining, HasId(scope.htmlId)))
            == multiset(remaining)
  {
    KeysCount(remaining);
    forall f | f in remaining ensures HasId(scope.jose.id)(f) != HasId(scope.htmlId)(f) {
      assert KeyOf(f) in multiset{scope.jose} + html;
    }
    TwoFilters(remaining, HasId(scope.jose.id), HasId(scope.htmlId));
  }

  lemma MarkedTwice(base: seq<Disposed>, a: seq<Finding>, x: Reason, b: seq<Finding>, y: Reason)
    ensures multiset(Rows(base + Mark(a, x) + Mark(b, y))) == multiset(Rows(base)) + multiset(a) + multiset(b)
  {
    RowsOf(base, a, x);
    RowsOf(base + Mark(a, x), b, y);
  }

  /** What the fourteen-row route leaves when it passes. */
  lemma HtmlVerdictIs(scope: Scope, previous: Verdict, scan: Scan, reviews: Reviews)
    requires HtmlRetired(scope, previous, scan, reviews).Ok?
    ensures var verdict, remaining := HtmlRetired(scope, previous, scan, reviews).value, previous.unresolved;
            && Usable(scan) && Secretless(scan) && verdict.unresolved == []
            && verdict.disposed == previous.disposed + Mark(Filter(remaining, HasId(scope.jose.id)), NotSelected)
                                   + Mark(Filter(remaining, HasId(scope.htmlId)), FixedModule)
            && Keys(remaining) == multiset{scope.jose} + multiset(reviews.html)
            && Observed(scan, scope.htmlId) == multiset(reviews.html)
  {
  }

  lemma HtmlKeepsRows(scope: Scope, scan: Scan, base: seq<Disposed>, remaining: seq<Finding>, html: multiset<Key>)
    requires Distinct(scope) && Usable(scan) && Observed(scan, scope.htmlId) == html
    requires Keys(remaining) == multiset{scope.jose} + html
    ensures multiset(Rows(base + Mark(Filter(remaining, HasId(scope.jose.id)), NotSelected)
                               + Mark(Filter(remaining, HasId(scope.htmlId)), FixedModule)))
         == multiset(Rows(base)) + multiset(remaining)
  {
    forall k | k in html ensures k.id == scope.htmlId {
      ObservedIds(scan, scope.htmlId, k);
    }
    JoseOrHtml(scope, remaining, html);
    MarkedTwice(base, Filter(remaining, HasId(scope.jose.id)), NotSelected, Filter(remaining, HasId(scope.htmlId)),
        FixedModule);
  }

  lemma HtmlConserves(scope: Scope, previous: Verdict, scan: Scan, reviews: Reviews)
    requires Distinct(scope) && Conserves(previous, scan)
    ensures HtmlRetired(scope, previous, scan, reviews).Ok? ==>
                Clean(HtmlRetired(scope, previous, scan, reviews).value, scan)
  {
    if HtmlRetired(scope, previous, scan, reviews).Ok? {
      HtmlVerdictIs(scope, previous, scan, reviews);
      HtmlKeepsRows(scope, scan, previous.disposed, previous.unresolved, multiset(reviews.html));
    }
  }

  lemma {:induction false} AssignmentsKeepRows(scope: Scope, reviews: Reviews, remaining: seq<Finding>)
    requires Assignments(scope, reviews, remaining).Some?
    ensures Rows(Assignments(scope, reviews, remaining).value) == remaining
  {
    if |remaining| > 0 {
      AssignmentsKeepRows(scope, reviews, remaining[..|remaining| - 1]);
    }
  }

  /** What the eighteen-row route leaves when it passes. */
  lemma Candidate4VerdictIs(scope: Scope, prior: Verdict, scan: Scan, reviews: Reviews)
    requires Candidate4(scope, prior, scan, reviews).Ok?
    ensures var verdict, given :=
                Candidate4(scope, prior, scan, reviews).value, Assignments(scope, reviews, prior.unresolved);
            && Usable(scan) && Secretless(scan) && verdict.unresolved == []
            && given.Some? && verdict.disposed == prior.disposed + given.value
  {
  }

  lemma AssignmentsKeepAll(scope: Scope, reviews: Reviews, base: seq<Disposed>, remaining: seq<Finding>)
    requires Assignments(scope, reviews, remaining).Some?
    ensures multiset(Rows(base + Assignments(scope, reviews, remaining).value))
            == multiset(Rows(base)) + multiset(remaining)
  {
    AssignmentsKeepRows(scope, reviews, remaining);
    var given := Assignments(scope, reviews, remaining).value;
    assert Rows(base + given) == Rows(base) + Rows(given);
  }

  lemma Candidate4Conserves(scope: Scope, prior: Verdict, scan: Scan, reviews: Reviews)
    requires Conserves(prior, scan)
    ensures Candidate4(scope, prior, scan, reviews).Ok? ==> Clean(Candidate4(scope, prior, scan, reviews).value, scan)
  {
    if Candidate4(scope, prior, scan, reviews).Ok? {
      Candidate4VerdictIs(scope, prior, scan, reviews);
      AssignmentsKeepAll(scope, reviews, prior.disposed, prior.unresolved);
    }
  }

  lemma GateVerdictIs(scope: Scope, scan: Scan, reviews: Reviews, maintenance: bool)
    requires Gate(scope, scan, reviews, maintenance).passed
    ensures var previous := SourceVerdict(scope, scan, reviews);
            var verdict := Ok(Gate(scope, scan, reviews, maintenance));
            || verdict == Retired(scope, previous, scan)
            || verdict == HtmlRetired(scope, previous, scan, reviews)
            || verdict == Candidate4(scope, previous, scan, reviews)
  {
  }

  /** Each route starts from a completed second stage: a failed one leaves nothing for it to dispose of. */
  lemma RoutesNeedTheSource(scope: Scope, scan: Scan, reviews: Reviews)
    requires SourceVerdict(scope, scan, reviews).error.Some?
    ensures var previous := SourceVerdict(scope, scan, reviews);
            && Retired(scope, previous, scan).Err? && HtmlRetired(scope, previous, scan, reviews).Err?
            && Candidate4(scope, previous, scan, reviews).Err?
  {
    assert SourceVerdict(scope, scan, reviews).unresolved == [];
  }

  /** A verdict that accounts for every blocking row of a scan without secrets. */
  ghost predicate Clean(verdict: Verdict, scan: Scan) {
    Usable(scan) && Secretless(scan) && verdict.unresolved == [] && Conserves(verdict, scan)
  }

  lemma RetiredIsClean(scope: Scope, scan: Scan, reviews: Reviews)
    requires Retired(scope, SourceVerdict(scope, scan, reviews), scan).Ok?
    ensures Clean(Retired(scope, SourceVerdict(scope, scan, reviews), scan).value, scan)
  {
    var previous := SourceVerdict(scope, scan, reviews);
    if previous.error.Some? {
      RoutesNeedTheSource(scope, scan, reviews);
    } else {
      SourceConserves(scope, scan, reviews);
      RetiredConserves(scope, previous, scan);
    }
  }

  lemma HtmlIsClean(scope: Scope, scan: Scan, reviews: Reviews)
    requires Distinct(scope)
    ensures var verdict := HtmlRetired(scope, SourceVerdict(scope, scan, reviews), scan, reviews);
            verdict.Ok? ==> Clean(verdict.value, scan)
  {
    if SourceVerdict(scope, scan, reviews).error.Some? {
      RoutesNeedTheSource(scope, scan, reviews);
    } else {
      SourceConserves(scope, scan, reviews);
      HtmlConserves(scope, SourceVerdict(scope, scan, reviews), scan, reviews);
    }
  }

  lemma Candidate4IsClean(scope: Scope, scan: Scan, reviews: Reviews)
    ensures var verdict := Candidate4(scope, SourceVerdict(scope, scan, reviews), scan, reviews);
            verdict.Ok? ==> Clean(verdict.value, scan)
  {
    if SourceVerdict(scope, scan, reviews).error.Some? {
      RoutesNeedTheSource(scope, scan, reviews);
    } else {
      SourceConserves(scope, scan, reviews);
      Candidate4Conserves(scope, SourceVerdict(scope, scan, reviews), scan, reviews);
    }
  }

  /**
   Conservation. When the gate passes, the dispositioned rows are exactly the raw blocking rows, each with its one
   disposition and none dropped or invented, nothing is left unresolved, and the scan holds no secret.
   */
  lemma PassedGateConserves(scope: Scope, scan: Scan, reviews: Reviews, maintenance: bool)
    requires Distinct(scope)
    ensures var verdict := Gate(scope, scan, reviews, maintenance);
            verdict.passed ==>
              && Usable(scan) && Secretless(scan) && verdict.unresolved == []
              && multiset(Rows(verdict.disposed)) == multiset(Blocking(scan))
              && |verdict.disposed| == |Blocking(scan)|
              && forall d :: d in verdict.disposed ==> !d.finding.secret && Blocks(d.finding)
  {
    if Gate(scope, scan, reviews, maintenance).passed {
      GateIsClean(scope, scan, reviews, maintenance);
      DisposedAreBlocking(Gate(scope, scan, reviews, maintenance), scan);
    }
  }

  lemma GateIsClean(scope: Scope, scan: Scan, reviews: Reviews, maintenance: bool)
    requires Distinct(scope)
    ensures Gate(scope, scan, reviews, maintenance).passed ==> Clean(Gate(scope, scan, reviews, maintenance), scan)
  {
    var previous := SourceVerdict(scope, scan, reviews);
    if Gate(scope, scan, reviews, maintenance).passed {
      GateVerdictIs(scope, scan, reviews, maintenance);
    }
    if Retired(scope, previous, scan).Ok? {
      RetiredIsClean(scope, scan, reviews);
    }
    HtmlIsClean(scope, scan, reviews);
    Candidate4IsClean(scope, scan, reviews);
  }

  lemma DisposedAreBlocking(verdict: Verdict, scan: Scan)
    requires Conserves(verdict, scan) && verdict.unresolved == [] && Secretless(scan)
    ensures multiset(Rows(verdict.disposed)) == multiset(Blocking(scan)) && |verdict.disposed| == |Blocking(scan)|
    ensures forall d :: d in verdict.disposed ==> !d.finding.secret && Blocks(d.finding)
  {
    var rows := Rows(verdict.disposed);
    assert multiset(rows) == multiset(Blocking(scan));
    assert |multiset(rows)| == |rows| && |multiset(Blocking(scan))| == |Blocking(scan)|;
    SecretlessRaw(scan);
    FilterKeeps(Raw(scan), Blocks);
    forall d | d in verdict.disposed ensures !d.finding.secret && Blocks(d.finding) {
      var i :| 0 <= i < |verdict.disposed| && verdict.disposed[i] == d;
      assert rows[i] in multiset(rows);
    }
  }

  /******* Which scans pass *******/

  /** The first two stages succeed on a secretless scan exactly when each of their four rows is reported once. */
  ghost predicate OnceEach(scope: Scope, counted: multiset<Key>) {
    forall k :: k in scope.bound + scope.candidate ==> counted[k] == 1
  }

  lemma CountsAsSet(counted: multiset<Key>, total: multiset<Key>, rows: set<Key>)
    requires forall k :: counted[k] == if k in rows then total[k] else 0
    ensures counted == multiset(rows) <==> forall k :: k in rows ==> total[k] == 1
  {
    if counted == multiset(rows) {
      forall k | k in rows ensures total[k] == 1 {
        assert counted[k] == multiset(rows)[k];
      }
    }
    if forall k :: k in rows ==> total[k] == 1 {
      forall k ensures counted[k] == multiset(rows)[k] {
        assert counted[k] == if k in rows then total[k] else 0;
      }
    }
  }

  /** Two successive selections of disjoint tuple sets from vulnerabilities, by their counters. */
  lemma TwoSelections(fs: seq<Finding>, a: set<Key>, b: set<Key>)
    requires a !! b && forall f :: f in fs ==> !f.secret
    ensures var rest := Filter(fs, Not(Reviewed(a)));
            var last := Filter(rest, Not(Reviewed(b)));
            && (Keys(Filter(fs, Reviewed(a))) == multiset(a) <==> forall k :: k in a ==> Keys(fs)[k] == 1)
            && (Keys(Filter(rest, Reviewed(b))) == multiset(b) <==> forall k :: k in b ==> Keys(fs)[k] == 1)
            && (forall f :: f in last ==> !f.secret)
            && (forall k :: Keys(last)[k] == if k in a + b then 0 else Keys(fs)[k])
  {
    var rest := Filter(fs, Not(Reviewed(a)));
    ReviewedKeys(fs, a);
    CountsAsSet(Keys(Filter(fs, Reviewed(a))), Keys(fs), a);
    FilterKeeps(fs, Not(Reviewed(a)));
    ReviewedKeys(rest, b);
    CountsAsSet(Keys(Filter(rest, Reviewed(b))), Keys(rest), b);
    FilterKeeps(rest, Not(Reviewed(b)));
    assert forall k :: k in b ==> Keys(rest)[k] == Keys(fs)[k];
  }

  lemma SelectionSize(fs: seq<Finding>, rows: set<Key>)
    requires Keys(fs) == multiset(rows)
    ensures |fs| == |rows|
  {
    KeysCount(fs);
  }

  lemma BlockingIsSecretless(scan: Scan)
    requires Usable(scan) && Secretless(scan)
    ensures forall f :: f in Blocking(scan) ==> !f.secret
  {
    SecretlessRaw(scan);
    FilterKeeps(Raw(scan), Blocks);
  }

  /** A second stage that completed, as the three routes require it. */
  ghost predicate Ready(previous: Verdict) {
    && previous.completed && previous.error.None? && |previous.disposed| == 4 && previous.candidateRows == 2
    && forall f :: f in previous.unresolved ==> !f.secret
  }

  lemma SourceVerdictIs(scope: Scope, scan: Scan, reviews: Reviews)
    requires Usable(scan)
    ensures var first, rest :=
                Filter(Blocking(scan), Reviewed(scope.bound)), Filter(Blocking(scan), Not(Reviewed(scope.bound)));
            var second, last := Filter(rest, Reviewed(scope.candidate)), Filter(rest, Not(Reviewed(scope.candidate)));
            if reviews.bound && Keys(first) == multiset(scope.bound) && |first| == 2
               && reviews.candidate && Keys(second) == multiset(scope.candidate)
            then SourceVerdict(scope, scan, reviews)
              == Verdict(last == [], None, true, Mark(first, BoundMain) + Mark(second, CandidateMain), last, 2)
            else SourceVerdict(scope, scan, reviews).error.Some?
  {
    assert |Mark(Filter(Blocking(scan), Reviewed(scope.bound)), BoundMain)|
        == |Filter(Blocking(scan), Reviewed(scope.bound))|;
  }

  lemma SourceStagesIff(scope: Scope, scan: Scan, reviews: Reviews)
    requires Distinct(scope) && Usable(scan) && Secretless(scan)
    ensures var previous := SourceVerdict(scope, scan, reviews);
            && (previous.error.None? <==> reviews.bound && reviews.candidate && OnceEach(scope, Keys(Blocking(scan))))
            && (previous.error.None? ==>
                 Ready(previous) && RestCounts(scope, Keys(Blocking(scan)), Keys(previous.unresolved)))
  {
    var blocking := Blocking(scan);
    BlockingIsSecretless(scan);
    TwoSelections(blocking, scope.bound, scope.candidate);
    SourceVerdictIs(scope, scan, reviews);
    var first, rest := Filter(blocking, Reviewed(scope.bound)), Filter(blocking, Not(Reviewed(scope.bound)));
    var second := Filter(rest, Reviewed(scope.candidate));
    if Keys(first) == multiset(scope.bound) {
      SelectionSize(first, scope.bound);
    }
    if Keys(second) == multiset(scope.candidate) {
      SelectionSize(second, scope.candidate);
    }
  }

  /** The rows left after the first two stages, by count. */
  ghost predicate RestCounts(scope: Scope, total: multiset<Key>, rest: multiset<Key>) {
    forall k :: rest[k] == if k in scope.bound + scope.candidate then 0 else total[k]
  }

  /** Rows beyond the four of the first stages, as the later stages see them. */
  lemma RestIs(scope: Scope, total: multiset<Key>, rest: multiset<Key>, more: multiset<Key>)
    requires Distinct(scope) && OnceEach(scope, total)
    requires RestCounts(scope, total, rest)
    requires forall k :: k in more ==> k !in scope.bound + scope.candidate
    ensures rest == multiset{scope.jose} + more <==> total == Legacy(scope) + more
  {
    forall k ensures Legacy(scope)[k] == multiset{scope.jose}[k] + if k in scope.bound + scope.candidate then 1 else 0 {
    }
    if rest == multiset{scope.jose} + more {
      forall k ensures total[k] == (Legacy(scope) + more)[k] {
        assert rest[k] == multiset{scope.jose}[k] + more[k];
        if k in scope.bound + scope.candidate { assert more[k] == 0; }
      }
    }
    if total == Legacy(scope) + more {
      forall k ensures rest[k] == (multiset{scope.jose} + more)[k] {
        assert total[k] == Legacy(scope)[k] + more[k];
        if k in scope.bound + scope.candidate { assert more[k] == 0; }
      }
    }
  }

  lemma LegacyOnceEach(scope: Scope, total: multiset<Key>, more: multiset<Key>)
    requires Distinct(scope) && total == Legacy(scope) + more
    requires forall k :: k in more ==> k !in scope.bound + scope.candidate
    ensures OnceEach(scope, total) && |Legacy(scope)| == 5
  {
    forall k | k in scope.bound + scope.candidate ensures total[k] == 1 {
      assert more[k] == 0;
    }
    assert |multiset(scope.bound)| == 2 && |multiset(scope.candidate)| == 2;
  }

  lemma {:induction false} FilterAll(fs: seq<Finding>, keep: Finding -> bool)
    requires forall f :: f in fs ==> keep(f)
    ensures Filter(fs, keep) == fs
  {
    if |fs| > 0 {
      assert fs[|fs| - 1] in fs;
      FilterAll(fs[..|fs| - 1], keep);
    }
  }

  lemma RetiredWhenReady(scope: Scope, previous: Verdict, scan: Scan)
    requires Ready(previous) && Usable(scan) && Secretless(scan)
    ensures Retired(scope, previous, scan).Ok?
            <==> |Blocking(scan)| == 5 && Keys(previous.unresolved) == multiset{scope.jose}
  {
    FilterAll(previous.unresolved, IsVulnerability);
    KeysCount(previous.unresolved);
  }

  /**
   The five-row route passes exactly the secretless scans whose blocking tuples are the five legacy ones, once each.
   */
  lemma FiveRowsIff(scope: Scope, scan: Scan, reviews: Reviews)
    requires Distinct(scope)
    ensures Retired(scope, SourceVerdict(scope, scan, reviews), scan).Ok?
            <==> && reviews.bound && reviews.candidate && Usable(scan) && Secretless(scan)
                 && Keys(Blocking(scan)) == Legacy(scope)
  {
    if Usable(scan) && Secretless(scan) {
      var previous := SourceVerdict(scope, scan, reviews);
      var total := Keys(Blocking(scan));
      SourceStagesIff(scope, scan, reviews);
      KeysCount(Blocking(scan));
      assert Legacy(scope) + multiset{} == Legacy(scope) && multiset{scope.jose} + multiset{} == multiset{scope.jose};
      if previous.error.None? {
        RetiredWhenReady(scope, previous, scan);
        RestIs(scope, total, Keys(previous.unresolved), multiset{});
      } else {
        RoutesNeedTheSource(scope, scan, reviews);
      }
      if total == Legacy(scope) {
        LegacyOnceEach(scope, total, multiset{});
      }
    }
  }

  lemma HtmlWhenReady(scope: Scope, previous: Verdict, scan: Scan, reviews: Reviews)
    requires Distinct(scope) && Ready(previous) && Usable(scan) && Secretless(scan)
    requires Keys(Blocking(scan)) == Legacy(scope) + multiset(reviews.html) && |reviews.html| == 9
             && |Legacy(scope)| == 5
    requires Observed(scan, scope.htmlId) == multiset(reviews.html)
    requires Keys(previous.unresolved) == multiset{scope.jose} + multiset(reviews.html)
    ensures HtmlRetired(scope, previous, scan, reviews).Ok?
            <==> Observed(scan, scope.companionId) == reviews.companions
                 && (forall k :: k in reviews.html ==> k.target in reviews.htmlSources)
  {
    HtmlRemaining(scope, previous.unresolved, scan, reviews);
  }

  lemma HtmlRemaining(scope: Scope, remaining: seq<Finding>, scan: Scan, reviews: Reviews)
    requires Distinct(scope) && Usable(scan) && |reviews.html| == 9
    requires Observed(scan, scope.htmlId) == multiset(reviews.html)
    requires Keys(remaining) == multiset{scope.jose} + multiset(reviews.html)
    ensures |remaining| == 10
    ensures AllFrom(remaining, scope.htmlId, reviews.htmlSources)
            <==> forall k :: k in reviews.html ==> k.target in reviews.htmlSources
  {
    KeysCount(remaining);
    HtmlIds(scope, scan, reviews);
    SourcesCovered(scope, remaining, reviews);
  }

  lemma HtmlIds(scope: Scope, scan: Scan, reviews: Reviews)
    requires Distinct(scope) && Usable(scan) && Observed(scan, scope.htmlId) == multiset(reviews.html)
    ensures forall k :: k in multiset(reviews.html) ==> k.id == scope.htmlId && k !in scope.bound + scope.candidate
    ensures forall k :: k in reviews.html ==> k.id == scope.htmlId
  {
    forall k | k in multiset(reviews.html) ensures k.id == scope.htmlId && k !in scope.bound + scope.candidate {
      ObservedIds(scan, scope.htmlId, k);
    }
    forall k | k in reviews.html ensures k.id == scope.htmlId {
      assert k in multiset(reviews.html);
    }
  }

  /** What the fourteen-row route demands of the scan and its review. */
  ghost predicate FourteenRows(scope: Scope, scan: Scan, reviews: Reviews) {
    && reviews.bound && reviews.candidate && Usable(scan) && Secretless(scan) && |reviews.html| == 9
    && Keys(Blocking(scan)) == Legacy(scope) + multiset(reviews.html)
    && Observed(scan, scope.htmlId) == multiset(reviews.html)
    && Observed(scan, scope.companionId) == reviews.companions
    && (forall k :: k in reviews.html ==> k.target in reviews.htmlSources)
  }

  lemma FourteenRowsSuffice(scope: Scope, scan: Scan, reviews: Reviews)
    requires Distinct(scope) && FourteenRows(scope, scan, reviews)
    ensures HtmlRetired(scope, SourceVerdict(scope, scan, reviews), scan, reviews).Ok?
  {
    HtmlIds(scope, scan, reviews);
    SourceLeaves(scope, scan, reviews, multiset(reviews.html));
    LegacyOnceEach(scope, Keys(Blocking(scan)), multiset(reviews.html));
    HtmlWhenReady(scope, SourceVerdict(scope, scan, reviews), scan, reviews);
  }

  lemma FourteenRowsNecessary(scope: Scope, scan: Scan, reviews: Reviews)
    requires Distinct(scope) && HtmlRetired(scope, SourceVerdict(scope, scan, reviews), scan, reviews).Ok?
    ensures FourteenRows(scope, scan, reviews)
  {
    if SourceVerdict(scope, scan, reviews).error.Some? {
      RoutesNeedTheSource(scope, scan, reviews);
    } else {
      SourceStagesIff(scope, scan, reviews);
      HtmlIds(scope, scan, reviews);
      SourcesCovered(scope, SourceVerdict(scope, scan, reviews).unresolved, reviews);
    }
  }

  /** The fourteen-row route passes exactly when the blocking tuples are the legacy five and the nine reviewed ones. */
  lemma FourteenRowsIff(scope: Scope, scan: Scan, reviews: Reviews)
    requires Distinct(scope)
    ensures HtmlRetired(scope, SourceVerdict(scope, scan, reviews), scan, reviews).Ok?
            <==> FourteenRows(scope, scan, reviews)
  {
    if FourteenRows(scope, scan, reviews) {
      FourteenRowsSuffice(scope, scan, reviews);
    }
    if HtmlRetired(scope, SourceVerdict(scope, scan, reviews), scan, reviews).Ok? {
      FourteenRowsNecessary(scope, scan, reviews);
    }
  }

  lemma SourcesCovered(scope: Scope, remaining: seq<Finding>, reviews: Reviews)
    requires Distinct(scope) && Keys(remaining) == multiset{scope.jose} + multiset(reviews.html)
    requires forall k :: k in reviews.html ==> k.id == scope.htmlId
    ensures AllFrom(remaining, scope.htmlId, reviews.htmlSources)
            <==> forall k :: k in reviews.html ==> k.target in reviews.htmlSources
  {
    KeysCount(remaining);
    if AllFrom(remaining, scope.htmlId, reviews.htmlSources) {
      forall k | k in reviews.html ensures k.target in reviews.htmlSources {
        assert k in multiset(reviews.html) && k in Keys(remaining);
        var f :| f in remaining && KeyOf(f) == k;
      }
    }
    if forall k :: k in reviews.html ==> k.target in reviews.htmlSources {
      forall f | f in remaining && f.id == scope.htmlId ensures f.target in reviews.htmlSources {
        assert KeyOf(f) in Keys(remaining) && KeyOf(f) in multiset(reviews.html);
      }
    }
  }

  /** Whatever the reviews say, no scan passes two routes: they need 5, 14 and 18 blocking rows. */
  lemma RoutesAreDisjoint(scope: Scope, scan: Scan, a: Verdict, b: Verdict, c: Verdict, reviews: Reviews)
    ensures Retired(scope, a, scan).Ok? ==> Usable(scan) && |Blocking(scan)| == 5
    ensures HtmlRetired(scope, b, scan, reviews).Ok? ==> Usable(scan) && |Blocking(scan)| == 14
    ensures Candidate4(scope, c, scan, reviews).Ok? ==> Usable(scan) && |Blocking(scan)| == 18
  {
    if HtmlRetired(scope, b, scan, reviews).Ok? {
      KeysCount(Blocking(scan));
    }
  }

  /** Corollary of the row counts: the "unexpectedly passed" failure of the eighteen-row route cannot happen. */
  lemma NeverUnexpectedlyPasses(scope: Scope, prior: Verdict, scan: Scan, reviews: Reviews)
    ensures Candidate4(scope, prior, scan, reviews) != Err(UnexpectedlyPassed)
  {
  }

  lemma NewRowTargets(scope: Scope, scan: Scan, k: Key)
    requires Usable(scan) && k in Keys(Filter(Raw(scan), NewRows(scope)))
    ensures k.target in scope.newTargets && k.id in scope.newIds
  {
    KeysCount(Filter(Raw(scan), NewRows(scope)));
    FilterKeeps(Raw(scan), NewRows(scope));
  }

  /** Every remaining row gets a reason exactly when each reviewed row has the fact its branch looks up. */
  ghost predicate FactsCover(scope: Scope, reviews: Reviews) {
    forall k :: k in reviews.html || k in reviews.extra ==>
      || k.id == scope.jose.id
      || (k.id == scope.htmlId && k.target in reviews.htmlSources)
      || (k.id != scope.htmlId && k.target in scope.newTargets)
  }

  lemma {:induction false} AssignmentsIff(scope: Scope, reviews: Reviews, remaining: seq<Finding>)
    ensures Assignments(scope, reviews, remaining).Some?
            <==> forall f :: f in remaining ==> ReasonFor(scope, reviews, f).Some?
  {
    if |remaining| > 0 {
      AssignmentsIff(scope, reviews, remaining[..|remaining| - 1]);
      assert remaining == remaining[..|remaining| - 1] + [remaining[|remaining| - 1]];
    }
  }

  lemma FactsCoverIff(scope: Scope, reviews: Reviews, remaining: seq<Finding>)
    requires Keys(remaining) == multiset{scope.jose} + multiset(reviews.html) + multiset(reviews.extra)
    ensures (forall f :: f in remaining ==> ReasonFor(scope, reviews, f).Some?) <==> FactsCover(scope, reviews)
  {
    KeysCount(remaining);
    if forall f :: f in remaining ==> ReasonFor(scope, reviews, f).Some? {
      forall k | k in reviews.html || k in reviews.extra
        ensures k.id == scope.jose.id || (k.id == scope.htmlId && k.target in reviews.htmlSources)
                || (k.id != scope.htmlId && k.target in scope.newTargets)
      {
        assert k in multiset(reviews.html) || k in multiset(reviews.extra);
        assert k in Keys(remaining);
        var f :| f in remaining && KeyOf(f) == k;
      }
    }
    if FactsCover(scope, reviews) {
      forall f | f in remaining ensures ReasonFor(scope, reviews, f).Some? {
        assert KeyOf(f) in Keys(remaining);
        assert KeyOf(f) == scope.jose || KeyOf(f) in multiset(reviews.html) || KeyOf(f) in multiset(reviews.extra);
      }
    }
  }

  /** What the eighteen-row route demands of the scan and its reviews. */
  ghost predicate EighteenRows(scope: Scope, scan: Scan, reviews: Reviews) {
    && reviews.bound && reviews.candidate && Usable(scan) && Secretless(scan) && |Blocking(scan)| == 18
    && Keys(Blocking(scan)) == Legacy(scope) + multiset(reviews.html) + multiset(reviews.extra)
    && Keys(Filter(Raw(scan), NewRows(scope))) == multiset(reviews.extra)
    && Observed(scan, scope.companionId) == reviews.companions
    && Keys(Filter(Raw(scan), UnknownRowsOf(scope))) == reviews.unknown
    && reviews.targets && FactsCover(scope, reviews)
  }

  lemma AddedRowsAreNew(scope: Scope, scan: Scan, reviews: Reviews)
    requires Distinct(scope) && Usable(scan) && Keys(Filter(Raw(scan), NewRows(scope))) == multiset(reviews.extra)
    requires forall k :: k in reviews.html ==> k.id == scope.htmlId
    ensures forall k :: k in multiset(reviews.html) + multiset(reviews.extra) ==> k !in scope.bound + scope.candidate
  {
    forall k | k in multiset(reviews.html) + multiset(reviews.extra) ensures k !in scope.bound + scope.candidate {
      if k in multiset(reviews.extra) {
        NewRowTargets(scope, scan, k);
      } else {
        assert k in reviews.html;
      }
    }
  }

  /** When the blocking rows are the legacy ones and `more`, the first two stages leave the jose row and `more`. */
  lemma SourceLeaves(scope: Scope, scan: Scan, reviews: Reviews, more: multiset<Key>)
    requires Distinct(scope) && Usable(scan) && Secretless(scan) && reviews.bound && reviews.candidate
    requires Keys(Blocking(scan)) == Legacy(scope) + more
             && forall k :: k in more ==> k !in scope.bound + scope.candidate
    ensures var previous := SourceVerdict(scope, scan, reviews);
            && Ready(previous) && Keys(previous.unresolved) == multiset{scope.jose} + more
            && |previous.unresolved| + 4 == |Blocking(scan)|
  {
    var previous := SourceVerdict(scope, scan, reviews);
    LegacyOnceEach(scope, Keys(Blocking(scan)), more);
    SourceStagesIff(scope, scan, reviews);
    RestIs(scope, Keys(Blocking(scan)), Keys(previous.unresolved), more);
    FourLess(scope, Blocking(scan), previous.unresolved, more);
  }

  lemma EighteenRest(scope: Scope, scan: Scan, reviews: Reviews)
    requires Distinct(scope) && EighteenRows(scope, scan, reviews)
    requires forall k :: k in reviews.html ==> k.id == scope.htmlId
    ensures var previous := SourceVerdict(scope, scan, reviews);
            && Ready(previous)
            && Keys(previous.unresolved) == multiset{scope.jose} + multiset(reviews.html) + multiset(reviews.extra)
            && |previous.unresolved| == 14
  {
    var html, extra := multiset(reviews.html), multiset(reviews.extra);
    AddedRowsAreNew(scope, scan, reviews);
    assert Legacy(scope) + html + extra == Legacy(scope) + (html + extra);
    SourceLeaves(scope, scan, reviews, html + extra);
    assert multiset{scope.jose} + (html + extra) == multiset{scope.jose} + html + extra;
  }

  lemma FourLess(scope: Scope, blocking: seq<Finding>, rest: seq<Finding>, more: multiset<Key>)
    requires Keys(blocking) == Legacy(scope) + more && Keys(rest) == multiset{scope.jose} + more && |Legacy(scope)| == 5
    ensures |rest| + 4 == |blocking|
  {
    KeysCount(blocking);
    KeysCount(rest);
  }

  lemma Candidate4WhenReady(scope: Scope, previous: Verdict, scan: Scan, reviews: Reviews)
    requires EighteenRows(scope, scan, reviews) && Ready(previous) && |previous.unresolved| == 14
    requires Keys(previous.unresolved) == multiset{scope.jose} + multiset(reviews.html) + multiset(reviews.extra)
    ensures Candidate4(scope, previous, scan, reviews).Ok?
  {
    FactsCoverIff(scope, reviews, previous.unresolved);
    AssignmentsIff(scope, reviews, previous.unresolved);
  }

  lemma Candidate4Demands(scope: Scope, previous: Verdict, scan: Scan, reviews: Reviews)
    requires Candidate4(scope, previous, scan, reviews).Ok? && reviews.bound && reviews.candidate
    ensures EighteenRows(scope, scan, reviews)
  {
    FactsCoverIff(scope, reviews, previous.unresolved);
    AssignmentsIff(scope, reviews, previous.unresolved);
  }

  /** The eighteen-row route passes exactly when the blocking tuples are legacy, the nine and the four reviewed ones. */
  lemma EighteenRowsIff(scope: Scope, scan: Scan, reviews: Reviews)
    requires Distinct(scope) && forall k :: k in reviews.html ==> k.id == scope.htmlId
    ensures Candidate4(scope, SourceVerdict(scope, scan, reviews), scan, reviews).Ok?
            <==> EighteenRows(scope, scan, reviews)
  {
    if EighteenRows(scope, scan, reviews) {
      EighteenRest(scope, scan, reviews);
      Candidate4WhenReady(scope, SourceVerdict(scope, scan, reviews), scan, reviews);
    }
    if Candidate4(scope, SourceVerdict(scope, scan, reviews), scan, reviews).Ok? {
      if SourceVerdict(scope, scan, reviews).error.Some? {
        RoutesNeedTheSource(scope, scan, reviews);
      } else {
        SourceVerdictIs(scope, scan, reviews);
        Candidate4Demands(scope, SourceVerdict(scope, scan, reviews), scan, reviews);
      }
    }
  }

  lemma EighteenIsNotFourteen(scope: Scope, scan: Scan, reviews: Reviews, previous: Verdict)
    requires Distinct(scope) && EighteenRows(scope, scan, reviews) && Ready(previous)
    ensures HtmlRetired(scope, previous, scan, reviews) == Err(NotFourteen) && Retired(scope, previous, scan).Err?
  {
    KeysCount(Blocking(scan));
  }

  /**
   The gate decides by the raw rows: it passes exactly the scans that one of the three routes describes, with the
   second and third routes only under the maintenance profile and their own reviews.
   */
  lemma GatePassesIff(scope: Scope, scan: Scan, reviews: Reviews, maintenance: bool)
    requires Distinct(scope) && forall k :: k in reviews.html ==> k.id == scope.htmlId
    ensures Gate(scope, scan, reviews, maintenance).passed
            <==> reviews.selection
                 && (|| (reviews.bound && reviews.candidate && Usable(scan) && Secretless(scan)
                         && Keys(Blocking(scan)) == Legacy(scope))
                     || (maintenance && reviews.htmlReview && FourteenRows(scope, scan, reviews))
                     || (maintenance && reviews.htmlReview && reviews.extraReview
                         && EighteenRows(scope, scan, reviews)))
  {
    FiveRowsIff(scope, scan, reviews);
    FourteenRowsIff(scope, scan, reviews);
    EighteenRowsIff(scope, scan, reviews);
    if EighteenRows(scope, scan, reviews) {
      EighteenRest(scope, scan, reviews);
      EighteenIsNotFourteen(scope, scan, reviews, SourceVerdict(scope, scan, reviews));
    }
    GatePasses(scope, scan, reviews, maintenance);
  }

  lemma GatePasses(scope: Scope, scan: Scan, reviews: Reviews, maintenance: bool)
    ensures var previous := SourceVerdict(scope, scan, reviews);
            Gate(scope, scan, reviews, maintenance).passed
            <==> reviews.selection
                 && (|| Retired(scope, previous, scan).Ok?
                     || (maintenance && reviews.htmlReview && HtmlRetired(scope, previous, scan, reviews).Ok?)
                     || (maintenance && reviews.htmlReview && reviews.extraReview
                         && HtmlRetired(scope, previous, scan, reviews) == Err(NotFourteen)
                         && Candidate4(scope, previous, scan, reviews).Ok?))
  {
    var previous := SourceVerdict(scope, scan, reviews);
    RetiredPasses(scope, previous, scan);
    HtmlPasses(scope, previous, scan, reviews);
    Candidate4Passes(scope, previous, scan, reviews);
    CombinedPasses(Retired(scope, previous, scan), HtmlRetired(scope, previous, scan, reviews),
                   Candidate4(scope, previous, scan, reviews), reviews, maintenance);
  }

  lemma RetiredPasses(scope: Scope, previous: Verdict, scan: Scan)
    ensures Retired(scope, previous, scan).Ok? ==> Retired(scope, previous, scan).value.passed
  {
  }

  lemma HtmlPasses(scope: Scope, previous: Verdict, scan: Scan, reviews: Reviews)
    ensures HtmlRetired(scope, previous, scan, reviews).Ok? ==> HtmlRetired(scope, previous, scan, reviews).value.passed
  {
  }

  lemma Candidate4Passes(scope: Scope, previous: Verdict, scan: Scan, reviews: Reviews)
    ensures Candidate4(scope, previous, scan, reviews).Ok? ==> Candidate4(scope, previous, scan, reviews).value.passed
  {
  }

  lemma CombinedPasses(five: Route, fourteen: Route, eighteen: Route, reviews: Reviews, maintenance: bool)
    requires (five.Ok? ==> five.value.passed) && (fourteen.Ok? ==> fourteen.value.passed)
             && (eighteen.Ok? ==> eighteen.value.passed)
    ensures Combined(five, fourteen, eighteen, reviews, maintenance).passed
            <==> reviews.selection
                 && (|| five.Ok? || (maintenance && reviews.htmlReview && fourteen.Ok?)
                     || (maintenance && reviews.htmlReview && reviews.extraReview
                         && fourteen == Err(NotFourteen) && eighteen.Ok?))
  {
  }

  /******* The tuples of the repository *******/

  const TEMPO := "github.com/grafana/tempo"
  const TEMPO_VERSION := "v1.5.1-0.20260427112133-525d1bab07e0"
  const OLD_SOURCE := "deployment/vendors/grafana/main/go.mod"
  const SOURCE := "deployment/vendors/grafana-security/main/go.mod"
  const NEW_MAIN := "deployment/vendors/grafana-20261107/main/go.mod"
  const NEW_PLUGINS := "deployment/vendors/grafana-20261107/plugins/"
  const NEW_TEMPO := "deployment/vendors/grafana-20261107/plugins/tempo/go.mod"
  const FRONTEND := "CVE-2026-21728"
  const BACKEND := "CVE-2026-28377"

  function TempoRows(source: string): set<Key> {
    {TempoKey(FRONTEND, source), TempoKey(BACKEND, source)}
  }

  const SCOPE := Scope(TempoRows(OLD_SOURCE), TempoRows(SOURCE),
                       Key("CVE-2026-116587", OLD_SOURCE, Some("github.com/go-jose/go-jose/v4"), Some("v4.1.4"), High),
                       "CVE-2026-78661", "CVE-2026-97045", {NEW_MAIN, NEW_TEMPO}, {FRONTEND, BACKEND}, "GO-2026-5932",
                       {NEW_MAIN, NEW_PLUGINS + "elasticsearch/go.mod", NEW_PLUGINS + "loki/go.mod",
                        NEW_PLUGINS + "mssql/go.mod", NEW_PLUGINS + "stackdriver/go.mod"})

  /** The constants of the code are pairwise distinct as every result above requires. */
  lemma RepositoryScopeIsDistinct()
    ensures Distinct(SCOPE)
  {
    assert FRONTEND[10] != BACKEND[10] && FRONTEND[9] != "CVE-2026-78661"[9] && BACKEND[9] != "CVE-2026-78661"[9];
    assert |"CVE-2026-116587"| == 15 && |FRONTEND| == |BACKEND| == |"CVE-2026-78661"| == 14;
    assert |OLD_SOURCE| == 38 && |SOURCE| == |NEW_MAIN| == 47 && |NEW_TEMPO| == 56;
    assert SOURCE[27] != NEW_MAIN[27];
    var x, y := Key(FRONTEND, OLD_SOURCE, Some(TEMPO), Some(TEMPO_VERSION), High),
        Key(BACKEND, OLD_SOURCE, Some(TEMPO), Some(TEMPO_VERSION), High);
    assert SCOPE.bound == {x, y} && x != y;
    var z, w := Key(FRONTEND, SOURCE, Some(TEMPO), Some(TEMPO_VERSION), High),
        Key(BACKEND, SOURCE, Some(TEMPO), Some(TEMPO_VERSION), High);
    assert SCOPE.candidate == {z, w} && z != w;
  }

  function Reported(k: Key): RawVulnerability
    requires k.package.Some? && k.version.Some?
  {
    RawVulnerability(k.id, k.package.value, k.version.value, Some(k.severity))
  }

  function TempoKey(id: string, source: string): Key {
    Key(id, source, Some(TEMPO), Some(TEMPO_VERSION), High)
  }

  function TempoResult(source: string, before: seq<RawVulnerability>): ScanResult {
    ScanResult(source, true, before + [Reported(TempoKey(FRONTEND, source)), Reported(TempoKey(BACKEND, source))], [])
  }

  /** A scan that reports just the five legacy rows. */
  function LegacyScan(): Scan {
    [TempoResult(OLD_SOURCE, [Reported(SCOPE.jose)]), TempoResult(SOURCE, [])]
  }

  function LegacyFindings(): seq<Finding> {
    [Vulnerability(SCOPE.jose), Vulnerability(TempoKey(FRONTEND, OLD_SOURCE)),
        Vulnerability(TempoKey(BACKEND, OLD_SOURCE)),
     Vulnerability(TempoKey(FRONTEND, SOURCE)), Vulnerability(TempoKey(BACKEND, SOURCE))]
  }

  lemma LegacyScanIsUsable()
    ensures Usable(LegacyScan()) && Secretless(LegacyScan())
  {
  }

  lemma LegacyScanReports()
    ensures Usable(LegacyScan()) && Blocking(LegacyScan()) == LegacyFindings()
  {
    LegacyScanIsUsable();
    var a, b := LegacyScan()[0], LegacyScan()[1];
    assert LegacyScan()[..1] == [a] && [a][..0] == [];
    assert Raw([a]) == OfResult(a);
    assert Raw(LegacyScan()) == OfResult(a) + OfResult(b);
    assert OfResult(a) == LegacyFindings()[..3] && OfResult(b) == LegacyFindings()[3..];
    assert Raw(LegacyScan()) == LegacyFindings();
    FilterAll(LegacyFindings(), Blocks);
  }

  lemma LegacyFindingsAre()
    ensures Keys(LegacyFindings()) == Legacy(SCOPE)
  {
    var fs := LegacyFindings();
    var a, b := [fs[0], fs[1], fs[2]], [fs[0], fs[1], fs[2], fs[3]];
    KeysOfThree(fs[0], fs[1], fs[2]);
    assert b == a + [fs[3]] && fs == b + [fs[4]];
    KeysAppend(a, fs[3]);
    KeysAppend(b, fs[4]);
    TempoPair(OLD_SOURCE);
    TempoPair(SOURCE);
  }

  lemma KeysOfThree(a: Finding, b: Finding, c: Finding)
    ensures Keys([a, b, c]) == multiset{KeyOf(a)} + multiset{KeyOf(b), KeyOf(c)}
  {
    assert [] + [a] == [a] && [a] + [b] == [a, b] && [a, b] + [c] == [a, b, c];
    KeysAppend([], a);
    KeysAppend([a], b);
    KeysAppend([a, b], c);
  }

  lemma TempoPair(source: string)
    ensures multiset(TempoRows(source)) == multiset{TempoKey(FRONTEND, source), TempoKey(BACKEND, source)}
  {
    assert FRONTEND[10] != BACKEND[10];
  }

  /** A scan that passes: the legacy five, under any reviews that bind the two builds and the selection. */
  lemma LegacyScanPasses(reviews: Reviews, maintenance: bool)
    requires reviews.bound && reviews.candidate && reviews.selection
    ensures Gate(SCOPE, LegacyScan(), reviews, maintenance).passed
  {
    RepositoryScopeIsDistinct();
    LegacyScanIsUsable();
    LegacyScanReports();
    LegacyFindingsAre();
    FiveRowsIff(SCOPE, LegacyScan(), reviews);
    GatePasses(SCOPE, LegacyScan(), reviews, maintenance);
  }
}
