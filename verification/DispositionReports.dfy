/**
 The gate against the raw scan: which reports a passing verdict disposes of, which scans pass in terms of reported
 vulnerabilities and their severities, and which disposition each row gets.
 */
module DispositionReports {
  import opened Outcomes
  import opened Findings
  import opened Dispositions
  import opened DispositionRoutes

  /******* The raw scan *******/

  function Matching(target: string, vulnerabilities: seq<RawVulnerability>, k: Key): nat {
    if |vulnerabilities| == 0 then 0
    else
      var v := vulnerabilities[|vulnerabilities| - 1];
      Matching(target, vulnerabilities[..|vulnerabilities| - 1], k)
      + if v.id == k.id && target == k.target && Some(v.package) == k.package && Some(v.version) == k.version
           && v.severity == Some(k.severity) then 1 else 0
  }

  /** How often the scan reports a vulnerability with this tuple. */
  function Reports(scan: Scan, k: Key): nat {
    if |scan| == 0 then 0
    else Reports(scan[..|scan| - 1], k) + Matching(scan[|scan| - 1].target, scan[|scan| - 1].vulnerabilities, k)
  }

  /** How many findings pass a test and have this tuple. */
  function Kept(fs: seq<Finding>, keep: Finding -> bool, k: Key): nat {
    if |fs| == 0 then 0
    else Kept(fs[..|fs| - 1], keep, k) + if keep(fs[|fs| - 1]) && KeyOf(fs[|fs| - 1]) == k then 1 else 0
  }

  lemma {:induction false} KeptIsCounted(fs: seq<Finding>, keep: Finding -> bool, k: Key)
    ensures Keys(Filter(fs, keep))[k] == Kept(fs, keep, k)
  {
    if |fs| > 0 {
      KeptIsCounted(fs[..|fs| - 1], keep, k);
      if keep(fs[|fs| - 1]) {
        KeysAppend(Filter(fs[..|fs| - 1], keep), fs[|fs| - 1]);
      }
    }
  }

  lemma {:induction false} KeptConcat(a: seq<Finding>, b: seq<Finding>, keep: Finding -> bool, k: Key)
    ensures Kept(a + b, keep, k) == Kept(a, keep, k) + Kept(b, keep, k)
  {
    if |b| == 0 {
      assert a + b == a;
    } else {
      KeptConcat(a, b[..|b| - 1], keep, k);
      assert (a + b)[..|a + b| - 1] == a + b[..|b| - 1];
    }
  }

  function Listed(target: string, vulnerabilities: seq<RawVulnerability>): seq<Finding>
    requires forall v :: v in vulnerabilities ==> UsableVulnerability(v)
  {
    seq(|vulnerabilities|, i requires 0 <= i < |vulnerabilities| => OfVulnerability(target, vulnerabilities[i]))
  }

  lemma OneMatches(target: string, v: RawVulnerability, keep: Finding -> bool, k: Key)
    requires UsableVulnerability(v)
    ensures keep(OfVulnerability(target, v)) && KeyOf(OfVulnerability(target, v)) == k
            <==> && keep(Vulnerability(k)) && v.id == k.id && target == k.target && Some(v.package) == k.package
                 && Some(v.version) == k.version && v.severity == Some(k.severity)
  {
    if KeyOf(OfVulnerability(target, v)) == k {
      assert OfVulnerability(target, v) == Vulnerability(k);
    }
  }

  lemma {:induction false} MatchingIs(target: string, vulnerabilities: seq<RawVulnerability>, keep: Finding -> bool,
                                      k: Key)
    requires forall v :: v in vulnerabilities ==> UsableVulnerability(v)
    ensures Kept(Listed(target, vulnerabilities), keep, k)
         == if keep(Vulnerability(k)) then Matching(target, vulnerabilities, k) else 0
  {
    if |vulnerabilities| > 0 {
      var front, last := vulnerabilities[..|vulnerabilities| - 1], vulnerabilities[|vulnerabilities| - 1];
      assert last in vulnerabilities;
      MatchingIs(target, front, keep, k);
      assert Listed(target, vulnerabilities)[..|front|] == Listed(target, front);
      OneMatches(target, last, keep, k);
    }
  }

  lemma {:induction false} ReportsAre(scan: Scan, keep: Finding -> bool, k: Key)
    requires Secretless(scan) && forall result :: result in scan ==> UsableResult(result)
    ensures Kept(Raw(scan), keep, k) == if keep(Vulnerability(k)) then Reports(scan, k) else 0
    ensures Keys(Filter(Raw(scan), keep))[k] == if keep(Vulnerability(k)) then Reports(scan, k) else 0
  {
    if |scan| > 0 {
      var front, last := scan[..|scan| - 1], scan[|scan| - 1];
      assert last in scan && forall result :: result in front ==> result in scan;
      ReportsAre(front, keep, k);
      MatchingIs(last.target, last.vulnerabilities, keep, k);
      assert OfResult(last) == Listed(last.target, last.vulnerabilities);
      KeptConcat(Raw(front), OfResult(last), keep, k);
    }
    KeptIsCounted(Raw(scan), keep, k);
  }

  /** A scan is usable when it has results, and each of them and all its rows are identified and rated. */
  lemma UsableMeans(scan: Scan)
    ensures Usable(scan)
            <==> && scan != []
                 && forall result :: result in scan ==>
                      && result.target != "" && result.sound
                      && (forall v :: v in result.vulnerabilities ==>
                            v.id != "" && v.package != "" && v.version != "" && v.severity.Some?)
                      && (forall s :: s in result.secrets ==> s.rule != "" && s.severity.Some?)
  {
  }

  /**
   The blocking tuples of a scan without secrets are its High and Critical reports, each as often as it is reported.
   */
  lemma BlockingMeans(scan: Scan, k: Key)
    requires Usable(scan) && Secretless(scan)
    ensures Keys(Blocking(scan))[k] == if k.severity.High? || k.severity.Critical? then Reports(scan, k) else 0
  {
    ReportsAre(scan, Blocks, k);
  }

  /** The rows of a verdict's dispositions with one tuple. */
  function DisposedAs(disposed: seq<Disposed>, k: Key): set<nat> {
    set i | 0 <= i < |disposed|
        && disposed[i].finding == Finding(false, k.id, k.target, k.package, k.version, k.severity)
  }

  lemma {:induction false} DisposedCount(disposed: seq<Disposed>, k: Key)
    ensures |DisposedAs(disposed, k)| == multiset(Rows(disposed))[Vulnerability(k)]
  {
    if |disposed| > 0 {
      var front, last := disposed[..|disposed| - 1], disposed[|disposed| - 1];
      DisposedCount(front, k);
      assert Rows(disposed) == Rows(front) + [last.finding];
      assert DisposedAs(disposed, k)
          == DisposedAs(front, k) + if last.finding == Vulnerability(k) then {|front|} else {};
    } else {
      assert DisposedAs(disposed, k) == {};
    }
  }

  lemma {:induction false} KeysOfVulnerabilities(fs: seq<Finding>, k: Key)
    requires forall f :: f in fs ==> !f.secret
    ensures Keys(fs)[k] == multiset(fs)[Vulnerability(k)]
  {
    if |fs| > 0 {
      var front, last := fs[..|fs| - 1], fs[|fs| - 1];
      assert fs == front + [last] && last in fs;
      KeysOfVulnerabilities(front, k);
      assert last == Vulnerability(KeyOf(last));
    }
  }

  /**
   Conservation on the raw scan. When the gate passes, the scan holds no secret, and for each tuple the dispositions are
   exactly the reports of that tuple if its severity is Critical or High, and none if it is any other.
   */
  lemma PassedGateDisposesReports(scope: Scope, scan: Scan, reviews: Reviews, maintenance: bool, k: Key)
    requires Distinct(scope) && Gate(scope, scan, reviews, maintenance).passed
    ensures forall result :: result in scan ==> result.secrets == []
    ensures |DisposedAs(Gate(scope, scan, reviews, maintenance).disposed, k)|
         == if k.severity == Critical || k.severity == High then Reports(scan, k) else 0
    ensures forall d :: d in Gate(scope, scan, reviews, maintenance).disposed ==>
              !d.finding.secret && d.finding.severity in {Critical, High}
  {
    GateIsClean(scope, scan, reviews, maintenance);
    CleanDisposesReports(Gate(scope, scan, reviews, maintenance), scan, k);
  }

  lemma CleanDisposesReports(verdict: Verdict, scan: Scan, k: Key)
    requires Clean(verdict, scan)
    ensures |DisposedAs(verdict.disposed, k)|
         == if k.severity == Critical || k.severity == High then Reports(scan, k) else 0
    ensures forall d :: d in verdict.disposed ==> !d.finding.secret && d.finding.severity in {Critical, High}
  {
    DisposedAreBlocking(verdict, scan);
    DisposedCount(verdict.disposed, k);
    BlockingIsSecretless(scan);
    KeysOfVulnerabilities(Blocking(scan), k);
    BlockingMeans(scan, k);
  }

  /** The Critical and High reports of a scan, counted by tuple, are exactly these rows. */
  ghost predicate Severe(scan: Scan, rows: multiset<Key>) {
    forall k :: rows[k] == if k.severity == Critical || k.severity == High then Reports(scan, k) else 0
  }

  /** The reports with one id, whatever their severity, are exactly these rows. */
  ghost predicate ReportedWith(scan: Scan, id: string, rows: multiset<Key>) {
    forall k :: rows[k] == if k.id == id then Reports(scan, k) else 0
  }

  ghost predicate ReportedAt(scan: Scan, targets: set<string>, ids: set<string>, rows: multiset<Key>) {
    forall k :: rows[k] == if k.target in targets && k.id in ids then Reports(scan, k) else 0
  }

  lemma SevereIs(scan: Scan, rows: multiset<Key>)
    requires Usable(scan) && Secretless(scan)
    ensures Keys(Blocking(scan)) == rows <==> Severe(scan, rows)
  {
    forall k { BlockingMeans(scan, k); }
  }

  lemma ReportedWithIs(scan: Scan, id: string, rows: multiset<Key>)
    requires Usable(scan) && Secretless(scan)
    ensures Observed(scan, id) == rows <==> ReportedWith(scan, id, rows)
  {
    forall k { ReportsAre(scan, HasId(id), k); }
  }

  lemma AtIs(counted: multiset<Key>, scan: Scan, targets: set<string>, ids: set<string>, rows: multiset<Key>)
    requires forall k :: counted[k] == if k.target in targets && k.id in ids then Reports(scan, k) else 0
    ensures counted == rows <==> ReportedAt(scan, targets, ids, rows)
  {
  }

  lemma NewRowsAre(scope: Scope, scan: Scan, rows: multiset<Key>)
    requires Usable(scan) && Secretless(scan)
    ensures Keys(Filter(Raw(scan), NewRows(scope))) == rows <==> ReportedAt(scan, scope.newTargets, scope.newIds, rows)
  {
    var counted := Keys(Filter(Raw(scan), NewRows(scope)));
    forall k
      ensures counted[k] == if k.target in scope.newTargets && k.id in scope.newIds then Reports(scan, k) else 0
    {
      ReportsAre(scan, NewRows(scope), k);
    }
    AtIs(counted, scan, scope.newTargets, scope.newIds, rows);
  }

  lemma UnknownRowsAre(scope: Scope, scan: Scan, rows: multiset<Key>)
    requires Usable(scan) && Secretless(scan)
    ensures Keys(Filter(Raw(scan), UnknownRowsOf(scope))) == rows
            <==> ReportedAt(scan, scope.unknownTargets, {scope.unknownId}, rows)
  {
    var counted := Keys(Filter(Raw(scan), UnknownRowsOf(scope)));
    forall k
      ensures counted[k] == if k.target in scope.unknownTargets && k.id in {scope.unknownId} then Reports(scan, k)
              else 0
    {
      ReportsAre(scan, UnknownRowsOf(scope), k);
    }
    AtIs(counted, scan, scope.unknownTargets, {scope.unknownId}, rows);
  }

  lemma EmptyByCount(fs: seq<Finding>)
    ensures fs == [] <==> forall k :: Keys(fs)[k] == 0
  {
    KeysCount(fs);
    if fs != [] {
      assert KeyOf(fs[0]) in Keys(fs);
    }
  }

  /**
   The first stage alone passes exactly when the severe reports are its two rows, and the second when they are the
   four.
   */
  lemma SourcePassesIff(scope: Scope, scan: Scan, reviews: Reviews)
    requires Distinct(scope) && Usable(scan) && Secretless(scan)
    ensures FsVerdict(scope, scan, reviews.bound).passed <==> reviews.bound && Severe(scan, multiset(scope.bound))
    ensures SourceVerdict(scope, scan, reviews).passed
            <==> && reviews.bound && reviews.candidate
                 && Severe(scan, multiset(scope.bound) + multiset(scope.candidate))
  {
    FirstPassesIff(scope, scan, reviews.bound);
    SourceStagesIff(scope, scan, reviews);
    SourceVerdictIs(scope, scan, reviews);
    var total, previous := Keys(Blocking(scan)), SourceVerdict(scope, scan, reviews);
    SevereIs(scan, multiset(scope.bound) + multiset(scope.candidate));
    if previous.error.None? {
      EmptyByCount(previous.unresolved);
      FourOnly(scope, total, Keys(previous.unresolved));
    } else {
      assert previous == FAILED.(error := previous.error);
      FourAreOnce(scope, total);
    }
  }

  lemma FourAreOnce(scope: Scope, total: multiset<Key>)
    requires Distinct(scope)
    ensures total == multiset(scope.bound) + multiset(scope.candidate) ==> OnceEach(scope, total)
  {
  }

  lemma FourOnly(scope: Scope, total: multiset<Key>, rest: multiset<Key>)
    requires Distinct(scope) && OnceEach(scope, total) && RestCounts(scope, total, rest)
    ensures (forall k :: rest[k] == 0) <==> total == multiset(scope.bound) + multiset(scope.candidate)
  {
    var four := multiset(scope.bound) + multiset(scope.candidate);
    assert forall k :: four[k] == if k in scope.bound + scope.candidate then 1 else 0;
    if forall k :: rest[k] == 0 {
      forall k ensures total[k] == four[k] {
        assert rest[k] == 0;
      }
    }
  }

  lemma FirstPassesIff(scope: Scope, scan: Scan, evidence: bool)
    requires Usable(scan) && Secretless(scan)
    ensures FsVerdict(scope, scan, evidence).passed <==> evidence && Severe(scan, multiset(scope.bound))
  {
    var blocking := Blocking(scan);
    BlockingIsSecretless(scan);
    ReviewedKeys(blocking, scope.bound);
    SevereIs(scan, multiset(scope.bound));
    EmptyByCount(Filter(blocking, Not(Reviewed(scope.bound))));
    KeysSplit(blocking, Reviewed(scope.bound));
    TwoOnly(Keys(blocking), Keys(Filter(blocking, Reviewed(scope.bound))),
            Keys(Filter(blocking, Not(Reviewed(scope.bound)))), scope.bound);
  }

  lemma TwoOnly(total: multiset<Key>, kept: multiset<Key>, rest: multiset<Key>, rows: set<Key>)
    requires kept + rest == total
    requires forall k :: kept[k] == if k in rows then total[k] else 0
    requires forall k :: rest[k] == if k in rows then 0 else total[k]
    ensures kept == multiset(rows) && (forall k :: rest[k] == 0) <==> total == multiset(rows)
  {
  }

  /** The five, fourteen and eighteen rows, in terms of the raw reports. */
  ghost predicate RawFive(scope: Scope, scan: Scan) {
    Severe(scan, multiset{scope.jose} + multiset(scope.bound) + multiset(scope.candidate))
  }

  ghost predicate RawFourteen(scope: Scope, scan: Scan, reviews: Reviews) {
    && |reviews.html| == 9
    && Severe(scan, multiset{scope.jose} + multiset(scope.bound) + multiset(scope.candidate) + multiset(reviews.html))
    && ReportedWith(scan, scope.htmlId, multiset(reviews.html))
    && ReportedWith(scan, scope.companionId, reviews.companions)
    && forall k :: k in reviews.html ==> k.target in reviews.htmlSources
  }

  ghost predicate RawEighteen(scope: Scope, scan: Scan, reviews: Reviews) {
    && |multiset{scope.jose} + multiset(scope.bound) + multiset(scope.candidate)| + |reviews.html| + |reviews.extra|
         == 18
    && Severe(scan, multiset{scope.jose} + multiset(scope.bound) + multiset(scope.candidate)
                    + multiset(reviews.html) + multiset(reviews.extra))
    && ReportedAt(scan, scope.newTargets, scope.newIds, multiset(reviews.extra))
    && ReportedWith(scan, scope.companionId, reviews.companions)
    && ReportedAt(scan, scope.unknownTargets, {scope.unknownId}, reviews.unknown)
    && reviews.targets && FactsCover(scope, reviews)
  }

  lemma FourteenIsRaw(scope: Scope, scan: Scan, reviews: Reviews)
    requires Usable(scan) && Secretless(scan)
    ensures FourteenRows(scope, scan, reviews)
            <==> reviews.bound && reviews.candidate && RawFourteen(scope, scan, reviews)
  {
    SevereIs(scan, Legacy(scope) + multiset(reviews.html));
    ReportedWithIs(scan, scope.htmlId, multiset(reviews.html));
    ReportedWithIs(scan, scope.companionId, reviews.companions);
  }

  lemma EighteenIsRaw(scope: Scope, scan: Scan, reviews: Reviews)
    requires Usable(scan) && Secretless(scan)
    ensures EighteenRows(scope, scan, reviews)
            <==> reviews.bound && reviews.candidate && RawEighteen(scope, scan, reviews)
  {
    SevereIs(scan, Legacy(scope) + multiset(reviews.html) + multiset(reviews.extra));
    NewRowsAre(scope, scan, multiset(reviews.extra));
    UnknownRowsAre(scope, scan, reviews.unknown);
    ReportedWithIs(scan, scope.companionId, reviews.companions);
    KeysCount(Blocking(scan));
  }

  /**
   The gate decides by the raw reports. It passes exactly the usable scans without secrets whose Critical and High
   reports are the reviewed rows of one of the three routes, no more, no fewer, and each as often as reviewed.
   */
  lemma GatePassesIffReported(scope: Scope, scan: Scan, reviews: Reviews, maintenance: bool)
    requires Distinct(scope) && forall k :: k in reviews.html ==> k.id == scope.htmlId
    ensures Gate(scope, scan, reviews, maintenance).passed
            <==> && reviews.selection && reviews.bound && reviews.candidate && Usable(scan)
                 && (forall result :: result in scan ==> result.secrets == [])
                 && (|| RawFive(scope, scan)
                     || (maintenance && reviews.htmlReview && RawFourteen(scope, scan, reviews))
                     || (maintenance && reviews.htmlReview && reviews.extraReview && RawEighteen(scope, scan, reviews)))
  {
    GatePassesIff(scope, scan, reviews, maintenance);
    if Usable(scan) && Secretless(scan) {
      SevereIs(scan, Legacy(scope));
      FourteenIsRaw(scope, scan, reviews);
      EighteenIsRaw(scope, scan, reviews);
    }
  }

  /******* Which disposition each row gets *******/

  /** The disposition that a row's tuple calls for. */
  function Due(scope: Scope, f: Finding): Reason {
    var k := Key(f.id, f.target, f.package, f.version, f.severity);
    if k in scope.bound then BoundMain
    else if k in scope.candidate then CandidateMain
    else if f.id == scope.jose.id then NotSelected
    else if f.id == scope.htmlId then FixedModule
    else CandidateScope
  }

  ghost predicate AllDue(scope: Scope, disposed: seq<Disposed>) {
    forall d :: d in disposed ==> d.reason == Due(scope, d.finding)
  }

  lemma SourceGivesDue(scope: Scope, scan: Scan, reviews: Reviews)
    requires Distinct(scope) && Usable(scan) && SourceVerdict(scope, scan, reviews).error.None?
    ensures AllDue(scope, SourceVerdict(scope, scan, reviews).disposed)
    ensures forall f :: f in SourceVerdict(scope, scan, reviews).unresolved && !f.secret ==>
              KeyOf(f) !in scope.bound + scope.candidate
  {
    SourceVerdictIs(scope, scan, reviews);
    SelectionsAreDue(scope, Blocking(scan));
  }

  lemma SelectionsAreDue(scope: Scope, blocking: seq<Finding>)
    requires scope.bound !! scope.candidate
    ensures var first, rest := Filter(blocking, Reviewed(scope.bound)), Filter(blocking, Not(Reviewed(scope.bound)));
            var second, last := Filter(rest, Reviewed(scope.candidate)), Filter(rest, Not(Reviewed(scope.candidate)));
            && AllDue(scope, Mark(first, BoundMain) + Mark(second, CandidateMain))
            && forall f :: f in last && !f.secret ==> KeyOf(f) !in scope.bound + scope.candidate
  {
    var first, rest := Filter(blocking, Reviewed(scope.bound)), Filter(blocking, Not(Reviewed(scope.bound)));
    var second := Filter(rest, Reviewed(scope.candidate));
    FilterKeeps(blocking, Reviewed(scope.bound));
    FilterKeeps(blocking, Not(Reviewed(scope.bound)));
    FilterKeeps(rest, Reviewed(scope.candidate));
    FilterKeeps(rest, Not(Reviewed(scope.candidate)));
    MarksAreDue(scope, first, BoundMain);
    MarksAreDue(scope, second, CandidateMain);
    JoinedAreDue(scope, Mark(first, BoundMain), Mark(second, CandidateMain));
  }

  lemma JoinedAreDue(scope: Scope, a: seq<Disposed>, b: seq<Disposed>)
    requires AllDue(scope, a) && AllDue(scope, b)
    ensures AllDue(scope, a + b)
  {
  }

  lemma {:induction false} AssignmentsAreDue(scope: Scope, reviews: Reviews, remaining: seq<Finding>)
    requires Assignments(scope, reviews, remaining).Some?
    requires forall f :: f in remaining ==> KeyOf(f) !in scope.bound + scope.candidate
    ensures AllDue(scope, Assignments(scope, reviews, remaining).value)
  {
    if |remaining| > 0 {
      assert remaining[|remaining| - 1] in remaining;
      AssignmentsAreDue(scope, reviews, remaining[..|remaining| - 1]);
    }
  }

  lemma MarksAreDue(scope: Scope, fs: seq<Finding>, reason: Reason)
    requires forall f :: f in fs ==> Due(scope, f) == reason
    ensures AllDue(scope, Mark(fs, reason))
  {
  }

  lemma FiveGivesDue(scope: Scope, previous: Verdict, scan: Scan)
    requires Retired(scope, previous, scan).Ok? && Distinct(scope) && AllDue(scope, previous.disposed)
    requires forall f :: f in previous.unresolved && !f.secret ==> KeyOf(f) !in scope.bound + scope.candidate
    ensures AllDue(scope, Retired(scope, previous, scan).value.disposed)
  {
    FilterKeeps(previous.unresolved, IsVulnerability);
    KeysCount(Filter(previous.unresolved, IsVulnerability));
    MarksAreDue(scope, previous.unresolved, NotSelected);
  }

  lemma HtmlGivesDue(scope: Scope, previous: Verdict, scan: Scan, reviews: Reviews)
    requires HtmlRetired(scope, previous, scan, reviews).Ok? && Distinct(scope) && AllDue(scope, previous.disposed)
    requires forall f :: f in previous.unresolved && !f.secret ==> KeyOf(f) !in scope.bound + scope.candidate
    ensures AllDue(scope, HtmlRetired(scope, previous, scan, reviews).value.disposed)
  {
    HtmlVerdictIs(scope, previous, scan, reviews);
    FilterKeeps(previous.unresolved, HasId(scope.jose.id));
    FilterKeeps(previous.unresolved, HasId(scope.htmlId));
    MarksAreDue(scope, Filter(previous.unresolved, HasId(scope.jose.id)), NotSelected);
    MarksAreDue(scope, Filter(previous.unresolved, HasId(scope.htmlId)), FixedModule);
  }

  lemma Candidate4GivesDue(scope: Scope, prior: Verdict, scan: Scan, reviews: Reviews)
    requires Candidate4(scope, prior, scan, reviews).Ok? && AllDue(scope, prior.disposed)
    requires forall f :: f in prior.unresolved && !f.secret ==> KeyOf(f) !in scope.bound + scope.candidate
    ensures AllDue(scope, Candidate4(scope, prior, scan, reviews).value.disposed)
  {
    Candidate4VerdictIs(scope, prior, scan, reviews);
    var given := Assignments(scope, reviews, prior.unresolved).value;
    AssignmentsAreDue(scope, reviews, prior.unresolved);
    JoinedAreDue(scope, prior.disposed, given);
  }

  /** When the gate passes, every row has the disposition that its tuple calls for. */
  lemma PassedGateGivesDue(scope: Scope, scan: Scan, reviews: Reviews, maintenance: bool)
    requires Distinct(scope) && Gate(scope, scan, reviews, maintenance).passed
    ensures forall d :: d in Gate(scope, scan, reviews, maintenance).disposed ==> d.reason == Due(scope, d.finding)
  {
    var previous := SourceVerdict(scope, scan, reviews);
    GateVerdictIs(scope, scan, reviews, maintenance);
    if previous.error.Some? {
      RoutesNeedTheSource(scope, scan, reviews);
    } else {
      SourceConserves(scope, scan, reviews);
      SourceGivesDue(scope, scan, reviews);
      if Retired(scope, previous, scan).Ok? {
        FiveGivesDue(scope, previous, scan);
      }
      if HtmlRetired(scope, previous, scan, reviews).Ok? {
        HtmlGivesDue(scope, previous, scan, reviews);
      }
      if Candidate4(scope, previous, scan, reviews).Ok? {
        Candidate4GivesDue(scope, previous, scan, reviews);
      }
    }
  }
}
