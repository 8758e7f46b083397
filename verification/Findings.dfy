/**
 The disposition chain for filesystem scan findings: scripts/check_fs_source_applicability.py,
 scripts/check_grafana_candidate_source_exact2.py, scripts/check_grafana_active_source_retirement.py
 and scripts/grafana_source_candidate4.py.

 Evidence files, freshness and selector checks become booleans; a review is an arbitrary
 list of reviewed rows. A Counter of row tuples is a multiset of keys.
 */
module Findings {
  import opened Outcomes

  datatype Severity = Critical | High | Medium | Low | Unrated

  datatype Finding = Finding(secret: bool, id: string, target: string, package: Option<string>, version: Option<string>,
                             severity: Severity)

  datatype Key = Key(id: string, target: string, package: Option<string>, version: Option<string>, severity: Severity)

  function KeyOf(f: Finding): Key {
    Key(f.id, f.target, f.package, f.version, f.severity)
  }

  predicate Blocks(f: Finding) {
    f.severity.High? || f.severity.Critical?
  }

  /******* The raw scan *******/

  /** A raw value; an unknown severity or an empty identity field makes the scan unusable. */
  datatype RawVulnerability = RawVulnerability(id: string, package: string, version: string, severity: Option<Severity>)
  datatype RawSecret = RawSecret(rule: string, severity: Option<Severity>)

  /** `sound`: identity types, no suppressed findings or errors, and a valid package inventory. */
  datatype ScanResult = ScanResult(target: string, sound: bool, vulnerabilities: seq<RawVulnerability>,
                                   secrets: seq<RawSecret>)

  type Scan = seq<ScanResult>

  predicate UsableVulnerability(v: RawVulnerability) {
    v.id != "" && v.package != "" && v.version != "" && v.severity.Some?
  }

  predicate UsableSecret(s: RawSecret) {
    s.rule != "" && s.severity.Some?
  }

  predicate UsableResult(result: ScanResult) {
    && result.target != "" && result.sound
    && (forall v :: v in result.vulnerabilities ==> UsableVulnerability(v))
    && (forall s :: s in result.secrets ==> UsableSecret(s))
  }

  predicate Usable(scan: Scan) {
    scan != [] && forall result :: result in scan ==> UsableResult(result)
  }

  function OfVulnerability(target: string, v: RawVulnerability): Finding
    requires UsableVulnerability(v)
  {
    Finding(false, v.id, target, Some(v.package), Some(v.version), v.severity.value)
  }

  function OfSecret(target: string, s: RawSecret): Finding
    requires UsableSecret(s)
  {
    Finding(true, s.rule, target, None, None, s.severity.value)
  }

  function OfVulnerabilities(result: ScanResult): seq<Finding>
    requires UsableResult(result)
  {
    seq(|result.vulnerabilities|, i requires 0 <= i < |result.vulnerabilities| =>
        OfVulnerability(result.target, result.vulnerabilities[i]))
  }

  function OfSecrets(result: ScanResult): seq<Finding>
    requires UsableResult(result)
  {
    seq(|result.secrets|, i requires 0 <= i < |result.secrets| => OfSecret(result.target, result.secrets[i]))
  }

  function OfResult(result: ScanResult): seq<Finding>
    requires UsableResult(result)
  {
    OfVulnerabilities(result) + OfSecrets(result)
  }

  function Raw(scan: Scan): seq<Finding>
    requires forall result :: result in scan ==> UsableResult(result)
  {
    if |scan| == 0 then []
    else
      assert scan[|scan| - 1] in scan;
      Raw(scan[..|scan| - 1]) + OfResult(scan[|scan| - 1])
  }

  predicate Secretless(scan: Scan) {
    forall result :: result in scan ==> result.secrets == []
  }

  /** The inner loop over one result's vulnerabilities. */
  method CollectVulnerabilities(result: ScanResult, before: seq<Finding>) returns (collected: seq<Finding>)
    requires UsableResult(result)
    ensures collected == before + OfVulnerabilities(result)
  {
    collected := before;
    for i := 0 to |result.vulnerabilities|
      invariant collected == before + OfVulnerabilities(result)[..i]
    {
      collected := collected + [OfVulnerability(result.target, result.vulnerabilities[i])];
    }
  }

  /** The inner loop over one result's secrets, which also counts them. */
  method CollectSecrets(result: ScanResult, before: seq<Finding>, counted: nat)
    returns (collected: seq<Finding>, secrets: nat)
    requires UsableResult(result)
    ensures collected == before + OfSecrets(result) && secrets == counted + |result.secrets|
  {
    collected, secrets := before, counted;
    for i := 0 to |result.secrets|
      invariant collected == before + OfSecrets(result)[..i] && secrets == counted + i
    {
      collected := collected + [OfSecret(result.target, result.secrets[i])];
      secrets := secrets + 1;
    }
  }

  /** `summarize`: the findings in scan order, and whether any secret was counted at any severity. */
  method Summarize(scan: Scan) returns (findings: Option<seq<Finding>>, secrets: nat)
    ensures findings.Some? <==> Usable(scan)
    ensures findings.Some? ==> findings.value == Raw(scan) && (secrets == 0 <==> Secretless(scan))
  {
    var collected: seq<Finding> := [];
    secrets := 0;
    if scan == [] {
      return None, 0;
    }
    for n := 0 to |scan|
      invariant forall result :: result in scan[..n] ==> UsableResult(result)
      invariant collected == Raw(scan[..n])
      invariant secrets == 0 <==> Secretless(scan[..n])
    {
      var result := scan[n];
      assert scan[..n + 1] == scan[..n] + [result];
      if result.target == "" || !result.sound
         || (exists v | v in result.vulnerabilities :: !UsableVulnerability(v))
         || (exists s | s in result.secrets :: !UsableSecret(s)) {
        assert result in scan && !UsableResult(result);
        return None, 0;
      }
      collected := CollectVulnerabilities(result, collected);
      collected, secrets := CollectSecrets(result, collected, secrets);
      assert scan[..n + 1][..n] == scan[..n];
    }
    assert scan[..|scan|] == scan;
    return Some(collected), secrets;
  }

  lemma {:induction false} SecretlessRaw(scan: Scan)
    requires forall result :: result in scan ==> UsableResult(result)
    ensures Secretless(scan) <==> forall f :: f in Raw(scan) ==> !f.secret
  {
    if |scan| > 0 {
      var front, last := scan[..|scan| - 1], scan[|scan| - 1];
      SecretlessRaw(front);
      assert scan == front + [last];
      if last.secrets != [] {
        var f := OfResult(last)[|last.vulnerabilities|];
        assert f.secret && f in Raw(scan);
      }
    }
  }

  /******* Filters and counters *******/

  function Filter(fs: seq<Finding>, keep: Finding -> bool): seq<Finding> {
    if |fs| == 0 then []
    else if keep(fs[|fs| - 1]) then Filter(fs[..|fs| - 1], keep) + [fs[|fs| - 1]]
    else Filter(fs[..|fs| - 1], keep)
  }

  function Keys(fs: seq<Finding>): multiset<Key> {
    if |fs| == 0 then multiset{} else Keys(fs[..|fs| - 1]) + multiset{KeyOf(fs[|fs| - 1])}
  }

  function Not(keep: Finding -> bool): Finding -> bool {
    (f: Finding) => !keep(f)
  }

  lemma {:induction false} FilterSplits(fs: seq<Finding>, keep: Finding -> bool)
    ensures multiset(Filter(fs, keep)) + multiset(Filter(fs, Not(keep))) == multiset(fs)
    ensures |Filter(fs, keep)| + |Filter(fs, Not(keep))| == |fs|
  {
    if |fs| > 0 {
      var front, last := fs[..|fs| - 1], fs[|fs| - 1];
      FilterSplits(front, keep);
      assert multiset(fs) == multiset(front) + multiset{last} by { assert fs == front + [last]; }
      if keep(last) {
        assert !Not(keep)(last);
      } else {
        assert Not(keep)(last);
      }
    }
  }

  lemma {:induction false} KeysSplit(fs: seq<Finding>, keep: Finding -> bool)
    ensures Keys(Filter(fs, keep)) + Keys(Filter(fs, Not(keep))) == Keys(fs)
  {
    if |fs| > 0 {
      var front, last := fs[..|fs| - 1], fs[|fs| - 1];
      KeysSplit(front, keep);
      if keep(last) {
        assert !Not(keep)(last);
        KeysAppend(Filter(front, keep), last);
      } else {
        assert Not(keep)(last);
        KeysAppend(Filter(front, Not(keep)), last);
      }
    }
  }

  lemma KeysAppend(fs: seq<Finding>, f: Finding)
    ensures Keys(fs + [f]) == Keys(fs) + multiset{KeyOf(f)}
  {
    assert (fs + [f])[..|fs|] == fs;
  }

  lemma FilterNext(fs: seq<Finding>, n: nat, keep: Finding -> bool)
    requires n < |fs|
    ensures Filter(fs[..n + 1], keep) == Filter(fs[..n], keep) + if keep(fs[n]) then [fs[n]] else []
  {
    assert fs[..n + 1][..n] == fs[..n];
  }

  lemma {:induction false} FilterKeeps(fs: seq<Finding>, keep: Finding -> bool)
    ensures forall f :: f in Filter(fs, keep) <==> f in fs && keep(f)
  {
    if |fs| > 0 {
      FilterKeeps(fs[..|fs| - 1], keep);
      assert fs == fs[..|fs| - 1] + [fs[|fs| - 1]];
    }
  }

  lemma {:induction false} KeysCount(fs: seq<Finding>)
    ensures |Keys(fs)| == |fs|
    ensures forall f :: f in fs ==> KeyOf(f) in Keys(fs)
    ensures forall k :: k in Keys(fs) ==> exists f :: f in fs && KeyOf(f) == k
  {
    if |fs| > 0 {
      var front, last := fs[..|fs| - 1], fs[|fs| - 1];
      KeysCount(front);
      assert fs == front + [last];
      forall k | k in Keys(fs) ensures exists f :: f in fs && KeyOf(f) == k {
        if k in Keys(front) {
          var f :| f in front && KeyOf(f) == k;
          assert f in fs;
        } else {
          assert last in fs && KeyOf(last) == k;
        }
      }
    }
  }

  /** The vulnerability with a given tuple. */
  function Vulnerability(k: Key): Finding {
    Finding(false, k.id, k.target, k.package, k.version, k.severity)
  }

  /** A vulnerability whose tuple is among the reviewed ones. */
  function Reviewed(rows: set<Key>): Finding -> bool {
    (f: Finding) => !f.secret && KeyOf(f) in rows
  }

  lemma {:induction false} ReviewedKey(fs: seq<Finding>, rows: set<Key>, k: Key)
    requires forall f :: f in fs ==> !f.secret
    ensures Keys(Filter(fs, Reviewed(rows)))[k] == if k in rows then Keys(fs)[k] else 0
  {
    if |fs| > 0 {
      var front, last := fs[..|fs| - 1], fs[|fs| - 1];
      assert last in fs;
      ReviewedKey(front, rows, k);
      if Reviewed(rows)(last) {
        KeysAppend(Filter(front, Reviewed(rows)), last);
      }
    }
  }

  /** Among vulnerabilities, selecting by tuple is restricting the counter. */
  lemma ReviewedKeys(fs: seq<Finding>, rows: set<Key>)
    requires forall f :: f in fs ==> !f.secret
    ensures forall k :: Keys(Filter(fs, Reviewed(rows)))[k] == if k in rows then Keys(fs)[k] else 0
    ensures forall k :: Keys(Filter(fs, Not(Reviewed(rows))))[k] == if k in rows then 0 else Keys(fs)[k]
  {
    KeysSplit(fs, Reviewed(rows));
    forall k
      ensures Keys(Filter(fs, Reviewed(rows)))[k] == if k in rows then Keys(fs)[k] else 0
      ensures Keys(Filter(fs, Not(Reviewed(rows))))[k] == if k in rows then 0 else Keys(fs)[k]
    {
      ReviewedKey(fs, rows, k);
    }
  }
}
