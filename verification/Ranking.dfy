/**
 Ranking metrics of scripts/evaluate_retrieval.py over exact reals. The discount
 1 / log2(index + 2) is any positive, strictly decreasing weight.
 */
module Ranking {
  import opened Outcomes

  /******* Distinct titles *******/

  function Titles(hits: seq<string>): seq<string> {
    if |hits| == 0 then []
    else
      var before := Titles(hits[..|hits| - 1]);
      if hits[|hits| - 1] in before then before else before + [hits[|hits| - 1]]
  }

  method DocumentTitles(hits: seq<string>) returns (titles: seq<string>)
    ensures titles == Titles(hits)
  {
    var seen: set<string> := {};
    titles := [];
    for n := 0 to |hits|
      invariant titles == Titles(hits[..n])
      invariant forall t :: t in seen <==> t in titles
    {
      assert hits[..n + 1][..n] == hits[..n];
      if hits[n] !in seen {
        seen := seen + {hits[n]};
        titles := titles + [hits[n]];
      }
    }
    assert hits[..|hits|] == hits;
  }

  ghost predicate AllDistinct(titles: seq<string>) {
    forall i, j :: 0 <= i < j < |titles| ==> titles[i] != titles[j]
  }

  lemma {:induction false} TitlesAreDistinct(hits: seq<string>)
    ensures AllDistinct(Titles(hits))
    ensures forall t :: t in Titles(hits) <==> t in hits
  {
    if |hits| > 0 {
      TitlesAreDistinct(hits[..|hits| - 1]);
      assert hits == hits[..|hits| - 1] + [hits[|hits| - 1]];
    }
  }

  /** A title keeps the place of its first hit: each title is hit before any later one has been. */
  lemma {:induction false} TitlesKeepFirstHits(hits: seq<string>, i: nat, j: nat)
    requires i < j < |Titles(hits)|
    ensures exists p :: 0 <= p < |hits| && hits[p] == Titles(hits)[i] && Titles(hits)[j] !in hits[..p + 1]
  {
    var front, last := hits[..|hits| - 1], hits[|hits| - 1];
    if j < |Titles(front)| {
      TitlesKeepFirstHits(front, i, j);
      var p :| 0 <= p < |front| && front[p] == Titles(front)[i] && Titles(front)[j] !in front[..p + 1];
      assert hits[..p + 1] == front[..p + 1] && hits[p] == Titles(hits)[i];
    } else {
      TitlesAreDistinct(front);
      assert Titles(front)[i] in front;
      var p :| 0 <= p < |front| && front[p] == Titles(front)[i];
      assert hits[..p + 1] == front[..p + 1];
      assert forall t :: t in front[..p + 1] ==> t in front;
      assert hits[p] == Titles(hits)[i];
    }
  }

  /******* Counting relevant titles *******/

  function Top(titles: seq<string>, k: nat): seq<string> {
    if k < |titles| then titles[..k] else titles
  }

  /** `set(titles[:k]) & expected`. */
  function Found(titles: seq<string>, expected: set<string>, k: nat): set<string> {
    set i | 0 <= i < |Top(titles, k)| && Top(titles, k)[i] in expected :: Top(titles, k)[i]
  }

  function Gains(titles: seq<string>, expected: set<string>, k: nat): seq<bool> {
    seq(|Top(titles, k)|, i requires 0 <= i < |Top(titles, k)| => Top(titles, k)[i] in expected)
  }

  function Ones(gains: seq<bool>): nat {
    if |gains| == 0 then 0 else Ones(gains[..|gains| - 1]) + if gains[|gains| - 1] then 1 else 0
  }

  /** The relevant titles found at a cutoff are those among the first k. */
  lemma FoundAmongFirst(titles: seq<string>, expected: set<string>, k: nat, t: string)
    ensures t in Found(titles, expected, k)
            <==> t in expected && exists i :: 0 <= i < k && i < |titles| && titles[i] == t
    ensures |Gains(titles, expected, k)| == Min(k, |titles|)
    ensures forall i :: 0 <= i < k && i < |titles| ==> (Gains(titles, expected, k)[i] <==> titles[i] in expected)
  {
    if t in expected {
      if i :| 0 <= i < k && i < |titles| && titles[i] == t {
        assert Top(titles, k)[i] == t;
      }
    }
  }

  lemma FoundAt(titles: seq<string>, expected: set<string>, t: string)
    ensures t in Found(titles, expected, |titles|) <==> t in titles && t in expected
  {
    if t in titles {
      var i :| 0 <= i < |titles| && titles[i] == t;
      assert Top(titles, |titles|)[i] == t;
    }
  }

  lemma {:induction false} DistinctGains(titles: seq<string>, expected: set<string>)
    requires AllDistinct(titles)
    ensures Ones(Gains(titles, expected, |titles|)) == |Found(titles, expected, |titles|)|
  {
    if |titles| > 0 {
      var front, last := titles[..|titles| - 1], titles[|titles| - 1];
      DistinctGains(front, expected);
      assert Gains(titles, expected, |titles|)[..|front|] == Gains(front, expected, |front|);
      FoundNext(front, last, expected);
      assert titles == front + [last];
    }
  }

  lemma FoundNext(front: seq<string>, last: string, expected: set<string>)
    requires last !in front
    ensures |Found(front + [last], expected, |front| + 1)|
         == |Found(front, expected, |front|)| + if last in expected then 1 else 0
  {
    var before, after := Found(front, expected, |front|), Found(front + [last], expected, |front| + 1);
    forall t ensures t in after <==> t in before || (t == last && last in expected) {
      FoundAt(front, expected, t);
      FoundAt(front + [last], expected, t);
    }
    FoundAt(front, expected, last);
    if last in expected {
      assert after == before + {last};
    } else {
      assert after == before;
    }
  }

  /** Among distinct titles each relevant document is found once, so no more are found than there are or fit. */
  lemma FoundIsBounded(titles: seq<string>, expected: set<string>, k: nat)
    requires AllDistinct(titles)
    ensures Ones(Gains(titles, expected, k)) == |Found(titles, expected, k)| <= Min(|expected|, k)
  {
    var top := Top(titles, k);
    DistinctGains(top, expected);
    assert Gains(titles, expected, k) == Gains(top, expected, |top|);
    assert Found(titles, expected, k) == Found(top, expected, |top|);
    SubsetSize(Found(titles, expected, k), expected);
    OnesAtMost(Gains(titles, expected, k));
  }

  lemma {:induction false} SubsetSize(a: set<string>, b: set<string>)
    requires a <= b
    ensures |a| <= |b|
    decreases a
  {
    if a != {} {
      var x :| x in a;
      SubsetSize(a - {x}, b - {x});
    }
  }

  lemma {:induction false} OnesAtMost(gains: seq<bool>)
    ensures Ones(gains) <= |gains|
    ensures Ones(gains) == |gains| <==> forall i :: 0 <= i < |gains| ==> gains[i]
  {
    if |gains| > 0 {
      OnesAtMost(gains[..|gains| - 1]);
    }
  }

  function Recall(titles: seq<string>, expected: set<string>, k: nat): real
    requires expected != {}
  {
    |Found(titles, expected, k)| as real / |expected| as real
  }

  function Precision(titles: seq<string>, expected: set<string>, k: nat): real
    requires k > 0
  {
    |Found(titles, expected, k)| as real / k as real
  }

  /** Recall never falls as the cutoff grows, and precision and recall share one numerator. */
  lemma RecallGrows(titles: seq<string>, expected: set<string>, k: nat, l: nat)
    requires expected != {} && 0 < k <= l
    ensures 0.0 <= Recall(titles, expected, k) <= Recall(titles, expected, l) <= 1.0
    ensures k as real * Precision(titles, expected, k) == |expected| as real * Recall(titles, expected, k)
  {
    var a, b := Found(titles, expected, k), Found(titles, expected, l);
    assert a <= b by {
      forall t | t in a ensures t in b {
        var i :| 0 <= i < |Top(titles, k)| && Top(titles, k)[i] in expected && Top(titles, k)[i] == t;
        assert Top(titles, l)[i] == t;
      }
    }
    SubsetSize(a, b);
    SubsetSize(b, expected);
    Quotients(|a| as real, |b| as real, |expected| as real);
  }

  lemma Quotients(a: real, b: real, n: real)
    requires 0.0 <= a <= b <= n && n > 0.0
    ensures 0.0 <= a / n <= b / n <= 1.0
  {
  }

  /******* Discounted gain *******/

  type Weight = nat -> real

  ghost predicate Discount(w: Weight) {
    && (forall i :: w(i) > 0.0)
    && (forall i, j :: i < j ==> w(j) < w(i))
  }

  function Dcg(gains: seq<bool>, w: Weight): real {
    if |gains| == 0 then 0.0 else Dcg(gains[..|gains| - 1], w) + if gains[|gains| - 1] then w(|gains| - 1) else 0.0
  }

  function Ideal(m: nat, w: Weight): real {
    if m == 0 then 0.0 else Ideal(m - 1, w) + w(m - 1)
  }

  predicate LeadingOnes(gains: seq<bool>, m: nat) {
    m <= |gains| && forall i :: 0 <= i < m ==> gains[i]
  }

  lemma {:induction false} DcgAtMost(gains: seq<bool>, w: Weight)
    requires Discount(w)
    ensures Dcg(gains, w) <= Ideal(Ones(gains), w)
    ensures Dcg(gains, w) == Ideal(Ones(gains), w) <==> LeadingOnes(gains, Ones(gains))
  {
    if |gains| > 0 {
      var front := gains[..|gains| - 1];
      DcgAtMost(front, w);
      OnesAtMost(front);
      if gains[|front|] && Ones(front) < |front| {
        assert w(|front|) < w(Ones(front));
        if LeadingOnes(front, Ones(front) + 1) {
          LeadingOnesCount(front, Ones(front) + 1);
        }
        assert LeadingOnes(gains, Ones(gains)) <==> LeadingOnes(front, Ones(front) + 1);
      } else {
        assert LeadingOnes(gains, Ones(gains)) <==> LeadingOnes(front, Ones(front));
      }
    }
  }

  lemma {:induction false} IdealGrows(m: nat, n: nat, w: Weight)
    requires Discount(w) && m <= n
    ensures Ideal(m, w) <= Ideal(n, w)
    ensures Ideal(m, w) == Ideal(n, w) <==> m == n
  {
    if m < n {
      IdealGrows(m, n - 1, w);
      assert w(n - 1) > 0.0;
    }
  }

  lemma {:induction false} LeadingOnesCount(gains: seq<bool>, m: nat)
    requires LeadingOnes(gains, m)
    ensures Ones(gains) >= m
  {
    if |gains| > m {
      LeadingOnesCount(gains[..|gains| - 1], m);
    } else {
      OnesAtMost(gains);
    }
  }

  /**
   The discounted gain never exceeds the ideal one, and reaches it exactly when the first min(|expected|, k) distinct
   titles are all relevant.
   */
  lemma NdcgIsAtMostOne(hits: seq<string>, expected: set<string>, k: nat, w: Weight)
    requires Discount(w)
    ensures var gains := Gains(Titles(hits), expected, k);
            var best := Min(|expected|, k);
            && Dcg(gains, w) <= Ideal(best, w)
            && (Dcg(gains, w) == Ideal(best, w)
                <==> best <= |Titles(hits)| && forall i :: 0 <= i < best ==> Titles(hits)[i] in expected)
  {
    var gains := Gains(Titles(hits), expected, k);
    FoundAmongFirst(Titles(hits), expected, k, "");
    TitlesAreDistinct(hits);
    FoundIsBounded(Titles(hits), expected, k);
    DcgAtMost(gains, w);
    IdealGrows(Ones(gains), Min(|expected|, k), w);
    if LeadingOnes(gains, Min(|expected|, k)) {
      LeadingOnesCount(gains, Min(|expected|, k));
    }
  }

  lemma {:induction false} NothingGained(gains: seq<bool>, w: Weight)
    requires forall i :: 0 <= i < |gains| ==> !gains[i]
    ensures Dcg(gains, w) == 0.0
  {
    if |gains| > 0 {
      NothingGained(gains[..|gains| - 1], w);
    }
  }

  /**
   One relevant title at position r of the cutoff gains the weight of that position, against the weight of the first.
   */
  lemma {:induction false} OneGain(gains: seq<bool>, r: nat, w: Weight)
    requires r < |gains| && gains[r] && forall i :: 0 <= i < |gains| && i != r ==> !gains[i]
    ensures Dcg(gains, w) == w(r) && Ideal(1, w) == w(0)
  {
    assert Ideal(0, w) == 0.0;
    if r == |gains| - 1 {
      NothingGained(gains[..r], w);
    } else {
      OneGain(gains[..|gains| - 1], r, w);
    }
  }

  /** Each position gains its own weight when it is relevant, and the ideal gains every weight from the first on. */
  lemma GainsAdd(gains: seq<bool>, relevant: bool, w: Weight)
    ensures Dcg(gains + [relevant], w) == Dcg(gains, w) + if relevant then w(|gains|) else 0.0
    ensures Ideal(|gains| + 1, w) == Ideal(|gains|, w) + w(|gains|)
  {
    assert (gains + [relevant])[..|gains|] == gains;
  }

  /** Without removing repeated titles the bound is lost: one relevant document hit twice beats the ideal ranking. */
  lemma RepeatedHitsBeatTheIdeal(title: string, w: Weight)
    requires Discount(w)
    ensures Dcg(Gains([title, title], {title}, 2), w) > Ideal(Min(|{title}|, 2), w)
  {
    var gains := Gains([title, title], {title}, 2);
    assert gains == [true, true] && gains[..1] == [true] && gains[..1][..0] == [];
    assert Dcg([true], w) == w(0) by { assert [true][..0] == []; }
    assert w(1) > 0.0;
  }
}
