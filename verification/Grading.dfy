/**
 Split grading of a report's claims (`assess_report_support` in scripts/evaluate_research.py).

 The external grader is an arbitrary function of a group's start and length: within one
 report no group is asked for twice, so nothing is lost by that (GroupsAreDistinct).
 */
module Grading {
  import opened Outcomes

  datatype Check = Check(index: int, supported: bool)

  datatype Answer = Graded(checks: seq<Check>) | TooLarge | Failed

  datatype Group = Group(start: nat, length: nat)

  type Grader = Group -> Answer

  /** What one grading did: its checks unless it raised, every group it asked for, and the groups that were answered. */
  datatype Record = Record(checks: Option<seq<Check>>, asked: seq<Group>, leaves: seq<Group>)

  function Rebased(checks: seq<Check>, start: int): seq<Check> {
    seq(|checks|, i requires 0 <= i < |checks| => checks[i].(index := checks[i].index + start))
  }

  function Grade(grader: Grader, group: Group): Record
    decreases group.length
  {
    match grader(group)
    case Graded(checks) => Record(Some(Rebased(checks, group.start)), [group], [group])
    case Failed => Record(None, [group], [])
    case TooLarge =>
      if group.length < 2 then Record(None, [group], [])
      else
        var midpoint := group.length / 2;
        var left := Grade(grader, Group(group.start, midpoint));
        if left.checks.None? then Record(None, [group] + left.asked, left.leaves)
        else
          var right := Grade(grader, Group(group.start + midpoint, group.length - midpoint));
          if right.checks.None? then Record(None, [group] + left.asked + right.asked, left.leaves + right.leaves)
          else Record(Some(left.checks.value + right.checks.value), [group] + left.asked + right.asked,
              left.leaves + right.leaves)
  }

  /** How many checks name claim `i`. */
  function Mentions(checks: seq<Check>, i: int): nat {
    if |checks| == 0 then 0 else Mentions(checks[..|checks| - 1], i) + if checks[|checks| - 1].index == i then 1 else 0
  }

  /** `sorted(indices) == list(range(start, start + length))`. */
  ghost predicate EachOnce(checks: seq<Check>, start: int, length: nat) {
    forall i :: Mentions(checks, i) == if start <= i < start + length then 1 else 0
  }

  /** Each of these answered groups names every one of its own claims exactly once. */
  ghost predicate Faithful(grader: Grader, groups: seq<Group>) {
    forall group :: group in groups && grader(group).Graded? ==> EachOnce(grader(group).checks, 0, group.length)
  }

  lemma {:induction false} MentionsConcat(a: seq<Check>, b: seq<Check>, i: int)
    ensures Mentions(a + b, i) == Mentions(a, i) + Mentions(b, i)
  {
    if |b| == 0 {
      assert a + b == a;
    } else {
      MentionsConcat(a, b[..|b| - 1], i);
      assert (a + b)[..|a + b| - 1] == a + b[..|b| - 1];
    }
  }

  lemma {:induction false} MentionsRebased(checks: seq<Check>, start: int, i: int)
    ensures Mentions(Rebased(checks, start), i) == Mentions(checks, i - start)
  {
    if |checks| > 0 {
      MentionsRebased(checks[..|checks| - 1], start, i);
      assert Rebased(checks, start)[..|checks| - 1] == Rebased(checks[..|checks| - 1], start);
    }
  }

  /** Whatever overflows, a grading that returns names every claim of its group exactly once. */
  lemma {:induction false} EveryClaimOnce(grader: Grader, group: Group)
    requires Grade(grader, group).checks.Some? && Faithful(grader, Grade(grader, group).leaves)
    ensures EachOnce(Grade(grader, group).checks.value, group.start, group.length)
    decreases group.length
  {
    match grader(group)
    case Graded(checks) =>
      assert group in Grade(grader, group).leaves;
      RebasedOnce(checks, group.start, group.length);
    case TooLarge =>
      var midpoint := group.length / 2;
      var left, right := Group(group.start, midpoint), Group(group.start + midpoint, group.length - midpoint);
      EveryClaimOnce(grader, left);
      EveryClaimOnce(grader, right);
      JoinedOnce(Grade(grader, left).checks.value, Grade(grader, right).checks.value, group.start, midpoint,
          group.length);
  }

  lemma RebasedOnce(checks: seq<Check>, start: int, length: nat)
    requires EachOnce(checks, 0, length)
    ensures EachOnce(Rebased(checks, start), start, length)
  {
    forall i ensures Mentions(Rebased(checks, start), i) == if start <= i < start + length then 1 else 0 {
      MentionsRebased(checks, start, i);
    }
  }

  lemma JoinedOnce(a: seq<Check>, b: seq<Check>, start: int, midpoint: nat, length: nat)
    requires midpoint <= length && EachOnce(a, start, midpoint) && EachOnce(b, start + midpoint, length - midpoint)
    ensures EachOnce(a + b, start, length)
  {
    forall i ensures Mentions(a + b, i) == if start <= i < start + length then 1 else 0 {
      MentionsConcat(a, b, i);
    }
  }

  /** A check of the result that one answered group gave about one of its claims. */
  ghost predicate From(check: Check, leaf: Group, grader: Grader) {
    grader(leaf).Graded? && Check(check.index - leaf.start, check.supported) in grader(leaf).checks
  }

  lemma RebasedHas(checks: seq<Check>, start: int, check: Check)
    ensures check in Rebased(checks, start) <==> Check(check.index - start, check.supported) in checks
  {
    if check in Rebased(checks, start) {
      var i :| 0 <= i < |checks| && Rebased(checks, start)[i] == check;
      assert checks[i] == Check(check.index - start, check.supported);
    }
    if Check(check.index - start, check.supported) in checks {
      var i :| 0 <= i < |checks| && checks[i] == Check(check.index - start, check.supported);
      assert Rebased(checks, start)[i] == check;
    }
  }

  /**
   Rebasing neither changes nor mixes verdicts: the result holds exactly what the answered groups said of their claims.
   */
  lemma {:induction false} VerdictsComeFromLeaves(grader: Grader, group: Group, check: Check)
    requires Grade(grader, group).checks.Some?
    ensures check in Grade(grader, group).checks.value
            <==> exists leaf :: leaf in Grade(grader, group).leaves && From(check, leaf, grader)
    decreases group.length
  {
    match grader(group)
    case Graded(checks) =>
      RebasedHas(checks, group.start, check);
      assert group in Grade(grader, group).leaves;
    case TooLarge =>
      var midpoint := group.length / 2;
      VerdictsComeFromLeaves(grader, Group(group.start, midpoint), check);
      VerdictsComeFromLeaves(grader, Group(group.start + midpoint, group.length - midpoint), check);
  }

  /** Consecutive groups that cover [start, start + length) without gap or overlap, none of them empty. */
  ghost predicate Tile(leaves: seq<Group>, start: nat, length: nat) {
    if |leaves| == 0 then length == 0
    else leaves[0].start == start && 0 < leaves[0].length <= length
         && Tile(leaves[1..], start + leaves[0].length, length - leaves[0].length)
  }

  lemma {:induction false} TileConcat(a: seq<Group>, b: seq<Group>, start: nat, first: nat, second: nat)
    requires Tile(a, start, first) && Tile(b, start + first, second)
    ensures Tile(a + b, start, first + second)
  {
    if |a| == 0 {
      assert a + b == b;
    } else {
      TileConcat(a[1..], b, start + a[0].length, first - a[0].length, second);
      assert (a + b)[1..] == a[1..] + b;
    }
  }

  lemma {:induction false} TileStartsAscend(leaves: seq<Group>, start: nat, length: nat)
    requires Tile(leaves, start, length)
    ensures forall i :: 0 <= i < |leaves| ==>
                start <= leaves[i].start && leaves[i].start + leaves[i].length <= start + length
    ensures forall i, j :: 0 <= i < j < |leaves| ==> leaves[i].start + leaves[i].length <= leaves[j].start
                                                     && leaves[i].start < leaves[j].start
  {
    if |leaves| > 0 {
      var rest := leaves[1..];
      TileStartsAscend(rest, start + leaves[0].length, length - leaves[0].length);
      forall i, j | 0 <= i < j < |leaves|
        ensures leaves[i].start + leaves[i].length <= leaves[j].start && leaves[i].start < leaves[j].start
      {
        assert leaves[j] == rest[j - 1];
        if i > 0 { assert leaves[i] == rest[i - 1]; }
      }
      forall i | 0 <= i < |leaves|
        ensures start <= leaves[i].start && leaves[i].start + leaves[i].length <= start + length
      {
        if i > 0 { assert leaves[i] == rest[i - 1]; }
      }
    }
  }

  /**
   A returning grading of a nonempty group was answered by groups that tile it, asking for 2k - 1 groups for k answers.
   */
  lemma {:induction false} LeavesTile(grader: Grader, group: Group)
    requires Grade(grader, group).checks.Some? && group.length > 0
    ensures Tile(Grade(grader, group).leaves, group.start, group.length)
    ensures |Grade(grader, group).asked| == 2 * |Grade(grader, group).leaves| - 1
    decreases group.length
  {
    if grader(group).TooLarge? {
      var midpoint := group.length / 2;
      var left, right := Group(group.start, midpoint), Group(group.start + midpoint, group.length - midpoint);
      LeavesTile(grader, left);
      LeavesTile(grader, right);
      TileConcat(Grade(grader, left).leaves, Grade(grader, right).leaves, group.start, midpoint,
          group.length - midpoint);
    } else {
      assert Tile([group][1..], group.start + group.length, 0);
    }
  }

  /** The name under which a group's calls are accounted. */
  datatype RunId = WholeReport | Support(start: nat)

  function NameOf(group: Group, claims: nat): RunId {
    if group.start == 0 && group.length == claims then WholeReport else Support(group.start)
  }

  /** No two answered groups of a report share a start or an accounting name. */
  lemma LeafNamesAreDistinct(grader: Grader, claims: nat)
    requires claims > 0 && Grade(grader, Group(0, claims)).checks.Some?
    ensures var leaves := Grade(grader, Group(0, claims)).leaves;
            forall i, j :: 0 <= i < j < |leaves| ==>
              leaves[i].start != leaves[j].start && NameOf(leaves[i], claims) != NameOf(leaves[j], claims)
  {
    LeavesTile(grader, Group(0, claims));
    TileStartsAscend(Grade(grader, Group(0, claims)).leaves, 0, claims);
  }

  ghost predicate Within(groups: seq<Group>, start: nat, length: nat) {
    forall i :: 0 <= i < |groups| ==> start <= groups[i].start && groups[i].start + groups[i].length <= start + length
                                      && groups[i].length > 0
  }

  ghost predicate AllDifferent(groups: seq<Group>) {
    forall i, j :: 0 <= i < j < |groups| ==> groups[i] != groups[j]
  }

  /** Every grading, returning or raising, asks for at most 2n - 1 different groups inside its own. */
  lemma {:induction false} GroupsAreDistinct(grader: Grader, group: Group)
    requires group.length > 0
    ensures |Grade(grader, group).asked| <= 2 * group.length - 1
    ensures Within(Grade(grader, group).asked, group.start, group.length) && AllDifferent(Grade(grader, group).asked)
    decreases group.length
  {
    if grader(group).TooLarge? && group.length >= 2 {
      var midpoint := group.length / 2;
      var left, right := Group(group.start, midpoint), Group(group.start + midpoint, group.length - midpoint);
      GroupsAreDistinct(grader, left);
      GroupsAreDistinct(grader, right);
      SplitIsDistinct(grader, group, Grade(grader, left), Grade(grader, right));
    } else {
      assert Grade(grader, group).asked == [group];
    }
  }

  lemma SplitIsDistinct(grader: Grader, group: Group, left: Record, right: Record)
    requires grader(group).TooLarge? && group.length >= 2
    requires var midpoint := group.length / 2;
             && left == Grade(grader, Group(group.start, midpoint))
             && right == Grade(grader, Group(group.start + midpoint, group.length - midpoint))
             && |left.asked| <= 2 * midpoint - 1 && |right.asked| <= 2 * (group.length - midpoint) - 1
             && Within(left.asked, group.start, midpoint) && AllDifferent(left.asked)
             && Within(right.asked, group.start + midpoint, group.length - midpoint) && AllDifferent(right.asked)
    ensures |Grade(grader, group).asked| <= 2 * group.length - 1
    ensures Within(Grade(grader, group).asked, group.start, group.length) && AllDifferent(Grade(grader, group).asked)
  {
    var kept := if left.checks.None? then [] else right.asked;
    DisjointGroups(group, group.length / 2, left.asked, kept);
    assert Grade(grader, group).asked == [group] + left.asked + kept;
  }

  lemma DisjointGroups(group: Group, midpoint: nat, a: seq<Group>, b: seq<Group>)
    requires 0 < midpoint < group.length && AllDifferent(a) && AllDifferent(b)
    requires Within(a, group.start, midpoint) && Within(b, group.start + midpoint, group.length - midpoint)
    ensures AllDifferent([group] + a + b) && Within([group] + a + b, group.start, group.length)
  {
    var all := [group] + a + b;
    forall i, j | 0 <= i < j < |all| ensures all[i] != all[j] {
      assert i > |a| ==> all[i] == b[i - 1 - |a|];
      assert j > |a| ==> all[j] == b[j - 1 - |a|];
    }
  }

  /** No group of `groups` failed, and none of a single claim was too large. */
  ghost predicate Settled(grader: Grader, groups: seq<Group>) {
    forall group :: group in groups ==> !grader(group).Failed? && (grader(group).TooLarge? ==> group.length >= 2)
  }

  lemma SettledConcat(grader: Grader, a: seq<Group>, b: seq<Group>)
    ensures Settled(grader, a + b) <==> Settled(grader, a) && Settled(grader, b)
  {
    assert forall group :: group in a + b <==> group in a || group in b;
  }

  /** A grading returns if and only if no group that it asked for failed, and none of a single claim was too large. */
  lemma {:induction false} GradeReturnsIff(grader: Grader, group: Group)
    ensures Grade(grader, group).checks.Some? <==> Settled(grader, Grade(grader, group).asked)
    decreases group.length
  {
    if grader(group).TooLarge? && group.length >= 2 {
      var left := Group(group.start, group.length / 2);
      var right := Group(group.start + left.length, group.length - left.length);
      GradeReturnsIff(grader, left);
      GradeReturnsIff(grader, right);
      SplitReturns(grader, group, Grade(grader, left), Grade(grader, right));
    } else {
      assert Grade(grader, group).asked == [group];
      assert group in [group];
    }
  }

  lemma SplitReturns(grader: Grader, group: Group, left: Record, right: Record)
    requires grader(group).TooLarge? && group.length >= 2
    requires left == Grade(grader, Group(group.start, group.length / 2))
    requires right == Grade(grader, Group(group.start + group.length / 2, group.length - group.length / 2))
    requires left.checks.Some? <==> Settled(grader, left.asked)
    requires right.checks.Some? <==> Settled(grader, right.asked)
    ensures Grade(grader, group).checks.Some? <==> Settled(grader, Grade(grader, group).asked)
  {
    HalvesSettle(grader, group, left, right);
    if left.checks.None? {
      assert Grade(grader, group).asked == [group] + left.asked;
    } else {
      assert Grade(grader, group).asked == [group] + left.asked + right.asked;
    }
  }

  lemma HalvesSettle(grader: Grader, group: Group, left: Record, right: Record)
    requires grader(group).TooLarge? && group.length >= 2
    requires left.checks.Some? <==> Settled(grader, left.asked)
    requires right.checks.Some? <==> Settled(grader, right.asked)
    ensures left.checks.None? ==> !Settled(grader, [group] + left.asked)
    ensures left.checks.Some? ==> (right.checks.Some? <==> Settled(grader, [group] + left.asked + right.asked))
  {
    SettledConcat(grader, [group], left.asked);
    SettledConcat(grader, [group] + left.asked, right.asked);
  }

  /** Context overflows alone never lose a report: splitting ends in answers as long as single claims fit. */
  lemma GradeReturns(grader: Grader, group: Group)
    requires group.length > 0
    requires forall g: Group :: g.length > 0 && group.start <= g.start
                                && g.start + g.length <= group.start + group.length ==>
               !grader(g).Failed? && (g.length == 1 ==> !grader(g).TooLarge?)
    ensures Grade(grader, group).checks.Some?
  {
    GradeReturnsIff(grader, group);
    GroupsAreDistinct(grader, group);
  }

  /** Only a group that is too large is split, and then in halves, left before right. */
  lemma SplitsInHalves(grader: Grader, group: Group)
    ensures Grade(grader, group).asked[0] == group
    ensures var asked, left := Grade(grader, group).asked, Group(group.start, group.length / 2);
            if grader(group).TooLarge? && group.length >= 2 then
              && |asked| >= 2 && asked[1] == left
              && (Grade(grader, left).checks.Some? ==>
                    var right := Group(group.start + group.length / 2, group.length - group.length / 2);
                    asked == [group] + Grade(grader, left).asked + Grade(grader, right).asked)
            else asked == [group]
  {
    if grader(group).TooLarge? && group.length >= 2 {
      var left := Group(group.start, group.length / 2);
      assert Grade(grader, left).asked[0] == left;
    }
  }

  const MAX_CLAIMS := 96

  /** The envelope of scripts/check_ci_evaluation_budget.py covers the group calls of every report it admits. */
  lemma EnvelopeCoversGrading(grader: Grader, claims: nat)
    requires claims <= MAX_CLAIMS
    ensures |Grade(grader, Group(0, claims)).asked| <= 2 * MAX_CLAIMS - 1
  {
    if claims > 0 {
      GroupsAreDistinct(grader, Group(0, claims));
    }
  }
}
