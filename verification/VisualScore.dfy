/** `_score_segment_v3`: each reference judged on its own, then set arithmetic over what was seen. */
module VisualScore {
  import opened Basics
  import opened Rounding

  datatype Score = Score(n: nat, nPresent: nat, nContinuity: nat, precision: Option<real>, recall: real,
                         recallAll: real, f1: Option<real>)

  function Union(judged: seq<seq<string>>): set<string> {
    set row, e | row in judged && e in row :: e
  }

  function Share(part: nat, all: nat): real {
    if all == 0 then 1.0 else Round4(part as real / all as real)
  }

  function F1(p: Option<real>, r: real): Option<real> {
    match p
    case None => None
    case Some(p) => if p + r == 0.0 then Some(0.0) else Some(Round4(2.0 * p * r / (p + r)))
  }

  function Positives(judged: seq<seq<string>>): nat {
    if judged == [] then 0
    else Positives(judged[..|judged| - 1]) + (if judged[|judged| - 1] != [] then 1 else 0)
  }

  /** Share of the wanted entities that are not missing. */
  function Recall(present: set<string>, wanted: set<string>, covered: set<string>): real {
    Share(|wanted - (present - covered)|, |wanted|)
  }

  /** The score as a function of what each reference was judged to show, in any order. */
  function ScoreOf(judged: seq<seq<string>>, present: set<string>, continuity: set<string>): Score {
    if judged == [] then
      var recall := if continuity == {} then 1.0 else 0.0;
      Score(0, |present|, |continuity|, None, recall, if present == {} then 1.0 else 0.0, None)
    else
      var covered := Union(judged) * present;
      var precision := Some(Share(Positives(judged), |judged|));
      var recall := Recall(present, continuity, covered);
      Score(|judged|, |present|, |continuity|, precision, recall, Recall(present, present, covered),
            F1(precision, recall))
  }

  predicate AllAnswered(results: seq<Option<seq<string>>>) {
    forall i :: 0 <= i < |results| ==> results[i].Some?
  }

  function Values(results: seq<Option<seq<string>>>): (judged: seq<seq<string>>)
    requires AllAnswered(results)
    ensures |judged| == |results| && forall i :: 0 <= i < |results| ==> judged[i] == results[i].value
  {
    seq(|results|, i requires 0 <= i < |results| => results[i].value)
  }

  /** The labels of all references, or nothing when one of them raised. */
  function Gathered(results: seq<Option<seq<string>>>): Option<seq<seq<string>>> {
    if AllAnswered(results) then Some(Values(results)) else None
  }

  /** The worker pool: results come back in the order `finish` and are put in place by index; the first one that
      raised is raised. */
  method Collect(results: seq<Option<seq<string>>>, finish: seq<nat>) returns (judged: Option<seq<seq<string>>>)
    requires |finish| == |results| && multiset(finish) == multiset(seq(|results|, i => i))
    ensures judged == Gathered(results)
  {
    var byIndex: map<nat, seq<string>> := map[];
    IndicesOf(|results|, finish);
    for k := 0 to |finish|
      invariant forall i :: i in byIndex ==> i < |results| && results[i] == Some(byIndex[i])
      invariant forall j :: 0 <= j < k ==> finish[j] in byIndex
    {
      assert finish[k] in finish;
      if results[finish[k]].None? { return None; }
      byIndex := byIndex[finish[k] := results[finish[k]].value];
    }
    var rows: seq<seq<string>> := [];
    for i := 0 to |results|
      invariant |rows| == i && forall j :: 0 <= j < i ==> results[j] == Some(rows[j])
    {
      assert i in finish;
      rows := rows + [byIndex[i]];
    }
    assert AllAnswered(results) && rows == Values(results);
    return Some(rows);
  }

  /** With one worker: one reference after the other. */
  method InTurn(results: seq<Option<seq<string>>>) returns (judged: Option<seq<seq<string>>>)
    ensures judged == Gathered(results)
  {
    var rows: seq<seq<string>> := [];
    for i := 0 to |results|
      invariant |rows| == i && forall j :: 0 <= j < i ==> results[j] == Some(rows[j])
    {
      if results[i].None? { return None; }
      rows := rows + [results[i].value];
    }
    assert AllAnswered(results) && rows == Values(results);
    return Some(rows);
  }

  lemma IndicesOf(n: nat, finish: seq<nat>)
    requires multiset(finish) == multiset(seq(n, i => i))
    ensures forall i: nat :: i in finish <==> i < n
  {
    var all := seq(n, i => i);
    forall i: nat ensures i in finish <==> i < n {
      assert i in finish <==> i in multiset(finish);
      assert i in all <==> i in multiset(all);
      if i < n { assert all[i] == i; }
    }
  }

  /** The judge's labels, one reference after the other. */
  function Serial(refs: seq<string>, judge: string -> seq<string>): (judged: seq<seq<string>>)
    ensures |judged| == |refs| && forall i :: 0 <= i < |refs| ==> judged[i] == judge(refs[i])
  {
    seq(|refs|, i requires 0 <= i < |refs| => judge(refs[i]))
  }

  function Blanks(n: nat): (results: seq<Option<seq<string>>>)
    ensures |results| == n && forall i :: 0 <= i < n ==> results[i] == Some([])
  {
    seq(n, i => Some([]))
  }

  /** What comes of each reference: nothing to ask without a roster, else what its caller got. */
  function Asked(results: seq<Option<seq<string>>>, rosterEmpty: bool): seq<Option<seq<string>>> {
    if rosterEmpty then Blanks(|results|) else results
  }

  /** A reference that raised raises for all, unless there was nothing to ask; else each has its own labels. */
  lemma {:induction false} GatheredMeans(results: seq<Option<seq<string>>>, rosterEmpty: bool)
    ensures var judged := Gathered(Asked(results, rosterEmpty));
            && (judged.None? <==> !rosterEmpty && exists i :: 0 <= i < |results| && results[i] == None)
            && (judged.Some? ==> |judged.value| == |results|)
            && (judged.Some? ==> forall i :: 0 <= i < |results| ==>
                  judged.value[i] == if rosterEmpty then [] else results[i].value)
  {
    if i :| 0 <= i < |results| && results[i] == None { assert !AllAnswered(results); }
  }

  method JudgeAll(results: seq<Option<seq<string>>>, rosterEmpty: bool, workers: int, finish: seq<nat>)
    returns (judged: Option<seq<seq<string>>>)
    requires |finish| == |results| && multiset(finish) == multiset(seq(|results|, i => i))
    ensures judged == Gathered(Asked(results, rosterEmpty))
  {
    if rosterEmpty {
      judged := Some(Values(Blanks(|results|)));
    } else if (if workers < |results| then workers else |results|) <= 1 {
      judged := InTurn(results);
    } else {
      judged := Collect(results, finish);
    }
  }

  method CountPositives(judged: seq<seq<string>>) returns (n: nat)
    ensures n == Positives(judged)
  {
    n := 0;
    for i := 0 to |judged|
      invariant n == Positives(judged[..i])
    {
      assert judged[..i + 1][..i] == judged[..i];
      if judged[i] != [] { n := n + 1; }
    }
    assert judged[..|judged|] == judged;
  }

  /** The score from what each reference's caller got, `None` where it raised. */
  method ScoreSegment(results: seq<Option<seq<string>>>, present: seq<string>, continuity: seq<string>,
                      rosterEmpty: bool, workers: int, finish: seq<nat>)
    returns (score: Option<Score>)
    requires |finish| == |results| && multiset(finish) == multiset(seq(|results|, i => i))
    ensures score == match Gathered(Asked(results, rosterEmpty))
                     case None => None
                     case Some(judged) => Some(ScoreOf(judged, set e | e in present, set e | e in continuity))
  {
    hide Share, F1, Union, Positives;
    var presentSet, continuitySet := set e | e in present, set e | e in continuity;
    if |results| == 0 {
      return Some(Score(0, |presentSet|, |continuitySet|, None, if continuitySet == {} then 1.0 else 0.0,
                        if presentSet == {} then 1.0 else 0.0, None));
    }
    var answered := JudgeAll(results, rosterEmpty, workers, finish);
    if answered.None? { return None; }
    var judged := answered.value;
    var nPresent := CountPositives(judged);
    var covered := Union(judged) * presentSet;
    var missing := presentSet - covered;
    var precision := Some(Share(nPresent, |judged|));
    MissingSplits(continuitySet, missing);
    MissingSplits(presentSet, missing);
    assert missing * presentSet == missing;
    var recall := Share(|continuitySet| - |missing * continuitySet|, |continuitySet|);
    var recallAll := Share(|presentSet| - |missing|, |presentSet|);
    score := Some(Score(|judged|, |presentSet|, |continuitySet|, precision, recall, recallAll, F1(precision, recall)));
  }

  lemma {:induction false} MissingSplits(wanted: set<string>, missing: set<string>)
    ensures |wanted| - |missing * wanted| == |wanted - missing|
  {
    assert wanted == (wanted - missing) + (missing * wanted);
  }

  // ----- what the score says -----

  /** The references that were judged to show something. */
  ghost function Showing(judged: seq<seq<string>>): set<nat> { set i: nat | i < |judged| && |judged[i]| > 0 }

  /** Those of `wanted` that some reference shows, or that are not present in the segment. */
  ghost function Reached(judged: seq<seq<string>>, wanted: set<string>, present: set<string>): set<string> {
    set e | e in wanted && (e !in present || exists i :: 0 <= i < |judged| && e in judged[i])
  }

  /** Precision is the share of the references that show something, recall the share of the wanted entities that are
      reached, and F1 their harmonic mean, each to four digits. */
  lemma {:induction false} ScoreMeans(judged: seq<seq<string>>, present: set<string>, continuity: set<string>)
    requires judged != []
    ensures var s := ScoreOf(judged, present, continuity);
            && s.n == |judged| && s.nPresent == |present| && s.nContinuity == |continuity|
            && s.precision == Some(Round4(|Showing(judged)| as real / |judged| as real))
            && s.recall == (if continuity == {} then 1.0
                            else Round4(|Reached(judged, continuity, present)| as real / |continuity| as real))
            && s.recallAll == (if present == {} then 1.0
                               else Round4(|Reached(judged, present, present)| as real / |present| as real))
            && s.f1.Some?
            && (s.precision.value + s.recall == 0.0 ==> s.f1.value == 0.0)
            && (s.precision.value + s.recall != 0.0 ==>
                  exists mean :: mean * (s.precision.value + s.recall) == 2.0 * s.precision.value * s.recall
                                 && s.f1.value == Round4(mean))
  {
    hide Round4;
    var covered := Union(judged) * present;
    PositivesAre(judged);
    ReachedIs(judged, continuity, present);
    ReachedIs(judged, present, present);
    var p, r := Share(Positives(judged), |judged|), Recall(present, continuity, covered);
    if p + r != 0.0 {
      var mean := 2.0 * p * r / (p + r);
      assert mean * (p + r) == 2.0 * p * r;
    }
  }

  lemma {:induction false} PositivesAre(judged: seq<seq<string>>)
    ensures Positives(judged) == |Showing(judged)|
  {
    if judged == [] {
      assert Showing(judged) == {};
    } else {
      var n := |judged| - 1;
      PositivesAre(judged[..n]);
      assert Showing(judged) == Showing(judged[..n]) + (if judged[n] != [] then {n} else {});
    }
  }

  lemma ReachedIs(judged: seq<seq<string>>, wanted: set<string>, present: set<string>)
    ensures wanted - (present - Union(judged) * present) == Reached(judged, wanted, present)
  {
    forall e ensures e in Union(judged) <==> exists i :: 0 <= i < |judged| && e in judged[i] {
      if i :| 0 <= i < |judged| && e in judged[i] { assert judged[i] in judged; }
    }
  }

  /** F1 lies between precision and recall. */
  lemma {:induction false} F1IsBetween(judged: seq<seq<string>>, present: set<string>, continuity: set<string>)
    requires judged != []
    ensures var s := ScoreOf(judged, present, continuity);
            var p, r := s.precision.value, s.recall;
            s.f1.Some? && 0.0 <= p <= 1.0 && 0.0 <= r <= 1.0
            && (if p < r then p <= s.f1.value <= r else r <= s.f1.value <= p)
  {
    hide Round4;
    var covered := Union(judged) * present;
    PositivesCount(judged);
    var wanted := |continuity - (present - covered)|;
    SubsetCount(continuity - (present - covered), continuity);
    ShareGrows(Positives(judged), |judged|, |judged|);
    ShareGrows(wanted, |continuity|, |continuity|);
    var p, r := Share(Positives(judged), |judged|), Recall(present, continuity, covered);
    ShareIsRounded(Positives(judged), |judged|);
    ShareIsRounded(wanted, |continuity|);
    ScoreMeans(judged, present, continuity);
    hide F1, Share, Recall, Union, Positives;
    if p + r != 0.0 {
      var f1 := ScoreOf(judged, present, continuity).f1.value;
      var mean :| mean * (p + r) == 2.0 * p * r && f1 == Round4(mean);
      var low, high := if p < r then p else r, if p < r then r else p;
      HarmonicMean(p, r, mean);
      Round4Monotone(low, mean);
      Round4Monotone(mean, high);
      assert Round4(low) == low && Round4(high) == high;
    }
  }

  lemma ShareIsRounded(part: nat, all: nat)
    ensures Round4(Share(part, all)) == Share(part, all)
  {
    if all == 0 {
      NearestFixesIntegers(10000);
    } else {
      Round4IsIdempotent(part as real / all as real);
    }
  }

  lemma HarmonicMean(p: real, r: real, mean: real)
    requires 0.0 <= p && 0.0 <= r && p + r > 0.0 && mean * (p + r) == 2.0 * p * r
    ensures (if p < r then p else r) <= mean <= (if p < r then r else p)
  {
    if p < r { Between(p, r, mean); } else { Between(r, p, mean); }
  }

  lemma Between(low: real, high: real, mean: real)
    requires 0.0 <= low <= high && low + high > 0.0 && mean * (low + high) == 2.0 * low * high
    ensures low <= mean <= high
  {
    NoLess(low, high - low);
    NoLess(high, high - low);
    assert low * (low + high) <= mean * (low + high) <= high * (low + high);
    Dividing(low, mean, low + high);
    Dividing(mean, high, low + high);
  }

  lemma NoLess(x: real, y: real)
    requires x >= 0.0 && y >= 0.0
    ensures x * y >= 0.0
  {}

  lemma Dividing(x: real, y: real, n: real)
    requires x * n <= y * n && n > 0.0
    ensures x <= y
  {}

  // ----- what the score does not depend on, and what it keeps -----

  lemma {:induction false} UnionPermutes(a: seq<seq<string>>, b: seq<seq<string>>)
    requires multiset(a) == multiset(b)
    ensures Union(a) == Union(b) && |a| == |b|
  {
    forall row ensures row in a <==> row in b {
      assert row in a <==> row in multiset(a);
      assert row in b <==> row in multiset(b);
    }
    assert |multiset(a)| == |multiset(b)|;
  }

  function Empties(m: multiset<seq<string>>): nat { m[[]] }

  lemma {:induction false} PositivesCount(judged: seq<seq<string>>)
    ensures Positives(judged) == |judged| - Empties(multiset(judged))
  {
    if judged != [] {
      PositivesCount(judged[..|judged| - 1]);
      assert judged == judged[..|judged| - 1] + [judged[|judged| - 1]];
    }
  }

  function DropAt<T>(s: seq<T>, i: nat): seq<T>
    requires i < |s|
  {
    s[..i] + s[i + 1..]
  }

  lemma DropAtTakesOne<T>(s: seq<T>, i: nat)
    requires i < |s|
    ensures multiset(s) == multiset{s[i]} + multiset(DropAt(s, i))
    ensures multiset(DropAt(s, i)) == multiset(s) - multiset{s[i]}
    ensures |DropAt(s, i)| == |s| - 1
  {
    assert s == s[..i] + [s[i]] + s[i + 1..];
  }

  lemma SerialDrop(a: seq<string>, i: nat, judge: string -> seq<string>)
    requires i < |a|
    ensures DropAt(Serial(a, judge), i) == Serial(DropAt(a, i), judge)
  {}

  lemma {:induction false} SerialPermutes(a: seq<string>, b: seq<string>, judge: string -> seq<string>)
    requires multiset(a) == multiset(b)
    ensures multiset(Serial(a, judge)) == multiset(Serial(b, judge))
    decreases |a|
  {
    hide Serial, DropAt;
    assert |multiset(a)| == |multiset(b)|;
    if a != [] {
      var n := |a| - 1;
      assert a[n] in multiset(b);
      var i :| 0 <= i < |b| && b[i] == a[n];
      DropAtTakesOne(a, n);
      DropAtTakesOne(b, i);
      SerialPermutes(DropAt(a, n), DropAt(b, i), judge);
      SerialDrop(a, n, judge);
      SerialDrop(b, i, judge);
      DropAtTakesOne(Serial(a, judge), n);
      DropAtTakesOne(Serial(b, judge), i);
    } else {
      assert Serial(a, judge) == Serial(b, judge);
    }
  }

  /** The order of the references does not matter. */
  lemma {:induction false} ScoreIgnoresOrder(a: seq<string>, b: seq<string>, judge: string -> seq<string>,
                                             present: set<string>, continuity: set<string>)
    requires multiset(a) == multiset(b)
    ensures ScoreOf(Serial(a, judge), present, continuity) == ScoreOf(Serial(b, judge), present, continuity)
  {
    hide Serial, Union, Positives;
    SerialPermutes(a, b, judge);
    UnionPermutes(Serial(a, judge), Serial(b, judge));
    PositivesCount(Serial(a, judge));
    PositivesCount(Serial(b, judge));
  }

  lemma Quotient(a: real, b: real, n: real)
    requires 0.0 <= a <= b <= n && n > 0.0
    ensures 0.0 <= a / n <= b / n <= 1.0
  {}

  lemma ShareGrows(a: nat, b: nat, n: nat)
    requires a <= b <= n
    ensures 0.0 <= Share(a, n) <= Share(b, n) <= 1.0
  {
    if n > 0 {
      Quotient(a as real, b as real, n as real);
      Round4Monotone(a as real / n as real, b as real / n as real);
      Round4KeepsUnit(a as real / n as real);
      Round4KeepsUnit(b as real / n as real);
    }
  }

  /** Covering more never lowers a recall. */
  lemma {:induction false} RecallGrows(present: set<string>, wanted: set<string>, less: set<string>, more: set<string>)
    requires less <= more
    ensures 0.0 <= Recall(present, wanted, less) <= Recall(present, wanted, more) <= 1.0
  {
    SubsetCount(wanted - (present - less), wanted - (present - more));
    SubsetCount(wanted - (present - more), wanted);
    ShareGrows(|wanted - (present - less)|, |wanted - (present - more)|, |wanted|);
  }

  /** One more reference never loses recall. */
  lemma {:induction false} AddingAReferenceKeepsRecall(judged: seq<seq<string>>, row: seq<string>,
                                                       present: set<string>, continuity: set<string>)
    ensures ScoreOf(judged + [row], present, continuity).recall >= ScoreOf(judged, present, continuity).recall
    ensures ScoreOf(judged + [row], present, continuity).recallAll >= ScoreOf(judged, present, continuity).recallAll
  {
    hide Share, Positives, F1;
    var less, more := Union(judged) * present, Union(judged + [row]) * present;
    assert forall x :: x in judged ==> x in judged + [row];
    assert less <= more;
    RecallGrows(present, continuity, less, more);
    RecallGrows(present, present, less, more);
    if judged == [] {
      NothingWanted(present, more);
    }
  }

  lemma NothingWanted(present: set<string>, covered: set<string>)
    ensures Recall(present, {}, covered) == 1.0 && Recall({}, {}, covered) == 1.0
  {}
}
