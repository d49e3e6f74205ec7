/** Calibration of the embedding metric: Mann-Whitney AUC and the threshold that maximizes TPR - FPR. */
module Threshold {
  import opened Basics
  import opened Rounding

  function CountGe(s: seq<real>, t: real): (n: nat)
    ensures n <= |s|
  {
    if s == [] then 0 else CountGe(s[..|s| - 1], t) + (if s[|s| - 1] >= t then 1 else 0)
  }

  ghost function AtLeast(s: seq<real>, t: real): set<nat> { set i: nat | i < |s| && s[i] >= t }

  lemma {:induction false} CountGeIs(s: seq<real>, t: real)
    ensures CountGe(s, t) == |AtLeast(s, t)|
  {
    if s == [] {
      assert AtLeast(s, t) == {};
    } else {
      var n := |s| - 1;
      CountGeIs(s[..n], t);
      assert AtLeast(s, t) == AtLeast(s[..n], t) + (if s[n] >= t then {n} else {});
    }
  }

  function Rate(s: seq<real>, t: real): real
    requires s != []
  {
    CountGe(s, t) as real / |s| as real
  }

  /** TPR - FPR under the rule sim >= t. */
  function J(pos: seq<real>, neg: seq<real>, t: real): real
    requires pos != [] && neg != []
  {
    Rate(pos, t) - Rate(neg, t)
  }

  // ----- candidate thresholds -----

  predicate Ascending(s: seq<real>) { forall i, j :: 0 <= i < j < |s| ==> s[i] < s[j] }

  /** Adds a value to a sorted set. */
  function Place(x: real, s: seq<real>): (r: seq<real>)
    requires Ascending(s)
    ensures Ascending(r) && forall y :: y in r <==> y in s || y == x
  {
    if s == [] then [x]
    else if s[|s| - 1] < x then s + [x]
    else if s[|s| - 1] == x then s
    else
      assert s == s[..|s| - 1] + [s[|s| - 1]];
      var r := Place(x, s[..|s| - 1]);
      assert forall i :: 0 <= i < |r| ==> r[i] in r && r[i] < s[|s| - 1];
      r + [s[|s| - 1]]
  }

  /** `sorted(set(...))`. */
  function Samples(s: seq<real>): (r: seq<real>)
    ensures Ascending(r) && forall y :: y in r <==> y in s
    ensures forall i :: 0 <= i < |s| ==> s[i] in r
    ensures s != [] ==> r != []
  {
    if s == [] then []
    else
      assert s == s[..|s| - 1] + [s[|s| - 1]];
      Place(s[|s| - 1], Samples(s[..|s| - 1]))
  }

  // ----- the search -----

  const SLACK: real := 0.000000000001

  datatype Best = Best(threshold: real, tpr: real, fpr: real, youdenJ: real)

  function Report(pos: seq<real>, neg: seq<real>, t: real): Best
    requires pos != [] && neg != []
  {
    Best(Round6(t), Round4(Rate(pos, t)), Round4(Rate(neg, t)), Round4(J(pos, neg, t)))
  }

  /** The record of a threshold: the share of positive and of negative samples that reach it, and the difference. */
  lemma {:induction false} ReportTells(pos: seq<real>, neg: seq<real>, t: real)
    requires pos != [] && neg != []
    ensures var b := Report(pos, neg, t);
            var tpr, fpr := |AtLeast(pos, t)| as real / |pos| as real, |AtLeast(neg, t)| as real / |neg| as real;
            b.threshold == Round6(t) && b.tpr == Round4(tpr) && b.fpr == Round4(fpr) && b.youdenJ == Round4(tpr - fpr)
  {
    CountGeIs(pos, t);
    CountGeIs(neg, t);
  }

  /** The candidate that the search holds after the first `k`: a new one must beat the rounded record. */
  function Chosen(pos: seq<real>, neg: seq<real>, ts: seq<real>, k: nat): (c: nat)
    requires pos != [] && neg != [] && 0 < k <= |ts|
    ensures c < k
  {
    if k == 1 then 0
    else
      var c := Chosen(pos, neg, ts, k - 1);
      if J(pos, neg, ts[k - 1]) > Round4(J(pos, neg, ts[c])) + SLACK then k - 1 else c
  }

  /** Nothing without samples; with samples on one side only the rates divide by zero. */
  method YoudenThreshold(pos: seq<real>, neg: seq<real>) returns (outcome: Result<Option<Best>, string>)
    ensures pos == [] && neg == [] ==> outcome == Ok(None)
    ensures (pos == []) != (neg == []) ==> outcome == Err("division by zero")
    ensures pos != [] && neg != [] ==>
              var ts := Samples(pos + neg);
              outcome == Ok(Some(Report(pos, neg, ts[Chosen(pos, neg, ts, |ts|)])))
  {
    hide Samples, J, Rate, Round4, Round6;
    if pos == [] && neg == [] { return Ok(None); }
    if pos == [] || neg == [] { return Err("division by zero"); }
    var ts := Samples(pos + neg);
    var best := Report(pos, neg, ts[0]);
    for k := 1 to |ts|
      invariant best == Report(pos, neg, ts[Chosen(pos, neg, ts, k)])
    {
      var j := J(pos, neg, ts[k]);
      if j > best.youdenJ + SLACK { best := Report(pos, neg, ts[k]); }
    }
    outcome := Ok(Some(best));
  }

  /** The largest value among the first `k` candidates. */
  function Highest(pos: seq<real>, neg: seq<real>, ts: seq<real>, k: nat): (m: real)
    requires pos != [] && neg != [] && 0 < k <= |ts|
    ensures forall i :: 0 <= i < k ==> J(pos, neg, ts[i]) <= m
    ensures exists i :: 0 <= i < k && J(pos, neg, ts[i]) == m
  {
    if k == 1 then J(pos, neg, ts[0])
    else
      var m, j := Highest(pos, neg, ts, k - 1), J(pos, neg, ts[k - 1]);
      if j > m then j else m
  }

  /** Rounding the record never loses more than the last digit: the chosen candidate's value rounds to
      the rounded maximum. */
  lemma {:induction false} ChosenIsHighest(pos: seq<real>, neg: seq<real>, ts: seq<real>, k: nat)
    requires pos != [] && neg != [] && 0 < k <= |ts|
    ensures Round4(J(pos, neg, ts[Chosen(pos, neg, ts, k)])) == Round4(Highest(pos, neg, ts, k))
  {
    hide J;
    if k > 1 {
      ChosenIsHighest(pos, neg, ts, k - 1);
      var m := Highest(pos, neg, ts, k - 1);
      var held := J(pos, neg, ts[Chosen(pos, neg, ts, k - 1)]);
      var j := J(pos, neg, ts[k - 1]);
      RecordStep(m, held, j);
    }
  }

  /** One candidate: `held` has the record's rounding, `m` is the true maximum so far. */
  lemma RecordStep(m: real, held: real, j: real)
    requires Round4(held) == Round4(m) && held <= m
    ensures Round4(if j > Round4(held) + SLACK then j else held) == Round4(if j > m then j else m)
  {
    Round4IsIdempotent(held);
    if j > Round4(held) + SLACK {
      if j <= m {
        Round4Monotone(j, m);
        Round4Monotone(Round4(held), j);
      }
    } else if j > m {
      Round4Monotone(m, j);
      Round4Monotone(j, Round4(held) + SLACK);
      Round4Near(held, Round4(held) + SLACK);
    }
  }

  // ----- all real thresholds -----

  lemma {:induction false} SameCounts(s: seq<real>, t: real, u: real)
    requires t <= u && forall i :: 0 <= i < |s| && s[i] >= t ==> s[i] >= u
    ensures CountGe(s, t) == CountGe(s, u)
  {
    if s != [] { SameCounts(s[..|s| - 1], t, u); }
  }

  lemma {:induction false} NoneAbove(s: seq<real>, t: real)
    requires forall i :: 0 <= i < |s| ==> s[i] < t
    ensures CountGe(s, t) == 0
  {
    if s != [] { NoneAbove(s[..|s| - 1], t); }
  }

  lemma {:induction false} AllAbove(s: seq<real>, t: real)
    requires forall i :: 0 <= i < |s| ==> s[i] >= t
    ensures CountGe(s, t) == |s|
  {
    if s != [] { AllAbove(s[..|s| - 1], t); }
  }

  /** The first candidate that is at least `t`. */
  lemma {:induction false} NextSample(ts: seq<real>, t: real, k: nat) returns (i: nat)
    requires k <= |ts| && forall j :: 0 <= j < k ==> ts[j] < t
    ensures k <= i <= |ts| && (forall j :: 0 <= j < i ==> ts[j] < t) && (i < |ts| ==> ts[i] >= t)
    decreases |ts| - k
  {
    if k == |ts| || ts[k] >= t { i := k; } else { i := NextSample(ts, t, k + 1); }
  }

  /** No real threshold does better than the best candidate. */
  lemma {:induction false} SamplesSuffice(pos: seq<real>, neg: seq<real>, t: real)
    requires pos != [] && neg != []
    ensures var ts := Samples(pos + neg); J(pos, neg, t) <= Highest(pos, neg, ts, |ts|)
  {
    var all := pos + neg;
    var ts := Samples(all);
    forall i | 0 <= i < |pos| ensures pos[i] in ts { assert all[i] == pos[i]; }
    forall i | 0 <= i < |neg| ensures neg[i] in ts { assert all[|pos| + i] == neg[i]; }
    var k := NextSample(ts, t, 0);
    if k < |ts| {
      NextBelow(pos, ts, t, k);
      NextBelow(neg, ts, t, k);
      SameCounts(pos, t, ts[k]);
      SameCounts(neg, t, ts[k]);
    } else {
      Within(pos, ts, t);
      Within(neg, ts, t);
      NoneAbove(pos, t);
      NoneAbove(neg, t);
      AllAbove(pos, ts[0]);
      AllAbove(neg, ts[0]);
      Whole(|pos| as real);
      Whole(|neg| as real);
      assert J(pos, neg, ts[0]) == 0.0 == J(pos, neg, t);
    }
  }

  lemma NextBelow(s: seq<real>, ts: seq<real>, t: real, k: nat)
    requires Ascending(ts) && k < |ts| && (forall j :: 0 <= j < k ==> ts[j] < t)
    requires forall i :: 0 <= i < |s| ==> s[i] in ts
    ensures forall i :: 0 <= i < |s| && s[i] >= t ==> s[i] >= ts[k]
  {
    forall i | 0 <= i < |s| && s[i] >= t ensures s[i] >= ts[k] {
      var j :| 0 <= j < |ts| && ts[j] == s[i];
      assert j >= k;
    }
  }

  lemma Within(s: seq<real>, ts: seq<real>, t: real)
    requires Ascending(ts) && ts != [] && (forall j :: 0 <= j < |ts| ==> ts[j] < t)
    requires forall i :: 0 <= i < |s| ==> s[i] in ts
    ensures forall i :: 0 <= i < |s| ==> ts[0] <= s[i] < t
  {
    forall i | 0 <= i < |s| ensures ts[0] <= s[i] < t {
      var j :| 0 <= j < |ts| && ts[j] == s[i];
    }
  }

  lemma Whole(n: real)
    requires n > 0.0
    ensures n / n == 1.0 && 0.0 / n == 0.0
  {}

  /** The reported value is the rounded maximum over all real thresholds. */
  lemma {:induction false} ReportsTheMaximum(pos: seq<real>, neg: seq<real>)
    requires pos != [] && neg != []
    ensures var ts := Samples(pos + neg);
            var m := Highest(pos, neg, ts, |ts|);
            && Report(pos, neg, ts[Chosen(pos, neg, ts, |ts|)]).youdenJ == Round4(m)
            && (forall t: real :: J(pos, neg, t) <= m)
  {
    var ts := Samples(pos + neg);
    ChosenIsHighest(pos, neg, ts, |ts|);
    forall t: real ensures J(pos, neg, t) <= Highest(pos, neg, ts, |ts|) { SamplesSuffice(pos, neg, t); }
  }

  // ----- ties -----

  /** `l` is the lowest candidate that attains the maximum. */
  predicate LowestBest(pos: seq<real>, neg: seq<real>, ts: seq<real>, l: nat)
    requires pos != [] && neg != [] && 0 < |ts|
  {
    && l < |ts| && J(pos, neg, ts[l]) == Highest(pos, neg, ts, |ts|)
    && forall i :: 0 <= i < l ==> J(pos, neg, ts[i]) < Highest(pos, neg, ts, |ts|)
  }

  lemma {:induction false} HighestIsReached(pos: seq<real>, neg: seq<real>, ts: seq<real>, l: nat, k: nat)
    requires pos != [] && neg != [] && 0 < |ts| && LowestBest(pos, neg, ts, l) && l < k <= |ts|
    ensures Highest(pos, neg, ts, k) == Highest(pos, neg, ts, |ts|)
  {
    hide J;
    var m := Highest(pos, neg, ts, k);
    var i :| 0 <= i < k && J(pos, neg, ts[i]) == m;
  }

  /** No candidate between `l` and `k` beats the record. */
  predicate NoneBeats(pos: seq<real>, neg: seq<real>, ts: seq<real>, l: nat, k: nat, record: real)
    requires pos != [] && neg != [] && k <= |ts|
  {
    forall i :: l < i < k ==> J(pos, neg, ts[i]) <= record + SLACK
  }

  /** The search ends on the lowest best candidate exactly when that one beats the rounded record before
      it and no later candidate beats the rounded maximum. */
  lemma {:induction false} TiesGoLowestIff(pos: seq<real>, neg: seq<real>, ts: seq<real>, l: nat)
    requires pos != [] && neg != [] && 0 < |ts| && LowestBest(pos, neg, ts, l)
    ensures var m := Highest(pos, neg, ts, |ts|);
            Chosen(pos, neg, ts, |ts|) == l <==>
            (l == 0 || m > Round4(Highest(pos, neg, ts, l)) + SLACK) && NoneBeats(pos, neg, ts, l, |ts|, Round4(m))
    ensures forall i :: 0 <= i < |ts| && J(pos, neg, ts[i]) == Highest(pos, neg, ts, |ts|) ==> i >= l
  {
    hide J;
    TiesUpTo(pos, neg, ts, l, |ts|);
  }

  lemma LowestBestIs(pos: seq<real>, neg: seq<real>, ts: seq<real>, l: nat)
    requires pos != [] && neg != [] && 0 < |ts| && LowestBest(pos, neg, ts, l)
    ensures l < |ts| && J(pos, neg, ts[l]) == Highest(pos, neg, ts, |ts|)
  {}

  lemma {:induction false} TiesUpTo(pos: seq<real>, neg: seq<real>, ts: seq<real>, l: nat, k: nat)
    requires pos != [] && neg != [] && 0 < |ts| && LowestBest(pos, neg, ts, l) && l < k <= |ts|
    ensures var m := Highest(pos, neg, ts, |ts|);
            Chosen(pos, neg, ts, k) == l <==>
            (l == 0 || m > Round4(Highest(pos, neg, ts, l)) + SLACK) && NoneBeats(pos, neg, ts, l, k, Round4(m))
  {
    hide J, Round4, Highest, LowestBest;
    var m := Highest(pos, neg, ts, |ts|);
    LowestBestIs(pos, neg, ts, l);
    if k == l + 1 {
      assert NoneBeats(pos, neg, ts, l, k, Round4(m));
      if l > 0 { ChosenIsHighest(pos, neg, ts, l); }
    } else {
      TiesUpTo(pos, neg, ts, l, k - 1);
      ChosenIsHighest(pos, neg, ts, k - 1);
      HighestIsReached(pos, neg, ts, l, k - 1);
      assert NoneBeats(pos, neg, ts, l, k, Round4(m)) <==>
             NoneBeats(pos, neg, ts, l, k - 1, Round4(m)) && J(pos, neg, ts[k - 1]) <= Round4(m) + SLACK;
    }
  }

  // ----- AUC -----

  function Win(p: real, n: real): real { if p > n then 1.0 else if p == n then 0.5 else 0.0 }

  function WinsOf(p: real, neg: seq<real>): real {
    if neg == [] then 0.0 else WinsOf(p, neg[..|neg| - 1]) + Win(p, neg[|neg| - 1])
  }

  function Wins(pos: seq<real>, neg: seq<real>): real {
    if pos == [] then 0.0 else Wins(pos[..|pos| - 1], neg) + WinsOf(pos[|pos| - 1], neg)
  }

  function Auc(pos: seq<real>, neg: seq<real>): real
    requires pos != [] && neg != []
  {
    Wins(pos, neg) / (|pos| as real * |neg| as real)
  }

  method RocAuc(pos: seq<real>, neg: seq<real>) returns (auc: Option<real>)
    ensures auc == if pos == [] || neg == [] then None else Some(Round4(Auc(pos, neg)))
  {
    if pos == [] || neg == [] { return None; }
    var wins := 0.0;
    for i := 0 to |pos|
      invariant wins == Wins(pos[..i], neg)
    {
      ghost var before := wins;
      for k := 0 to |neg|
        invariant wins == before + WinsOf(pos[i], neg[..k])
      {
        assert neg[..k + 1][..k] == neg[..k];
        wins := wins + (if pos[i] > neg[k] then 1.0 else if pos[i] == neg[k] then 0.5 else 0.0);
      }
      assert neg[..|neg|] == neg && pos[..i + 1][..i] == pos[..i];
    }
    assert pos[..|pos|] == pos;
    return Some(Round4(wins / (|pos| as real * |neg| as real)));
  }

  /** One more negative adds its losses to every positive. */
  lemma {:induction false} WinsByColumn(pos: seq<real>, neg: seq<real>)
    requires neg != []
    ensures Wins(pos, neg) == Wins(pos, neg[..|neg| - 1]) + (|pos| as real - WinsOf(neg[|neg| - 1], pos))
  {
    if pos != [] { WinsByColumn(pos[..|pos| - 1], neg); }
  }

  lemma {:induction false} WinsAgainstNobody(pos: seq<real>)
    ensures Wins(pos, []) == 0.0
  {
    if pos != [] { WinsAgainstNobody(pos[..|pos| - 1]); }
  }

  /** Every pair is won once, by one side or half by each. */
  lemma {:induction false} WinsShareOut(pos: seq<real>, neg: seq<real>)
    ensures Wins(pos, neg) + Wins(neg, pos) == (|pos| * |neg|) as real
  {
    if neg == [] {
      WinsAgainstNobody(pos);
    } else {
      WinsShareOut(pos, neg[..|neg| - 1]);
      WinsByColumn(pos, neg);
      assert |pos| * |neg| == |pos| * (|neg| - 1) + |pos|;
    }
  }

  lemma {:induction false} AucsAddToOne(pos: seq<real>, neg: seq<real>)
    requires pos != [] && neg != []
    ensures Auc(pos, neg) + Auc(neg, pos) == 1.0
  {
    WinsShareOut(pos, neg);
    var a, b, n := Wins(pos, neg), Wins(neg, pos), (|pos| * |neg|) as real;
    assert |pos| as real * |neg| as real == n && |neg| as real * |pos| as real == n;
    Shares(a, b, n);
  }

  lemma Shares(a: real, b: real, n: real)
    requires n > 0.0 && a + b == n
    ensures a / n + b / n == 1.0
  {}

  lemma {:induction false} WinsOverBelow(p: real, neg: seq<real>, t: real)
    ensures WinsOf(p, neg) >= (if p >= t then (|neg| - CountGe(neg, t)) as real else 0.0)
  {
    if neg != [] { WinsOverBelow(p, neg[..|neg| - 1], t); }
  }

  /** Positives at or above a threshold beat the negatives below it. */
  lemma {:induction false} WinsOverThreshold(pos: seq<real>, neg: seq<real>, t: real)
    ensures Wins(pos, neg) >= (CountGe(pos, t) * (|neg| - CountGe(neg, t))) as real
  {
    if pos != [] {
      WinsOverThreshold(pos[..|pos| - 1], neg, t);
      WinsOverBelow(pos[|pos| - 1], neg, t);
      var c, k := CountGe(pos[..|pos| - 1], t), |neg| - CountGe(neg, t);
      assert (c + 1) * k == c * k + k;
    }
  }

  /** AUC is at least TPR(t) times the share of negatives below t, for every threshold. */
  lemma {:induction false} AucBoundsEveryThreshold(pos: seq<real>, neg: seq<real>, t: real)
    requires pos != [] && neg != []
    ensures Auc(pos, neg) >= Rate(pos, t) * (1.0 - Rate(neg, t))
  {
    hide Wins, CountGe;
    WinsOverThreshold(pos, neg, t);
    var c, e := CountGe(pos, t) as real, CountGe(neg, t) as real;
    var p, n := |pos| as real, |neg| as real;
    Rest(e, n);
    ProductOfShares(c, n - e, p, n);
    ProductAsReal(CountGe(pos, t), |neg| - CountGe(neg, t));
    Larger(c * (n - e), Wins(pos, neg), p * n);
  }

  lemma ProductAsReal(a: int, b: int)
    ensures (a * b) as real == a as real * b as real
  {}

  lemma Cancel(x: real, y: real, n: real)
    requires n > 0.0 && x * n == y * n
    ensures x == y
  {}

  lemma Rest(e: real, n: real)
    requires n > 0.0
    ensures 1.0 - e / n == (n - e) / n
  {
    var x, y := e / n, (n - e) / n;
    assert x * n == e && y * n == n - e;
    Cancel(1.0 - x, y, n);
  }

  lemma ProductOfShares(c: real, d: real, p: real, n: real)
    requires p > 0.0 && n > 0.0
    ensures (c / p) * (d / n) == (c * d) / (p * n)
  {
    var x, y := c / p, d / n;
    assert c == x * p && d == y * n;
    assert c * d == (x * y) * (p * n);
  }

  lemma Larger(a: real, b: real, m: real)
    requires a <= b && m > 0.0
    ensures a / m <= b / m
  {}

  // ----- the documented tie rule, and an input that breaks it -----

  /** Two thresholds tie at 1/3; the record of the first was rounded down, so the second displaces it. */
  lemma {:induction false} TiesCanGoHigher()
    ensures var pos, neg := [1.0, 2.0, 3.0], [1.0, 1.0, 2.0];
            && Samples(pos + neg) == [1.0, 2.0, 3.0]
            && LowestBest(pos, neg, [1.0, 2.0, 3.0], 1) && Chosen(pos, neg, [1.0, 2.0, 3.0], 3) == 2
  {
    var pos, neg := [1.0, 2.0, 3.0], [1.0, 1.0, 2.0];
    SamplesOfSix(pos + neg);
    JOfThree(pos, neg, 1.0);
    JOfThree(pos, neg, 2.0);
    JOfThree(pos, neg, 3.0);
    ThirdRounds();
    hide J, Round4, Samples, LowestBest, Chosen;
    SearchOverThree(pos, neg, pos);
  }

  lemma ThirdRounds()
    ensures Round4(0.0) == 0.0 && Round4(1.0 / 3.0) == 0.3333
  {}

  lemma JOfThree(pos: seq<real>, neg: seq<real>, t: real)
    requires |pos| == 3 && |neg| == 3
    ensures J(pos, neg, t) == (OneIf(pos[0] >= t) + OneIf(pos[1] >= t) + OneIf(pos[2] >= t)
                               - OneIf(neg[0] >= t) - OneIf(neg[1] >= t) - OneIf(neg[2] >= t)) as real / 3.0
  {
    CountThree(pos, t);
    CountThree(neg, t);
    hide CountGe;
  }

  function OneIf(b: bool): int { if b then 1 else 0 }

  lemma SearchOverThree(pos: seq<real>, neg: seq<real>, ts: seq<real>)
    requires pos != [] && neg != [] && |ts| == 3
    requires J(pos, neg, ts[0]) == 0.0 && J(pos, neg, ts[1]) == 1.0 / 3.0 && J(pos, neg, ts[2]) == 1.0 / 3.0
    requires Round4(0.0) == 0.0 && Round4(1.0 / 3.0) == 0.3333
    ensures LowestBest(pos, neg, ts, 1) && Chosen(pos, neg, ts, 3) == 2
  {
    hide J, Round4;
    assert Chosen(pos, neg, ts, 2) == 1;
    assert Highest(pos, neg, ts, 2) == 1.0 / 3.0;
  }

  lemma SamplesOfSix(s: seq<real>)
    requires s == [1.0, 2.0, 3.0, 1.0, 1.0, 2.0]
    ensures Samples(s) == [1.0, 2.0, 3.0]
  {
    hide Samples;
    FirstThree(s);
    SeenAgain(s, 3);
    SeenAgain(s, 4);
    SeenAgain(s, 5);
    assert s[..6] == s;
  }

  lemma FirstThree(s: seq<real>)
    requires |s| >= 3 && s[0] == 1.0 && s[1] == 2.0 && s[2] == 3.0
    ensures Samples(s[..3]) == [1.0, 2.0, 3.0]
  {
    hide Samples, Place;
    PlaceInThree();
    NoSamples(s[..0]);
    SamplesNext(s, 0, [], [1.0]);
    SamplesNext(s, 1, [1.0], [1.0, 2.0]);
    SamplesNext(s, 2, [1.0, 2.0], [1.0, 2.0, 3.0]);
  }

  lemma SeenAgain(s: seq<real>, k: nat)
    requires k < |s| && Samples(s[..k]) == [1.0, 2.0, 3.0] && (s[k] == 1.0 || s[k] == 2.0)
    ensures Samples(s[..k + 1]) == [1.0, 2.0, 3.0]
  {
    hide Samples, Place;
    PlaceInThree();
    SamplesNext(s, k, [1.0, 2.0, 3.0], [1.0, 2.0, 3.0]);
  }

  lemma SamplesNext(s: seq<real>, k: nat, was: seq<real>, now: seq<real>)
    requires k < |s| && Samples(s[..k]) == was && Place(s[k], was) == now
    ensures Samples(s[..k + 1]) == now
  {
    hide Samples, Place;
    SamplesStep(s, k);
  }

  lemma SamplesStep(s: seq<real>, k: nat)
    requires k < |s|
    ensures Samples(s[..k + 1]) == Place(s[k], Samples(s[..k]))
  {
    assert s[..k + 1][..k] == s[..k];
  }

  lemma NoSamples(s: seq<real>)
    requires s == []
    ensures Samples(s) == []
  {}

  lemma PlaceInThree()
    ensures Place(1.0, []) == [1.0] && Place(2.0, [1.0]) == [1.0, 2.0] && Place(3.0, [1.0, 2.0]) == [1.0, 2.0, 3.0]
    ensures Place(1.0, [1.0, 2.0, 3.0]) == [1.0, 2.0, 3.0] && Place(2.0, [1.0, 2.0, 3.0]) == [1.0, 2.0, 3.0]
  {
    hide Place;
    PlaceLast(1.0, []);
    PlaceLast(2.0, [1.0]);
    PlaceLast(3.0, [1.0, 2.0]);
    PlaceAgain();
  }

  lemma PlaceAgain()
    ensures Place(1.0, [1.0, 2.0, 3.0]) == [1.0, 2.0, 3.0] && Place(2.0, [1.0, 2.0, 3.0]) == [1.0, 2.0, 3.0]
  {
    hide Place;
    var three := [1.0, 2.0, 3.0];
    assert three[0] == 1.0 && three[1] == 2.0;
    PlaceKnown(three, 0);
    PlaceKnown(three, 1);
  }

  lemma PlaceLast(x: real, s: seq<real>)
    requires Ascending(s) && (s == [] || s[|s| - 1] < x)
    ensures Place(x, s) == s + [x]
  {}

  lemma {:induction false} PlaceKnown(s: seq<real>, k: nat)
    requires k < |s| && Ascending(s)
    ensures Place(s[k], s) == s
  {
    var n := |s| - 1;
    if k < n {
      var before := s[..n];
      assert s[k] < s[n] && before[k] == s[k] && Ascending(before);
      PlaceKnown(before, k);
      assert Place(s[k], s) == before + [s[n]] by { hide Ascending; }
    }
  }

  lemma CountThree(s: seq<real>, t: real)
    requires |s| == 3
    ensures CountGe(s, t) == OneIf(s[0] >= t) + OneIf(s[1] >= t) + OneIf(s[2] >= t)
  {
    assert s[..2][..1] == s[..1] && s[..1][..0] == [];
    assert CountGe(s[..1], t) == if s[0] >= t then 1 else 0;
  }
}
