/** The cross-entity conflict gate: same-frame crops of one kind that overlap or coincide are one conflict
    component, and at most its clear winner survives. */
module ConflictGate {
  import opened Basics
  import opened Sorting

  // ----- overlap -----

  /** A box as y0, x0, y1, x1; any integers. */
  datatype Box = Box(y0: int, x0: int, y1: int, x1: int)

  function Max(a: int, b: int): int { if a > b then a else b }

  function Min(a: int, b: int): int { if a < b then a else b }

  function Area(b: Box): (r: nat) {
    var h, w := Max(0, b.y1 - b.y0), Max(0, b.x1 - b.x0);
    NonNegative(h, w);
    h * w
  }

  lemma NonNegative(h: int, w: int)
    requires h >= 0 && w >= 0
    ensures h * w >= 0
  {}

  function Meet(a: Box, b: Box): Box {
    Box(Max(a.y0, b.y0), Max(a.x0, b.x0), Min(a.y1, b.y1), Min(a.x1, b.x1))
  }

  lemma ProductOrder(h: int, w: int, h': int, w': int)
    requires 0 <= h <= h' && 0 <= w <= w'
    ensures h * w <= h' * w'
  {
    assert h * w <= h' * w;
    assert h' * w <= h' * w';
  }

  lemma MeetIsSmaller(a: Box, b: Box)
    ensures Area(Meet(a, b)) <= Area(a) && Area(Meet(a, b)) <= Area(b)
  {
    var m := Meet(a, b);
    ProductOrder(Max(0, m.y1 - m.y0), Max(0, m.x1 - m.x0), Max(0, a.y1 - a.y0), Max(0, a.x1 - a.x0));
    ProductOrder(Max(0, m.y1 - m.y0), Max(0, m.x1 - m.x0), Max(0, b.y1 - b.y0), Max(0, b.x1 - b.x0));
  }

  /** Intersection over union; zero for two empty boxes. */
  function Iou(a: Box, b: Box): real {
    var inter := Area(Meet(a, b));
    var denom := Area(a) + Area(b) - inter;
    if denom > 0 then inter as real / denom as real else 0.0
  }

  lemma UnitQuotient(n: int, d: int)
    requires 0 <= n <= d && d > 0
    ensures 0.0 <= n as real / d as real <= 1.0
  {}

  /** For all integer boxes, inverted ones included, the ratio is symmetric and lies in [0, 1]. */
  lemma {:induction false} IouIsARatio(a: Box, b: Box)
    ensures Iou(a, b) == Iou(b, a) && 0.0 <= Iou(a, b) <= 1.0
  {
    MeetIsSmaller(a, b);
    assert Meet(a, b) == Meet(b, a);
    var inter := Area(Meet(a, b));
    var denom := Area(a) + Area(b) - inter;
    if denom > 0 { UnitQuotient(inter, denom); }
  }

  // ----- the ratio in unit squares -----

  /** The unit squares of a box. */
  ghost function Cells(b: Box): set<(int, int)> { set y, x | b.y0 <= y < b.y1 && b.x0 <= x < b.x1 :: (y, x) }

  lemma {:induction false} RowCount(y: int, x0: int, x1: int)
    ensures |Cells(Box(y, x0, y + 1, x1))| == Max(0, x1 - x0)
    decreases x1 - x0
  {
    var row := Cells(Box(y, x0, y + 1, x1));
    if x0 < x1 {
      RowCount(y, x0, x1 - 1);
      assert row == Cells(Box(y, x0, y + 1, x1 - 1)) + {(y, x1 - 1)};
    } else {
      assert row == {};
    }
  }

  lemma {:induction false} AreaCountsCells(b: Box)
    ensures |Cells(b)| == Area(b)
    decreases b.y1 - b.y0
  {
    if b.y0 < b.y1 {
      var above, row := b.(y1 := b.y1 - 1), Box(b.y1 - 1, b.x0, b.y1, b.x1);
      AreaCountsCells(above);
      RowCount(b.y1 - 1, b.x0, b.x1);
      assert Cells(b) == Cells(above) + Cells(row) && Cells(above) !! Cells(row);
      OneRowMore(b.y1 - b.y0 - 1, Max(0, b.x1 - b.x0));
    } else {
      assert Cells(b) == {};
    }
  }

  lemma OneRowMore(h: int, w: int)
    ensures (h + 1) * w == h * w + w
  {}

  lemma MeetSharesCells(a: Box, b: Box)
    ensures Cells(Meet(a, b)) == Cells(a) * Cells(b)
  {}

  /** Shared squares over covered squares, and zero where none is covered. */
  lemma {:induction false} IouCountsCells(a: Box, b: Box)
    ensures Iou(a, b) * |Cells(a) + Cells(b)| as real == |Cells(a) * Cells(b)| as real
    ensures Cells(a) + Cells(b) == {} ==> Iou(a, b) == 0.0
  {
    hide Area, Cells, Meet;
    AreaCountsCells(a);
    AreaCountsCells(b);
    AreaCountsCells(Meet(a, b));
    MeetSharesCells(a, b);
    assert |Cells(a) + Cells(b)| == |Cells(a)| + |Cells(b)| - |Cells(a) * Cells(b)|;
  }

  /** One exactly for equal boxes that are not empty, zero exactly where no square is shared. */
  lemma {:induction false} IouExtremes(a: Box, b: Box)
    ensures Iou(a, b) == 1.0 <==> a == b && a.y0 < a.y1 && a.x0 < a.x1
    ensures Iou(a, b) == 0.0 <==> Cells(a) * Cells(b) == {}
  {
    IouCountsCells(a, b);
    hide Iou, Cells;
    var all, both := Cells(a) + Cells(b), Cells(a) * Cells(b);
    if Iou(a, b) == 1.0 {
      SameCount(both, all);
      assert Cells(a) == Cells(b) && Cells(a) != {};
      CellsTellTheBox(a, b);
    }
    if a == b && a.y0 < a.y1 && a.x0 < a.x1 {
      SomeCell(a);
      assert both == all;
      RatioAtLeast(Iou(a, b), |both| as real, |all| as real, 1.0);
      RatioAtMost(Iou(a, b), |both| as real, |all| as real, 1.0);
    }
  }

  lemma RatioAtLeast(r: real, part: real, all: real, t: real)
    requires r * all == part && all > 0.0
    ensures r >= t <==> part >= t * all
  {
    if r >= t { assert (r - t) * all >= 0.0; } else { assert (t - r) * all > 0.0; }
  }

  lemma RatioAtMost(r: real, part: real, all: real, t: real)
    requires r * all == part && all > 0.0
    ensures r <= t <==> part <= t * all
  {
    if r <= t { assert (t - r) * all >= 0.0; } else { assert (r - t) * all > 0.0; }
  }

  lemma SomeCell(a: Box)
    requires a.y0 < a.y1 && a.x0 < a.x1
    ensures Cells(a) != {}
  {
    assert (a.y0, a.x0) in Cells(a);
  }

  lemma SameCount<T>(a: set<T>, b: set<T>)
    requires a <= b && |a| == |b|
    ensures a == b
  {
    assert |b - a| == 0;
  }

  lemma CellsTellTheBox(a: Box, b: Box)
    requires Cells(a) == Cells(b) != {}
    ensures a == b && a.y0 < a.y1 && a.x0 < a.x1
  {
    var y, x :| (y, x) in Cells(a);
    assert (a.y0, x) in Cells(b) && (b.y0, x) in Cells(a) && (a.y1 - 1, x) in Cells(b) && (b.y1 - 1, x) in Cells(a);
    assert (y, a.x0) in Cells(b) && (y, b.x0) in Cells(a) && (y, a.x1 - 1) in Cells(b) && (y, b.x1 - 1) in Cells(a);
  }

  // ----- proposals -----

  datatype Verdict = Ungated | Passed(peers: seq<string>) | Failed(peers: seq<string>)

  datatype Proposal = Proposal(accepted: bool, acquire: bool, kind: string, chunk: int, frame: int,
                               box: Option<Box>, crop: string, entity: string, confidence: string,
                               detector: real, reasons: seq<string>, gate: Verdict)

  function Score(p: Proposal): real {
    (match Lower(p.confidence) case "high" => 0.9 case "medium" => 0.6 case "low" => 0.3 case _ => 0.0)
    + 0.05 * p.detector
  }

  /** Three words in any case, three tenths apart, and a twentieth of the detector's score; any other word, or none,
      ranks below them. */
  lemma ScoreByWord(p: Proposal, k: nat)
    requires k < 3
    ensures Lower(p.confidence) == ["low", "medium", "high"][k] ==> Score(p) == 0.3 * (k + 1) as real + 0.05 * p.detector
    ensures Lower(p.confidence) !in ["low", "medium", "high"] ==> Score(p) == 0.05 * p.detector
  {}

  datatype Config = Config(threshold: real, margin: real)

  predicate Eligible(p: Proposal) {
    p.accepted && p.acquire && p.kind != "location" && p.box.Some?
  }

  predicate SameGroup(p: Proposal, q: Proposal) {
    p.chunk == q.chunk && p.frame == q.frame && p.kind == q.kind
  }

  /** Coinciding crops (two missing paths coincide) or boxes that overlap enough. */
  predicate Clash(g: Config, p: Proposal, q: Proposal) {
    p.crop == q.crop || (p.box.Some? && q.box.Some? && Iou(p.box.value, q.box.value) >= g.threshold)
  }

  predicate Conflict(g: Config, ps: seq<Proposal>, i: nat, j: nat) {
    && i < |ps| && j < |ps| && i != j
    && Eligible(ps[i]) && Eligible(ps[j]) && SameGroup(ps[i], ps[j]) && Clash(g, ps[i], ps[j])
  }

  lemma ConflictIsSymmetric(g: Config, ps: seq<Proposal>, i: nat, j: nat)
    ensures Conflict(g, ps, i, j) <==> Conflict(g, ps, j, i)
  {
    if i < |ps| && j < |ps| && ps[i].box.Some? && ps[j].box.Some? {
      IouIsARatio(ps[i].box.value, ps[j].box.value);
    }
  }

  // ----- components -----

  ghost predicate IsPath(g: Config, ps: seq<Proposal>, path: seq<nat>) {
    path != [] && forall k :: 0 <= k < |path| - 1 ==> Conflict(g, ps, path[k], path[k + 1])
  }

  ghost predicate Reach(g: Config, ps: seq<Proposal>, i: nat, j: nat) {
    exists path :: IsPath(g, ps, path) && path[0] == i && path[|path| - 1] == j
  }

  ghost predicate Closed(g: Config, ps: seq<Proposal>, s: set<nat>) {
    forall i, j :: i in s && Conflict(g, ps, i, j) ==> j in s
  }

  lemma {:induction false} PathStays(g: Config, ps: seq<Proposal>, path: seq<nat>, s: set<nat>)
    requires IsPath(g, ps, path) && Closed(g, ps, s) && path[0] in s
    ensures path[|path| - 1] in s
  {
    if |path| > 1 {
      var before := path[..|path| - 1];
      assert IsPath(g, ps, before);
      PathStays(g, ps, before, s);
      assert Conflict(g, ps, path[|path| - 2], path[|path| - 1]);
    }
  }

  lemma ReachStays(g: Config, ps: seq<Proposal>, i: nat, j: nat, s: set<nat>)
    requires Reach(g, ps, i, j) && Closed(g, ps, s) && i in s
    ensures j in s
  {
    var path :| IsPath(g, ps, path) && path[0] == i && path[|path| - 1] == j;
    PathStays(g, ps, path, s);
  }

  lemma ReachSelf(g: Config, ps: seq<Proposal>, i: nat)
    ensures Reach(g, ps, i, i)
  {
    assert IsPath(g, ps, [i]);
  }

  lemma ReachStep(g: Config, ps: seq<Proposal>, i: nat, j: nat, k: nat)
    requires Reach(g, ps, i, j) && Conflict(g, ps, j, k)
    ensures Reach(g, ps, i, k)
  {
    var path :| IsPath(g, ps, path) && path[0] == i && path[|path| - 1] == j;
    var longer := path + [k];
    assert IsPath(g, ps, longer) by {
      forall h | 0 <= h < |longer| - 1 ensures Conflict(g, ps, longer[h], longer[h + 1]) {
        if h < |path| - 1 { assert Conflict(g, ps, path[h], path[h + 1]); }
      }
    }
  }

  lemma {:induction false} PathReachesBack(g: Config, ps: seq<Proposal>, path: seq<nat>)
    requires IsPath(g, ps, path)
    ensures Reach(g, ps, path[|path| - 1], path[0])
  {
    if |path| == 1 {
      ReachSelf(g, ps, path[0]);
    } else {
      var rest := path[1..];
      assert IsPath(g, ps, rest) by {
        forall h | 0 <= h < |rest| - 1 ensures Conflict(g, ps, rest[h], rest[h + 1]) {
          assert Conflict(g, ps, path[h + 1], path[h + 2]);
        }
      }
      PathReachesBack(g, ps, rest);
      assert Conflict(g, ps, path[0], path[1]);
      ConflictIsSymmetric(g, ps, path[0], path[1]);
      ReachStep(g, ps, path[|path| - 1], path[1], path[0]);
    }
  }

  lemma ReachBack(g: Config, ps: seq<Proposal>, i: nat, j: nat)
    requires Reach(g, ps, i, j)
    ensures Reach(g, ps, j, i)
  {
    var path :| IsPath(g, ps, path) && path[0] == i && path[|path| - 1] == j;
    PathReachesBack(g, ps, path);
  }

  lemma ReachOn(g: Config, ps: seq<Proposal>, i: nat, j: nat, k: nat)
    requires Reach(g, ps, i, j) && Reach(g, ps, j, k)
    ensures Reach(g, ps, i, k)
  {
    var p :| IsPath(g, ps, p) && p[0] == i && p[|p| - 1] == j;
    var q :| IsPath(g, ps, q) && q[0] == j && q[|q| - 1] == k;
    var r := p + q[1..];
    forall h | 0 <= h < |r| - 1 ensures Conflict(g, ps, r[h], r[h + 1]) {
      if h < |p| - 1 {
        assert Conflict(g, ps, p[h], p[h + 1]);
      } else {
        assert Conflict(g, ps, q[h - |p| + 1], q[h - |p| + 2]);
      }
    }
    assert IsPath(g, ps, r);
  }

  /** A set is the component of `i` when it holds exactly what `i` reaches. */
  ghost predicate IsComponent(g: Config, ps: seq<Proposal>, i: nat, c: set<nat>) {
    forall j :: j in c <==> Reach(g, ps, i, j)
  }

  /** A component belongs to each of its members. */
  lemma {:induction false} ComponentOfMember(g: Config, ps: seq<Proposal>, i: nat, j: nat, c: set<nat>)
    requires IsComponent(g, ps, i, c) && j in c
    ensures IsComponent(g, ps, j, c)
  {
    ReachBack(g, ps, i, j);
    forall k ensures k in c <==> Reach(g, ps, j, k) {
      if k in c { ReachOn(g, ps, j, i, k); }
      if Reach(g, ps, j, k) { ReachOn(g, ps, i, j, k); }
    }
  }

  // ----- who survives -----

  /** Ranked before: a higher score or, the sort being stable, an equal one and a lower index. */
  predicate Ahead(ps: seq<Proposal>, i: nat, j: nat) {
    ScoreAt(ps, i) > ScoreAt(ps, j) || (ScoreAt(ps, i) == ScoreAt(ps, j) && i < j)
  }

  function ScoreAt(ps: seq<Proposal>, i: nat): real { if i < |ps| then Score(ps[i]) else 0.0 }

  predicate Beats(g: Config, ps: seq<Proposal>, i: nat, j: nat) {
    Ahead(ps, i, j) && ScoreAt(ps, i) - ScoreAt(ps, j) >= g.margin
  }

  /** Accepted before, and beating everything it is in conflict with, directly or through others. */
  ghost predicate Survives(g: Config, ps: seq<Proposal>, i: nat)
    requires i < |ps|
  {
    ps[i].accepted
    && (Eligible(ps[i]) ==>
          forall j: nat :: j != i && Reach(g, ps, i, j) ==> j < |ps| && Beats(g, ps, i, j))
  }

  /** Of two survivors neither beats the other, so they are in no conflict. */
  lemma {:induction false} SurvivorsDoNotConflict(g: Config, ps: seq<Proposal>, i: nat, j: nat)
    requires i < |ps| && j < |ps| && Survives(g, ps, i) && Survives(g, ps, j)
    ensures !Conflict(g, ps, i, j)
  {
    if Conflict(g, ps, i, j) {
      ReachSelf(g, ps, i);
      ReachStep(g, ps, i, i, j);
      ReachBack(g, ps, i, j);
      assert false;
    }
  }

  // ----- order of the proposals -----

  /** `qs` lists the proposals of `ps` in the order `perm`, and `inv` undoes `perm`. */
  ghost predicate Reorders(ps: seq<Proposal>, qs: seq<Proposal>, perm: seq<nat>, inv: seq<nat>) {
    && |ps| == |qs| == |perm| == |inv|
    && (forall k :: 0 <= k < |qs| ==> perm[k] < |ps| && qs[k] == ps[perm[k]] && inv[perm[k]] == k)
    && (forall i :: 0 <= i < |ps| ==> inv[i] < |qs| && perm[inv[i]] == i)
  }

  lemma ReorderedConflict(g: Config, ps: seq<Proposal>, qs: seq<Proposal>, perm: seq<nat>, inv: seq<nat>, k: nat, l: nat)
    requires Reorders(ps, qs, perm, inv) && k < |qs| && l < |qs|
    ensures Conflict(g, qs, k, l) <==> Conflict(g, ps, perm[k], perm[l])
  {
    hide Eligible, SameGroup, Clash;
    assert inv[perm[k]] == k && inv[perm[l]] == l;
  }

  lemma {:induction false} ReorderedReach(g: Config, ps: seq<Proposal>, qs: seq<Proposal>, perm: seq<nat>,
                                          inv: seq<nat>, k: nat, l: nat)
    requires Reorders(ps, qs, perm, inv) && k < |qs| && l < |qs| && Reach(g, qs, k, l)
    ensures Reach(g, ps, perm[k], perm[l])
  {
    hide Conflict;
    var path :| IsPath(g, qs, path) && path[0] == k && path[|path| - 1] == l;
    forall h | 0 <= h < |path| ensures path[h] < |qs| {
      InRange(g, qs, path, h);
    }
    var image := seq(|path|, h requires 0 <= h < |path| => perm[path[h]]);
    forall h | 0 <= h < |image| - 1 ensures Conflict(g, ps, image[h], image[h + 1]) {
      assert Conflict(g, qs, path[h], path[h + 1]);
      ReorderedConflict(g, ps, qs, perm, inv, path[h], path[h + 1]);
    }
    assert IsPath(g, ps, image);
  }

  lemma InRange(g: Config, ps: seq<Proposal>, path: seq<nat>, h: nat)
    requires IsPath(g, ps, path) && path[0] < |ps| && h < |path|
    ensures path[h] < |ps|
  {
    if h > 0 { assert Conflict(g, ps, path[h - 1], path[h]); }
  }

  lemma ReachInRange(g: Config, ps: seq<Proposal>, i: nat, j: nat)
    requires i < |ps| && Reach(g, ps, i, j)
    ensures j < |ps|
  {
    var path :| IsPath(g, ps, path) && path[0] == i && path[|path| - 1] == j;
    InRange(g, ps, path, |path| - 1);
  }

  lemma ReordersBack(ps: seq<Proposal>, qs: seq<Proposal>, perm: seq<nat>, inv: seq<nat>)
    requires Reorders(ps, qs, perm, inv)
    ensures Reorders(qs, ps, inv, perm)
  {}

  /** Its place decides over it: no margin is asked for, and it is one of several with the best score. */
  ghost predicate OrderDecides(g: Config, ps: seq<Proposal>, i: nat)
    requires i < |ps|
  {
    && g.margin <= 0.0 && Eligible(ps[i])
    && (forall j: nat :: Reach(g, ps, i, j) ==> ScoreAt(ps, i) >= ScoreAt(ps, j))
    && exists j: nat :: j != i && Reach(g, ps, i, j) && ScoreAt(ps, j) == ScoreAt(ps, i)
  }

  lemma {:induction false} SurvivesInAnyOrder(g: Config, ps: seq<Proposal>, qs: seq<Proposal>, perm: seq<nat>,
                                              inv: seq<nat>, k: nat)
    requires Reorders(ps, qs, perm, inv) && k < |qs| && Survives(g, ps, perm[k]) && !OrderDecides(g, ps, perm[k])
    ensures Survives(g, qs, k)
  {
    hide Eligible, Reach, Score;
    var i := perm[k];
    forall l: nat | l != k && Reach(g, qs, k, l) && Eligible(qs[k]) ensures l < |qs| && Beats(g, qs, k, l) {
      ReachInRange(g, qs, k, l);
      ReorderedReach(g, ps, qs, perm, inv, k, l);
      assert inv[i] == k && inv[perm[l]] == l;
      assert Beats(g, ps, i, perm[l]);
      if ScoreAt(ps, i) == ScoreAt(ps, perm[l]) { BestIsFirst(g, ps, i); }
    }
  }

  lemma BestIsFirst(g: Config, ps: seq<Proposal>, i: nat)
    requires i < |ps| && Survives(g, ps, i) && Eligible(ps[i])
    ensures forall j: nat :: Reach(g, ps, i, j) ==> ScoreAt(ps, i) >= ScoreAt(ps, j)
  {
    hide Eligible, Reach, Score;
    forall j: nat | Reach(g, ps, i, j) ensures ScoreAt(ps, i) >= ScoreAt(ps, j) {
      if j != i { assert Beats(g, ps, i, j); }
    }
  }

  lemma OrderDecidesInOrder(g: Config, ps: seq<Proposal>, qs: seq<Proposal>, perm: seq<nat>, inv: seq<nat>, k: nat)
    requires Reorders(ps, qs, perm, inv) && k < |qs| && OrderDecides(g, qs, k)
    ensures OrderDecides(g, ps, perm[k])
  {
    hide Eligible, Reach, Score;
    var i := perm[k];
    assert inv[i] == k;
    ReordersBack(ps, qs, perm, inv);
    forall j: nat | Reach(g, ps, i, j) ensures ScoreAt(ps, i) >= ScoreAt(ps, j) {
      ReachInRange(g, ps, i, j);
      ReorderedReach(g, qs, ps, inv, perm, i, j);
      assert perm[inv[j]] == j;
    }
    var l: nat :| l != k && Reach(g, qs, k, l) && ScoreAt(qs, l) == ScoreAt(qs, k);
    ReachInRange(g, qs, k, l);
    ReorderedReach(g, ps, qs, perm, inv, k, l);
    assert inv[perm[l]] == l;
  }

  /** Unless its place decides, a proposal survives in any order or in none. */
  lemma {:induction false} SurvivalIgnoresOrder(g: Config, ps: seq<Proposal>, qs: seq<Proposal>, perm: seq<nat>,
                                                inv: seq<nat>, k: nat)
    requires Reorders(ps, qs, perm, inv) && k < |qs| && !OrderDecides(g, ps, perm[k])
    ensures Survives(g, qs, k) <==> Survives(g, ps, perm[k])
  {
    hide Survives, OrderDecides;
    ReordersBack(ps, qs, perm, inv);
    assert inv[perm[k]] == k;
    if Survives(g, ps, perm[k]) { SurvivesInAnyOrder(g, ps, qs, perm, inv, k); }
    if Survives(g, qs, k) {
      if OrderDecides(g, qs, k) { OrderDecidesInOrder(g, ps, qs, perm, inv, k); }
      SurvivesInAnyOrder(g, qs, ps, inv, perm, perm[k]);
    }
  }

  function Exchanged<T>(s: seq<T>, i: nat, j: nat): seq<T>
    requires i < |s| && j < |s|
  {
    s[i := s[j]][j := s[i]]
  }

  lemma ExchangeReorders(ps: seq<Proposal>, i: nat, j: nat)
    requires i < |ps| && j < |ps|
    ensures var perm := Exchanged(seq(|ps|, h => h), i, j);
            Reorders(ps, Exchanged(ps, i, j), perm, perm)
  {}

  /** A survivor by its place is lost when it changes places with one it is tied with. */
  lemma PlaceLost(g: Config, ps: seq<Proposal>, i: nat, j: nat)
    requires i < |ps| && OrderDecides(g, ps, i) && Survives(g, ps, i)
    requires j != i && Reach(g, ps, i, j) && ScoreAt(ps, j) == ScoreAt(ps, i)
    ensures j < |ps| && !Survives(g, Exchanged(ps, i, j), j)
  {
    hide Score, Reach, Eligible;
    ReachInRange(g, ps, i, j);
    assert Beats(g, ps, i, j);
    var qs, perm := Exchanged(ps, i, j), Exchanged(seq(|ps|, h => h), i, j);
    ExchangeReorders(ps, i, j);
    ReordersBack(ps, qs, perm, perm);
    ReorderedReach(g, qs, ps, perm, perm, i, j);
    assert Reach(g, qs, j, i);
    assert !Beats(g, qs, j, i);
  }

  /** The first place among those tied for the best score. */
  lemma FirstPlace(g: Config, ps: seq<Proposal>, i: nat) returns (m: nat)
    requires i < |ps| && OrderDecides(g, ps, i)
    ensures m <= i && Reach(g, ps, i, m) && ScoreAt(ps, m) == ScoreAt(ps, i)
    ensures forall j: nat :: Reach(g, ps, i, j) && ScoreAt(ps, j) == ScoreAt(ps, i) ==> m <= j
  {
    hide Score, Reach, Eligible;
    ReachSelf(g, ps, i);
    var tied := set j: nat | j <= i && Reach(g, ps, i, j) && ScoreAt(ps, j) == ScoreAt(ps, i);
    assert i in tied;
    m := 0;
    while m !in tied
      invariant m <= i && forall j :: j in tied ==> m <= j
      decreases i - m
    {
      m := m + 1;
    }
    forall j: nat | Reach(g, ps, i, j) && ScoreAt(ps, j) == ScoreAt(ps, i) ensures m <= j {
      if j <= i { assert j in tied; }
    }
  }

  /** One whose place was too late survives in the first place of those it is tied with. */
  lemma PlaceWon(g: Config, ps: seq<Proposal>, i: nat, m: nat)
    requires i < |ps| && OrderDecides(g, ps, i) && m < i && Reach(g, ps, i, m) && ScoreAt(ps, m) == ScoreAt(ps, i)
    requires forall j: nat :: Reach(g, ps, i, j) && ScoreAt(ps, j) == ScoreAt(ps, i) ==> m <= j
    ensures Survives(g, Exchanged(ps, m, i), m)
  {
    hide Score, Reach, Eligible;
    var qs, perm := Exchanged(ps, m, i), Exchanged(seq(|ps|, h => h), m, i);
    ExchangeReorders(ps, m, i);
    forall l: nat | l != m && Reach(g, qs, m, l) ensures l < |qs| && Beats(g, qs, m, l) {
      ReachInRange(g, qs, m, l);
      ReorderedReach(g, ps, qs, perm, perm, m, l);
      assert Reach(g, ps, i, perm[l]);
    }
    assert qs[m].accepted by { EligibleAccepted(ps[i]); }
  }

  lemma EligibleAccepted(p: Proposal)
    requires Eligible(p)
    ensures p.accepted
  {}

  // ----- the search -----

  /** Adjacency of one group: the keys are its members with a conflict, each with all its conflicts. */
  ghost predicate Adjacency(g: Config, ps: seq<Proposal>, items: seq<nat>, adj: map<nat, set<nat>>) {
    && (forall i :: i in adj ==> i in items && adj[i] != {})
    && (forall i, j :: i in items && Conflict(g, ps, i, j) ==> i in adj && j in adj[i])
    && (forall i, j :: i in adj && j in adj[i] ==> Conflict(g, ps, i, j) && j in items)
  }

  /** `list(s)` for a set of indices below `n`. */
  function Listed(s: set<nat>, n: nat): (r: seq<nat>)
    ensures forall x :: x in r <==> x in s && x < n
    ensures Distinct(r)
  {
    if n == 0 then [] else Listed(s, n - 1) + (if n - 1 in s then [n - 1] else [])
  }

  method Component(g: Config, ghost ps: seq<Proposal>, ghost items: seq<nat>, adj: map<nat, set<nat>>, start: nat, n: nat)
    returns (component: set<nat>)
    requires Adjacency(g, ps, items, adj) && start in adj && n == |ps|
    ensures IsComponent(g, ps, start, component)
    ensures component <= adj.Keys && forall i :: i in component ==> i < n
    ensures |component| >= 2
  {
    component := {};
    var stack := [start];
    ReachSelf(g, ps, start);
    var left := adj.Keys;
    while stack != []
      invariant component <= adj.Keys && left == adj.Keys - component
      invariant start in component || start in stack
      invariant forall i :: i in component ==> Reach(g, ps, start, i)
      invariant forall i :: i in stack ==> Reach(g, ps, start, i) && i in adj
      invariant forall i, j :: i in component && j in adj[i] ==> j in component || j in stack
      decreases left, |stack|
    {
      var index := stack[|stack| - 1];
      ghost var was := stack;
      assert index in stack;
      stack := stack[..|stack| - 1];
      assert forall x :: x in was ==> x in stack || x == index;
      if index in component { continue; }
      component := component + {index};
      left := left - {index};
      NeighboursReached(g, ps, items, adj, start, index, n);
      stack := stack + Listed(adj[index], n);
    }
    ClosedComponent(g, ps, items, adj, start, component);
    MoreThanOne(g, ps, items, adj, start, component);
  }

  lemma NeighboursReached(g: Config, ps: seq<Proposal>, items: seq<nat>, adj: map<nat, set<nat>>, start: nat,
                          index: nat, n: nat)
    requires Adjacency(g, ps, items, adj) && index in adj && Reach(g, ps, start, index) && n == |ps|
    ensures forall j :: j in adj[index] ==> Reach(g, ps, start, j) && j in adj && j < n
  {
    forall j | j in adj[index] ensures Reach(g, ps, start, j) && j in adj && j < n {
      assert Conflict(g, ps, index, j);
      ReachStep(g, ps, start, index, j);
      ConflictIsSymmetric(g, ps, index, j);
      assert j in items && Conflict(g, ps, j, index);
    }
  }

  lemma ClosedComponent(g: Config, ps: seq<Proposal>, items: seq<nat>, adj: map<nat, set<nat>>, start: nat, c: set<nat>)
    requires Adjacency(g, ps, items, adj) && c <= adj.Keys && start in c
    requires forall i :: i in c ==> Reach(g, ps, start, i)
    requires forall i, j :: i in c && j in adj[i] ==> j in c
    ensures IsComponent(g, ps, start, c) && forall i :: i in c ==> i < |ps|
  {
    assert Closed(g, ps, c) by {
      forall i, j | i in c && Conflict(g, ps, i, j) ensures j in c { assert i in items; }
    }
    forall j | Reach(g, ps, start, j) ensures j in c { ReachStays(g, ps, start, j, c); }
    forall i | i in c ensures i < |ps| {
      var j :| j in adj[i];
      assert Conflict(g, ps, i, j);
    }
  }

  lemma MoreThanOne(g: Config, ps: seq<Proposal>, items: seq<nat>, adj: map<nat, set<nat>>, start: nat, c: set<nat>)
    requires Adjacency(g, ps, items, adj) && start in adj && IsComponent(g, ps, start, c)
    ensures |c| >= 2
  {
    var j :| j in adj[start];
    assert Conflict(g, ps, start, j);
    ReachSelf(g, ps, start);
    ReachStep(g, ps, start, start, j);
    assert {start, j} <= c;
    TwoElements(start, j, c);
  }

  lemma TwoElements(a: nat, b: nat, c: set<nat>)
    requires a != b && a in c && b in c
    ensures |c| >= 2
  {
    assert |c - {a}| == |c| - 1 && b in c - {a};
  }

  // ----- the gate -----

  /** The same crop, whatever its verdict: the gate changes nothing else. */
  predicate SameCrop(p: Proposal, q: Proposal) {
    p == q.(accepted := p.accepted, reasons := p.reasons, gate := p.gate)
  }

  /** `list(dict.fromkeys(s))`. */
  function FirstOccurrences(s: seq<string>): (r: seq<string>)
    ensures Distinct(r) && forall x :: x in r <==> x in s
  {
    if s == [] then []
    else
      var r := FirstOccurrences(s[..|s| - 1]);
      assert s == s[..|s| - 1] + [s[|s| - 1]];
      if s[|s| - 1] in r then r else r + [s[|s| - 1]]
  }

  /** A list without repetitions, with one more at its end. */
  lemma {:induction false} FirstOfDistinct(s: seq<string>, x: string)
    requires Distinct(s)
    ensures FirstOccurrences(s + [x]) == if x in s then s else s + [x]
  {
    FirstIsSame(s);
    assert (s + [x])[..|s|] == s;
  }

  lemma {:induction false} FirstIsSame(s: seq<string>)
    requires Distinct(s)
    ensures FirstOccurrences(s) == s
  {
    if s != [] {
      FirstIsSame(s[..|s| - 1]);
      assert s == s[..|s| - 1] + [s[|s| - 1]];
    }
  }

  function Reject(p: Proposal, peers: seq<string>): Proposal {
    p.(accepted := false, reasons := FirstOccurrences(p.reasons + ["cross_entity_bbox_conflict"]),
       gate := Failed(peers))
  }

  /** `k` is ranked first in the component, with the margin to the rest. */
  predicate Leads(g: Config, ps: seq<Proposal>, c: set<nat>, k: nat) {
    k in c && forall j :: j in c && j != k ==> Beats(g, ps, k, j)
  }

  predicate RankedBy(ps: seq<Proposal>, ranked: seq<nat>) {
    forall i, j :: 0 <= i < j < |ranked| ==> Ahead(ps, ranked[i], ranked[j])
  }

  /** The clear winner of a component, if any. Components have at least two members, so the source's
      branch for a single one has nothing to do. */
  method Rank(g: Config, ps: seq<Proposal>, c: set<nat>) returns (keep: Option<nat>)
    requires (forall i :: i in c ==> i < |ps|) && |c| >= 2
    ensures keep.Some? ==> Leads(g, ps, c, keep.value)
    ensures keep.None? ==> forall k :: !Leads(g, ps, c, k)
  {
    hide Score;
    var ranked := Ranking(ps, c);
    if ScoreAt(ps, ranked[0]) - ScoreAt(ps, ranked[1]) >= g.margin {
      Leader(g, ps, c, ranked);
      return Some(ranked[0]);
    }
    NoLeader(g, ps, c, ranked);
    return None;
  }

  method Ranking(ps: seq<Proposal>, c: set<nat>) returns (ranked: seq<nat>)
    requires forall i :: i in c ==> i < |ps|
    ensures |ranked| == |c| && RankedBy(ps, ranked)
    ensures forall x :: x in ranked <==> x in c
  {
    var listed := Listed(c, |ps|);
    ListedCount(c, |ps|);
    ListedAscends(c, |ps|);
    ranked := Sort(listed, ByScore(ps));
    StableRanking(ps, listed);
    SameElements(listed, ranked);
  }

  function ByScore(ps: seq<Proposal>): (nat, nat) -> bool { (x: nat, y: nat) => ScoreAt(ps, x) >= ScoreAt(ps, y) }

  predicate Ascends(s: seq<nat>) { forall i, j :: 0 <= i < j < |s| ==> s[i] < s[j] }

  lemma {:induction false} ListedAscends(s: set<nat>, n: nat)
    ensures Ascends(Listed(s, n))
  {
    if n > 0 {
      ListedAscends(s, n - 1);
      var before := Listed(s, n - 1);
      forall k | 0 <= k < |before| ensures before[k] < n - 1 { assert before[k] in before; }
    }
  }

  /** Equal scores keep the ascending order they had. */
  lemma {:induction false} StableRanking(ps: seq<Proposal>, s: seq<nat>)
    requires Ascends(s)
    ensures RankedBy(ps, Sort(s, ByScore(ps)))
  {
    hide Score;
    if s != [] {
      StableRanking(ps, s[1..]);
      SameElements(s[1..], Sort(s[1..], ByScore(ps)));
      StableInsert(ps, s[0], Sort(s[1..], ByScore(ps)));
    }
  }

  lemma {:induction false} StableInsert(ps: seq<Proposal>, x: nat, s: seq<nat>)
    requires RankedBy(ps, s) && forall y :: y in s ==> x < y
    ensures RankedBy(ps, Insert(x, s, ByScore(ps)))
  {
    hide ScoreAt;
    if s == [] || ByScore(ps)(x, s[0]) {
      forall k | 0 <= k < |s| ensures Ahead(ps, x, s[k]) {
        assert s[k] in s && (k > 0 ==> Ahead(ps, s[0], s[k]));
      }
    } else {
      assert forall y :: y in s[1..] ==> y in s;
      StableInsert(ps, x, s[1..]);
      var r := Insert(x, s[1..], ByScore(ps));
      forall k | 0 <= k < |r| ensures Ahead(ps, s[0], r[k]) {
        assert r[k] in multiset(r);
        assert r[k] == x || r[k] in s[1..];
        if r[k] in s[1..] {
          var h :| 1 <= h < |s| && s[h] == r[k];
          assert Ahead(ps, s[0], s[h]);
        }
      }
    }
  }

  lemma {:induction false} ListedCount(s: set<nat>, n: nat)
    requires forall x :: x in s ==> x < n
    ensures |Listed(s, n)| == |s|
  {
    if n == 0 {
      assert s == {};
    } else {
      ListedCount(s - {n - 1}, n - 1);
      ListedBelow(s, n - 1);
    }
  }

  lemma {:induction false} ListedBelow(s: set<nat>, n: nat)
    ensures Listed(s, n) == Listed(s - {n}, n)
  {
    ListedAgrees(s, s - {n}, n);
  }

  lemma {:induction false} ListedAgrees(s: set<nat>, t: set<nat>, n: nat)
    requires forall x :: x < n ==> (x in s <==> x in t)
    ensures Listed(s, n) == Listed(t, n)
  {
    if n > 0 { ListedAgrees(s, t, n - 1); }
  }

  lemma Leader(g: Config, ps: seq<Proposal>, c: set<nat>, ranked: seq<nat>)
    requires |ranked| >= 2 && RankedBy(ps, ranked) && forall x :: x in ranked <==> x in c
    requires ScoreAt(ps, ranked[0]) - ScoreAt(ps, ranked[1]) >= g.margin
    ensures Leads(g, ps, c, ranked[0])
  {
    hide ScoreAt;
    forall j | j in c && j != ranked[0] ensures Beats(g, ps, ranked[0], j) {
      var i :| 0 <= i < |ranked| && ranked[i] == j;
      assert Ahead(ps, ranked[0], ranked[i]);
      assert i > 1 ==> Ahead(ps, ranked[1], ranked[i]);
    }
  }

  lemma NoLeader(g: Config, ps: seq<Proposal>, c: set<nat>, ranked: seq<nat>)
    requires |ranked| >= 2 && RankedBy(ps, ranked) && forall x :: x in ranked <==> x in c
    requires ScoreAt(ps, ranked[0]) - ScoreAt(ps, ranked[1]) < g.margin
    ensures forall k :: !Leads(g, ps, c, k)
  {
    hide ScoreAt;
    assert ranked[0] in c && ranked[1] in c;
    assert Ahead(ps, ranked[0], ranked[1]);
    forall k | k in c ensures !Leads(g, ps, c, k) {
      var i :| 0 <= i < |ranked| && ranked[i] == k;
      assert i > 0 ==> Ahead(ps, ranked[0], ranked[i]);
    }
  }

  // ----- one component, one group, all groups -----

  /** The array holds the old crops, whatever happened to their verdicts. */
  ghost predicate SameCrops(ps: seq<Proposal>, now: seq<Proposal>) {
    |ps| == |now| && forall i :: 0 <= i < |ps| ==> SameCrop(ps[i], now[i])
  }

  /** `entity_ids`: the entities of a component's members. */
  function EntityIds(ps: seq<Proposal>, members: seq<nat>): (r: seq<string>)
    requires forall i :: i in members ==> i < |ps|
  {
    seq(|members|, k requires 0 <= k < |members| => assert members[k] in members; ps[members[k]].entity)
  }

  function Others(entities: seq<string>, own: string): seq<string> {
    if entities == [] then []
    else
      Others(entities[..|entities| - 1], own)
      + (if entities[|entities| - 1] != own then [entities[|entities| - 1]] else [])
  }

  /** What the gate makes of a member of a component, kept or not. */
  function Outcome(ps: seq<Proposal>, members: seq<nat>, i: nat, kept: bool): Proposal
    requires i < |ps| && forall j :: j in members ==> j < |ps|
  {
    var peers := Others(EntityIds(ps, members), ps[i].entity);
    if kept then ps[i].(gate := Passed(peers)) else Reject(ps[i], peers)
  }

  /** Rejects all of a component but its leader. */
  method SettleComponent(a: array<Proposal>, c: set<nat>, keep: Option<nat>)
    requires forall i :: i in c ==> i < a.Length
    modifies a
    ensures forall i: nat :: i < a.Length && i in c ==>
              a[i] == Outcome(old(a[..]), Listed(c, a.Length), i, keep == Some(i))
    ensures forall i: nat :: i < a.Length && i !in c ==> a[i] == old(a[i])
  {
    hide Others, Reject, EntityIds;
    var members := Listed(c, a.Length);
    var entities := EntityIds(a[..], members);
    ghost var was := a[..];
    for k := 0 to |members|
      invariant forall i: nat :: i < a.Length && i in members[..k] ==> a[i] == Outcome(was, members, i, keep == Some(i))
      invariant forall i: nat :: i < a.Length && i !in members[..k] ==> a[i] == was[i]
    {
      var index := members[k];
      assert index in members;
      assert index !in members[..k];
      assert members[..k + 1] == members[..k] + [index];
      var peers := Others(entities, a[index].entity);
      if Some(index) == keep {
        a[index] := a[index].(gate := Passed(peers));
      } else {
        a[index] := Reject(a[index], peers);
      }
    }
    assert members[..|members|] == members;
  }

  /** A group: distinct eligible proposals that share frame and kind. */
  ghost predicate IsGroup(ps: seq<Proposal>, items: seq<nat>) {
    && Distinct(items)
    && (forall i :: i in items ==> i < |ps| && Eligible(ps[i]))
    && (forall i, j :: i in items && j in items ==> SameGroup(ps[i], ps[j]))
    && (forall i: nat, j: nat :: i in items && j < |ps| && Eligible(ps[j]) && SameGroup(ps[i], ps[j]) ==> j in items)
  }

  ghost predicate PairsDone(items: seq<nat>, left: nat, right: nat, l: nat, r: nat) {
    l < r < |items| && (l < left || (l == left && r < right))
  }

  /** Adjacency of the pairs looked at so far. */
  ghost predicate Partial(g: Config, ps: seq<Proposal>, items: seq<nat>, adj: map<nat, set<nat>>, left: nat, right: nat) {
    && (forall i :: i in adj ==> i in items && adj[i] != {})
    && (forall i, j :: i in adj && j in adj[i] ==> Conflict(g, ps, i, j) && j in items)
    && (forall l: nat, r: nat :: PairsDone(items, left, right, l, r) && Conflict(g, ps, items[l], items[r]) ==>
          items[l] in adj && items[r] in adj[items[l]] && items[r] in adj && items[l] in adj[items[r]])
  }

  function Link(adj: map<nat, set<nat>>, i: nat, j: nat): map<nat, set<nat>> {
    adj[i := (if i in adj then adj[i] else {}) + {j}]
  }

  lemma LinkPair(g: Config, ps: seq<Proposal>, items: seq<nat>, adj: map<nat, set<nat>>, left: nat, right: nat)
    requires left < right < |items| && items[left] < |ps| && items[right] < |ps|
    requires Partial(g, ps, items, adj, left, right) && Conflict(g, ps, items[left], items[right])
    ensures Partial(g, ps, items, Link(Link(adj, items[left], items[right]), items[right], items[left]), left, right + 1)
  {
    hide Conflict;
    var i, j := items[left], items[right];
    assert i in items && j in items;
    ConflictIsSymmetric(g, ps, i, j);
    var linked := Link(Link(adj, i, j), j, i);
    forall k | k in linked ensures k in items && linked[k] != {} {}
    forall k, l | k in linked && l in linked[k] ensures Conflict(g, ps, k, l) && l in items {
      assert (k in adj && l in adj[k]) || (k == i && l == j) || (k == j && l == i);
    }
    forall l: nat, r: nat | PairsDone(items, left, right + 1, l, r) && Conflict(g, ps, items[l], items[r])
      ensures items[l] in linked && items[r] in linked[items[l]] && items[r] in linked && items[l] in linked[items[r]]
    {
      if !(l == left && r == right) { assert PairsDone(items, left, right, l, r); }
    }
  }

  lemma SkipPair(g: Config, ps: seq<Proposal>, items: seq<nat>, adj: map<nat, set<nat>>, left: nat, right: nat)
    requires left < right < |items|
    requires Partial(g, ps, items, adj, left, right) && !Conflict(g, ps, items[left], items[right])
    ensures Partial(g, ps, items, adj, left, right + 1)
  {
    hide Conflict;
    forall l: nat, r: nat | PairsDone(items, left, right + 1, l, r) && Conflict(g, ps, items[l], items[r])
      ensures PairsDone(items, left, right, l, r)
    {}
  }

  lemma GroupPair(g: Config, ps: seq<Proposal>, items: seq<nat>, left: nat, right: nat)
    requires IsGroup(ps, items) && left < right < |items|
    ensures items[left] < |ps| && items[right] < |ps|
    ensures Conflict(g, ps, items[left], items[right]) <==> Clash(g, ps[items[left]], ps[items[right]])
  {
    hide Clash, Eligible, SameGroup;
    assert items[left] in items && items[right] in items;
  }

  lemma AllPairsDone(g: Config, ps: seq<Proposal>, items: seq<nat>, adj: map<nat, set<nat>>)
    requires IsGroup(ps, items) && Partial(g, ps, items, adj, |items|, 0)
    ensures Adjacency(g, ps, items, adj)
  {
    hide Clash, Eligible;
    forall i, j | i in items && Conflict(g, ps, i, j) ensures i in adj && j in adj[i] {
      assert j in items;
      var l :| 0 <= l < |items| && items[l] == i;
      var r :| 0 <= r < |items| && items[r] == j;
      ConflictIsSymmetric(g, ps, i, j);
      assert if l < r then PairsDone(items, |items|, 0, l, r) else PairsDone(items, |items|, 0, r, l);
    }
  }

  method BuildAdjacency(g: Config, ghost ps: seq<Proposal>, now: seq<Proposal>, items: seq<nat>)
    returns (adj: map<nat, set<nat>>)
    requires IsGroup(ps, items) && SameCrops(ps, now)
    ensures Adjacency(g, ps, items, adj)
  {
    hide Partial, Clash, Conflict, Link, SameCrop, IsGroup;
    adj := map[];
    assert Partial(g, ps, items, adj, 0, 0) by { NoPairs(g, ps, items); }
    for left := 0 to |items|
      invariant Partial(g, ps, items, adj, left, 0)
    {
      NextRow(g, ps, items, adj, left, 0, left, left + 1);
      for right := left + 1 to |items|
        invariant Partial(g, ps, items, adj, left, right)
      {
        var i, j := items[left], items[right];
        GroupPair(g, ps, items, left, right);
        SameClash(g, ps, now, i, j);
        if Clash(g, now[i], now[j]) {
          LinkPair(g, ps, items, adj, left, right);
          adj := Link(Link(adj, i, j), j, i);
        } else {
          SkipPair(g, ps, items, adj, left, right);
        }
      }
      NextRow(g, ps, items, adj, left, |items|, left + 1, 0);
    }
    AllPairsDone(g, ps, items, adj);
  }

  lemma NoPairs(g: Config, ps: seq<Proposal>, items: seq<nat>)
    ensures Partial(g, ps, items, map[], 0, 0)
  {}

  /** Nothing lies between the end of a row and the start of the next. */
  lemma NextRow(g: Config, ps: seq<Proposal>, items: seq<nat>, adj: map<nat, set<nat>>, left: nat, right: nat,
                left': nat, right': nat)
    requires Partial(g, ps, items, adj, left, right)
    requires (left' == left && right' == left + 1) || (left' == left + 1 && right' == 0 && right >= |items|)
    ensures Partial(g, ps, items, adj, left', right')
  {
    hide Conflict;
    forall l: nat, r: nat | PairsDone(items, left', right', l, r) ensures PairsDone(items, left, right, l, r) {}
  }

  lemma NoConflictsNoReach(g: Config, ps: seq<Proposal>, i: nat)
    requires forall j :: !Conflict(g, ps, i, j)
    ensures forall j: nat :: Reach(g, ps, i, j) ==> j == i
  {
    forall j: nat | Reach(g, ps, i, j) ensures j == i {
      assert Closed(g, ps, {i});
      ReachStays(g, ps, i, j, {i});
    }
  }

  /** Within its component the leader is the only survivor. */
  lemma LeaderSurvives(g: Config, ps: seq<Proposal>, items: seq<nat>, start: nat, c: set<nat>, i: nat, keep: Option<nat>)
    requires IsGroup(ps, items) && IsComponent(g, ps, start, c) && i in c && i in items
    requires forall j :: j in c ==> j < |ps|
    requires keep.Some? ==> Leads(g, ps, c, keep.value)
    requires keep.None? ==> forall k :: !Leads(g, ps, c, k)
    ensures Survives(g, ps, i) <==> keep == Some(i)
  {
    hide Score, Conflict, Reach;
    ComponentOfMember(g, ps, start, i, c);
    assert Eligible(ps[i]);
    SurvivorLeads(g, ps, c, i);
    if keep.Some? && keep.value != i { OneLeader(g, ps, c, keep.value, i); }
  }

  lemma SurvivorLeads(g: Config, ps: seq<Proposal>, c: set<nat>, i: nat)
    requires IsComponent(g, ps, i, c) && i < |ps| && Eligible(ps[i]) && forall j :: j in c ==> j < |ps|
    ensures Survives(g, ps, i) <==> Leads(g, ps, c, i)
  {
    hide Score, Reach;
    ReachSelf(g, ps, i);
    if Leads(g, ps, c, i) {
      forall j: nat | j != i && Reach(g, ps, i, j) ensures j < |ps| && Beats(g, ps, i, j) { assert j in c; }
    }
  }

  lemma OneLeader(g: Config, ps: seq<Proposal>, c: set<nat>, k: nat, i: nat)
    requires Leads(g, ps, c, k) && i != k
    ensures !Leads(g, ps, c, i)
  {}

  lemma SameClash(g: Config, ps: seq<Proposal>, now: seq<Proposal>, i: nat, j: nat)
    requires SameCrops(ps, now) && i < |ps| && j < |ps|
    ensures Clash(g, ps[i], ps[j]) <==> Clash(g, now[i], now[j])
  {
    hide Iou;
    assert SameCrop(ps[i], now[i]) && SameCrop(ps[j], now[j]);
  }

  lemma SameLeader(g: Config, ps: seq<Proposal>, now: seq<Proposal>, c: set<nat>, k: nat)
    requires SameCrops(ps, now)
    ensures Leads(g, ps, c, k) <==> Leads(g, now, c, k)
  {
    forall i: nat ensures ScoreAt(ps, i) == ScoreAt(now, i) {
      if i < |ps| { assert SameCrop(ps[i], now[i]); }
    }
  }

  // ----- the whole gate as a function of the proposals -----

  ghost function ComponentOf(g: Config, ps: seq<Proposal>, i: nat): set<nat> {
    set j: nat | j < |ps| && Reach(g, ps, i, j)
  }

  lemma ComponentIs(g: Config, ps: seq<Proposal>, i: nat, c: set<nat>)
    requires i < |ps| && IsComponent(g, ps, i, c)
    ensures c == ComponentOf(g, ps, i)
  {
    hide Reach;
    forall j | j in c ensures j < |ps| { ReachInRange(g, ps, i, j); }
  }

  ghost predicate Contested(g: Config, ps: seq<Proposal>, i: nat) { exists j: nat :: Conflict(g, ps, i, j) }

  /** The proposal at `i` once the gate is done: as it was, unless something conflicts with it. */
  ghost function After(g: Config, ps: seq<Proposal>, i: nat): Proposal
    requires i < |ps|
  {
    if Contested(g, ps, i)
    then Outcome(ps, Listed(ComponentOf(g, ps, i), |ps|), i, Survives(g, ps, i))
    else ps[i]
  }

  ghost function Gated(g: Config, ps: seq<Proposal>): (r: seq<Proposal>)
    ensures |r| == |ps|
  {
    seq(|ps|, i requires 0 <= i < |ps| => After(g, ps, i))
  }

  lemma AfterIsSameCrop(g: Config, ps: seq<Proposal>, i: nat)
    requires i < |ps|
    ensures SameCrop(ps[i], After(g, ps, i))
  {
    hide Contested, Survives, Others, EntityIds;
  }

  lemma UncontestedSurvive(g: Config, ps: seq<Proposal>, i: nat)
    requires i < |ps| && !Contested(g, ps, i)
    ensures Survives(g, ps, i) <==> ps[i].accepted
  {
    hide Conflict, Reach, Eligible, Score;
    assert forall j: nat :: !Conflict(g, ps, i, j);
    NoConflictsNoReach(g, ps, i);
  }

  /** The gate accepts exactly the survivors. */
  lemma {:induction false} GateAcceptsSurvivors(g: Config, ps: seq<Proposal>, i: nat)
    requires i < |ps|
    ensures Gated(g, ps)[i].accepted <==> Survives(g, ps, i)
  {
    hide Contested, Others, EntityIds;
    if !Contested(g, ps, i) { UncontestedSurvive(g, ps, i); }
  }

  /** After the gate no two accepted proposals of a frame and kind conflict. */
  lemma {:induction false} GateLeavesNoConflict(g: Config, ps: seq<Proposal>, i: nat, j: nat)
    ensures !Conflict(g, Gated(g, ps), i, j)
  {
    hide Score, Gated, After, Reach, SameGroup, Clash;
    var now := Gated(g, ps);
    if Conflict(g, now, i, j) {
      GateAcceptsSurvivors(g, ps, i);
      GateAcceptsSurvivors(g, ps, j);
      GatedIsSameCrops(g, ps);
      SameClash(g, ps, now, i, j);
      BackInTheInput(g, ps, now, i, j);
      SurvivorsDoNotConflict(g, ps, i, j);
    }
  }

  lemma GatedIsSameCrops(g: Config, ps: seq<Proposal>)
    ensures SameCrops(ps, Gated(g, ps))
  {
    hide After, SameCrop;
    forall i | 0 <= i < |ps| ensures SameCrop(ps[i], Gated(g, ps)[i]) { AfterIsSameCrop(g, ps, i); }
  }

  lemma BackInTheInput(g: Config, ps: seq<Proposal>, now: seq<Proposal>, i: nat, j: nat)
    requires SameCrops(ps, now) && Conflict(g, now, i, j) && ps[i].accepted && ps[j].accepted
    requires Clash(g, ps[i], ps[j])
    ensures Conflict(g, ps, i, j)
  {
    hide Clash;
    assert SameCrop(ps[i], now[i]) && SameCrop(ps[j], now[j]);
  }

  lemma {:induction false} OthersAreTheRest(entities: seq<string>, own: string)
    ensures forall x :: x in Others(entities, own) <==> x in entities && x != own
  {
    if entities != [] {
      var before, last := entities[..|entities| - 1], entities[|entities| - 1];
      OthersAreTheRest(before, own);
      assert entities == before + [last];
    }
  }

  /** The verdict on a contested proposal: passed exactly for a survivor, failed with the reason given for the
      others, and naming exactly the other entities of its component. */
  lemma {:induction false} VerdictNamesTheComponent(g: Config, ps: seq<Proposal>, i: nat, e: string)
    requires i < |ps| && Contested(g, ps, i)
    ensures var after := Gated(g, ps)[i];
            && (after.gate == Passed(after.gate.peers) <==> Survives(g, ps, i))
            && (after.gate == Failed(after.gate.peers) <==> !Survives(g, ps, i))
            && (!Survives(g, ps, i) ==> "cross_entity_bbox_conflict" in after.reasons)
            && (e in after.gate.peers <==>
                e != ps[i].entity && exists j: nat :: j < |ps| && Reach(g, ps, i, j) && ps[j].entity == e)
  {
    hide Survives, Contested, Reach, Others;
    var members := Listed(ComponentOf(g, ps, i), |ps|);
    var entities := EntityIds(ps, members);
    OthersAreTheRest(entities, ps[i].entity);
    if e in entities {
      var k :| 0 <= k < |entities| && entities[k] == e;
      assert members[k] in members;
    }
    if j: nat :| j < |ps| && Reach(g, ps, i, j) && ps[j].entity == e {
      assert j in ComponentOf(g, ps, i) && j in members;
      var k :| 0 <= k < |members| && members[k] == j;
      assert entities[k] == e;
    }
  }

  /** ... each as often as it has other members assigned to it. */
  lemma {:induction false} PeersListMembers(g: Config, ps: seq<Proposal>, i: nat, e: string)
    requires i < |ps| && Contested(g, ps, i) && e != ps[i].entity
    ensures var after := Gated(g, ps)[i];
            after.gate != Ungated
            && multiset(after.gate.peers)[e] == |set j: nat | j < |ps| && Reach(g, ps, i, j) && ps[j].entity == e|
  {
    hide Survives, Contested, Reach, Others;
    var c := ComponentOf(g, ps, i);
    OthersCount(EntityIds(ps, Listed(c, |ps|)), ps[i].entity, e);
    ListedEntities(ps, c, |ps|, e);
    assert AssignedTo(ps, c, |ps|, e) == set j: nat | j < |ps| && Reach(g, ps, i, j) && ps[j].entity == e;
  }

  lemma {:induction false} OthersCount(entities: seq<string>, own: string, e: string)
    requires e != own
    ensures multiset(Others(entities, own))[e] == multiset(entities)[e]
  {
    if entities != [] {
      var before, last := entities[..|entities| - 1], entities[|entities| - 1];
      OthersCount(before, own, e);
      assert entities == before + [last];
    }
  }

  /** The members below `n` assigned to an entity. */
  ghost function AssignedTo(ps: seq<Proposal>, c: set<nat>, n: nat, e: string): set<nat>
    requires n <= |ps|
  {
    set j: nat | j < n && j in c && ps[j].entity == e
  }

  lemma AssignedStep(ps: seq<Proposal>, c: set<nat>, n: nat, e: string)
    requires n < |ps|
    ensures |AssignedTo(ps, c, n + 1, e)| == |AssignedTo(ps, c, n, e)| + (if n in c && ps[n].entity == e then 1 else 0)
  {
    assert AssignedTo(ps, c, n + 1, e) == AssignedTo(ps, c, n, e) + (if n in c && ps[n].entity == e then {n} else {});
  }

  lemma {:induction false} ListedEntities(ps: seq<Proposal>, c: set<nat>, n: nat, e: string)
    requires n <= |ps|
    ensures multiset(EntityIds(ps, Listed(c, n)))[e] == |AssignedTo(ps, c, n, e)|
  {
    hide EntityIds, Listed, AssignedTo;
    if n == 0 {
      NoEntities(ps, c, e);
    } else {
      ListedEntities(ps, c, n - 1, e);
      AssignedStep(ps, c, n - 1, e);
      EntitiesStep(ps, c, n - 1, e);
    }
  }

  lemma EntitiesStep(ps: seq<Proposal>, c: set<nat>, n: nat, e: string)
    requires n < |ps|
    ensures multiset(EntityIds(ps, Listed(c, n + 1)))[e]
            == multiset(EntityIds(ps, Listed(c, n)))[e] + (if n in c && ps[n].entity == e then 1 else 0)
  {
    hide EntityIds;
    if n in c {
      assert Listed(c, n + 1) == Listed(c, n) + [n];
      EntitiesAppend(ps, Listed(c, n), n);
    } else {
      assert Listed(c, n + 1) == Listed(c, n);
    }
  }

  lemma NoEntities(ps: seq<Proposal>, c: set<nat>, e: string)
    ensures EntityIds(ps, Listed(c, 0)) == [] && AssignedTo(ps, c, 0, e) == {}
  {}

  lemma EntitiesAppend(ps: seq<Proposal>, members: seq<nat>, i: nat)
    requires i < |ps| && forall j :: j in members ==> j < |ps|
    ensures EntityIds(ps, members + [i]) == EntityIds(ps, members) + [ps[i].entity]
  {}

  // ----- what the gate means for a pair of crops -----

  /** A crop to acquire, of one frame and kind with another, boxed, and no location. */
  ghost predicate Comparable(p: Proposal, q: Proposal) {
    && p.accepted && p.acquire && p.box.Some? && q.accepted && q.acquire && q.box.Some?
    && p.chunk == q.chunk && p.frame == q.frame && p.kind == q.kind && p.kind != "location"
  }

  /** They show the same file, or their boxes share at least the threshold of the squares they cover. */
  ghost predicate Coincide(g: Config, p: Proposal, q: Proposal)
    requires p.box.Some? && q.box.Some?
  {
    var a, b := Cells(p.box.value), Cells(q.box.value);
    p.crop == q.crop || (if a + b == {} then 0.0 >= g.threshold else |a * b| as real >= g.threshold * |a + b| as real)
  }

  lemma CoincideIsClash(g: Config, p: Proposal, q: Proposal)
    requires p.box.Some? && q.box.Some?
    ensures Coincide(g, p, q) <==> Clash(g, p, q)
  {
    hide Iou, Cells;
    var a, b := Cells(p.box.value), Cells(q.box.value);
    IouCountsCells(p.box.value, q.box.value);
    if a + b != {} { RatioAtLeast(Iou(p.box.value, q.box.value), |a * b| as real, |a + b| as real, g.threshold); }
  }

  /** Of two comparable crops that coincide at most one is accepted afterwards, for any margin; and both are rejected
      where their scores are less than a positive margin apart. */
  lemma {:induction false} CoincidingCrops(g: Config, ps: seq<Proposal>, i: nat, j: nat)
    requires i < |ps| && j < |ps| && i != j && Comparable(ps[i], ps[j]) && Coincide(g, ps[i], ps[j])
    ensures !(Gated(g, ps)[i].accepted && Gated(g, ps)[j].accepted)
    ensures Gated(g, ps)[i].accepted ==> Score(ps[i]) - Score(ps[j]) >= g.margin && Score(ps[i]) >= Score(ps[j])
    ensures -g.margin < Score(ps[i]) - Score(ps[j]) < g.margin ==>
              !Gated(g, ps)[i].accepted && !Gated(g, ps)[j].accepted
  {
    hide Clash, Score, Gated, Reach, Coincide;
    CoincideIsClash(g, ps[i], ps[j]);
    assert Conflict(g, ps, i, j);
    ConflictIsSymmetric(g, ps, i, j);
    hide Conflict;
    ReachSelf(g, ps, i);
    ReachSelf(g, ps, j);
    ReachStep(g, ps, i, i, j);
    ReachStep(g, ps, j, j, i);
    GateAcceptsSurvivors(g, ps, i);
    GateAcceptsSurvivors(g, ps, j);
    assert Eligible(ps[i]) && Eligible(ps[j]);
    if Survives(g, ps, i) { assert Beats(g, ps, i, j); }
    if Survives(g, ps, j) { assert Beats(g, ps, j, i); }
  }

  /** A crop that coincides with no comparable one is left as it came. */
  lemma {:induction false} OtherCropsAreLeft(g: Config, ps: seq<Proposal>, i: nat)
    requires i < |ps|
    requires forall j: nat :: j < |ps| && j != i && Comparable(ps[i], ps[j]) ==> !Coincide(g, ps[i], ps[j])
    ensures Gated(g, ps)[i] == ps[i]
  {
    hide Clash, Coincide, Survives, Outcome;
    if j: nat :| Conflict(g, ps, i, j) {
      assert Comparable(ps[i], ps[j]);
      CoincideIsClash(g, ps[i], ps[j]);
      assert false;
    }
  }

  /** Two coinciding crops that coincide with no third one: the one ahead by a positive margin stays, with its own
      record otherwise as it was. */
  lemma {:induction false} PairDecided(g: Config, ps: seq<Proposal>, i: nat, j: nat)
    requires g.margin > 0.0 && i < |ps| && j < |ps| && i != j && Comparable(ps[i], ps[j]) && Coincide(g, ps[i], ps[j])
    requires forall k: nat, l: nat :: k in {i, j} && l < |ps| && l !in {i, j} && Comparable(ps[k], ps[l]) ==>
               !Coincide(g, ps[k], ps[l])
    ensures Gated(g, ps)[i].accepted <==> Score(ps[i]) - Score(ps[j]) >= g.margin
    ensures Gated(g, ps)[i].accepted ==> Gated(g, ps)[i].reasons == ps[i].reasons
  {
    hide Clash, Coincide, Score, Gated, Reach;
    CoincidingCrops(g, ps, i, j);
    GateAcceptsSurvivors(g, ps, i);
    PairIsClosed(g, ps, i, j);
    forall k: nat | k != i && Reach(g, ps, i, k) ensures k == j { ReachStays(g, ps, i, k, {i, j}); }
    AcceptedKeepsReasons(g, ps, i);
  }

  lemma PairIsClosed(g: Config, ps: seq<Proposal>, i: nat, j: nat)
    requires i < |ps| && j < |ps|
    requires forall k: nat, l: nat :: k in {i, j} && l < |ps| && l !in {i, j} && Comparable(ps[k], ps[l]) ==>
               !Coincide(g, ps[k], ps[l])
    ensures Closed(g, ps, {i, j})
  {
    hide Clash, Coincide;
    forall k: nat, l: nat | k in {i, j} && Conflict(g, ps, k, l) ensures l in {i, j} {
      if l !in {i, j} {
        assert Comparable(ps[k], ps[l]);
        CoincideIsClash(g, ps[k], ps[l]);
      }
    }
  }

  lemma AcceptedKeepsReasons(g: Config, ps: seq<Proposal>, i: nat)
    requires i < |ps|
    ensures Gated(g, ps)[i].accepted ==> Gated(g, ps)[i].reasons == ps[i].reasons
  {
    hide Survives, Contested, Others, EntityIds;
  }

  /** A rejected crop's reasons are those it had, and the gate's at their end unless it was among them. */
  lemma {:induction false} RejectedReasons(g: Config, ps: seq<Proposal>, i: nat)
    requires i < |ps| && ps[i].accepted && !Gated(g, ps)[i].accepted && Distinct(ps[i].reasons)
    ensures var r := "cross_entity_bbox_conflict";
            Gated(g, ps)[i].reasons == if r in ps[i].reasons then ps[i].reasons else ps[i].reasons + [r]
  {
    hide Survives, Contested, Others, EntityIds;
    FirstOfDistinct(ps[i].reasons, "cross_entity_bbox_conflict");
  }

  /** A second run changes nothing. */
  lemma {:induction false} GatingTwiceIsGatingOnce(g: Config, ps: seq<Proposal>)
    ensures Gated(g, Gated(g, ps)) == Gated(g, ps)
  {
    hide Survives, Conflict;
    var now := Gated(g, ps);
    forall i: nat | i < |now| ensures After(g, now, i) == now[i] {
      forall j: nat ensures !Conflict(g, now, i, j) { GateLeavesNoConflict(g, ps, i, j); }
    }
  }

  /** With a positive margin the same ones are accepted in whatever order the proposals come. */
  lemma {:induction false} GateIgnoresOrder(g: Config, ps: seq<Proposal>, qs: seq<Proposal>, perm: seq<nat>,
                                            inv: seq<nat>, k: nat)
    requires g.margin > 0.0 && Reorders(ps, qs, perm, inv) && k < |qs|
    ensures Gated(g, qs)[k].accepted <==> Gated(g, ps)[perm[k]].accepted
  {
    OrderIgnored(g, ps, qs, perm, inv, k);
  }

  lemma OrderIgnored(g: Config, ps: seq<Proposal>, qs: seq<Proposal>, perm: seq<nat>, inv: seq<nat>, k: nat)
    requires Reorders(ps, qs, perm, inv) && k < |qs| && !OrderDecides(g, ps, perm[k])
    ensures Gated(g, qs)[k].accepted <==> Gated(g, ps)[perm[k]].accepted
  {
    hide Survives, Gated, Conflict, OrderDecides;
    SurvivalIgnoresOrder(g, ps, qs, perm, inv, k);
    GateAcceptsSurvivors(g, qs, k);
    GateAcceptsSurvivors(g, ps, perm[k]);
  }

  /** `i` is accepted in every order of the proposals, or in none. */
  ghost predicate SameInEveryOrder(g: Config, ps: seq<Proposal>, i: nat)
    requires i < |ps|
  {
    forall qs: seq<Proposal>, perm: seq<nat>, inv: seq<nat> :: Reorders(ps, qs, perm, inv) ==>
      (Gated(g, qs)[inv[i]].accepted <==> Gated(g, ps)[i].accepted)
  }

  /** The order matters for exactly those tied for the best score of their component where no margin is asked for. */
  lemma {:induction false} SameInEveryOrderIff(g: Config, ps: seq<Proposal>, i: nat)
    requires i < |ps|
    ensures SameInEveryOrder(g, ps, i) <==> !OrderDecides(g, ps, i)
  {
    hide Survives, Gated, Conflict, OrderDecides;
    if OrderDecides(g, ps, i) {
      PlaceMatters(g, ps, i);
    } else {
      forall qs: seq<Proposal>, perm: seq<nat>, inv: seq<nat> | Reorders(ps, qs, perm, inv)
        ensures Gated(g, qs)[inv[i]].accepted <==> Gated(g, ps)[i].accepted
      {
        OrderIgnored(g, ps, qs, perm, inv, inv[i]);
      }
    }
  }

  lemma PlaceMatters(g: Config, ps: seq<Proposal>, i: nat)
    requires i < |ps| && OrderDecides(g, ps, i)
    ensures !SameInEveryOrder(g, ps, i)
  {
    hide Survives, Gated, Conflict, Score;
    GateAcceptsSurvivors(g, ps, i);
    var j: nat :| j != i && Reach(g, ps, i, j) && ScoreAt(ps, j) == ScoreAt(ps, i);
    if Survives(g, ps, i) {
      PlaceLost(g, ps, i, j);
    } else {
      j := FirstPlace(g, ps, i);
      if j == i { FirstSurvives(g, ps, i); }
      PlaceWon(g, ps, i, j);
      assert Exchanged(ps, j, i) == Exchanged(ps, i, j);
    }
    ExchangeReorders(ps, i, j);
    GateAcceptsSurvivors(g, Exchanged(ps, i, j), j);
  }

  lemma FirstSurvives(g: Config, ps: seq<Proposal>, i: nat)
    requires i < |ps| && OrderDecides(g, ps, i)
    requires forall j: nat :: Reach(g, ps, i, j) && ScoreAt(ps, j) == ScoreAt(ps, i) ==> i <= j
    ensures Survives(g, ps, i)
  {
    hide Reach, Score, Eligible;
    EligibleAccepted(ps[i]);
    forall j: nat | j != i && Reach(g, ps, i, j) ensures j < |ps| && Beats(g, ps, i, j) { ReachInRange(g, ps, i, j); }
  }

  // ----- crops of one entity -----

  /** Something `i` is in conflict with, directly or through others, is assigned to another entity. */
  ghost predicate OtherEntity(g: Config, ps: seq<Proposal>, i: nat)
    requires i < |ps|
  {
    exists j: nat :: j < |ps| && Reach(g, ps, i, j) && ps[j].entity != ps[i].entity
  }

  lemma {:induction false} PeersAreOtherEntities(g: Config, ps: seq<Proposal>, i: nat)
    requires i < |ps| && Contested(g, ps, i)
    ensures Gated(g, ps)[i].gate.peers == [] <==> !OtherEntity(g, ps, i)
  {
    hide Reach, Contested, Gated;
    VerdictNamesTheComponent(g, ps, i, "");
    var peers := Gated(g, ps)[i].gate.peers;
    if peers != [] { VerdictNamesTheComponent(g, ps, i, peers[0]); }
    if j: nat :| j < |ps| && Reach(g, ps, i, j) && ps[j].entity != ps[i].entity {
      VerdictNamesTheComponent(g, ps, i, ps[j].entity);
    }
  }

  ghost predicate Rejected(g: Config, ps: seq<Proposal>, i: nat)
    requires i < |ps|
  {
    ps[i].accepted && !Gated(g, ps)[i].accepted
  }

  /** The gate rejects only crops in conflict with another entity exactly when no conflict is within one entity's
      own proposals alone. */
  lemma {:induction false} RejectsOnlyOtherEntitiesIff(g: Config, ps: seq<Proposal>)
    ensures (forall i: nat :: i < |ps| && Rejected(g, ps, i) ==> OtherEntity(g, ps, i)) <==>
            (forall i: nat :: i < |ps| && Contested(g, ps, i) ==> OtherEntity(g, ps, i))
  {
    hide OtherEntity, Contested, Gated;
    forall i: nat | i < |ps| && Rejected(g, ps, i) ensures Contested(g, ps, i) {
      GateAcceptsSurvivors(g, ps, i);
      if !Contested(g, ps, i) { UncontestedSurvive(g, ps, i); }
    }
    if i: nat :| i < |ps| && Contested(g, ps, i) && !OtherEntity(g, ps, i) {
      var loser := LoserOf(g, ps, i);
      SharedEntity(g, ps, i, loser);
    }
  }

  /** Every component has a member that is rejected. */
  lemma LoserOf(g: Config, ps: seq<Proposal>, i: nat) returns (loser: nat)
    requires i < |ps| && Contested(g, ps, i)
    ensures loser < |ps| && Rejected(g, ps, loser) && Reach(g, ps, i, loser)
  {
    hide Survives, Gated, Reach;
    var j: nat :| Conflict(g, ps, i, j);
    ReachSelf(g, ps, i);
    ReachStep(g, ps, i, i, j);
    EligibleAccepted(ps[i]);
    EligibleAccepted(ps[j]);
    GateAcceptsSurvivors(g, ps, i);
    GateAcceptsSurvivors(g, ps, j);
    if Survives(g, ps, i) && Survives(g, ps, j) { SurvivorsDoNotConflict(g, ps, i, j); }
    loser := if Survives(g, ps, i) then j else i;
  }

  lemma SharedEntity(g: Config, ps: seq<Proposal>, i: nat, j: nat)
    requires i < |ps| && j < |ps| && Reach(g, ps, i, j) && !OtherEntity(g, ps, i)
    ensures !OtherEntity(g, ps, j)
  {
    hide Reach;
    assert ps[j].entity == ps[i].entity;
    if k: nat :| k < |ps| && Reach(g, ps, j, k) && ps[k].entity != ps[j].entity { ReachOn(g, ps, i, j, k); }
  }

  /** Two proposals of one entity for one crop, with equal scores: both are rejected, and no peer is named. */
  lemma OneEntityAgainstItself()
    ensures var p := Proposal(true, true, "person", 0, 0, Some(Box(0, 0, 10, 10)), "crop.png", "anna", "high", 1.0, [],
                              Ungated);
            var gated := Gated(Config(0.95, 0.15), [p, p]);
            forall i :: 0 <= i < 2 ==> !gated[i].accepted && gated[i].gate == Failed([])
  {
    hide Iou, Gated, Reach;
    var p := Proposal(true, true, "person", 0, 0, Some(Box(0, 0, 10, 10)), "crop.png", "anna", "high", 1.0, [], Ungated);
    var g, ps := Config(0.95, 0.15), [p, p];
    forall i: nat | i < 2 ensures !Gated(g, ps)[i].accepted && Gated(g, ps)[i].gate == Failed([]) {
      var j := 1 - i;
      assert Conflict(g, ps, i, j);
      ReachSelf(g, ps, i);
      ReachStep(g, ps, i, i, j);
      assert !Beats(g, ps, i, j);
      assert !Survives(g, ps, i);
      GateAcceptsSurvivors(g, ps, i);
      VerdictNamesTheComponent(g, ps, i, "");
      PeersAreOtherEntities(g, ps, i);
    }
  }

  // ----- groups -----

  /** Every eligible proposal is in exactly one group. */
  ghost predicate Grouped(ps: seq<Proposal>, groups: seq<seq<nat>>) {
    && (forall k :: 0 <= k < |groups| ==> groups[k] != [] && IsGroup(ps, groups[k]))
    && (forall i: nat :: i < |ps| && Eligible(ps[i]) ==> exists k :: 0 <= k < |groups| && i in groups[k])
    && (forall k, l :: 0 <= k < l < |groups| ==> forall i :: i in groups[k] ==> i !in groups[l])
  }

  /** The place of the group with this proposal's key, or past the last one. */
  method FindGroup(ps: seq<Proposal>, groups: seq<seq<nat>>, p: Proposal) returns (k: nat)
    requires forall k :: 0 <= k < |groups| ==> groups[k] != [] && groups[k][0] < |ps|
    ensures k <= |groups| && (k < |groups| ==> SameGroup(ps[groups[k][0]], p))
    ensures forall l :: 0 <= l < k ==> !SameGroup(ps[groups[l][0]], p)
  {
    k := 0;
    while k < |groups| && !SameGroup(ps[groups[k][0]], p)
      invariant k <= |groups| && forall l :: 0 <= l < k ==> !SameGroup(ps[groups[l][0]], p)
    {
      k := k + 1;
    }
  }

  /** `groups`: in order of their first proposal. */
  method GroupByFrame(ps: seq<Proposal>) returns (groups: seq<seq<nat>>)
    ensures Grouped(ps, groups)
  {
    hide Grouped, SameGroup, Eligible, IsGroup;
    groups := [];
    NothingGrouped(ps[..0]);
    for i := 0 to |ps|
      invariant Grouped(ps[..i], groups)
    {
      assert ps[..i + 1] == ps[..i] + [ps[i]];
      if Eligible(ps[i]) {
        GroupHeads(ps[..i], groups);
        var k := FindGroup(ps[..i], groups, ps[i]);
        if k == |groups| {
          NewGroup(ps[..i], groups, ps[i]);
          groups := groups + [[i]];
        } else {
          JoinGroup(ps[..i], groups, ps[i], k);
          groups := groups[k := groups[k] + [i]];
        }
      } else {
        NoGroup(ps[..i], groups, ps[i]);
      }
    }
    assert ps[..|ps|] == ps;
  }

  lemma NothingGrouped(ps: seq<Proposal>)
    requires ps == []
    ensures Grouped(ps, [])
  {}

  lemma GroupHeads(ps: seq<Proposal>, groups: seq<seq<nat>>)
    requires Grouped(ps, groups)
    ensures forall k :: 0 <= k < |groups| ==> groups[k] != [] && groups[k][0] < |ps|
  {
    hide Eligible, SameGroup;
    forall k | 0 <= k < |groups| ensures groups[k] != [] && groups[k][0] < |ps| {
      assert groups[k][0] in groups[k];
    }
  }

  lemma OtherKey(ps: seq<Proposal>, items: seq<nat>, p: Proposal)
    requires IsGroup(ps, items) && items != [] && items[0] < |ps| && !SameGroup(ps[items[0]], p)
    ensures IsGroup(ps + [p], items)
  {
    hide Eligible;
    var qs := ps + [p];
    assert items[0] in items;
    forall i: nat, j: nat | i in items && j < |qs| && Eligible(qs[j]) && SameGroup(qs[i], qs[j]) ensures j in items {
      assert SameGroup(ps[items[0]], ps[i]);
    }
  }

  lemma SkippedKey(ps: seq<Proposal>, items: seq<nat>, p: Proposal)
    requires IsGroup(ps, items) && !Eligible(p)
    ensures IsGroup(ps + [p], items)
  {
    hide Eligible, SameGroup;
  }

  lemma OwnKey(ps: seq<Proposal>, items: seq<nat>, p: Proposal)
    requires IsGroup(ps, items) && items != [] && items[0] < |ps| && SameGroup(ps[items[0]], p) && Eligible(p)
    ensures IsGroup(ps + [p], items + [|ps|])
  {
    hide Eligible, SameGroup;
    var qs, more := ps + [p], items + [|ps|];
    OneKey(ps, items, p);
    forall i | i in more ensures i < |qs| && Eligible(qs[i]) && SameGroup(qs[i], p) {
      if i !in items { SameAsItself(p); }
    }
    hide IsGroup;
    forall i, j | i in more && j in more ensures SameGroup(qs[i], qs[j]) { SameByKey(qs[i], qs[j], p); }
    forall i: nat, j: nat | i in more && j < |qs| && Eligible(qs[j]) && SameGroup(qs[i], qs[j]) ensures j in more {
      if j < |ps| { SameByKey(qs[j], p, qs[i]); }
    }
    assert Distinct(more) by { DistinctBelow(ps, items); }
    assert IsGroup(qs, more) by { IsGroupIf(qs, more); }
  }

  lemma IsGroupIf(ps: seq<Proposal>, items: seq<nat>)
    requires Distinct(items)
    requires forall i :: i in items ==> i < |ps| && Eligible(ps[i])
    requires forall i, j :: i in items && j in items ==> SameGroup(ps[i], ps[j])
    requires forall i: nat, j: nat :: i in items && j < |ps| && Eligible(ps[j]) && SameGroup(ps[i], ps[j]) ==> j in items
    ensures IsGroup(ps, items)
  {
    hide Eligible, SameGroup;
  }

  lemma DistinctBelow(ps: seq<Proposal>, items: seq<nat>)
    requires IsGroup(ps, items)
    ensures Distinct(items + [|ps|])
  {
    hide Eligible, SameGroup;
    forall k | 0 <= k < |items| ensures items[k] < |ps| { assert items[k] in items; }
  }

  lemma SameAsItself(p: Proposal)
    ensures SameGroup(p, p)
  {}

  lemma SameByKey(p: Proposal, q: Proposal, r: Proposal)
    requires (SameGroup(p, r) || SameGroup(r, p)) && (SameGroup(q, r) || SameGroup(r, q))
    ensures SameGroup(p, q)
  {}

  /** The members of a group share its first one's key, and whoever has that key is in it. */
  lemma OneKey(ps: seq<Proposal>, items: seq<nat>, p: Proposal)
    requires IsGroup(ps, items) && items != [] && items[0] < |ps| && SameGroup(ps[items[0]], p)
    ensures forall i :: i in items ==> i < |ps| && Eligible(ps[i]) && SameGroup(ps[i], p)
    ensures forall j: nat :: j < |ps| && Eligible(ps[j]) && SameGroup(ps[j], p) ==> j in items
  {
    hide Eligible, SameGroup;
    assert items[0] in items;
    forall i | i in items ensures SameGroup(ps[i], p) { SameByKey(ps[i], p, ps[items[0]]); }
    forall j: nat | j < |ps| && Eligible(ps[j]) && SameGroup(ps[j], p) ensures j in items {
      SameByKey(ps[items[0]], ps[j], p);
    }
  }

  lemma KeyIsKnown(ps: seq<Proposal>, groups: seq<seq<nat>>, j: nat)
    requires Grouped(ps, groups) && j < |ps| && Eligible(ps[j])
    requires forall k :: 0 <= k < |groups| ==> groups[k] != [] && groups[k][0] < |ps|
    ensures exists k :: 0 <= k < |groups| && SameGroup(ps[groups[k][0]], ps[j])
  {
    hide Eligible, SameGroup;
    var k :| 0 <= k < |groups| && j in groups[k];
    assert groups[k][0] in groups[k];
    assert SameGroup(ps[groups[k][0]], ps[j]);
  }

  lemma FirstKey(ps: seq<Proposal>, groups: seq<seq<nat>>, p: Proposal)
    requires Grouped(ps, groups) && Eligible(p)
    requires forall k :: 0 <= k < |groups| ==> groups[k] != [] && groups[k][0] < |ps| && !SameGroup(ps[groups[k][0]], p)
    ensures IsGroup(ps + [p], [|ps|])
  {
    hide Eligible, Grouped;
    var qs := ps + [p];
    forall j: nat | j < |qs| && Eligible(qs[j]) && SameGroup(p, qs[j]) ensures j == |ps| {
      if j < |ps| { KeyIsKnown(ps, groups, j); }
    }
  }

  lemma NewGroup(ps: seq<Proposal>, groups: seq<seq<nat>>, p: Proposal)
    requires Grouped(ps, groups) && Eligible(p)
    requires forall k :: 0 <= k < |groups| ==> groups[k] != [] && groups[k][0] < |ps| && !SameGroup(ps[groups[k][0]], p)
    ensures Grouped(ps + [p], groups + [[|ps|]])
  {
    hide Eligible, SameGroup;
    var qs, more := ps + [p], groups + [[|ps|]];
    forall k | 0 <= k < |more| ensures more[k] != [] && IsGroup(qs, more[k]) {
      if k < |groups| { OtherKey(ps, groups[k], p); } else { FirstKey(ps, groups, p); }
    }
    hide IsGroup;
    GroupMembers(ps, groups);
    forall i: nat | i < |qs| && Eligible(qs[i]) ensures exists k :: 0 <= k < |more| && i in more[k] {
      if i < |ps| {
        assert Eligible(ps[i]);
        var k :| 0 <= k < |groups| && i in groups[k];
        assert i in more[k];
      } else {
        assert i in more[|groups|];
      }
    }
  }

  lemma GroupMembers(ps: seq<Proposal>, groups: seq<seq<nat>>)
    requires Grouped(ps, groups)
    ensures forall k :: 0 <= k < |groups| ==> forall i :: i in groups[k] ==> i < |ps|
  {
    hide Eligible, SameGroup;
  }

  lemma JoinGroup(ps: seq<Proposal>, groups: seq<seq<nat>>, p: Proposal, k: nat)
    requires Grouped(ps, groups) && Eligible(p) && k < |groups|
    requires forall l :: 0 <= l < |groups| ==> groups[l] != [] && groups[l][0] < |ps|
    requires SameGroup(ps[groups[k][0]], p)
    ensures Grouped(ps + [p], groups[k := groups[k] + [|ps|]])
  {
    hide Eligible, SameGroup;
    var qs, more := ps + [p], groups[k := groups[k] + [|ps|]];
    forall l | 0 <= l < |more| ensures more[l] != [] && IsGroup(qs, more[l]) {
      if l == k {
        OwnKey(ps, groups[k], p);
      } else {
        OneKeyEach(ps, groups, p, k, l);
        OtherKey(ps, groups[l], p);
      }
    }
    hide IsGroup;
    GroupMembers(ps, groups);
    forall i: nat | i < |qs| && Eligible(qs[i]) ensures exists l :: 0 <= l < |more| && i in more[l] {
      if i < |ps| {
        assert Eligible(ps[i]);
        var l :| 0 <= l < |groups| && i in groups[l];
        assert i in more[l];
      } else {
        assert i in more[k];
      }
    }
  }

  lemma OneKeyEach(ps: seq<Proposal>, groups: seq<seq<nat>>, p: Proposal, k: nat, l: nat)
    requires Grouped(ps, groups) && k < |groups| && l < |groups| && k != l
    requires groups[k] != [] && groups[k][0] < |ps| && groups[l] != [] && groups[l][0] < |ps|
    requires SameGroup(ps[groups[k][0]], p)
    ensures !SameGroup(ps[groups[l][0]], p)
  {
    hide Eligible, SameGroup;
    var i, j := groups[k][0], groups[l][0];
    assert i in groups[k] && j in groups[l];
    assert Eligible(ps[j]);
    if SameGroup(ps[j], p) { SameByKey(ps[i], ps[j], p); }
  }

  lemma NoGroup(ps: seq<Proposal>, groups: seq<seq<nat>>, p: Proposal)
    requires Grouped(ps, groups) && !Eligible(p)
    ensures Grouped(ps + [p], groups)
  {
    hide Eligible, SameGroup;
    var qs := ps + [p];
    forall k | 0 <= k < |groups| ensures IsGroup(qs, groups[k]) { SkippedKey(ps, groups[k], p); }
    hide IsGroup;
    forall i: nat | i < |qs| && Eligible(qs[i]) ensures exists k :: 0 <= k < |groups| && i in groups[k] {
      assert i < |ps| && Eligible(ps[i]);
    }
  }

  // ----- one group, all groups -----

  /** The proposals in `done` have their final verdict, the others are as they came. */
  ghost predicate Gating(g: Config, ps: seq<Proposal>, now: seq<Proposal>, done: set<nat>) {
    && |now| == |ps|
    && (forall i: nat :: i < |ps| && i in done ==> now[i] == After(g, ps, i))
    && (forall i: nat :: i < |ps| && i !in done ==> now[i] == ps[i])
  }

  lemma GatingKeepsCrops(g: Config, ps: seq<Proposal>, now: seq<Proposal>, done: set<nat>)
    requires Gating(g, ps, now, done)
    ensures SameCrops(ps, now)
  {
    hide After, SameCrop;
    forall i: nat | i < |ps| ensures SameCrop(ps[i], now[i]) {
      if i in done { AfterIsSameCrop(g, ps, i); } else { SelfSameCrop(ps[i]); }
    }
  }

  lemma SelfSameCrop(p: Proposal)
    ensures SameCrop(p, p)
  {}

  /** What a component holds is not settled before its turn. */
  lemma FreshComponent(g: Config, ps: seq<Proposal>, start: nat, c: set<nat>, done: set<nat>)
    requires IsComponent(g, ps, start, c) && start !in done
    requires forall i, j: nat :: i in done && Reach(g, ps, i, j) ==> j in done
    ensures c !! done
    ensures forall i, j: nat :: i in done + c && Reach(g, ps, i, j) ==> j in done + c
  {
    hide Reach;
    forall i | i in c ensures i !in done { ReachBack(g, ps, start, i); }
    forall i, j: nat | i in c && Reach(g, ps, i, j) ensures j in c { ReachOn(g, ps, start, i, j); }
  }

  /** Settling one more component with its clear winner. */
  lemma ComponentSettled(g: Config, ps: seq<Proposal>, was: seq<Proposal>, now: seq<Proposal>, items: seq<nat>,
                         done: set<nat>, start: nat, c: set<nat>, keep: Option<nat>)
    requires IsGroup(ps, items) && IsComponent(g, ps, start, c) && start < |ps| && c !! done
    requires |c| >= 2 && forall j :: j in c ==> j < |ps| && j in items
    requires keep.Some? ==> Leads(g, ps, c, keep.value)
    requires keep.None? ==> forall k :: !Leads(g, ps, c, k)
    requires Gating(g, ps, was, done) && |now| == |ps|
    requires forall i: nat :: i < |ps| && i in c ==> now[i] == Outcome(was, Listed(c, |ps|), i, keep == Some(i))
    requires forall i: nat :: i < |ps| && i !in c ==> now[i] == was[i]
    ensures Gating(g, ps, now, done + c)
  {
    hide After, Outcome, Leads, IsGroup;
    forall i: nat | i < |ps| && i in c ensures now[i] == After(g, ps, i) {
      LeaderSurvives(g, ps, items, start, c, i, keep);
      ContestedMember(g, ps, start, c, i);
      SameOutcome(ps, was, c, i, keep == Some(i));
    }
  }

  lemma ContestedMember(g: Config, ps: seq<Proposal>, start: nat, c: set<nat>, i: nat)
    requires IsComponent(g, ps, start, c) && start < |ps| && i in c && |c| >= 2 && i < |ps|
    ensures After(g, ps, i) == Outcome(ps, Listed(c, |ps|), i, Survives(g, ps, i))
  {
    hide Outcome, Survives, Reach, Conflict;
    ComponentOfMember(g, ps, start, i, c);
    ComponentIs(g, ps, i, c);
    if !Contested(g, ps, i) {
      NoConflictsNoReach(g, ps, i);
      assert forall j :: j in c ==> j == i;
      assert c <= {i};
      SmallSet(c, i);
    }
  }

  lemma SmallSet(c: set<nat>, i: nat)
    requires c <= {i}
    ensures |c| < 2
  {
    if i in c { assert c == {i}; } else { assert c == {}; }
  }

  lemma SameOutcome(ps: seq<Proposal>, was: seq<Proposal>, c: set<nat>, i: nat, kept: bool)
    requires |was| == |ps| && i in c && i < |ps| && forall j: nat :: j < |ps| && j in c ==> was[j] == ps[j]
    ensures Outcome(was, Listed(c, |ps|), i, kept) == Outcome(ps, Listed(c, |ps|), i, kept)
  {
    hide Others, Reject;
    var members := Listed(c, |ps|);
    forall k | 0 <= k < |members| ensures EntityIds(was, members)[k] == EntityIds(ps, members)[k] {
      assert members[k] in members;
    }
    assert EntityIds(was, members) == EntityIds(ps, members);
  }

  /** The clear winner judged on the array as it stands is the one of the original proposals. */
  method Winner(g: Config, ghost ps: seq<Proposal>, now: seq<Proposal>, c: set<nat>) returns (keep: Option<nat>)
    requires SameCrops(ps, now) && (forall i :: i in c ==> i < |now|) && |c| >= 2
    ensures keep.Some? ==> Leads(g, ps, c, keep.value)
    ensures keep.None? ==> forall k :: !Leads(g, ps, c, k)
  {
    keep := Rank(g, now, c);
    forall k: nat ensures Leads(g, ps, c, k) <==> Leads(g, now, c, k) { SameLeader(g, ps, now, c, k); }
  }

  /** The component of one start: find it, rank it, settle it. */
  method GateComponent(g: Config, a: array<Proposal>, ghost items: seq<nat>, adj: map<nat, set<nat>>, start: nat,
                       ghost ps: seq<Proposal>, ghost done: set<nat>) returns (c: set<nat>)
    requires IsGroup(ps, items) && Adjacency(g, ps, items, adj) && start in adj
    requires a.Length == |ps| && Gating(g, ps, a[..], done)
    requires forall i :: i in adj ==> i in items && i < |ps|
    requires forall i: nat :: i in adj && Reach(g, ps, start, i) ==> i !in done
    modifies a
    ensures Gating(g, ps, a[..], done + c) && IsComponent(g, ps, start, c) && c <= adj.Keys
  {
    hide Gating, IsGroup, Reach, Conflict, Leads, Outcome, SameCrops, Adjacency;
    c := Component(g, ps, items, adj, start, a.Length);
    GatingKeepsCrops(g, ps, a[..], done);
    var keep := Winner(g, ps, a[..], c);
    ghost var was := a[..];
    SettleComponent(a, c, keep);
    ComponentSettled(g, ps, was, a[..], items, done, start, c, keep);
  }

  /** One group: every component in turn. */
  method GateGroup(g: Config, a: array<Proposal>, items: seq<nat>, ghost ps: seq<Proposal>, ghost done: set<nat>)
    requires IsGroup(ps, items) && Gating(g, ps, a[..], done)
    requires forall i :: i in items ==> i !in done
    modifies a
    ensures Gating(g, ps, a[..], done + set i | i in items)
  {
    hide Gating, IsGroup, Reach, Conflict, IsComponent, SameCrops, Adjacency;
    GatingKeepsCrops(g, ps, a[..], done);
    var adj := BuildAdjacency(g, ps, a[..], items);
    AdjacencyKeys(g, ps, items, adj);
    var starts := Listed(adj.Keys, a.Length);
    var seen: set<nat> := {};
    assert done + seen == done;
    GatingLength(g, ps, a[..], done);
    for k := 0 to |starts|
      invariant Gating(g, ps, a[..], done + seen) && seen <= adj.Keys
      invariant forall i :: i in starts[..k] ==> i in seen
      invariant forall i, j: nat :: i in seen && Reach(g, ps, i, j) ==> j in seen
    {
      var start := starts[k];
      assert start in starts;
      assert starts[..k + 1] == starts[..k] + [start];
      if start !in seen {
        NotSeen(g, ps, start, seen);
        var c := GateComponent(g, a, items, adj, start, ps, done + seen);
        FreshComponent(g, ps, start, c, seen);
        StartInComponent(g, ps, start, c);
        assert (done + seen) + c == done + (seen + c);
        seen := seen + c;
      }
    }
    assert starts[..|starts|] == starts;
    assert seen == adj.Keys;
    GroupSettled(g, ps, a[..], items, adj, done);
  }

  lemma NotSeen(g: Config, ps: seq<Proposal>, start: nat, seen: set<nat>)
    requires start !in seen && forall i, j: nat :: i in seen && Reach(g, ps, i, j) ==> j in seen
    ensures forall i: nat :: Reach(g, ps, start, i) ==> i !in seen
  {
    hide Reach;
    forall i: nat | Reach(g, ps, start, i) ensures i !in seen { ReachBack(g, ps, start, i); }
  }

  lemma AdjacencyKeys(g: Config, ps: seq<Proposal>, items: seq<nat>, adj: map<nat, set<nat>>)
    requires Adjacency(g, ps, items, adj) && IsGroup(ps, items)
    ensures forall i :: i in adj ==> i in items && i < |ps|
  {
    hide Conflict, Eligible, SameGroup;
  }

  lemma GatingLength(g: Config, ps: seq<Proposal>, now: seq<Proposal>, done: set<nat>)
    requires Gating(g, ps, now, done)
    ensures |now| == |ps|
  {
    hide After;
  }

  lemma StartInComponent(g: Config, ps: seq<Proposal>, start: nat, c: set<nat>)
    requires IsComponent(g, ps, start, c)
    ensures start in c
  {
    ReachSelf(g, ps, start);
  }

  /** Once all components are settled so is the group: whatever is in none of them keeps what it had. */
  lemma GroupSettled(g: Config, ps: seq<Proposal>, now: seq<Proposal>, items: seq<nat>, adj: map<nat, set<nat>>,
                     done: set<nat>)
    requires Adjacency(g, ps, items, adj) && Gating(g, ps, now, done + adj.Keys)
    requires forall i :: i in items ==> i !in done
    ensures Gating(g, ps, now, done + set i | i in items)
  {
    hide Outcome, Conflict, Survives;
    forall i: nat | i < |ps| && i in items && i !in adj ensures After(g, ps, i) == ps[i] {
      assert forall j: nat :: !Conflict(g, ps, i, j);
    }
  }

  /** The members of the first `n` groups. */
  ghost function Members(groups: seq<seq<nat>>, n: nat): (s: set<nat>)
    requires n <= |groups|
    ensures forall i :: i in s <==> exists k :: 0 <= k < n && i in groups[k]
  {
    if n == 0 then {} else var last := groups[n - 1]; Members(groups, n - 1) + set i | i in last
  }

  /** The gate, in place: the array ends up as the declarative gate says. */
  method Gate(g: Config, a: array<Proposal>)
    modifies a
    ensures a[..] == Gated(g, old(a[..]))
  {
    hide Gating, IsGroup, Eligible, Gated;
    var groups := GroupByFrame(a[..]);
    ghost var ps := a[..];
    GatingStarts(g, ps);
    for k := 0 to |groups|
      invariant Gating(g, ps, a[..], Members(groups, k))
    {
      GateGroup(g, a, groups[k], ps, Members(groups, k));
    }
    AllGated(g, ps, a[..], groups);
  }

  lemma GatingStarts(g: Config, ps: seq<Proposal>)
    ensures Gating(g, ps, ps, {})
  {}

  lemma AllGated(g: Config, ps: seq<Proposal>, now: seq<Proposal>, groups: seq<seq<nat>>)
    requires Grouped(ps, groups) && Gating(g, ps, now, Members(groups, |groups|))
    ensures now == Gated(g, ps)
  {
    hide Survives, Outcome, IsGroup, Eligible;
    forall i: nat | i < |ps| ensures now[i] == After(g, ps, i) {
      if !Eligible(ps[i]) { Uncontested(g, ps, i); }
    }
  }

  lemma Uncontested(g: Config, ps: seq<Proposal>, i: nat)
    requires i < |ps| && !Eligible(ps[i])
    ensures !Contested(g, ps, i)
  {}
}
