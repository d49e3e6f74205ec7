/** From the compiled timeline to the guard: the `last_seen` control never looks forward. */
module Causality {
  import opened Basics
  import opened Decimal
  import opened Sorting
  import opened Timeline
  import opened TimelineLaws
  import opened LastSeenControl
  import opened Meaning

  // ----- compiled labels are plannable -----

  /** A label's source shot is causal exactly when its gap is not negative. */
  lemma LabelCausal(src: Source, i: nat, j: nat)
    requires src.Valid() && IsItem(src.flat, i, j)
    ensures Label(src, i, j).lastSeen.Some? ==>
              (Causal(Label(src, i, j), i) <==> GapAtLeastZero(Label(src, i, j)))
    ensures Label(src, i, j).lastSeen.Some? ==>
              Shot(Label(src, i, j).lastSeen.value) == Some(i - Label(src, i, j).gap.value - 1)
  {
    hide SegId, Shot;
    var prev := LastSeen(src.flat, src.flat[i].present[j].eid, i, j);
    if prev.Some? { ShotInvertsSegId(prev.value); }
  }

  /** The planner accepts a compiled segment exactly when no wanted entry has a negative gap. */
  lemma {:induction false} CompiledSegmentIsPlannable(src: Source, i: nat)
    requires src.Valid() && i < |src.flat|
    ensures Shot(SegmentOf(src, i).id) == Some(i)
    ensures Plannable(GoldOf(src), SegmentOf(src, i)) <==>
            forall c :: c in CastOf(src, i) && Wanted(GoldOf(src), c) ==> GapAtLeastZero(c)
  {
    hide LabelFrom, Label, Wanted, Causal, GapAtLeastZero;
    ShotInvertsSegId(i);
    forall c | c in CastOf(src, i) && Wanted(GoldOf(src), c)
      ensures Causal(c, i) <==> GapAtLeastZero(c)
    {
      var k :| 0 <= k < |CastOf(src, i)| && CastOf(src, i)[k] == c;
      var j := CastFrom(src, i, |src.flat[i].present|, k);
      LabelCausal(src, i, j);
      WantedIsSeen(GoldOf(src), c);
    }
  }

  lemma WantedIsSeen(gold: Gold, c: Entry)
    requires Wanted(gold, c)
    ensures c.lastSeen.Some?
  {}

  /** The planner never raises on a compiled timeline whose segments list each entity once. */
  lemma {:induction false} PlanNeverRaises(src: Source, ids: seq<string>)
    requires src.Valid() && DistinctCast(src.flat) && Aligned(GoldOf(src), ids)
    ensures forall i :: 0 <= i < |ids| ==> Plannable(GoldOf(src), GoldOf(src).segments[i])
  {
    hide LabelFrom, Label, Plannable, Wanted, CastOf;
    forall i | 0 <= i < |ids| ensures Plannable(GoldOf(src), GoldOf(src).segments[i]) {
      forall c | c in CastOf(src, i) ensures GapAtLeastZero(c) {
        CastGapAtLeastZero(src, i, c);
      }
      CompiledSegmentIsPlannable(src, i);
    }
  }

  lemma CastGapAtLeastZero(src: Source, i: nat, c: Entry)
    requires src.Valid() && DistinctCast(src.flat) && i < |src.flat| && c in CastOf(src, i)
    ensures GapAtLeastZero(c)
    ensures c.lastSeen.Some? <==> c.gap.Some?
    ensures c.gap.Some? ==> c.gap.value < i && Shot(c.lastSeen.value) == Some(i - c.gap.value - 1)
    ensures c.op.Introduce? ==> c.gap.None?
  {
    hide LabelFrom, Label, Shot, SegId;
    var k :| 0 <= k < |CastOf(src, i)| && CastOf(src, i)[k] == c;
    var j := CastFrom(src, i, |src.flat[i].present|, k);
    LabelsPointBack(src, i, j);
    if c.gap.Some? { ShotInvertsSegId(i - c.gap.value - 1); }
  }

  // ----- the plan lists sources oldest first -----

  lemma {:induction false} RowsPointBack(src: Source, i: nat, cast: seq<Entry>)
    requires src.Valid() && DistinctCast(src.flat) && i < |src.flat|
    requires forall c :: c in cast ==> c in CastOf(src, i)
    requires CausalCast(GoldOf(src), cast, i)
    ensures forall r :: r in RowsOf(GoldOf(src), cast, i) ==>
              0 <= r.source == i - r.gap - 1 < i
              && exists c :: c in cast && c.eid == r.eid && Wanted(GoldOf(src), c)
                             && Shot(c.lastSeen.value) == Some(r.source)
  {
    hide CastOf, Wanted, Shot;
    if cast != [] {
      var c, before := cast[|cast| - 1], cast[..|cast| - 1];
      assert c in cast && forall x :: x in before ==> x in cast;
      RowsPointBack(src, i, before);
      CastGapAtLeastZero(src, i, c);
      if Wanted(GoldOf(src), c) { WantedIsSeen(GoldOf(src), c); }
    }
  }

  function PlannedRows(src: Source, i: nat): (rows: seq<Row>)
    requires src.Valid() && i < |src.flat| && CausalCast(GoldOf(src), CastOf(src, i), i)
  {
    Sort(RowsOf(GoldOf(src), CastOf(src, i), i), RowLe)
  }

  /** Each shot's plan runs from its oldest source to its newest, all strictly earlier. */
  lemma {:induction false} PlanIsOldestFirst(src: Source, i: nat)
    requires src.Valid() && DistinctCast(src.flat) && i < |src.flat|
    requires CausalCast(GoldOf(src), CastOf(src, i), i)
    ensures var sources := SourcesOf(PlannedRows(src, i));
            && (forall a, b :: 0 <= a < b < |sources| ==> sources[a] <= sources[b])
            && (forall a :: 0 <= a < |sources| ==> 0 <= sources[a] < i)
  {
    hide CastOf, RowsOf, CausalCast, GoldOf;
    var rows := RowsOf(GoldOf(src), CastOf(src, i), i);
    RowsPointBack(src, i, CastOf(src, i));
    assert forall r :: r in rows ==> 0 <= r.source == i - r.gap - 1 < i;
    SortedRows(rows, i);
    assert PlannedRows(src, i) == Sort(rows, RowLe);
  }

  /** Within one segment a larger gap is an earlier source. */
  lemma SortedRows(rows: seq<Row>, i: nat)
    requires forall r :: r in rows ==> 0 <= r.source == i - r.gap - 1 < i
    ensures var sorted := Sort(rows, RowLe);
            && (forall a, b :: 0 <= a < b < |sorted| ==> sorted[a].source <= sorted[b].source)
            && (forall a :: 0 <= a < |sorted| ==> 0 <= sorted[a].source < i)
  {
    hide Sort, StringLe;
    var sorted := Sort(rows, RowLe);
    RowLeIsTotal();
    SortSorts(rows, RowLe);
    SameElements(rows, sorted);
    forall a | 0 <= a < |sorted| ensures sorted[a] in rows { assert sorted[a] in sorted; }
    forall a, b | 0 <= a < b < |sorted| ensures sorted[a].source <= sorted[b].source {
      assert RowLe(sorted[a], sorted[b]);
    }
  }

  /** The plan has one key for each shot, and the shot's own row under it. */
  lemma {:induction false} PlanByShot(gold: Gold, n: nat)
    requires n <= |gold.segments|
    requires forall i :: 0 <= i < n ==> Plannable(gold, gold.segments[i])
    requires forall i :: 0 <= i < n ==> Shot(gold.segments[i].id) == Some(i)
    ensures forall k :: k in PlanUpTo(gold, n) <==> 0 <= k < n
    ensures forall i :: 0 <= i < n ==>
              CausalCast(gold, gold.segments[i].cast, i)
              && PlanUpTo(gold, n)[i] == SourcesOf(Sort(RowsOf(gold, gold.segments[i].cast, i), RowLe))
  {
    hide RowsOf, CausalCast, Sort, SourcesOf, Shot;
    if n > 0 {
      PlanByShot(gold, n - 1);
      assert Plannable(gold, gold.segments[n - 1]);
    }
  }

  /** End to end: the compiled story has a plan, and shot `i` takes its sources oldest first. */
  lemma {:induction false} CompiledPlan(src: Source, ids: seq<string>)
    requires src.Valid() && DistinctCast(src.flat) && Aligned(GoldOf(src), ids)
    ensures forall i :: 0 <= i < |ids| ==> Plannable(GoldOf(src), GoldOf(src).segments[i])
    ensures var plan := PlanUpTo(GoldOf(src), |ids|);
            && (forall k :: k in plan <==> 0 <= k < |ids|)
            && (forall i :: 0 <= i < |ids| ==>
                  CausalCast(GoldOf(src), CastOf(src, i), i) && plan[i] == SourcesOf(PlannedRows(src, i)))
  {
    hide Plannable, RowsOf, CausalCast, SourcesOf, Sort, CastOf, Shot, SegId, PlanUpTo;
    PlanNeverRaises(src, ids);
    forall i | 0 <= i < |ids|
      ensures Shot(GoldOf(src).segments[i].id) == Some(i) && GoldOf(src).segments[i].cast == CastOf(src, i)
    {
      CompiledShot(src, i);
    }
    PlanByShot(GoldOf(src), |ids|);
  }

  lemma CompiledShot(src: Source, i: nat)
    requires src.Valid() && i < |src.flat|
    ensures Shot(SegmentOf(src, i).id) == Some(i) && SegmentOf(src, i).cast == CastOf(src, i)
  {
    ShotInvertsSegId(i);
  }

  // ----- what the plan lists -----

  /** Item `j` of segment `i` calls for a source: a character or a prop shown before. */
  ghost predicate CallsFor(src: Source, i: nat, j: nat)
    requires IsItem(src.flat, i, j)
  {
    var e := src.flat[i].present[j].eid;
    e in src.entities && (src.entities[e].kind == "character" || src.entities[e].kind == "prop")
    && ShownBefore(src.flat, e, i, j)
  }

  ghost function Calling(src: Source, i: nat): nat -> bool
    requires i < |src.flat|
  {
    (j: nat) => j < |src.flat[i].present| && CallsFor(src, i, j)
  }

  lemma WantedIs(src: Source, i: nat, j: nat)
    requires src.Valid() && IsItem(src.flat, i, j) && src.flat[i].present[j].eid in src.entities
    ensures Wanted(GoldOf(src), Label(src, i, j)) <==> CallsFor(src, i, j)
    ensures forall p: nat :: LastShownIn(src.flat, src.flat[i].present[j].eid, i, j, p) ==>
              Label(src, i, j).lastSeen.Some? && Shot(Label(src, i, j).lastSeen.value) == Some(p)
  {
    hide SegId, Shot, LastSeen, LatestState, TransformsTo, InitialState, Tag, ShownBefore, LastShownIn, GoldUpTo;
    var e := src.flat[i].present[j].eid;
    LastSeenIs(src.flat, e, i, j);
    var seen := LastSeen(src.flat, e, i, j);
    if seen.Some? {
      ShotInvertsSegId(seen.value);
      SegIdNotEmpty(seen.value);
    }
    KindKept(src, e);
  }

  lemma SegIdNotEmpty(i: nat)
    ensures SegId(i) != ""
  {}

  lemma KindKept(src: Source, e: string)
    requires src.Valid() && e in src.entities
    ensures e in GoldOf(src).entities && GoldOf(src).entities[e].kind == src.entities[e].kind
  {
    hide GoldUpTo, InitialState;
  }

  /** The rows of the first `n` items: one for each that calls for a source, with the segment that showed it last. */
  lemma {:induction false} RowsMean(src: Source, i: nat, n: nat) returns (places: seq<nat>)
    requires src.Valid() && MemoryRules(src) && i < |src.flat| && n <= |src.flat[i].present|
    requires CausalCast(GoldOf(src), CastOf(src, i), i) && |CastOf(src, i)| == |src.flat[i].present|
    ensures PlacesOf(places, n, Calling(src, i))
    ensures CausalCast(GoldOf(src), CastOf(src, i)[..n], i)
    ensures var rows := RowsOf(GoldOf(src), CastOf(src, i)[..n], i);
            |rows| == |places| && forall k :: 0 <= k < |places| ==> RowStands(src, i, rows[k], places[k])
  {
    hide MemoryRules, CastOf, PlacesOf, Wanted, Calling, RowStands, GoldOf, Shot;
    var cast := CastOf(src, i);
    CastPrefixCausal(GoldOf(src), cast, i, n);
    if n == 0 {
      places := [];
      NoPlaces(Calling(src, i));
    } else {
      places := RowsMean(src, i, n - 1);
      PlacesStep(places, n - 1, Calling(src, i));
      assert cast[..n][..n - 1] == cast[..n - 1];
      RowNext(src, i, n - 1);
      if Calling(src, i)(n - 1) { places := places + [n - 1]; }
    }
  }

  lemma CastPrefixCausal(gold: Gold, cast: seq<Entry>, shot: int, n: nat)
    requires CausalCast(gold, cast, shot) && n <= |cast|
    ensures CausalCast(gold, cast[..n], shot)
  {
    hide Wanted;
  }

  /** The row's source is the segment that showed the item's entity last. */
  ghost predicate RowStands(src: Source, i: nat, row: Row, j: nat)
    requires i < |src.flat|
  {
    j < |src.flat[i].present| && row.eid == src.flat[i].present[j].eid
    && row.source >= 0 && LastShownIn(src.flat, row.eid, i, j, row.source)
  }

  /** One more entry gives one more row if it is wanted. */
  lemma RowStep(gold: Gold, cast: seq<Entry>, shot: int, n: nat)
    requires n < |cast| && CausalCast(gold, cast[..n + 1], shot)
    ensures CausalCast(gold, cast[..n], shot)
    ensures var before, now, c := RowsOf(gold, cast[..n], shot), RowsOf(gold, cast[..n + 1], shot), cast[n];
            if Wanted(gold, c) then
              && |now| == |before| + 1 && now[..|before|] == before && now[|before|].eid == c.eid
              && c.lastSeen.Some? && Shot(c.lastSeen.value) == Some(now[|before|].source) && now[|before|].source >= 0
            else now == before
  {
    hide Wanted, Shot;
    CastPrefixCausal(gold, cast[..n + 1], shot, n);
    assert cast[..n + 1][..n] == cast[..n] && cast[..n + 1][n] == cast[n];
  }

  lemma RowNext(src: Source, i: nat, n: nat)
    requires src.Valid() && MemoryRules(src) && i < |src.flat| && n < |src.flat[i].present| == |CastOf(src, i)|
    requires CausalCast(GoldOf(src), CastOf(src, i)[..n + 1], i)
    ensures CausalCast(GoldOf(src), CastOf(src, i)[..n], i)
    ensures var before := RowsOf(GoldOf(src), CastOf(src, i)[..n], i);
            var now := RowsOf(GoldOf(src), CastOf(src, i)[..n + 1], i);
            if Calling(src, i)(n) then |now| == |before| + 1 && now[..|before|] == before && RowStands(src, i, now[|before|], n)
            else now == before
  {
    hide MemoryRules, CastOf, Wanted, CallsFor, LastShownIn, GoldOf, Shot, CausalCast, RowsOf, Label;
    CompiledCast(src, i);
    RowStep(GoldOf(src), CastOf(src, i), i, n);
    WantedIs(src, i, n);
    LabelOf(src, i, n);
    if CallsFor(src, i, n) { SeenSomewhere(src, i, n); }
  }

  lemma LabelOf(src: Source, i: nat, j: nat)
    requires src.Valid() && IsItem(src.flat, i, j)
    ensures Label(src, i, j).eid == src.flat[i].present[j].eid
  {}

  lemma SeenSomewhere(src: Source, i: nat, j: nat)
    requires IsItem(src.flat, i, j) && CallsFor(src, i, j)
    ensures exists p: nat :: LastShownIn(src.flat, src.flat[i].present[j].eid, i, j, p)
  {
    hide ShownBefore, LastShownIn;
    LastSeenIs(src.flat, src.flat[i].present[j].eid, i, j);
    var p := LastSeen(src.flat, src.flat[i].present[j].eid, i, j);
    assert p.Some?;
  }

  /** The plan of a shot has one source for each character or prop in it that was shown before, the shot that showed
      it last, and nothing else. */
  lemma {:induction false} PlanMeans(src: Source, i: nat) returns (places: seq<nat>)
    requires src.Valid() && MemoryRules(src) && DistinctCast(src.flat) && i < |src.flat|
    requires CausalCast(GoldOf(src), CastOf(src, i), i)
    ensures PlacesOf(places, |src.flat[i].present|, Calling(src, i)) && |PlannedRows(src, i)| == |places|
    ensures forall row :: row in PlannedRows(src, i) ==> exists j: nat :: j in places && RowStands(src, i, row, j)
    ensures forall j: nat :: j in places ==> exists row :: row in PlannedRows(src, i) && RowStands(src, i, row, j)
  {
    hide MemoryRules, CastOf, PlacesOf, Wanted, Calling, RowStands, GoldOf, CausalCast, RowsOf, Sort;
    CompiledCast(src, i);
    var cast := CastOf(src, i);
    assert cast[..|cast|] == cast;
    places := RowsMean(src, i, |cast|);
    var rows := RowsOf(GoldOf(src), cast, i);
    SameElements(rows, PlannedRows(src, i));
    forall row | row in PlannedRows(src, i) ensures exists j: nat :: j in places && RowStands(src, i, row, j) {
      var k :| 0 <= k < |rows| && rows[k] == row;
      assert places[k] in places;
    }
    forall j: nat | j in places ensures exists row :: row in PlannedRows(src, i) && RowStands(src, i, row, j) {
      var k :| 0 <= k < |places| && places[k] == j;
      assert rows[k] in rows;
    }
  }

  // ----- the selector's references pass the guard -----

  lemma {:induction false} StillsComeFromSources(disk: Disk, sources: seq<nat>)
    ensures forall x :: x in Stills(disk, sources) ==>
              exists s :: s in sources && s in disk.stills && x == Ref(RepId(s), disk.stills[s])
  {
    hide RepId;
    if sources != [] {
      var s, before := sources[|sources| - 1], sources[..|sources| - 1];
      StillsComeFromSources(disk, before);
      assert sources == before + [s];
    }
  }

  /** What the selector hands over passes the guard exactly when its source shots have five digits. */
  lemma {:induction false} SelectedRefsPass(videos: map<int, string>, past: map<int, string>, disk: Disk,
                                            planned: seq<int>, budget: nat, current: int,
                                            images: set<string>, ownImages: set<string>)
    requires |planned| <= budget && forall s :: s in disk.stills ==> disk.stills[s] in ownImages
    ensures var refs := Usable(Stills(disk, Chosen(videos, past, disk, planned, budget, current)), images);
            && |refs| <= budget
            && (forall x :: x in refs ==>
                  exists s: nat :: s < current && x.repId == RepId(s)
                                   && (Passes(x, current, ownImages) <==> s < 100000))
            && (current <= 100000 ==> forall x :: x in refs ==> Passes(x, current, ownImages))
  {
    hide RepId, SourceOf, Own, Chosen;
    var sources := Chosen(videos, past, disk, planned, budget, current);
    assert forall s :: s in sources ==> Own(videos, past, disk, s, current);
    StillsComeFromSources(disk, sources);
    UsableKeepsEachStillOnce(Stills(disk, sources), images);
    forall x | x in Usable(Stills(disk, sources), images)
      ensures exists s: nat :: s < current && x.repId == RepId(s)
                               && (Passes(x, current, ownImages) <==> s < 100000)
    {
      var s :| s in sources && s in disk.stills && x == Ref(RepId(s), disk.stills[s]);
      OwnIsEarlier(videos, past, disk, s, current);
      RepIdReadsBack(s);
    }
  }
}
