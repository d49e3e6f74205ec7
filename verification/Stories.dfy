/** Three small stories that meet the memory rules and still show what the laws leave open. */
module Stories {
  import opened Basics
  import opened Decimal
  import opened Timeline
  import opened TimelineLaws
  import opened Units
  import opened Flashbacks
  import opened Scorer
  import opened Tallies
  import opened Judges

  function Shot(present: seq<Item>): Segment { Segment("scene", "", present, false, [], None) }

  function Plain(e: string): Item { Item(e, Extras(None, None, None, None)) }

  function Flashback(e: string, look: string): Item { Item(e, Extras(Some(look), None, None, None)) }

  // ----- a flashback that passes for the current look -----

  function Painter(): Entity { Entity("", "person", "clean", map["clean" := "clean", "painted" := "painted"], "") }

  /** Anna enters clean, is shown painted in a flashback, is away for a shot, and comes back. */
  function FlashbackStory(): Source {
    Source(map["anna" := Painter()], map["anna" := ["clean", "painted"]], map[], 10, 3,
           [Shot([Plain("anna")]), Shot([Flashback("anna", "painted")]), Shot([]), Shot([Plain("anna")])])
  }

  lemma StoryCompiles(src: Source)
    requires src == FlashbackStory()
    ensures src.Valid() && MemoryRules(src) && DistinctCast(src.flat)
    ensures |src.flat| == 4 && "anna" in src.entities && src.entities["anna"].kind == "person"
  {
    NoEventsNoReentry(src.flat);
    forall i | 0 <= i < |src.flat| ensures SegmentRules(src, src.flat[i]) { ShotRules(src.flat[i]); }
  }

  lemma NoEventsNoReentry(flat: seq<Segment>)
    requires forall i :: 0 <= i < |flat| ==> flat[i].events == []
    ensures NoReentry(flat)
  {
    forall i, j | 0 <= i < |flat| && 0 <= j < |flat[i].present|
      ensures LatestRemoval(flat, flat[i].present[j].eid, i).None?
    {
      assert forall k :: 0 <= k < i ==> RemoveEvent(flat[k].events, flat[i].present[j].eid).None?;
    }
  }

  lemma ShotRules(seg: Segment)
    requires seg in {Shot([]), Shot([Plain("anna")]), Shot([Flashback("anna", "painted")])}
    ensures SegmentRules(FlashbackStory(), seg)
  {}

  /** Her labels. */
  lemma StoryLabels(src: Source)
    requires src == FlashbackStory()
    ensures src.Valid()
    ensures var c := Label(src, 1, 0); c.state.Some? && c.state.value.name == "painted" && c.state.value.flashback
    ensures var c := Label(src, 3, 0); c.op.Recall? && c.gap == Some(1) && c.state.None?
  {
    hide SegId, AppearanceOf;
    var flat := src.flat;
    assert LastSeen(flat, "anna", 1, 0) == Some(0);
    assert LastSeen(flat, "anna", 2, 0) == Some(1);
    assert LastSeen(flat, "anna", 3, 0) == Some(1);
    assert LatestState(flat, "anna", 1, 0) == None;
    assert LatestState(flat, "anna", 2, 0) == None;
    assert LatestState(flat, "anna", 3, 0) == None;
  }

  lemma StoryStates(src: Source)
    requires src == FlashbackStory()
    ensures src.Valid()
    ensures Remembered(src, "anna", 2, 0) == Remembered(src, "anna", 4, 0) == Some("clean")
  {
    assert InitialLook(src, "anna") == Some("clean");
    hide InitialLook;
    assert Remembered(src, "anna", 1, 0) == Some("clean");
    assert Remembered(src, "anna", 3, 0) == Some("clean");
  }

  lemma StoryFlashes(src: Source)
    requires src == FlashbackStory()
    ensures src.Valid()
    ensures Flashed(src, "anna", 2, 0) == Flashed(src, "anna", 4, 0) == Some("painted")
  {
    hide Label;
    StoryLabels(src);
    LabelsItsItem(src, 1, 0);
    assert Flashed(src, "anna", 2, 0) == Flashed(src, "anna", 1, 1) == Some("painted");
    assert Flashed(src, "anna", 3, 0) == Flashed(src, "anna", 2, 0);
    assert Flashed(src, "anna", 4, 0) == Flashed(src, "anna", 3, 1) == Flashed(src, "anna", 3, 0);
  }

  lemma ReturnEntry(src: Source)
    requires src == FlashbackStory()
    ensures src.Valid()
    ensures var cast := GoldOf(src).segments[3].cast;
            && |cast| == 1 && cast[0].eid == "anna" && cast[0].op.Recall? && cast[0].gap == Some(1)
  {
    hide Label, ForbiddenOf, TwinsOf, CastProbes, RemovedProbes, RemovalOrder, GoldEntities;
    StoryLabels(src);
    LabelsItsItem(src, 3, 0);
    assert GoldOf(src).segments[3] == SegmentOf(src, 3);
    assert CastUpTo(src, 3, 0) == [];
    assert CastOf(src, 3) == [Label(src, 3, 0)];
  }

  lemma ReturnPrev(src: Source)
    requires src == FlashbackStory()
    ensures src.Valid() && Prev(GoldOf(src).segments, "anna", 3) == Some(2)
  {
    hide FlashbackStory, MemoryRules, CastOf, LastSeen, Prev, GoldUpTo, GoldEntities, DistinctCast;
    StoryCompiles(src);
    ReturnSeen(src.flat);
    PrevIsLastSeen(src, GoldOf(src).segments, "anna", 3);
  }

  lemma ReturnSeen(flat: seq<Segment>)
    requires flat == FlashbackStory().flat
    ensures LastSeen(flat, "anna", 3, 0) == Some(1)
  {
    assert LastSeen(flat, "anna", 2, 0) == Some(1);
  }

  /** The timeline has `e` in look `was` at segments two and four, but the unit of its return in the latter takes it
      for `taken` before and after. */
  ghost predicate Mistaken(src: Source, cfg: Config, e: string, was: string, taken: string) {
    && src.Valid() && MemoryRules(src) && |src.flat| == 4 && e in src.entities
    && Remembered(src, e, 2, 0) == Remembered(src, e, 4, 0) == Some(was)
    && |GoldOf(src).segments[3].cast| == 1 && Sure(GoldOf(src), cfg, 3, 0)
    && forall u :: FromEntry(GoldOf(src), cfg, u, 3, 0) ==> u.stateA == u.stateB == Some(taken)
  }

  /** Her return gives a unit that takes her for painted before and after, which she never was. */
  lemma FlashbackMisleads(cfg: Config)
    requires "person" in cfg.kinds && Recall in cfg.ops
    ensures Mistaken(FlashbackStory(), cfg, "anna", "clean", "painted")
  {
    hide FlashbackStory, MemoryRules, DistinctCast, GoldOf, Remembered, Flashed, StateAfter, Prev, FromEntry, Sure;
    var src := FlashbackStory();
    StoryCompiles(src);
    StoryStates(src);
    StoryFlashes(src);
    ReturnEntry(src);
    ReturnPrev(src);
    KindKept(src, "anna");
    StateIsFlashedOrRemembered(src, "anna", 2);
    StateIsFlashedOrRemembered(src, "anna", 4);
    SureReturn(GoldOf(src), cfg, 3, 0);
    TakenFor(GoldOf(src), cfg, 3, 0, "painted");
  }

  /** A recall after a gap of one, by an entity of a wanted kind, gives a unit whatever the draws. */
  lemma SureReturn(gold: Gold, cfg: Config, n: nat, m: nat)
    requires n < |gold.segments| && m < |gold.segments[n].cast| && Recall in cfg.ops
    requires var c := gold.segments[n].cast[m];
             c.op.Recall? && c.gap == Some(1) && c.eid in gold.entities && gold.entities[c.eid].kind in cfg.kinds
             && Prev(gold.segments, c.eid, n).Some?
    ensures Sure(gold, cfg, n, m)
  {
    hide Prev;
  }

  lemma TakenFor(gold: Gold, cfg: Config, n: nat, m: nat, look: string)
    requires n < |gold.segments| && m < |gold.segments[n].cast|
    requires var e := gold.segments[n].cast[m].eid;
             Prev(gold.segments, e, n).Some? && StateAfter(gold, e, n + 1) == Some(look)
             && StateAfter(gold, e, Prev(gold.segments, e, n).value) == Some(look)
    ensures forall u :: FromEntry(gold, cfg, u, n, m) ==> u.stateA == u.stateB == Some(look)
  {
    hide StateAfter, Prev, FromEntry;
    forall u | FromEntry(gold, cfg, u, n, m) ensures u.stateA == u.stateB == Some(look) {
      UnitTells(gold, cfg, u, n, m);
    }
  }

  lemma UnitTells(gold: Gold, cfg: Config, u: Unit, n: nat, m: nat)
    requires n < |gold.segments| && m < |gold.segments[n].cast| && FromEntry(gold, cfg, u, n, m)
    ensures var e, prev := gold.segments[n].cast[m].eid, Prev(gold.segments, gold.segments[n].cast[m].eid, n);
            prev.Some? && u.stateA == StateAfter(gold, e, prev.value) && u.stateB == StateAfter(gold, e, n + 1)
  {
    hide StateAfter, Prev, FromEntry;
    UnitParts(gold, cfg, u, n, m);
    UnitSides(gold, cfg, u, n, m);
    UnitOfEntry(gold, cfg, u, n, m);
  }

  lemma KindKept(src: Source, e: string)
    requires src.Valid() && e in src.entities
    ensures e in GoldOf(src).entities && GoldOf(src).entities[e].kind == src.entities[e].kind
  {
    hide GoldUpTo, InitialState;
  }

  lemma UnitOfEntry(gold: Gold, cfg: Config, u: Unit, n: nat, m: nat)
    requires n < |gold.segments| && m < |gold.segments[n].cast| && FromEntry(gold, cfg, u, n, m)
    ensures u.eid == gold.segments[n].cast[m].eid
  {
    hide StateAfter, GapBin, StratumOf, Prev;
  }

  // ----- removed twice -----

  /** Anna is removed on screen, and once more while she is gone. */
  function TwiceRemovedStory(): Source {
    Source(map["anna" := Painter()], map[], map[], 10, 3,
           [Shot([Plain("anna")]).(events := [Remove("anna", None, true, "left")]),
            Shot([]),
            Shot([]).(events := [Remove("anna", None, false, "left again")])])
  }

  lemma AnnaIsRemoved(flat: seq<Segment>)
    requires flat == TwiceRemovedStory().flat
    ensures LatestRemoval(flat, "anna", 1) == LatestRemoval(flat, "anna", 2) == Some(Removal(0, "left"))
    ensures LatestRemoval(flat, "anna", 3) == Some(Removal(2, "left again"))
  {
    assert RemoveEvent(flat[0].events, "anna") == Some(flat[0].events[0]);
    assert RemoveEvent(flat[1].events, "anna") == None;
    assert RemoveEvent(flat[2].events, "anna") == Some(flat[2].events[0]);
  }

  /** It compiles; she is on the roster of the second segment and no longer on that of the third. */
  lemma SecondRemovalLeavesTheRoster(src: Source)
    requires src == TwiceRemovedStory()
    ensures src.Valid() && MemoryRules(src) && Gone(src, "anna", 1) && !Gone(src, "anna", 2)
  {
    AnnaIsRemoved(src.flat);
    hide LatestRemoval;
    assert LatestRemoval(src.flat, "anna", 0).None?;
    forall i | 0 <= i < |src.flat| ensures SegmentRules(src, src.flat[i]) { RemovalRules(src, i); }
  }

  lemma RemovalRules(src: Source, i: nat)
    requires src == TwiceRemovedStory() && i < |src.flat|
    ensures SegmentRules(src, src.flat[i])
  {
    var seg := src.flat[i];
    assert forall e :: RemoveEvent(seg.events, e).Some? ==> e == "anna" && RemoveEvent(seg.events, e).value == seg.events[0];
    if i == 0 { assert seg.present[0].eid == "anna"; }
  }

  // ----- an absent twin on screen -----

  /** Of the twins only the red one is listed as shown, and both are in the shot. */
  function TwinStory(): Source {
    Source(map["red" := Painter(), "blue" := Painter()], map[], map[["red", "blue"] := map[]], 10, 3,
           [Shot([Plain("red"), Plain("blue")]).(lookalike := Some(Lookalike(["red", "blue"], ["red"])))])
  }

  lemma TwinStoryCompiles(src: Source)
    requires src == TwinStory()
    ensures src.Valid() && MemoryRules(src) && |src.flat| == 1 && !TwinsAbsent(src.flat[0])
  {
    NoEventsNoReentry(src.flat);
    var seg := src.flat[0];
    assert seg.present[1].eid == "blue";
    assert "blue" in seg.lookalike.value.pair;
    assert SegmentRules(src, seg);
  }

  /** It compiles, and votes that tell only the truth are scored a violation. */
  lemma TruthIsScoredAViolation(src: Source, voted: map<string, Vote>)
    requires src == TwinStory()
    ensures src.Valid() && MemoryRules(src) && |src.flat| == 1
    ensures var b := Ballot(PrepOf(SegmentOf(src, 0), {}), GoldEntities(src), voted);
            Truthful(b) ==> !Matched(Ideal, TallyOf(b))
  {
    hide TwinStory, MemoryRules, TwinsAbsent, Truthful, Matched, TallyOf, PrepOf, SegmentOf, GoldEntities, Candidates;
    TwinStoryCompiles(src);
    CompiledSegmentScores(src, 0, {}, voted);
  }

  lemma TwinEntries(src: Source)
    requires src == TwinStory()
    ensures src.Valid() && |src.flat| == 1
    ensures var seg := SegmentOf(src, 0);
            && (forall c :: c in seg.cast ==> c.state.None? && c.count.None? && c.confusableWith.None?)
            && EidsOf(seg.cast) == {"red", "blue"}
            && ForbiddenEids(seg.forbidden) <= {"blue"}
            && seg.twins.Some? && seg.twins.value.members == ["red"]
  {
    TwinLabels(src, SegmentOf(src, 0));
    TwinForbidden(src);
  }

  lemma TwinLabels(src: Source, seg: GoldSegment)
    requires src == TwinStory() && seg == SegmentOf(src, 0)
    ensures forall c :: c in seg.cast ==> c.state.None? && c.count.None? && c.confusableWith.None?
    ensures EidsOf(seg.cast) == {"red", "blue"}
  {
    hide Label, ForbiddenOf, CastProbes, RemovedProbes, RemovalOrder, TwinsOf, SegId;
    assert CastUpTo(src, 0, 0) == [];
    assert CastUpTo(src, 0, 1) == [Label(src, 0, 0)];
    assert seg.cast == [Label(src, 0, 0), Label(src, 0, 1)];
    TwinLabel(src, 0, "red");
    TwinLabel(src, 1, "blue");
  }

  lemma TwinLabel(src: Source, j: nat, e: string)
    requires src == TwinStory() && j < 2 && src.flat[0].present[j] == Plain(e)
    ensures var c := Label(src, 0, j); c.eid == e && c.state.None? && c.count.None? && c.confusableWith.None?
  {
    assert LastSeen(src.flat, e, 0, 0).None?;
    assert LastSeen(src.flat, e, 0, j).None?;
  }

  /** Nobody is gone in the first segment. */
  lemma NobodyGone(src: Source)
    requires src.flat != []
    ensures Roster(src, 0) == []
  {
    hide RemovedRoster, LatestRemoval;
    RosterIsTheGone(src, 0);
    var roster := Roster(src, 0);
    assert roster != [] ==> RemovalEntry(src, 0, roster[0]);
  }

  lemma TwinForbidden(src: Source)
    requires src == TwinStory()
    ensures src.Valid() && |src.flat| == 1 && forall f :: f in ForbiddenOf(src, 0) ==> f.eid == "blue"
  {
    hide AbsentTwins, RemovedRoster, MemoryRules, LatestRemoval;
    NobodyGone(src);
    var lp := src.flat[0].lookalike.value;
    AbsentTwinsListed(lp.pair, lp.pair, lp.members);
    assert ForbiddenOf(src, 0) == Roster(src, 0) + AbsentTwins(lp.pair, lp.pair, lp.members);
    assert forall m :: m in lp.pair ==> m == "red" || m == "blue";
  }

  /** ... and there are such votes. */
  lemma TruthCanBeTold(src: Source)
    requires src == TwinStory()
    ensures src.Valid() && |src.flat| == 1
    ensures var voted := map["red" := Vote(Seen, None, None, Some("red")), "blue" := Vote(Seen, None, None, Some("blue"))];
            Truthful(Ballot(PrepOf(SegmentOf(src, 0), {}), GoldEntities(src), voted))
  {
    hide TwinStory, SegmentOf, GoldEntities;
    TwinEntries(src);
    TwinTruth(SegmentOf(src, 0), GoldEntities(src));
  }

  lemma NoFriends(cast: seq<Entry>)
    requires forall c :: c in cast ==> c.confusableWith.None?
    ensures FalseFriends(cast) == []
  {
    var ffs := FalseFriends(cast);
    assert ffs != [] ==> ffs[0] in cast && IsFalseFriend(ffs[0]);
  }

  lemma TwinTruth(seg: GoldSegment, ents: map<string, Entity>)
    requires forall c :: c in seg.cast ==> c.state.None? && c.count.None? && c.confusableWith.None?
    requires EidsOf(seg.cast) == {"red", "blue"} && ForbiddenEids(seg.forbidden) <= {"blue"}
    requires seg.twins.Some? && seg.twins.value.members == ["red"]
    ensures var voted := map["red" := Vote(Seen, None, None, Some("red")), "blue" := Vote(Seen, None, None, Some("blue"))];
            Truthful(Ballot(PrepOf(seg, {}), ents, voted))
  {
    EntriesAreListed(seg);
    hide FalseFriends, ForbiddenEids, ByEid, EidsOf;
    NoFriends(seg.cast);
    var voted := map["red" := Vote(Seen, None, None, Some("red")), "blue" := Vote(Seen, None, None, Some("blue"))];
    var b := Ballot(PrepOf(seg, {}), ents, voted);
    assert b.prep.present == {"red", "blue"} == b.prep.roster;
    assert forall c :: c in b.prep.cast ==> !Asked(c) && c.count.None?;
  }
}
