/** Which stories compile, one authored item and one authored event at a time. */
module Rules {
  import opened Basics
  import opened Timeline
  import opened TimelineLaws
  import opened Meaning
  import opened Rosters

  /** Whoever has a state machine takes looks from it alone. */
  ghost predicate Listed(src: Source, e: string, name: string) { e in src.machines ==> name in src.machines[e] }

  /** What an author has to see to for one item on screen: it is registered; its flashback and the look it takes on are
      listed; what it may be confused with, and what a temporal anchor resolves to, are registered. */
  ghost predicate ItemTold(src: Source, i: nat, j: nat)
    requires IsItem(src.flat, i, j)
  {
    var e, x := src.flat[i].present[j].eid, src.flat[i].present[j].extras;
    && e in src.entities
    && (x.state.Some? ==> Listed(src, e, x.state.value))
    && (forall name :: TakesOn(src.flat, i, j, name) ==> Listed(src, e, name))
    && (x.confusableWith.Some? ==> x.confusableWith.value in src.entities)
    && (x.anchor.Some? && x.anchor.value.kind == "temporal" && x.anchor.value.resolvesTo != "" ==>
          x.anchor.value.resolvesTo in src.entities)
  }

  /** ... for one event: it changes a state or removes somebody; the last removal of an entity in its segment is of a
      registered one, and of one on screen if it is shown. */
  ghost predicate EventTold(src: Source, i: nat, k: nat)
    requires i < |src.flat| && k < |src.flat[i].events|
  {
    var ev := src.flat[i].events[k];
    && (ev.StateChange? || ev.Remove?)
    && (ev.Remove? && LastRemovalAt(src.flat[i].events, ev.eid, k) ==>
          ev.eid in src.entities && (ev.shown ==> exists j: nat :: ShownAt(src.flat, ev.eid, i, j)))
  }

  /** ... and for one segment: its look-alikes are a declared pair and members of it. */
  ghost predicate TwinsTold(src: Source, i: nat)
    requires i < |src.flat|
  {
    src.flat[i].lookalike.Some? ==>
      var lp := src.flat[i].lookalike.value;
      lp.pair in src.pairs && forall m :: m in lp.members ==> m in lp.pair
  }

  /** Whoever was removed is on screen in no later segment. */
  ghost predicate StaysGone(flat: seq<Segment>) {
    forall k: nat, m: nat, e: string, i: nat, j: nat ::
      k < i && k < |flat| && RemovesAt(flat[k].events, e, m) ==> !ShownAt(flat, e, i, j)
  }

  ghost predicate WellTold(src: Source) {
    && StaysGone(src.flat)
    && (forall i: nat, j: nat :: IsItem(src.flat, i, j) ==> ItemTold(src, i, j))
    && (forall i: nat, k: nat :: i < |src.flat| && k < |src.flat[i].events| ==> EventTold(src, i, k))
    && (forall i: nat :: i < |src.flat| ==> TwinsTold(src, i))
  }

  lemma {:induction false} ReentryIs(flat: seq<Segment>)
    ensures NoReentry(flat) <==> StaysGone(flat)
  {
    hide RemovesAt, RemoveEvent, LatestRemoval;
    forall e, i: nat | i <= |flat|
      ensures LatestRemoval(flat, e, i).None? <==> forall k: nat, m: nat :: k < i ==> !RemovesAt(flat[k].events, e, m)
    {
      NeverRemoved(flat, e, i);
    }
    if !StaysGone(flat) {
      var k: nat, m: nat, e: string, i: nat, j: nat :|
        k < i && k < |flat| && RemovesAt(flat[k].events, e, m) && ShownAt(flat, e, i, j);
      assert LatestRemoval(flat, flat[i].present[j].eid, i).Some?;
    }
    if !NoReentry(flat) {
      var i, j :| 0 <= i < |flat| && 0 <= j < |flat[i].present|
                  && LatestRemoval(flat, flat[i].present[j].eid, i).Some?;
      assert ShownAt(flat, flat[i].present[j].eid, i, j);
    }
  }

  lemma NeverRemoved(flat: seq<Segment>, e: string, i: nat)
    requires i <= |flat|
    ensures LatestRemoval(flat, e, i).None? <==> forall k: nat, m: nat :: k < i ==> !RemovesAt(flat[k].events, e, m)
  {
    hide RemovesAt, RemoveEvent;
    forall k: nat | k < i ensures RemoveEvent(flat[k].events, e).None? <==>
                                  forall m: nat :: !RemovesAt(flat[k].events, e, m) {
      RemovalFound(flat[k].events, e);
    }
  }

  lemma RemovalFound(events: seq<Event>, e: string)
    ensures RemoveEvent(events, e).None? <==> forall m: nat :: !RemovesAt(events, e, m)
  {
    RemoveEventIs(events, e);
  }

  lemma ItemIs(src: Source, i: nat, j: nat)
    requires IsItem(src.flat, i, j)
    ensures ItemRules(src, src.flat[i], src.flat[i].present[j]) <==> ItemTold(src, i, j)
  {
    hide TransformsTo, TakesOn;
    forall name ensures TransformsTo(src.flat[i], src.flat[i].present[j]) == Some(name) <==>
                        TakesOn(src.flat, i, j, name) {
      TransformsToIs(src.flat, i, j, name);
    }
  }

  lemma EventsAre(src: Source, i: nat)
    requires i < |src.flat|
    ensures var events := src.flat[i].events;
            EventRules(events) && (forall e :: e in RemovedHere(events) ==> RemovalRule(src, src.flat[i], e)) <==>
            forall k: nat :: k < |events| ==> EventTold(src, i, k)
  {
    hide LastRemovalAt, RemoveEvent, RemovedHere;
    var events := src.flat[i].events;
    forall e ensures OnScreen(src.flat[i], e) <==> exists j: nat :: ShownAt(src.flat, e, i, j) { ScreenIs(src, i, e); }
    hide OnScreen, ShownAt;
    if EventRules(events) && (forall e :: e in RemovedHere(events) ==> RemovalRule(src, src.flat[i], e)) {
      forall k: nat | k < |events| ensures EventTold(src, i, k) {
        assert events[k] in events;
        if events[k].Remove? && LastRemovalAt(events, events[k].eid, k) {
          LastOne(events, events[k].eid, k);
          assert events[k].eid in RemovedHere(events);
        }
      }
    }
    if forall k: nat :: k < |events| ==> EventTold(src, i, k) {
      forall ev | ev in events ensures !ev.Other? {
        var k :| 0 <= k < |events| && events[k] == ev;
        assert EventTold(src, i, k);
      }
      forall e | e in RemovedHere(events) ensures RemovalRule(src, src.flat[i], e) {
        var k := LastOf(events, e);
        assert EventTold(src, i, k);
      }
    }
  }

  lemma ScreenIs(src: Source, i: nat, e: string)
    requires i < |src.flat|
    ensures OnScreen(src.flat[i], e) <==> exists j: nat :: ShownAt(src.flat, e, i, j)
  {
    if OnScreen(src.flat[i], e) {
      var j :| 0 <= j < |src.flat[i].present| && src.flat[i].present[j].eid == e;
      assert ShownAt(src.flat, e, i, j);
    }
  }

  lemma LastOne(events: seq<Event>, e: string, k: nat)
    requires LastRemovalAt(events, e, k)
    ensures k < |events| && RemoveEvent(events, e) == Some(events[k])
  {
    RemoveEventIs(events, e);
    var m: nat :| LastRemovalAt(events, e, m) && events[m] == RemoveEvent(events, e).value;
    OneLast(events, e, k, m);
  }

  lemma LastOf(events: seq<Event>, e: string) returns (k: nat)
    requires RemoveEvent(events, e).Some?
    ensures k < |events| && LastRemovalAt(events, e, k) && events[k].eid == e && RemoveEvent(events, e) == Some(events[k])
  {
    RemoveEventIs(events, e);
    k :| LastRemovalAt(events, e, k) && events[k] == RemoveEvent(events, e).value;
  }

  lemma SegmentIsTold(src: Source, i: nat)
    requires i < |src.flat|
    ensures SegmentRules(src, src.flat[i]) <==>
            && (forall j: nat :: IsItem(src.flat, i, j) ==> ItemTold(src, i, j))
            && (forall k: nat :: k < |src.flat[i].events| ==> EventTold(src, i, k)) && TwinsTold(src, i)
  {
    hide EventRules, RemovedHere, RemovalRule, ItemRules, ItemTold, EventTold;
    EventsAre(src, i);
    forall j: nat | IsItem(src.flat, i, j)
      ensures ItemRules(src, src.flat[i], src.flat[i].present[j]) <==> ItemTold(src, i, j)
    {
      ItemIs(src, i, j);
    }
  }

  /** A story meets the memory rules exactly when its author saw to all that. */
  lemma {:induction false} CompilesIff(src: Source)
    ensures MemoryRules(src) <==> WellTold(src)
  {
    hide NoReentry, StaysGone, SegmentRules, ItemTold, EventTold, TwinsTold;
    ReentryIs(src.flat);
    forall i: nat | i < |src.flat|
      ensures SegmentRules(src, src.flat[i]) <==>
              && (forall j: nat :: IsItem(src.flat, i, j) ==> ItemTold(src, i, j))
              && (forall k: nat :: k < |src.flat[i].events| ==> EventTold(src, i, k)) && TwinsTold(src, i)
    {
      SegmentIsTold(src, i);
    }
  }

  /** What the gold of a story says, segment by segment and label by label, in its author's terms. */
  ghost predicate Tells(src: Source, gold: Gold)
    requires src.Valid()
  {
    && |gold.segments| == |src.flat|
    && (forall i: nat :: i < |src.flat| ==>
          SegmentMeans(src, i, gold.segments[i]) && |gold.segments[i].cast| == |src.flat[i].present|)
    && (forall i: nat, j: nat :: IsItem(src.flat, i, j) ==> LabelTells(src, i, j, gold.segments[i].cast[j]))
  }

  ghost predicate LabelTells(src: Source, i: nat, j: nat, c: Entry)
    requires src.Valid() && IsItem(src.flat, i, j)
  {
    KeepsExtras(src.flat[i].present[j], c) && OpMeans(src, i, j, c) && GapMeans(src, i, j, c) && StateMeans(src, i, j, c)
  }

  lemma {:induction false} GoldTells(src: Source)
    requires src.Valid() && MemoryRules(src)
    ensures Tells(src, GoldOf(src))
  {
    hide MemoryRules, SegmentMeans, SegmentOf, CastOf, KeepsExtras, OpMeans, GapMeans, StateMeans, GoldUpTo, GoldEntities;
    var gold := GoldOf(src);
    forall i: nat | i < |src.flat|
      ensures SegmentMeans(src, i, gold.segments[i]) && |gold.segments[i].cast| == |src.flat[i].present|
    {
      SegmentIs(src, i);
      CompiledCast(src, i);
      CastOfSegment(src, i);
    }
    forall i: nat, j: nat | IsItem(src.flat, i, j) ensures LabelTells(src, i, j, gold.segments[i].cast[j]) {
      EntryMeans(src, i, j);
      CastOfSegment(src, i);
    }
  }

  lemma CastOfSegment(src: Source, i: nat)
    requires src.Valid() && i < |src.flat|
    ensures SegmentOf(src, i).cast == CastOf(src, i)
  {}
}
