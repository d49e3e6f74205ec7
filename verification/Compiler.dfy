/** `build`: one pass over the segments that keeps running maps. It succeeds exactly on timelines
    that meet the memory rules, and then returns the labels that a backward search would give. */
module Compiler {
  import opened Basics
  import opened Decimal
  import opened Timeline

  /** The rules a story can break. */
  datatype Rule =
    | Reenters | UnknownEvent | Unregistered | FlashbackUnlisted | StateUnlisted | ConfusedWithNobody | ResolvesToNobody
    | RemovesNobody | RemovesUnseen | PairUndeclared | NotOfThePair | PersistsUnchanged

  /** Which rule is broken where, and by whom; an event of an unknown type stands for itself, a pair for its members. */
  datatype RuleError = RuleError(segment: nat, eid: string, rule: Rule)

  type Faults = (string, Rule) -> bool

  /** The errors are the faults of segment `i`, each of them and nothing else. */
  ghost predicate Reports(errors: seq<RuleError>, i: nat, faults: Faults) {
    forall x :: x in errors <==> x.segment == i && faults(x.eid, x.rule)
  }

  ghost function EventFaults(events: seq<Event>): Faults {
    (e: string, rule: Rule) => rule.UnknownEvent? && Event.Other(e) in events
  }

  /** How one item can break a rule: it is not registered; else its flashback, or the look it takes on, is not listed in
      its state machine, or what it may be confused with, or its temporal anchor resolves to, is not registered. */
  predicate ItemFault(src: Source, seg: Segment, it: Item, rule: Rule) {
    var e, x := it.eid, it.extras;
    if rule.Unregistered? then e !in src.entities
    else
      e in src.entities
      && match rule
         case FlashbackUnlisted => e in src.machines && x.state.Some? && x.state.value !in src.machines[e]
         case StateUnlisted =>
           e in src.machines && x.state.None? && Announced(seg.events, e).Some?
           && Announced(seg.events, e).value !in src.machines[e]
         case ConfusedWithNobody => x.confusableWith.Some? && x.confusableWith.value !in src.entities
         case ResolvesToNobody =>
           x.anchor.Some? && x.anchor.value.kind == "temporal" && x.anchor.value.resolvesTo != ""
           && x.anchor.value.resolvesTo !in src.entities
         case _ => false
  }

  ghost function ItemFaults(src: Source, seg: Segment, n: nat): Faults
    requires n <= |seg.present|
  {
    (e: string, rule: Rule) => exists j :: 0 <= j < n && seg.present[j].eid == e && ItemFault(src, seg, seg.present[j], rule)
  }

  /** The last removal of an entity in a segment is of a registered one, and if it is shown of one on screen. */
  ghost function RemovalFaults(src: Source, seg: Segment, here: seq<string>): Faults {
    (e: string, rule: Rule) => e in here && RemoveEvent(seg.events, e).Some? && RemovalFault(src, seg, e, rule)
  }

  predicate RemovalFault(src: Source, seg: Segment, e: string, rule: Rule)
    requires RemoveEvent(seg.events, e).Some?
  {
    match rule
    case RemovesNobody => e !in src.entities
    case RemovesUnseen => e in src.entities && RemoveEvent(seg.events, e).value.shown && !OnScreen(seg, e)
    case _ => false
  }

  ghost function TwinFaults(src: Source, lp: Lookalike, n: nat): Faults
    requires n <= |lp.members|
  {
    (e: string, rule: Rule) =>
      match rule
      case PairUndeclared => lp.pair !in src.pairs && e == Join(lp.pair)
      case NotOfThePair => e in lp.members[..n] && e !in lp.pair
      case _ => false
  }

  ghost function SegmentFaults(src: Source, seg: Segment): Faults {
    (e: string, rule: Rule) =>
      EventFaults(seg.events)(e, rule) || ItemFaults(src, seg, |seg.present|)(e, rule)
      || RemovalFaults(src, seg, RemovedHere(seg.events))(e, rule)
      || (seg.lookalike.Some? && TwinFaults(src, seg.lookalike.value, |seg.lookalike.value.members|)(e, rule))
  }

  /** On screen in a segment, and removed in an earlier one. */
  ghost predicate ComesBack(flat: seq<Segment>, i: nat, j: nat, e: string)
    requires AtItem(flat, i, j)
  {
    exists k :: 0 <= k < j && flat[i].present[k].eid == e && LatestRemoval(flat, e, i).Some?
  }

  /** What the errors of a story say: who comes back where, and the faults of each segment. */
  ghost predicate IsBroken(src: Source, x: RuleError) {
    x.segment < |src.flat|
    && ((x.rule.Reenters? && ComesBack(src.flat, x.segment, |src.flat[x.segment].present|, x.eid))
        || SegmentFaults(src, src.flat[x.segment])(x.eid, x.rule))
  }

  lemma ReportsBoth(a: seq<RuleError>, b: seq<RuleError>, i: nat, p: Faults, q: Faults, both: Faults)
    requires Reports(a, i, p) && Reports(b, i, q) && forall e, rule :: both(e, rule) <==> p(e, rule) || q(e, rule)
    ensures Reports(a + b, i, both)
  {}

  ghost function OneItem(src: Source, seg: Segment, it: Item): Faults {
    (e: string, rule: Rule) => e == it.eid && ItemFault(src, seg, it, rule)
  }

  lemma ItemFaultsNext(src: Source, seg: Segment, j: nat)
    requires j < |seg.present|
    ensures forall e, rule :: ItemFaults(src, seg, j + 1)(e, rule) <==>
              ItemFaults(src, seg, j)(e, rule) || OneItem(src, seg, seg.present[j])(e, rule)
  {
    hide ItemFault;
    forall e, rule
      ensures ItemFaults(src, seg, j + 1)(e, rule) <==>
                ItemFaults(src, seg, j)(e, rule) || OneItem(src, seg, seg.present[j])(e, rule)
    {
      if k :| 0 <= k < j && seg.present[k].eid == e && ItemFault(src, seg, seg.present[k], rule) {
        assert k < j + 1;
      }
      if OneItem(src, seg, seg.present[j])(e, rule) { assert 0 <= j < j + 1; }
    }
  }

  /** The running maps agree with the backward searches at this point of the timeline. */
  ghost predicate Tracks(src: Source, i: nat, j: nat, lastSeen: map<string, nat>,
                         currentState: map<string, string>)
    requires AtItem(src.flat, i, j)
  {
    && (forall e :: e in src.entities ==> Get(lastSeen, e) == LastSeen(src.flat, e, i, j))
    && (forall e :: e in src.entities ==> Get(currentState, e) == LatestState(src.flat, e, i, j))
  }

  /** What one more event changes in the answers of a segment's event list. */
  lemma EventStep(events: seq<Event>, k: nat)
    requires k < |events|
    ensures forall e :: StateEvent(events[..k + 1], e)
                        == if events[k].StateChange? && events[k].eid == e then Some(events[k].to)
                           else StateEvent(events[..k], e)
    ensures forall e :: RemoveEvent(events[..k + 1], e)
                        == if events[k].Remove? && events[k].eid == e then Some(events[k])
                           else RemoveEvent(events[..k], e)
    ensures RemovedHere(events[..k + 1]) == if events[k].Remove? then AppendNew(RemovedHere(events[..k]), events[k].eid)
                                            else RemovedHere(events[..k])
    ensures EventRules(events[..k + 1]) <==> EventRules(events[..k]) && !events[k].Other?
  {
    assert events[..k + 1][..k] == events[..k];
    assert events[..k + 1] == events[..k] + [events[k]];
    assert events[k] in events[..k + 1];
    var now := events[..k + 1];
    assert now[|now| - 1] == events[k] && now[..|now| - 1] == events[..k];
    forall e ensures StateEvent(now, e) == if events[k].StateChange? && events[k].eid == e then Some(events[k].to)
                                           else StateEvent(events[..k], e) {}
    forall e ensures RemoveEvent(now, e) == if events[k].Remove? && events[k].eid == e then Some(events[k])
                                            else RemoveEvent(events[..k], e) {}
  }

  method CollectEvents(i: nat, events: seq<Event>)
    returns (evState: map<string, Option<string>>, evRemove: map<string, Event>,
             removed: seq<string>, errors: seq<RuleError>)
    ensures EventMaps(events, evState, evRemove)
    ensures removed == RemovedHere(events)
    ensures forall e :: e in removed ==> e in evRemove && evRemove[e].Remove?
    ensures errors == [] <==> EventRules(events)
    ensures Reports(errors, i, EventFaults(events))
  {
    hide StateEvent, RemoveEvent, RemovedHere, EventRules, Reports;
    NoFaults(i);
    evState, evRemove, removed, errors := map[], map[], [], [];
    assert EventMaps(events[..0], evState, evRemove) && removed == RemovedHere(events[..0]) && EventRules(events[..0]) by {
      NoEvents(events[..0]);
    }
    for k := 0 to |events|
      invariant EventMaps(events[..k], evState, evRemove)
      invariant removed == RemovedHere(events[..k])
      invariant forall e :: e in evRemove ==> evRemove[e].Remove?
      invariant forall e :: e in removed <==> e in evRemove
      invariant errors == [] <==> EventRules(events[..k])
      invariant Reports(errors, i, EventFaults(events[..k]))
    {
      EventStep(events, k);
      EventReported(errors, i, events, k);
      match events[k] {
        case StateChange(e, to) =>
          ghost var was := evState;
          evState := evState[e := to];
          forall x ensures Get(evState, x) == StateEvent(events[..k + 1], x) {
            assert Get(was, x) == StateEvent(events[..k], x);
          }
        case Remove(e, _, _, _) =>
          if e !in evRemove { removed := removed + [e]; }
          evRemove := evRemove[e := events[k]];
        case Other(kind) =>
          errors := errors + [RuleError(i, kind, UnknownEvent)];
      }
    }
    assert events[..|events|] == events;
  }

  lemma NoFaults(i: nat)
    ensures forall events: seq<Event> :: events == [] ==> Reports([], i, EventFaults(events))
  {}

  lemma EventReported(errors: seq<RuleError>, i: nat, events: seq<Event>, k: nat)
    requires k < |events| && Reports(errors, i, EventFaults(events[..k]))
    ensures Reports(if events[k].Other? then errors + [RuleError(i, events[k].kind, UnknownEvent)] else errors, i,
                    EventFaults(events[..k + 1]))
  {
    assert events[..k + 1] == events[..k] + [events[k]];
  }

  lemma NoEvents(events: seq<Event>)
    requires events == []
    ensures EventMaps(events, map[], map[]) && RemovedHere(events) == [] && EventRules(events)
  {}

  /** The state change that an item shows, read off this segment's event maps. */
  method ShownState(e: string, ghost events: seq<Event>, evState: map<string, Option<string>>,
                    evRemove: map<string, Event>)
    returns (to: Option<string>)
    requires EventMaps(events, evState, evRemove)
    ensures to == Announced(events, e)
  {
    assert Get(evState, e) == StateEvent(events, e) && Get(evRemove, e) == RemoveEvent(events, e);
    hide StateEvent, RemoveEvent;
    to := None;
    if e in evState {
      to := evState[e];
    } else if e in evRemove && evRemove[e].shown {
      to := evRemove[e].to;
    }
  }

  method LabelItem(src: Source, i: nat, it: Item, shown: Option<string>, lastSeen: map<string, nat>,
                   currentState: map<string, string>)
    returns (entry: Entry, state: map<string, string>, probes: set<Probe>)
    requires src.Valid()
    ensures entry == LabelFrom(src, i, it, if it.extras.state.Some? then None else shown,
                               Get(lastSeen, it.eid), Get(currentState, it.eid))
    ensures probes == EntryProbes(src, entry)
    ensures state == if shown.Some? && it.extras.state.None? then currentState[it.eid := shown.value]
                     else currentState
  {
    var e, x := it.eid, it.extras;
    state := currentState;
    var op, tag, gap, seen := Introduce, None, None, None;
    if e in lastSeen {
      gap, seen := Some(i - lastSeen[e] - 1), Some(SegId(lastSeen[e]));
    }
    var long := gap.Some? && gap.value >= src.gapLong;
    if shown.Some? && x.state.None? {
      op, tag := Transform, Tag(src, e, shown.value, false);
      state := currentState[e := shown.value];
      probes := {StateChangeProbe} + (if long then {LongGap} else {});
    } else if e !in lastSeen {
      probes := {FirstAppearance};
    } else {
      var changed := e in currentState && Some(currentState[e]) != InitialState(src, e);
      if x.state.Some? {
        op, tag := if long then RecallAfterGap else Recall, Tag(src, e, x.state.value, true);
        probes := if long then {LongGap} else {Continuity};
      } else if changed {
        op, tag := Persist, Tag(src, e, currentState[e], false);
        probes := {PersistState} + (if long then {LongGap} else {});
      } else if long {
        op, probes := RecallAfterGap, {LongGap};
      } else {
        op, probes := Recall, {Continuity};
      }
    }
    entry := Entry(e, op, tag, gap, seen, x.confusableWith, x.count, x.anchor);
    probes := probes + ExtraProbes(entry);
  }

  /** Probes from the authored metadata of an item. */
  function ExtraProbes(c: Entry): set<Probe> {
    (if c.confusableWith.Some? && c.op.Introduce? then {FalseFriend} else {})
    + (if c.count.Some? && c.op in {Recall, RecallAfterGap, Persist} then {CountMemory} else {})
    + (if c.anchor.Some? && c.anchor.value.kind == "temporal" then {TemporalReference} else {})
  }

  method CheckItem(src: Source, i: nat, ghost seg: Segment, it: Item, shown: Option<string>)
    returns (errors: seq<RuleError>)
    requires shown == Announced(seg.events, it.eid)
    ensures errors == [] <==> ItemRules(src, seg, it)
    ensures Reports(errors, i, OneItem(src, seg, it))
  {
    var e, x := it.eid, it.extras;
    errors := [];
    if e !in src.entities { return [RuleError(i, e, Unregistered)]; }
    if x.state.Some? && e in src.machines && x.state.value !in src.machines[e] {
      errors := errors + [RuleError(i, e, FlashbackUnlisted)];
    }
    if shown.Some? && x.state.None? && e in src.machines && shown.value !in src.machines[e] {
      errors := errors + [RuleError(i, e, StateUnlisted)];
    }
    if x.confusableWith.Some? && x.confusableWith.value !in src.entities {
      errors := errors + [RuleError(i, e, ConfusedWithNobody)];
    }
    if x.anchor.Some? && x.anchor.value.kind == "temporal" && x.anchor.value.resolvesTo != ""
       && x.anchor.value.resolvesTo !in src.entities {
      errors := errors + [RuleError(i, e, ResolvesToNobody)];
    }
    forall y: RuleError ensures y in errors <==> y.segment == i && OneItem(src, seg, it)(y.eid, y.rule) {
      assert y in errors ==> y.segment == i && y.eid == e;
      assert y == RuleError(y.segment, y.eid, y.rule);
    }
  }

  lemma TrackItem(src: Source, i: nat, j: nat, lastSeen: map<string, nat>, state: map<string, string>,
                  to: Option<string>)
    requires src.Valid() && i < |src.flat| && j < |src.flat[i].present|
    requires Tracks(src, i, j, lastSeen, state)
    requires to == TransformsTo(src.flat[i], src.flat[i].present[j])
    ensures var e := src.flat[i].present[j].eid;
            if e in src.entities then
              Tracks(src, i, j + 1, lastSeen[e := i], if to.Some? then state[e := to.value] else state)
            else Tracks(src, i, j + 1, lastSeen, state)
  {}

  lemma TrackSegment(src: Source, i: nat, lastSeen: map<string, nat>, currentState: map<string, string>)
    requires src.Valid() && i < |src.flat|
    requires Tracks(src, i, |src.flat[i].present|, lastSeen, currentState)
    ensures Tracks(src, i + 1, 0, lastSeen, currentState)
  {}

  /** The event maps of a segment answer as its event list does. */
  ghost predicate EventMaps(events: seq<Event>, evState: map<string, Option<string>>,
                            evRemove: map<string, Event>)
  {
    && (forall e :: Get(evState, e) == StateEvent(events, e))
    && (forall e :: Get(evRemove, e) == RemoveEvent(events, e))
  }

  method LabelNext(src: Source, i: nat, j: nat, lastSeen: map<string, nat>, currentState: map<string, string>,
                   shown: Option<string>)
    returns (entry: Entry, seen: map<string, nat>, state: map<string, string>, probes: set<Probe>)
    requires src.Valid() && i < |src.flat| && j < |src.flat[i].present|
    requires src.flat[i].present[j].eid in src.entities
    requires Tracks(src, i, j, lastSeen, currentState)
    requires shown == Announced(src.flat[i].events, src.flat[i].present[j].eid)
    ensures entry == Label(src, i, j) && probes == EntryProbes(src, entry)
    ensures Tracks(src, i, j + 1, seen, state)
  {
    var it := src.flat[i].present[j];
    TrackItem(src, i, j, lastSeen, currentState, TransformsTo(src.flat[i], it));
    entry, state, probes := LabelItem(src, i, it, shown, lastSeen, currentState);
    seen := lastSeen[it.eid := i];
  }

  method LabelCast(src: Source, i: nat, lastSeen: map<string, nat>, currentState: map<string, string>,
                   evState: map<string, Option<string>>, evRemove: map<string, Event>)
    returns (cast: seq<Entry>, seen: map<string, nat>, state: map<string, string>, probes: set<Probe>,
             errors: seq<RuleError>)
    requires src.Valid() && i < |src.flat|
    requires Tracks(src, i, 0, lastSeen, currentState)
    requires EventMaps(src.flat[i].events, evState, evRemove)
    ensures cast == CastOf(src, i) && probes == CastProbes(src, cast)
    ensures Tracks(src, i + 1, 0, seen, state)
    ensures errors == [] <==> ItemsRules(src, src.flat[i], |src.flat[i].present|)
    ensures Reports(errors, i, ItemFaults(src, src.flat[i], |src.flat[i].present|))
  {
    hide Label, EntryProbes, ItemRules, Tracks, EventMaps, Announced, Reports, ItemFaults, OneItem;
    assert Reports([], i, ItemFaults(src, src.flat[i], 0)) by { NoItems(src, i); }
    var present := src.flat[i].present;
    cast, seen, state, probes, errors := [], lastSeen, currentState, {}, [];
    for j := 0 to |present|
      invariant cast == CastUpTo(src, i, j) && probes == CastProbes(src, cast)
      invariant Tracks(src, i, j, seen, state)
      invariant errors == [] <==> ItemsRules(src, src.flat[i], j)
      invariant Reports(errors, i, ItemFaults(src, src.flat[i], j))
    {
      var shown := ShownState(present[j].eid, src.flat[i].events, evState, evRemove);
      var errs := CheckItem(src, i, src.flat[i], present[j], shown);
      ItemReported(src, i, j, errors, errs);
      errors := errors + errs;
      if present[j].eid in src.entities {
        var entry, more;
        entry, seen, state, more := LabelNext(src, i, j, seen, state, shown);
        assert (cast + [entry])[..|cast|] == cast;
        cast, probes := cast + [entry], probes + more;
      } else {
        TrackItem(src, i, j, seen, state, TransformsTo(src.flat[i], present[j]));
      }
    }
    TrackSegment(src, i, seen, state);
  }

  lemma NoItems(src: Source, i: nat)
    requires i < |src.flat|
    ensures Reports([], i, ItemFaults(src, src.flat[i], 0))
  {}

  lemma ItemReported(src: Source, i: nat, j: nat, errors: seq<RuleError>, errs: seq<RuleError>)
    requires i < |src.flat| && j < |src.flat[i].present| && Reports(errors, i, ItemFaults(src, src.flat[i], j))
    requires Reports(errs, i, OneItem(src, src.flat[i], src.flat[i].present[j]))
    ensures Reports(errors + errs, i, ItemFaults(src, src.flat[i], j + 1))
  {
    ItemFaultsNext(src, src.flat[i], j);
    hide ItemFault, ItemFaults, Reports;
    ReportsBoth(errors, errs, i, ItemFaults(src, src.flat[i], j), OneItem(src, src.flat[i], src.flat[i].present[j]),
                ItemFaults(src, src.flat[i], j + 1));
  }

  // ----- removals -----

  /** The first pass's map: each removed entity with its first removal in the first `n` segments. */
  ghost predicate FirstRemovals(flat: seq<Segment>, n: nat, m: map<string, nat>)
    requires n <= |flat|
  {
    && (forall e :: e in m <==> LatestRemoval(flat, e, n).Some?)
    && (forall e :: e in m ==> m[e] < n && RemoveEvent(flat[m[e]].events, e).Some?
                               && forall k :: 0 <= k < m[e] ==> RemoveEvent(flat[k].events, e).None?)
  }

  /** `removed_after.setdefault` over one segment's events. */
  method NoteRemovals(i: nat, events: seq<Event>, m: map<string, nat>) returns (m': map<string, nat>)
    ensures forall e :: e in m' <==> e in m || RemoveEvent(events, e).Some?
    ensures forall e :: e in m' ==> m'[e] == if e in m then m[e] else i
  {
    m' := m;
    for k := 0 to |events|
      invariant forall e :: e in m' <==> e in m || RemoveEvent(events[..k], e).Some?
      invariant forall e :: e in m' ==> m'[e] == if e in m then m[e] else i
    {
      assert events[..k + 1][..k] == events[..k];
      if events[k].Remove? && events[k].eid !in m' { m' := m'[events[k].eid := i]; }
    }
    assert events[..|events|] == events;
  }

  method FindRemovals(flat: seq<Segment>) returns (m: map<string, nat>)
    ensures FirstRemovals(flat, |flat|, m)
  {
    hide RemoveEvent;
    m := map[];
    for i := 0 to |flat|
      invariant FirstRemovals(flat, i, m)
    {
      m := NoteRemovals(i, flat[i].events, m);
    }
  }

  ghost predicate NoReentryUpTo(flat: seq<Segment>, n: nat, j: nat)
    requires AtItem(flat, n, j)
  {
    forall i, k :: 0 <= i < |flat| && 0 <= k < |flat[i].present| && (i < n || (i == n && k < j))
      ==> LatestRemoval(flat, flat[i].present[k].eid, i).None?
  }

  /** The first pass: a removed entity never comes back on screen. */
  method CheckReentry(flat: seq<Segment>) returns (errors: seq<RuleError>)
    ensures errors == [] <==> NoReentry(flat)
    ensures forall x :: x in errors <==> ReentryUpTo(flat, |flat|, 0, x)
  {
    hide ReentryUpTo, FirstRemovals, NoReentryUpTo, LatestRemoval;
    errors := [];
    var m := FindRemovals(flat);
    NobodyYet(flat);
    NoReentryAtEnd(flat);
    for i := 0 to |flat|
      invariant errors == [] <==> NoReentryUpTo(flat, i, 0)
      invariant forall x :: x in errors <==> ReentryUpTo(flat, i, 0, x)
    {
      for j := 0 to |flat[i].present|
        invariant errors == [] <==> NoReentryUpTo(flat, i, j)
        invariant forall x :: x in errors <==> ReentryUpTo(flat, i, j, x)
      {
        var e := flat[i].present[j].eid;
        ReentryNext(flat, i, j);
        NoReentryNext(flat, i, j);
        FirstTells(flat, m, i, e);
        ghost var was := errors;
        if e in m && i > m[e] {
          errors := errors + [RuleError(i, e, Reenters)];
        }
        forall x ensures x in errors <==> ReentryUpTo(flat, i, j + 1, x) {
          assert x in was <==> ReentryUpTo(flat, i, j, x);
        }
      }
      ReentryGoesOn(flat, i);
    }
    NoReentryAtEnd(flat);
  }

  lemma FirstTells(flat: seq<Segment>, m: map<string, nat>, i: nat, e: string)
    requires FirstRemovals(flat, |flat|, m) && i < |flat|
    ensures e in m && i > m[e] <==> LatestRemoval(flat, e, i).Some?
  {
    hide RemoveEvent;
  }

  lemma NoReentryNext(flat: seq<Segment>, i: nat, j: nat)
    requires i < |flat| && j < |flat[i].present|
    ensures NoReentryUpTo(flat, i, j + 1) <==>
            NoReentryUpTo(flat, i, j) && LatestRemoval(flat, flat[i].present[j].eid, i).None?
  {
    hide LatestRemoval;
  }

  lemma NoReentryAtEnd(flat: seq<Segment>)
    ensures NoReentryUpTo(flat, 0, 0)
    ensures NoReentryUpTo(flat, |flat|, 0) <==> NoReentry(flat)
  {
    hide LatestRemoval;
  }

  /** The error names an item before this point that comes back. */
  ghost predicate ReentryUpTo(flat: seq<Segment>, n: nat, j: nat, x: RuleError)
    requires AtItem(flat, n, j)
  {
    x.rule.Reenters?
    && ((x.segment < n && ComesBack(flat, x.segment, |flat[x.segment].present|, x.eid))
        || (x.segment == n < |flat| && ComesBack(flat, n, j, x.eid)))
  }

  lemma NobodyYet(flat: seq<Segment>)
    ensures forall x :: !ReentryUpTo(flat, 0, 0, x)
  {}

  lemma ReentryNext(flat: seq<Segment>, i: nat, j: nat)
    requires i < |flat| && j < |flat[i].present|
    ensures var e := flat[i].present[j].eid;
            forall x :: ReentryUpTo(flat, i, j + 1, x) <==>
              ReentryUpTo(flat, i, j, x) || (LatestRemoval(flat, e, i).Some? && x == RuleError(i, e, Reenters))
  {
    hide LatestRemoval;
  }

  lemma ReentryGoesOn(flat: seq<Segment>, i: nat)
    requires i < |flat|
    ensures forall x :: ReentryUpTo(flat, i + 1, 0, x) <==> ReentryUpTo(flat, i, |flat[i].present|, x)
    ensures NoReentryUpTo(flat, i + 1, 0) <==> NoReentryUpTo(flat, i, |flat[i].present|)
  {
    hide LatestRemoval;
  }

  /** The removal dict agrees with the backward search over the first `n` segments. */
  ghost predicate TracksRemovals(src: Source, n: nat, order: seq<string>, removal: map<string, Removal>)
    requires n <= |src.flat|
  {
    && order == RemovalOrder(src, n)
    && (forall e :: e in src.entities ==> Get(removal, e) == LatestRemoval(src.flat, e, n))
    && (forall e :: e in order ==> e in removal && Some(removal[e]) == LatestRemoval(src.flat, e, n))
  }

  /** The removal dict after the first `k` removals of segment `i`. */
  ghost predicate Removing(src: Source, i: nat, evRemove: map<string, Event>, done: seq<string>,
                           removal: map<string, Removal>, removal': map<string, Removal>)
  {
    && (forall e :: e in done ==> e in evRemove && evRemove[e].Remove?)
    && (forall e :: e in src.entities ==>
          Get(removal', e) == if e in done then Some(Removal(i, evRemove[e].reason)) else Get(removal, e))
  }

  lemma RemovalsApplied(src: Source, i: nat, evRemove: map<string, Event>, here: seq<string>,
                        order: seq<string>, removal: map<string, Removal>, removal': map<string, Removal>)
    requires i < |src.flat| && here == RemovedHere(src.flat[i].events)
    requires forall e :: Get(evRemove, e) == RemoveEvent(src.flat[i].events, e)
    requires TracksRemovals(src, i, order, removal)
    requires Removing(src, i, evRemove, here, removal, removal')
    ensures TracksRemovals(src, i + 1, AppendRegistered(src, order, here), removal')
  {
    var order' := AppendRegistered(src, order, here);
    assert order' == RemovalOrder(src, i + 1);
    forall e | e in src.entities ensures Get(removal', e) == LatestRemoval(src.flat, e, i + 1) {
      assert Get(evRemove, e) == RemoveEvent(src.flat[i].events, e);
    }
    forall e | e in order' ensures e in removal' && Some(removal'[e]) == LatestRemoval(src.flat, e, i + 1) {
      assert Get(removal', e) == LatestRemoval(src.flat, e, i + 1);
    }
  }

  /** `shown` removals must be on screen, and every removed entity registered. */
  method CheckRemoval(src: Source, i: nat, ev: Event) returns (errors: seq<RuleError>)
    requires i < |src.flat| && ev.Remove? && RemoveEvent(src.flat[i].events, ev.eid) == Some(ev)
    ensures errors == [] <==> RemovalRule(src, src.flat[i], ev.eid)
    ensures Reports(errors, i, RemovalFaults(src, src.flat[i], [ev.eid]))
  {
    errors := [];
    if ev.eid !in src.entities {
      errors := [RuleError(i, ev.eid, RemovesNobody)];
    } else if ev.shown && !OnScreen(src.flat[i], ev.eid) {
      errors := [RuleError(i, ev.eid, RemovesUnseen)];
    }
  }

  lemma NoRemovals(src: Source, i: nat, here: seq<string>)
    requires i < |src.flat| && here == []
    ensures Reports([], i, RemovalFaults(src, src.flat[i], here))
  {}

  lemma RemovalReported(src: Source, i: nat, here: seq<string>, k: nat, errors: seq<RuleError>, errs: seq<RuleError>)
    requires i < |src.flat| && k < |here| && Reports(errors, i, RemovalFaults(src, src.flat[i], here[..k]))
    requires Reports(errs, i, RemovalFaults(src, src.flat[i], [here[k]]))
    ensures Reports(errors + errs, i, RemovalFaults(src, src.flat[i], here[..k + 1]))
  {
    hide RemovalFault, RemoveEvent;
    assert here[..k + 1] == here[..k] + [here[k]];
    assert forall e :: e in here[..k + 1] <==> e in here[..k] || e == here[k];
    var p, q := RemovalFaults(src, src.flat[i], here[..k]), RemovalFaults(src, src.flat[i], [here[k]]);
    ReportsBoth(errors, errs, i, p, q, RemovalFaults(src, src.flat[i], here[..k + 1]));
  }

  lemma NothingRemoved(src: Source, i: nat, evRemove: map<string, Event>, here: seq<string>, removal: map<string, Removal>)
    ensures Removing(src, i, evRemove, here[..0], removal, removal)
  {}

  lemma OneMoreRemoved(src: Source, i: nat, evRemove: map<string, Event>, done: seq<string>,
                       removal: map<string, Removal>, removal': map<string, Removal>, e: string)
    requires Removing(src, i, evRemove, done, removal, removal') && e in evRemove && evRemove[e].Remove?
    ensures Removing(src, i, evRemove, done + [e], removal,
                     if e in src.entities then removal'[e := Removal(i, evRemove[e].reason)] else removal')
  {
    var more := if e in src.entities then removal'[e := Removal(i, evRemove[e].reason)] else removal';
    forall x | x in src.entities
      ensures Get(more, x) == if x in done + [e] then Some(Removal(i, evRemove[x].reason)) else Get(removal, x)
    {
      assert Get(removal', x) == if x in done then Some(Removal(i, evRemove[x].reason)) else Get(removal, x);
    }
  }

  method ApplyRemovals(src: Source, i: nat, evRemove: map<string, Event>, here: seq<string>,
                       order: seq<string>, removal: map<string, Removal>)
    returns (order': seq<string>, removal': map<string, Removal>, errors: seq<RuleError>)
    requires i < |src.flat| && here == RemovedHere(src.flat[i].events)
    requires forall e :: Get(evRemove, e) == RemoveEvent(src.flat[i].events, e)
    requires TracksRemovals(src, i, order, removal)
    ensures TracksRemovals(src, i + 1, order', removal')
    ensures errors == [] <==> forall e :: e in here ==> RemovalRule(src, src.flat[i], e)
    ensures Reports(errors, i, RemovalFaults(src, src.flat[i], here))
  {
    hide RemovedHere, TracksRemovals, RemovalRule, Removing, RemoveEvent, Reports, RemovalFaults;
    assert Reports([], i, RemovalFaults(src, src.flat[i], here[..0])) by { NoRemovals(src, i, here[..0]); }
    order', removal', errors := order, removal, [];
    assert Removing(src, i, evRemove, here[..0], removal, removal') by { NothingRemoved(src, i, evRemove, here, removal); }
    for k := 0 to |here|
      invariant order' == AppendRegistered(src, order, here[..k])
      invariant Removing(src, i, evRemove, here[..k], removal, removal')
      invariant errors == [] <==> forall e :: e in here[..k] ==> RemovalRule(src, src.flat[i], e)
      invariant Reports(errors, i, RemovalFaults(src, src.flat[i], here[..k]))
    {
      var e := here[k];
      assert Get(evRemove, e) == RemoveEvent(src.flat[i].events, e);
      assert here[..k + 1] == here[..k] + [e];
      assert here[..k + 1][..k] == here[..k];
      assert forall x :: x in here[..k + 1] <==> x in here[..k] || x == e;
      OneMoreRemoved(src, i, evRemove, here[..k], removal, removal', e);
      var errs := CheckRemoval(src, i, evRemove[e]);
      RemovalReported(src, i, here, k, errors, errs);
      errors := errors + errs;
      if e in src.entities {
        if e !in order' { order' := order' + [e]; }
        removal' := removal'[e := Removal(i, evRemove[e].reason)];
      }
    }
    assert here[..|here|] == here;
    RemovalsApplied(src, i, evRemove, here, order, removal, removal');
  }

  // ----- forbidden roster -----

  method ForbidOne(src: Source, i: nat, e: string, r: Removal)
    returns (entry: Forbidden, probes: set<Probe>)
    requires i < |src.flat| && r.idx < i
    ensures entry == Forbidden(e, r.reason, SegId(r.idx), Mentions(src, e, src.flat[i].action))
    ensures probes == if Mentions(src, e, src.flat[i].action) then {ReferenceIndirect, DeprecationAvoidance}
                      else if i - r.idx <= src.avoidWindow then {DeprecationAvoidance} else {}
  {
    entry, probes := Forbidden(e, r.reason, SegId(r.idx), false), {};
    if Mentions(src, e, src.flat[i].action) {
      entry := entry.(indirect := true);
      probes := {ReferenceIndirect} + {DeprecationAvoidance};
    } else if i - r.idx <= src.avoidWindow {
      probes := {DeprecationAvoidance};
    }
  }

  method ForbidRemoved(src: Source, i: nat, order: seq<string>, removal: map<string, Removal>)
    returns (forbidden: seq<Forbidden>, probes: set<Probe>)
    requires i < |src.flat|
    requires forall e :: e in order ==> e in removal && Some(removal[e]) == LatestRemoval(src.flat, e, i + 1)
    ensures forbidden == RemovedRoster(src, i, order) && probes == RemovedProbes(src, i, order)
  {
    hide RemovalOrder, LatestRemoval, Mentions, SegId;
    forbidden, probes := [], {};
    for k := 0 to |order|
      invariant forbidden == RemovedRoster(src, i, order[..k])
      invariant probes == RemovedProbes(src, i, order[..k])
    {
      var e := order[k];
      assert order[..k + 1][..k] == order[..k];
      assert e in order;
      if i > removal[e].idx {
        var entry, more := ForbidOne(src, i, e, removal[e]);
        forbidden, probes := forbidden + [entry], probes + more;
      }
    }
    assert order[..|order|] == order;
  }

  method ForbidTwins(src: Source, i: nat, lp: Lookalike)
    returns (forbidden: seq<Forbidden>, errors: seq<RuleError>)
    ensures forbidden == AbsentTwins(lp.pair, lp.pair, lp.members)
    ensures errors == [] <==> lp.pair in src.pairs && forall m :: m in lp.members ==> m in lp.pair
    ensures Reports(errors, i, TwinFaults(src, lp, |lp.members|))
  {
    hide Join;
    forbidden, errors := [], [];
    if lp.pair !in src.pairs {
      errors := [RuleError(i, Join(lp.pair), PairUndeclared)];
    }
    for k := 0 to |lp.members|
      invariant errors == [] <==> lp.pair in src.pairs && forall m :: m in lp.members[..k] ==> m in lp.pair
      invariant Reports(errors, i, TwinFaults(src, lp, k))
    {
      assert lp.members[..k + 1] == lp.members[..k] + [lp.members[k]];
      if lp.members[k] !in lp.pair {
        assert lp.members[k] in lp.members[..k + 1];
        errors := errors + [RuleError(i, lp.members[k], NotOfThePair)];
      }
    }
    assert lp.members[..|lp.members|] == lp.members;
    for k := 0 to |lp.pair|
      invariant forbidden == AbsentTwins(lp.pair[..k], lp.pair, lp.members)
    {
      assert lp.pair[..k + 1][..k] == lp.pair[..k];
      if lp.pair[k] !in lp.members {
        forbidden := forbidden + [Forbidden(lp.pair[k], "lookalike_absent", "lookalike:" + Join(lp.pair), false)];
      }
    }
    assert lp.pair[..|lp.pair|] == lp.pair;
  }

  // ----- the pass -----

  datatype Running = Running(lastSeen: map<string, nat>, currentState: map<string, string>,
                             order: seq<string>, removal: map<string, Removal>)

  ghost predicate RunningAt(src: Source, i: nat, run: Running)
    requires i <= |src.flat|
  {
    && Tracks(src, i, 0, run.lastSeen, run.currentState)
    && TracksRemovals(src, i, run.order, run.removal)
  }

  method CompileSegment(src: Source, i: nat, run: Running)
    returns (seg: GoldSegment, run': Running, errors: seq<RuleError>)
    requires src.Valid() && i < |src.flat| && RunningAt(src, i, run)
    ensures seg == SegmentOf(src, i) && RunningAt(src, i + 1, run')
    ensures errors == [] <==> SegmentRules(src, src.flat[i])
    ensures Reports(errors, i, SegmentFaults(src, src.flat[i]))
  {
    hide Tracks, LatestRemoval, CastProbes, CastOf, EventRules, ItemsRules, RemovedRoster, RemovedProbes,
         RemovedHere, RemovalOrder, RemovalRule, Reports, EventFaults, ItemFaults, RemovalFaults, TwinFaults, SegmentFaults;
    var s := src.flat[i];
    var evState, evRemove, here, e0 := CollectEvents(i, s.events);
    var cast, lastSeen, state, probes, e1 := LabelCast(src, i, run.lastSeen, run.currentState, evState, evRemove);
    var order, removal, e2 := ApplyRemovals(src, i, evRemove, here, run.order, run.removal);
    var forbidden, more := ForbidRemoved(src, i, order, removal);
    probes := probes + more;
    errors := e0 + e1 + e2;
    ghost var e3 := [];
    var twins := None;
    if s.lookalike.Some? {
      var lp := s.lookalike.value;
      var absent, errs := ForbidTwins(src, i, lp);
      e3 := errs;
      errors := errors + errs;
      probes := probes + {LookalikeDisambiguation};
      twins := Some(Twins(lp.pair, if lp.pair in src.pairs then src.pairs[lp.pair] else map[], lp.members));
      forbidden := forbidden + absent;
    }
    SegmentReported(src, i, e0, e1, e2, e3);
    assert errors == e0 + e1 + e2 + e3;
    run' := Running(lastSeen, state, order, removal);
    seg := GoldSegment(SegId(i), s.sceneId, s.cut, s.action, probes, cast, forbidden, twins);
  }

  lemma SegmentReported(src: Source, i: nat, e0: seq<RuleError>, e1: seq<RuleError>, e2: seq<RuleError>, e3: seq<RuleError>)
    requires i < |src.flat| && Reports(e0, i, EventFaults(src.flat[i].events))
    requires Reports(e1, i, ItemFaults(src, src.flat[i], |src.flat[i].present|))
    requires Reports(e2, i, RemovalFaults(src, src.flat[i], RemovedHere(src.flat[i].events)))
    requires match src.flat[i].lookalike
             case None => e3 == []
             case Some(lp) => Reports(e3, i, TwinFaults(src, lp, |lp.members|))
    ensures Reports(e0 + e1 + e2 + e3, i, SegmentFaults(src, src.flat[i]))
  {
    hide EventFaults, ItemFaults, RemovalFaults, TwinFaults, RemovedHere;
  }

  // ----- the final re-check -----

  function TransformedIn(cast: seq<Entry>): set<string> {
    set c | c in cast && c.op.Transform? :: c.eid
  }

  function TransformedUpTo(segments: seq<GoldSegment>, n: nat): set<string>
    requires n <= |segments|
  {
    if n == 0 then {} else TransformedUpTo(segments, n - 1) + TransformedIn(segments[n - 1].cast)
  }

  /** The persist entries among the first `k` of segment `i` each follow a transform. */
  predicate CastGrounded(segments: seq<GoldSegment>, i: nat, k: nat)
    requires i < |segments| && k <= |segments[i].cast|
  {
    forall u :: 0 <= u < k && segments[i].cast[u].op.Persist? ==>
      segments[i].cast[u].eid in TransformedUpTo(segments, i) + TransformedIn(segments[i].cast[..u])
  }

  method Recheck(segments: seq<GoldSegment>) returns (errors: seq<RuleError>)
    ensures errors == [] <==> forall i :: 0 <= i < |segments| ==> CastGrounded(segments, i, |segments[i].cast|)
  {
    hide TransformedIn;
    NoTransforms();
    errors := [];
    var transformed := {};
    for i := 0 to |segments|
      invariant transformed == TransformedUpTo(segments, i)
      invariant errors == [] <==> forall h :: 0 <= h < i ==> CastGrounded(segments, h, |segments[h].cast|)
    {
      var cast := segments[i].cast;
      for k := 0 to |cast|
        invariant transformed == TransformedUpTo(segments, i) + TransformedIn(cast[..k])
        invariant errors == [] <==> CastGrounded(segments, i, k)
                                    && forall h :: 0 <= h < i ==> CastGrounded(segments, h, |segments[h].cast|)
      {
        assert cast[..k + 1] == cast[..k] + [cast[k]];
        TransformedAppend(cast[..k], cast[k]);
        if cast[k].op.Transform? { transformed := transformed + {cast[k].eid}; }
        if cast[k].op.Persist? && cast[k].eid !in transformed {
          errors := errors + [RuleError(i, cast[k].eid, PersistsUnchanged)];
        }
      }
      assert cast[..|cast|] == cast;
    }
  }

  /** Entities with a transform label before item `j` of segment `i`. */
  ghost function TransformedBefore(src: Source, i: nat, j: nat): set<string>
    requires src.Valid() && AtItem(src.flat, i, j)
    decreases i, j
  {
    if j > 0 then
      TransformedBefore(src, i, j - 1)
      + (if src.flat[i].present[j - 1].eid in src.entities && Label(src, i, j - 1).op.Transform?
         then {src.flat[i].present[j - 1].eid} else {})
    else if i > 0 then TransformedBefore(src, i - 1, |src.flat[i - 1].present|)
    else {}
  }

  lemma LabelOrigin(src: Source, i: nat, j: nat)
    requires src.Valid() && i < |src.flat| && j < |src.flat[i].present|
    ensures Label(src, i, j).eid == src.flat[i].present[j].eid
    ensures Label(src, i, j).op.Transform? <==> TransformsTo(src.flat[i], src.flat[i].present[j]).Some?
    ensures Label(src, i, j).op.Persist? ==>
              LatestState(src.flat, src.flat[i].present[j].eid, i, j).Some?
  {}

  /** A remembered state of a registered entity was put there by a transform entry. */
  lemma {:induction false} StateComesFromTransform(src: Source, e: string, i: nat, j: nat)
    requires src.Valid() && AtItem(src.flat, i, j) && e in src.entities
    requires LatestState(src.flat, e, i, j).Some?
    ensures e in TransformedBefore(src, i, j)
    decreases i, j
  {
    hide Label, TransformsTo;
    if j > 0 {
      LabelOrigin(src, i, j - 1);
      if !(src.flat[i].present[j - 1].eid == e && TransformsTo(src.flat[i], src.flat[i].present[j - 1]).Some?) {
        StateComesFromTransform(src, e, i, j - 1);
      }
    } else {
      StateComesFromTransform(src, e, i - 1, |src.flat[i - 1].present|);
    }
  }

  lemma TransformedAppend(cast: seq<Entry>, c: Entry)
    ensures TransformedIn(cast + [c]) == TransformedIn(cast) + (if c.op.Transform? then {c.eid} else {})
  {
    forall e ensures e in TransformedIn(cast + [c]) <==> e in TransformedIn(cast) || (c.op.Transform? && e == c.eid) {
      assert forall x :: x in cast + [c] <==> x in cast || x == c;
    }
  }

  /** The output's transform entries are those of the timeline. */
  lemma {:induction false} TransformsInOutput(src: Source, segments: seq<GoldSegment>, i: nat, j: nat)
    requires src.Valid() && AtItem(src.flat, i, j)
    requires |segments| == |src.flat| && forall k :: 0 <= k < |segments| ==> segments[k].cast == CastOf(src, k)
    ensures TransformedBefore(src, i, j)
            == TransformedUpTo(segments, i) + (if j > 0 then TransformedIn(CastUpTo(src, i, j)) else {})
    decreases i, j
  {
    hide Label;
    if j > 0 {
      TransformsInOutput(src, segments, i, j - 1);
      LabelOrigin(src, i, j - 1);
      var before := CastUpTo(src, i, j - 1);
      assert j == 1 ==> before == [];
      if src.flat[i].present[j - 1].eid in src.entities {
        TransformedAppend(before, Label(src, i, j - 1));
      }
      NoTransforms();
      hide TransformedIn, TransformedUpTo;
    } else if i > 0 {
      TransformsInOutput(src, segments, i - 1, |src.flat[i - 1].present|);
    }
  }

  lemma {:induction false} CastGroundedUpTo(src: Source, segments: seq<GoldSegment>, i: nat, j: nat)
    requires src.Valid() && i < |src.flat| && j <= |src.flat[i].present|
    requires |segments| == |src.flat| && forall k :: 0 <= k < |segments| ==> segments[k].cast == CastOf(src, k)
    ensures CastUpTo(src, i, j) <= CastOf(src, i)
    ensures CastGrounded(segments, i, |CastUpTo(src, i, j)|)
  {
    hide Label, CastOf, TransformedUpTo, TransformedIn, LatestState;
    CastPrefix(src, i, j);
    if j > 0 {
      CastGroundedUpTo(src, segments, i, j - 1);
      var before := CastUpTo(src, i, j - 1);
      if src.flat[i].present[j - 1].eid in src.entities {
        var c := Label(src, i, j - 1);
        assert CastUpTo(src, i, j) == before + [c];
        LabelOrigin(src, i, j - 1);
        assert segments[i].cast[..|before|] == before;
        assert segments[i].cast[|before|] == c;
        if c.op.Persist? {
          StateComesFromTransform(src, c.eid, i, j - 1);
          TransformsInOutput(src, segments, i, j - 1);
          NoTransforms();
        }
      }
    }
  }

  lemma NoTransforms()
    ensures TransformedIn([]) == {}
  {}

  lemma {:induction false} CastPrefix(src: Source, i: nat, j: nat)
    requires src.Valid() && i < |src.flat| && j <= |src.flat[i].present|
    ensures CastUpTo(src, i, j) <= CastOf(src, i)
    decreases |src.flat[i].present| - j
  {
    hide Label;
    if j < |src.flat[i].present| { CastPrefix(src, i, j + 1); }
  }

  /** The re-check that closes `build` cannot fire, whether or not the timeline meets the rules. */
  lemma {:induction false} RecheckNeverFires(src: Source)
    requires src.Valid()
    ensures forall i :: 0 <= i < |src.flat| ==>
              CastGrounded(GoldOf(src).segments, i, |GoldOf(src).segments[i].cast|)
  {
    hide CastGrounded, CastUpTo;
    var segments := GoldOf(src).segments;
    assert forall k :: 0 <= k < |segments| ==> segments[k].cast == CastOf(src, k);
    forall i | 0 <= i < |src.flat| ensures CastGrounded(segments, i, |segments[i].cast|) {
      CastGroundedUpTo(src, segments, i, |src.flat[i].present|);
    }
  }

  /** `build` on a flattened source. */
  method Build(src: Source) returns (r: Result<Gold, seq<RuleError>>)
    requires src.Valid()
    ensures r.Ok? <==> MemoryRules(src)
    ensures r.Ok? ==> r.value == GoldOf(src)
    ensures r.Err? ==> r.error != [] && forall x :: x in r.error <==> IsBroken(src, x)
  {
    hide NoReentry, SegmentRules, SegmentOf, RunningAt, CastGrounded, Reports, ReentryUpTo, SegmentFaults, IsBroken;
    var errors := CheckReentry(src.flat);
    ghost var back := errors;
    var run := Running(map[], map[], [], map[]);
    var segments: seq<GoldSegment> := [];
    RunningAtStart(src);
    for i := 0 to |src.flat|
      invariant RunningAt(src, i, run)
      invariant segments == GoldUpTo(src, i)
      invariant errors == [] <==> NoReentry(src.flat) && forall k :: 0 <= k < i ==> SegmentRules(src, src.flat[k])
      invariant forall x :: x in errors <==> x in back || FaultBefore(src, i, x)
    {
      var seg, errs;
      seg, run, errs := CompileSegment(src, i, run);
      FaultsNext(src, i, errs);
      segments, errors := segments + [seg], errors + errs;
    }
    forall x ensures x in errors <==> IsBroken(src, x) { BrokenIs(src, x); }
    var late := Recheck(segments);
    RecheckNeverFires(src);
    assert segments == GoldOf(src).segments;
    assert late == [];
    errors := errors + late;
    r := if errors != [] then Err(errors) else Ok(Gold(GoldEntities(src), segments));
  }

  /** A fault of one of the first `n` segments. */
  ghost predicate FaultBefore(src: Source, n: nat, x: RuleError)
    requires n <= |src.flat|
  {
    x.segment < n && SegmentFaults(src, src.flat[x.segment])(x.eid, x.rule)
  }

  lemma FaultsNext(src: Source, i: nat, errs: seq<RuleError>)
    requires i < |src.flat| && Reports(errs, i, SegmentFaults(src, src.flat[i]))
    ensures forall x :: FaultBefore(src, i + 1, x) <==> FaultBefore(src, i, x) || x in errs
  {
    hide SegmentFaults;
  }

  lemma BrokenIs(src: Source, x: RuleError)
    ensures IsBroken(src, x) <==> ReentryUpTo(src.flat, |src.flat|, 0, x) || FaultBefore(src, |src.flat|, x)
  {
    hide SegmentFaults, ComesBack;
  }

  lemma ItemIsFaultless(src: Source, seg: Segment, it: Item)
    ensures ItemRules(src, seg, it) <==> forall rule :: !ItemFault(src, seg, it, rule)
  {
    if !ItemRules(src, seg, it) {
      assert ItemFault(src, seg, it, Unregistered) || ItemFault(src, seg, it, FlashbackUnlisted)
             || ItemFault(src, seg, it, StateUnlisted) || ItemFault(src, seg, it, ConfusedWithNobody)
             || ItemFault(src, seg, it, ResolvesToNobody);
    }
  }

  lemma ItemsAreFaultless(src: Source, seg: Segment)
    ensures ItemsRules(src, seg, |seg.present|) <==> forall e, rule :: !ItemFaults(src, seg, |seg.present|)(e, rule)
  {
    hide ItemRules, ItemFault;
    forall j | 0 <= j < |seg.present|
      ensures ItemRules(src, seg, seg.present[j]) <==> forall rule :: !ItemFault(src, seg, seg.present[j], rule)
    {
      ItemIsFaultless(src, seg, seg.present[j]);
    }
    if !ItemsRules(src, seg, |seg.present|) {
      var j :| 0 <= j < |seg.present| && !ItemRules(src, seg, seg.present[j]);
      var rule :| ItemFault(src, seg, seg.present[j], rule);
      assert ItemFaults(src, seg, |seg.present|)(seg.present[j].eid, rule);
    }
  }

  lemma EventsAreFaultless(events: seq<Event>)
    ensures EventRules(events) <==> forall e, rule :: !EventFaults(events)(e, rule)
  {
    if !EventRules(events) {
      var ev :| ev in events && ev.Other?;
      assert ev == Event.Other(ev.kind) && EventFaults(events)(ev.kind, UnknownEvent);
    }
  }

  lemma RemovalsAreFaultless(src: Source, seg: Segment)
    ensures (forall e :: e in RemovedHere(seg.events) ==> RemovalRule(src, seg, e))
            <==> forall e, rule :: !RemovalFaults(src, seg, RemovedHere(seg.events))(e, rule)
  {
    hide RemoveEvent, RemovedHere, OnScreen;
    var here := RemovedHere(seg.events);
    forall e | e in here
      ensures RemovalRule(src, seg, e) <==> !RemovalFaults(src, seg, here)(e, RemovesNobody)
                                            && !RemovalFaults(src, seg, here)(e, RemovesUnseen)
    {}
  }

  lemma TwinsAreFaultless(src: Source, seg: Segment)
    requires seg.lookalike.Some?
    ensures LookalikeRules(src, seg)
            <==> forall e, rule :: !TwinFaults(src, seg.lookalike.value, |seg.lookalike.value.members|)(e, rule)
  {
    hide Join;
    var lp := seg.lookalike.value;
    var faults := TwinFaults(src, lp, |lp.members|);
    assert lp.members[..|lp.members|] == lp.members;
    if lp.pair !in src.pairs { assert faults(Join(lp.pair), PairUndeclared); }
    if m :| m in lp.members && m !in lp.pair { assert faults(m, NotOfThePair); }
  }

  lemma SegmentIsFaultless(src: Source, seg: Segment)
    ensures SegmentRules(src, seg) <==> forall e, rule :: !SegmentFaults(src, seg)(e, rule)
  {
    hide EventRules, ItemsRules, RemovedHere, RemovalRule, LookalikeRules, EventFaults, ItemFaults, RemovalFaults, TwinFaults;
    EventsAreFaultless(seg.events);
    ItemsAreFaultless(src, seg);
    RemovalsAreFaultless(src, seg);
    NoTwinsNoRules(src, seg);
    var all, events, items := SegmentFaults(src, seg), EventFaults(seg.events), ItemFaults(src, seg, |seg.present|);
    var removals := RemovalFaults(src, seg, RemovedHere(seg.events));
    if e, rule :| events(e, rule) { assert all(e, rule); }
    if e, rule :| items(e, rule) { assert all(e, rule); }
    if e, rule :| removals(e, rule) { assert all(e, rule); }
    if seg.lookalike.Some? {
      TwinsAreFaultless(src, seg);
      if e, rule :| TwinFaults(src, seg.lookalike.value, |seg.lookalike.value.members|)(e, rule) { assert all(e, rule); }
    }
  }

  lemma NoTwinsNoRules(src: Source, seg: Segment)
    ensures seg.lookalike.None? ==> LookalikeRules(src, seg)
  {}

  /** A story meets the rules exactly when there is nothing to report of it. */
  lemma {:induction false} RulesHoldIff(src: Source)
    ensures MemoryRules(src) <==> forall x :: !IsBroken(src, x)
  {
    hide SegmentRules, SegmentFaults, LatestRemoval;
    forall i | 0 <= i < |src.flat|
      ensures SegmentRules(src, src.flat[i]) <==> forall e, rule :: !SegmentFaults(src, src.flat[i])(e, rule)
    {
      SegmentIsFaultless(src, src.flat[i]);
    }
    if !NoReentry(src.flat) {
      var i, j :| 0 <= i < |src.flat| && 0 <= j < |src.flat[i].present|
                  && LatestRemoval(src.flat, src.flat[i].present[j].eid, i).Some?;
      assert IsBroken(src, RuleError(i, src.flat[i].present[j].eid, Reenters));
    }
    if i :| 0 <= i < |src.flat| && !SegmentRules(src, src.flat[i]) {
      var e, rule :| SegmentFaults(src, src.flat[i])(e, rule);
      assert IsBroken(src, RuleError(i, e, rule));
    }
    if x :| IsBroken(src, x) { assert !MemoryRules(src); }
  }

  lemma RunningAtStart(src: Source)
    requires src.Valid()
    ensures RunningAt(src, 0, Running(map[], map[], [], map[]))
  {}
}
