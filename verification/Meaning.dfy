/** The compiled gold in the author's terms: which events, items and earlier segments each label, probe and roster
    entry stands for, and which stories compile. Nothing here searches; every sentence quantifies over the story. */
module Meaning {
  import opened Basics
  import opened Decimal
  import opened Timeline
  import opened TimelineLaws

  // ----- what a segment announces -----

  ghost predicate ChangesAt(events: seq<Event>, e: string, k: nat) {
    k < |events| && events[k].StateChange? && events[k].eid == e
  }

  ghost predicate RemovesAt(events: seq<Event>, e: string, k: nat) {
    k < |events| && events[k].Remove? && events[k].eid == e
  }

  ghost predicate LastChangeAt(events: seq<Event>, e: string, k: nat) {
    ChangesAt(events, e, k) && forall l: nat :: k < l ==> !ChangesAt(events, e, l)
  }

  ghost predicate LastRemovalAt(events: seq<Event>, e: string, k: nat) {
    RemovesAt(events, e, k) && forall l: nat :: k < l ==> !RemovesAt(events, e, l)
  }

  /** The segment's events give `e` the look `name`: its last state change, or without one its last removal, if that
      is shown. */
  ghost predicate Announces(events: seq<Event>, e: string, name: string) {
    if exists k: nat :: ChangesAt(events, e, k)
    then exists k: nat :: LastChangeAt(events, e, k) && events[k].to == Some(name)
    else exists k: nat :: LastRemovalAt(events, e, k) && events[k].shown && events[k].to == Some(name)
  }

  lemma {:induction false} StateEventIs(events: seq<Event>, e: string)
    ensures StateEvent(events, e).None? ==> forall k: nat :: !ChangesAt(events, e, k)
    ensures StateEvent(events, e).Some? ==>
              exists k: nat :: LastChangeAt(events, e, k) && events[k].to == StateEvent(events, e).value
  {
    if events != [] {
      var n := |events| - 1;
      var before := events[..n];
      StateEventIs(before, e);
      assert forall k: nat :: k < n ==> before[k] == events[k];
      if ChangesAt(events, e, n) {
        assert LastChangeAt(events, e, n);
      } else {
        assert forall k: nat :: ChangesAt(events, e, k) <==> ChangesAt(before, e, k);
        if k: nat :| LastChangeAt(before, e, k) && before[k].to == StateEvent(events, e).value {
          assert LastChangeAt(events, e, k);
        }
      }
    }
  }

  lemma {:induction false} RemoveEventIs(events: seq<Event>, e: string)
    ensures RemoveEvent(events, e).None? ==> forall k: nat :: !RemovesAt(events, e, k)
    ensures RemoveEvent(events, e).Some? ==>
              exists k: nat :: LastRemovalAt(events, e, k) && events[k] == RemoveEvent(events, e).value
  {
    if events != [] {
      var n := |events| - 1;
      var before := events[..n];
      RemoveEventIs(before, e);
      assert forall k: nat :: k < n ==> before[k] == events[k];
      if RemovesAt(events, e, n) {
        assert LastRemovalAt(events, e, n);
      } else {
        assert forall k: nat :: RemovesAt(events, e, k) <==> RemovesAt(before, e, k);
        if k: nat :| LastRemovalAt(before, e, k) && before[k] == RemoveEvent(events, e).value {
          assert LastRemovalAt(events, e, k);
        }
      }
    }
  }

  lemma OneLast(events: seq<Event>, e: string, k: nat, l: nat)
    ensures LastChangeAt(events, e, k) && LastChangeAt(events, e, l) ==> k == l
    ensures LastRemovalAt(events, e, k) && LastRemovalAt(events, e, l) ==> k == l
  {}

  lemma {:induction false} AnnouncedIs(events: seq<Event>, e: string, name: string)
    ensures Announced(events, e) == Some(name) <==> Announces(events, e, name)
  {
    hide StateEvent, RemoveEvent, LastChangeAt, LastRemovalAt, ChangesAt, RemovesAt;
    StateEventIs(events, e);
    RemoveEventIs(events, e);
    forall k: nat, l: nat ensures LastChangeAt(events, e, k) && LastChangeAt(events, e, l) ==> k == l
                          ensures LastRemovalAt(events, e, k) && LastRemovalAt(events, e, l) ==> k == l {
      OneLast(events, e, k, l);
    }
    LastIsOne(events, e);
  }

  lemma LastIsOne(events: seq<Event>, e: string)
    ensures forall k: nat :: LastChangeAt(events, e, k) ==> ChangesAt(events, e, k)
    ensures forall k: nat :: LastRemovalAt(events, e, k) ==> RemovesAt(events, e, k)
    ensures forall k: nat :: ChangesAt(events, e, k) ==> k < |events|
    ensures forall k: nat :: RemovesAt(events, e, k) ==> k < |events| && events[k].Remove?
  {}

  // ----- what came before an item -----

  ghost predicate ShownAt(flat: seq<Segment>, e: string, p: nat, q: nat) {
    IsItem(flat, p, q) && flat[p].present[q].eid == e
  }

  /** Item (p, q) takes on the look `name`: its segment announces it, and the item is no flashback. */
  ghost predicate TakesOn(flat: seq<Segment>, p: nat, q: nat, name: string) {
    IsItem(flat, p, q) && flat[p].present[q].extras.state.None?
    && Announces(flat[p].events, flat[p].present[q].eid, name)
  }

  ghost predicate ShownBefore(flat: seq<Segment>, e: string, i: nat, j: nat) {
    exists p: nat, q: nat :: ShownAt(flat, e, p, q) && Before(p, q, i, j)
  }

  /** Segment `p` is the last that shows `e` before item (i, j). */
  ghost predicate LastShownIn(flat: seq<Segment>, e: string, i: nat, j: nat, p: nat) {
    && (exists q: nat :: ShownAt(flat, e, p, q) && Before(p, q, i, j))
    && (forall h: nat, m: nat :: ShownAt(flat, e, h, m) && Before(h, m, i, j) ==> h <= p)
  }

  /** (p, q) is the last item of `e` before (i, j) that takes on a look, and takes on `name`. */
  ghost predicate LastTakenAt(flat: seq<Segment>, e: string, i: nat, j: nat, p: nat, q: nat, name: string) {
    && ShownAt(flat, e, p, q) && Before(p, q, i, j) && TakesOn(flat, p, q, name)
    && (forall h: nat, m: nat, other: string ::
          ShownAt(flat, e, h, m) && Before(p, q, h, m) && Before(h, m, i, j) ==> !TakesOn(flat, h, m, other))
  }

  ghost predicate LastLook(flat: seq<Segment>, e: string, i: nat, j: nat, name: string) {
    exists p: nat, q: nat :: LastTakenAt(flat, e, i, j, p, q, name)
  }

  lemma TransformsToIs(flat: seq<Segment>, p: nat, q: nat, name: string)
    requires IsItem(flat, p, q)
    ensures TransformsTo(flat[p], flat[p].present[q]) == Some(name) <==> TakesOn(flat, p, q, name)
  {
    hide Announces, Announced;
    AnnouncedIs(flat[p].events, flat[p].present[q].eid, name);
  }

  lemma {:induction false} LastSeenIs(flat: seq<Segment>, e: string, i: nat, j: nat)
    requires AtItem(flat, i, j)
    ensures LastSeen(flat, e, i, j).None? <==> !ShownBefore(flat, e, i, j)
    ensures forall p: nat :: LastSeen(flat, e, i, j) == Some(p) <==> LastShownIn(flat, e, i, j, p)
  {
    hide LastSeen;
    LastSeenIsLatest(flat, e, i, j);
    if p: nat, q: nat :| ShownAt(flat, e, p, q) && Before(p, q, i, j) { assert IsItem(flat, p, q); }
    if LastSeen(flat, e, i, j).Some? {
      var p := LastSeen(flat, e, i, j).value;
      var q: nat :| IsItem(flat, p, q) && Before(p, q, i, j) && flat[p].present[q].eid == e;
      assert ShownAt(flat, e, p, q);
    }
  }

  /** The backward search for a look finds the last one taken on, or nothing where none was. */
  lemma {:induction false} LatestStateIs(flat: seq<Segment>, e: string, i: nat, j: nat)
    requires AtItem(flat, i, j)
    ensures match LatestState(flat, e, i, j)
            case Some(name) => LastLook(flat, e, i, j, name)
            case None => forall p: nat, q: nat, name: string ::
                           ShownAt(flat, e, p, q) && Before(p, q, i, j) ==> !TakesOn(flat, p, q, name)
    decreases i, j
  {
    hide TransformsTo, TakesOn;
    forall p: nat, q: nat, name: string | IsItem(flat, p, q)
      ensures TransformsTo(flat[p], flat[p].present[q]) == Some(name) <==> TakesOn(flat, p, q, name)
    {
      TransformsToIs(flat, p, q, name);
    }
    if j > 0 {
      LatestStateIs(flat, e, i, j - 1);
      LookAtItem(flat, e, i, j - 1);
    } else if i > 0 {
      LatestStateIs(flat, e, i - 1, |flat[i - 1].present|);
      LookAtSegment(flat, e, i);
    }
  }

  lemma LookAtItem(flat: seq<Segment>, e: string, i: nat, j: nat)
    requires i < |flat| && j < |flat[i].present|
    requires forall p: nat, q: nat, name: string :: IsItem(flat, p, q) ==>
               (TransformsTo(flat[p], flat[p].present[q]) == Some(name) <==> TakesOn(flat, p, q, name))
    requires match LatestState(flat, e, i, j)
             case Some(name) => LastLook(flat, e, i, j, name)
             case None => forall p: nat, q: nat, name: string ::
                            ShownAt(flat, e, p, q) && Before(p, q, i, j) ==> !TakesOn(flat, p, q, name)
    ensures match LatestState(flat, e, i, j + 1)
            case Some(name) => LastLook(flat, e, i, j + 1, name)
            case None => forall p: nat, q: nat, name: string ::
                           ShownAt(flat, e, p, q) && Before(p, q, i, j + 1) ==> !TakesOn(flat, p, q, name)
  {
    hide TransformsTo, TakesOn;
    var it := flat[i].present[j];
    var to := TransformsTo(flat[i], it);
    if it.eid == e && to.Some? {
      assert TakesOn(flat, i, j, to.value);
      assert LastTakenAt(flat, e, i, j + 1, i, j, to.value);
    } else if LatestState(flat, e, i, j).Some? {
      var name := LatestState(flat, e, i, j).value;
      var p: nat, q: nat :| LastTakenAt(flat, e, i, j, p, q, name);
      forall h: nat, m: nat, other: string | ShownAt(flat, e, h, m) && Before(p, q, h, m) && Before(h, m, i, j + 1)
        ensures !TakesOn(flat, h, m, other)
      {
        if h == i && m == j { assert to != Some(other); }
      }
      assert LastTakenAt(flat, e, i, j + 1, p, q, name);
    } else {
      forall p: nat, q: nat, name: string | ShownAt(flat, e, p, q) && Before(p, q, i, j + 1)
        ensures !TakesOn(flat, p, q, name)
      {
        if p == i && q == j { assert to != Some(name); }
      }
    }
  }

  lemma LookAtSegment(flat: seq<Segment>, e: string, i: nat)
    requires 0 < i <= |flat|
    ensures forall name :: LastLook(flat, e, i - 1, |flat[i - 1].present|, name) ==> LastLook(flat, e, i, 0, name)
    ensures forall p: nat, q: nat :: ShownAt(flat, e, p, q) ==>
              (Before(p, q, i, 0) <==> Before(p, q, i - 1, |flat[i - 1].present|))
  {
    hide TakesOn;
    var n := |flat[i - 1].present|;
    forall name | LastLook(flat, e, i - 1, n, name) ensures LastLook(flat, e, i, 0, name) {
      var p: nat, q: nat :| LastTakenAt(flat, e, i - 1, n, p, q, name);
      assert LastTakenAt(flat, e, i, 0, p, q, name);
    }
  }

  /** There is one last look. */
  lemma OneLook(flat: seq<Segment>, e: string, i: nat, j: nat, a: string, b: string)
    requires LastLook(flat, e, i, j, a) && LastLook(flat, e, i, j, b)
    ensures a == b
  {
    hide Announces;
    var p: nat, q: nat :| LastTakenAt(flat, e, i, j, p, q, a);
    var h: nat, m: nat :| LastTakenAt(flat, e, i, j, h, m, b);
    assert !Before(p, q, h, m) && !Before(h, m, p, q);
    TransformsToIs(flat, p, q, a);
    TransformsToIs(flat, p, q, b);
  }

  // ----- authored looks -----

  /** The look the author gives `e` at the start: the named one, else the first of its state machine. */
  ghost predicate StartsAs(src: Source, e: string, name: string)
    requires src.Valid()
  {
    e in src.entities
    && if src.entities[e].initialState != "" then name == src.entities[e].initialState
       else e in src.machines && name == src.machines[e][0]
  }

  /** How `e` looks under a name: as the states describe it, if it has any, else as it always looks. */
  ghost predicate LooksLike(src: Source, e: string, name: string, appearance: string) {
    e in src.entities
    && if src.entities[e].states == map[] then appearance == src.entities[e].appearance
       else if name in src.entities[e].states then appearance == src.entities[e].states[name]
       else appearance == ""
  }

  lemma InitialStateIs(src: Source, e: string, name: string)
    requires src.Valid() && e in src.entities
    ensures InitialState(src, e) == Some(name) <==> StartsAs(src, e, name)
  {}

  ghost predicate Tagged(src: Source, c: Entry, name: string, flashback: bool) {
    c.state.Some? && c.state.value.name == name && c.state.value.flashback == flashback
    && LooksLike(src, c.eid, name, c.state.value.appearance)
  }

  lemma TagIs(src: Source, c: Entry, name: string, flashback: bool)
    requires c.eid in src.entities && c.state == Tag(src, c.eid, name, flashback)
    ensures Tagged(src, c, name, flashback)
  {}

  // ----- labels -----

  /** An item's own authored extras are in its label as they are. */
  ghost predicate KeepsExtras(it: Item, c: Entry) {
    c.eid == it.eid && c.confusableWith == it.extras.confusableWith && c.count == it.extras.count
    && c.anchor == it.extras.anchor
  }

  /** The operation: a look taken on here is a transform; else a first appearance introduces; else, unless it is a
      flashback, an entity last changed to another look than its first persists; and the rest is recalled, after a
      gap exactly when enough segments lie between. */
  ghost predicate OpMeans(src: Source, i: nat, j: nat, c: Entry)
    requires src.Valid() && IsItem(src.flat, i, j)
  {
    var flat, it := src.flat, src.flat[i].present[j];
    var taken := exists name :: TakesOn(flat, i, j, name);
    var seen := ShownBefore(flat, it.eid, i, j);
    var changed := exists name :: LastLook(flat, it.eid, i, j, name) && !StartsAs(src, it.eid, name);
    && (c.op.Transform? <==> taken)
    && (c.op.Introduce? <==> !taken && !seen)
    && (c.op.Persist? <==> !taken && seen && it.extras.state.None? && changed)
    && (forall p: nat :: LastShownIn(flat, it.eid, i, j, p) ==>
          && (c.op.RecallAfterGap? ==> i - p - 1 >= src.gapLong)
          && (c.op.Recall? ==> i - p - 1 < src.gapLong))
  }

  /** The gap counts the segments since the last appearance, which `last_seen` names. */
  ghost predicate GapMeans(src: Source, i: nat, j: nat, c: Entry)
    requires src.Valid() && IsItem(src.flat, i, j)
  {
    var flat, e := src.flat, src.flat[i].present[j].eid;
    && (!ShownBefore(flat, e, i, j) ==> c.gap.None? && c.lastSeen.None?)
    && (forall p: nat :: LastShownIn(flat, e, i, j, p) ==> c.gap == Some(i - p - 1) && c.lastSeen == Some(SegId(p)))
  }

  /** The state: the look taken on, the one that persists, or a flashback's, marked as such. */
  ghost predicate StateMeans(src: Source, i: nat, j: nat, c: Entry)
    requires src.Valid() && IsItem(src.flat, i, j)
  {
    var flat, it := src.flat, src.flat[i].present[j];
    && (forall name :: TakesOn(flat, i, j, name) ==> Tagged(src, c, name, false))
    && (c.op.Introduce? ==> c.state.None?)
    && (c.op.Persist? ==> forall name :: LastLook(flat, it.eid, i, j, name) ==> Tagged(src, c, name, false))
    && (c.op.Recall? || c.op.RecallAfterGap? ==>
          if it.extras.state.Some? then Tagged(src, c, it.extras.state.value, true) else c.state.None?)
  }

  lemma NoneTaken(flat: seq<Segment>, i: nat, j: nat)
    requires IsItem(flat, i, j)
    ensures TransformsTo(flat[i], flat[i].present[j]).Some? <==> exists name :: TakesOn(flat, i, j, name)
    ensures forall name :: TransformsTo(flat[i], flat[i].present[j]) == Some(name) <==> TakesOn(flat, i, j, name)
  {
    hide TransformsTo, TakesOn;
    forall name ensures TransformsTo(flat[i], flat[i].present[j]) == Some(name) <==> TakesOn(flat, i, j, name) {
      TransformsToIs(flat, i, j, name);
    }
    if TransformsTo(flat[i], flat[i].present[j]).Some? {
      assert TakesOn(flat, i, j, TransformsTo(flat[i], flat[i].present[j]).value);
    }
  }

  lemma LookIs(flat: seq<Segment>, e: string, i: nat, j: nat)
    requires AtItem(flat, i, j)
    ensures forall name :: LatestState(flat, e, i, j) == Some(name) <==> LastLook(flat, e, i, j, name)
  {
    hide TakesOn, LatestState;
    LatestStateIs(flat, e, i, j);
    forall name ensures LatestState(flat, e, i, j) == Some(name) <==> LastLook(flat, e, i, j, name) {
      if LastLook(flat, e, i, j, name) {
        var p: nat, q: nat :| LastTakenAt(flat, e, i, j, p, q, name);
        assert LatestState(flat, e, i, j).Some?;
        OneLook(flat, e, i, j, name, LatestState(flat, e, i, j).value);
      }
    }
  }

  /** Every label of a story that compiles means what its item and the segments before it say. */
  lemma {:induction false} EntryMeans(src: Source, i: nat, j: nat)
    requires src.Valid() && MemoryRules(src) && IsItem(src.flat, i, j)
    ensures |CastOf(src, i)| == |src.flat[i].present|
    ensures KeepsExtras(src.flat[i].present[j], CastOf(src, i)[j])
    ensures OpMeans(src, i, j, CastOf(src, i)[j])
    ensures GapMeans(src, i, j, CastOf(src, i)[j])
    ensures StateMeans(src, i, j, CastOf(src, i)[j])
  {
    hide MemoryRules, CastOf, OpMeans, GapMeans, StateMeans;
    CompiledCast(src, i);
    LabelMeans(src, i, j);
  }

  lemma LabelMeans(src: Source, i: nat, j: nat)
    requires src.Valid() && IsItem(src.flat, i, j) && src.flat[i].present[j].eid in src.entities
    ensures KeepsExtras(src.flat[i].present[j], Label(src, i, j))
    ensures OpMeans(src, i, j, Label(src, i, j)) && GapMeans(src, i, j, Label(src, i, j))
    ensures StateMeans(src, i, j, Label(src, i, j))
  {
    hide TransformsTo, LastSeen, LatestState, TakesOn, LastLook, ShownBefore, LastShownIn, InitialState, StartsAs;
    hide AppearanceOf, SegId, Tagged, Tag;
    var flat, it := src.flat, src.flat[i].present[j];
    NoneTaken(flat, i, j);
    LastSeenIs(flat, it.eid, i, j);
    LookIs(flat, it.eid, i, j);
    forall name ensures InitialState(src, it.eid) == Some(name) <==> StartsAs(src, it.eid, name) {
      InitialStateIs(src, it.eid, name);
    }
    var c := Label(src, i, j);
    forall name, flashback | c.state == Tag(src, c.eid, name, flashback) ensures Tagged(src, c, name, flashback) {
      TagIs(src, c, name, flashback);
    }
    TagSome(src, c.eid);
  }

  lemma TagSome(src: Source, e: string)
    ensures forall name, flashback :: Tag(src, e, name, flashback).Some?
  {}
}
