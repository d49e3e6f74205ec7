/** What a flashback does to the units: `build_units` takes any labelled entry for the entity's state, so a
    flashback to an old look passes for the current one until the next label. */
module Flashbacks {
  import opened Basics
  import opened Timeline
  import opened Units

  function InitialLook(src: Source, e: string): Option<string>
    requires src.Valid() && e in src.entities
  {
    var look := GoldEntity(src, e).initialState;
    if look != "" then Some(look) else None
  }

  lemma UnitsStartWithIt(src: Source, e: string)
    requires src.Valid() && e in src.entities
    ensures StateAfter(GoldOf(src), e, 0) == InitialLook(src, e)
  {
    hide GoldEntity, GoldUpTo;
  }

  /** The state the timeline itself leaves `e` in: its latest transform that has a name, else its initial one. */
  function Remembered(src: Source, e: string, i: nat, j: nat): Option<string>
    requires src.Valid() && e in src.entities && AtItem(src.flat, i, j)
    decreases i, j
  {
    if j > 0 then
      var it := src.flat[i].present[j - 1];
      var to := TransformsTo(src.flat[i], it);
      if it.eid == e && to.Some? && to.value != "" then to else Remembered(src, e, i, j - 1)
    else if i > 0 then Remembered(src, e, i - 1, |src.flat[i - 1].present|)
    else InitialLook(src, e)
  }

  /** The look of the latest flashback since the last transform or persist label. */
  function Flashed(src: Source, e: string, i: nat, j: nat): Option<string>
    requires src.Valid() && AtItem(src.flat, i, j)
    decreases i, j
  {
    if j > 0 then
      var c := Label(src, i, j - 1);
      if c.eid == e && c.state.Some? && c.state.value.name != "" then
        if c.state.value.flashback then Some(c.state.value.name) else None
      else Flashed(src, e, i, j - 1)
    else if i > 0 then Flashed(src, e, i - 1, |src.flat[i - 1].present|)
    else None
  }

  /** The units' state just before item `j` of segment `i`. */
  function StateAt(src: Source, e: string, i: nat, j: nat): Option<string>
    requires src.Valid() && i < |src.flat| && j <= |src.flat[i].present|
  {
    StateAfterCast(CastUpTo(src, i, j), e, StateAfter(GoldOf(src), e, i))
  }

  /** Where the compiler remembers a state by name, it is this one; where it remembers none, it is the initial one. */
  lemma {:induction false} RememberedIsLatest(src: Source, e: string, i: nat, j: nat)
    requires src.Valid() && e in src.entities && AtItem(src.flat, i, j)
    ensures match LatestState(src.flat, e, i, j)
            case Some(name) => name != "" ==> Remembered(src, e, i, j) == Some(name)
            case None => Remembered(src, e, i, j) == InitialLook(src, e)
    decreases i, j
  {
    hide TransformsTo, InitialLook;
    if j > 0 {
      RememberedIsLatest(src, e, i, j - 1);
    } else if i > 0 {
      RememberedIsLatest(src, e, i - 1, |src.flat[i - 1].present|);
    }
  }

  lemma OneEntryMore(src: Source, e: string, i: nat, j: nat)
    requires src.Valid() && e in src.entities && i < |src.flat| && j < |src.flat[i].present|
    ensures StateAt(src, e, i, j + 1) == StateAfterEntry(Label(src, i, j), e, StateAt(src, e, i, j))
  {
    hide Label, StateAfter, GoldOf;
    var before, c := CastUpTo(src, i, j), Label(src, i, j);
    LabelsItsItem(src, i, j);
    if c.eid in src.entities {
      assert CastUpTo(src, i, j + 1) == before + [c];
      assert (before + [c])[..|before|] == before;
    } else {
      assert CastUpTo(src, i, j + 1) == before;
    }
  }

  lemma LabelsItsItem(src: Source, i: nat, j: nat)
    requires src.Valid() && i < |src.flat| && j < |src.flat[i].present|
    ensures Label(src, i, j).eid == src.flat[i].present[j].eid
  {}

  /** A label that is no flashback tells the timeline's state. */
  lemma LabelTells(src: Source, e: string, i: nat, j: nat)
    requires src.Valid() && e in src.entities && i < |src.flat| && j < |src.flat[i].present|
    requires src.flat[i].present[j].eid == e
    ensures var tag := Label(src, i, j).state;
            if tag.Some? && tag.value.name != "" && !tag.value.flashback
            then Remembered(src, e, i, j + 1) == Some(tag.value.name)
            else Remembered(src, e, i, j + 1) == Remembered(src, e, i, j)
  {
    hide InitialState, LastSeen, LatestState, TransformsTo, AppearanceOf, InitialLook;
    RememberedIsLatest(src, e, i, j);
  }

  lemma {:induction false} StateWithin(src: Source, e: string, i: nat, j: nat)
    requires src.Valid() && e in src.entities && i < |src.flat| && j <= |src.flat[i].present|
    requires StateAfter(GoldOf(src), e, i) == if Flashed(src, e, i, 0).Some? then Flashed(src, e, i, 0)
                                              else Remembered(src, e, i, 0)
    ensures StateAt(src, e, i, j) == if Flashed(src, e, i, j).Some? then Flashed(src, e, i, j)
                                     else Remembered(src, e, i, j)
  {
    hide Label, GoldOf, InitialLook, StateAfter;
    if j > 0 {
      hide StateAt, Remembered;
      StateWithin(src, e, i, j - 1);
      OneEntryMore(src, e, i, j - 1);
      LabelsItsItem(src, i, j - 1);
      if src.flat[i].present[j - 1].eid == e { LabelTells(src, e, i, j - 1); } else { NotHere(src, e, i, j - 1); }
    }
  }

  lemma NotHere(src: Source, e: string, i: nat, j: nat)
    requires src.Valid() && e in src.entities && i < |src.flat| && j < |src.flat[i].present|
    requires src.flat[i].present[j].eid != e
    ensures Remembered(src, e, i, j + 1) == Remembered(src, e, i, j)
  {}

  lemma NextSegment(src: Source, e: string, i: nat)
    requires src.Valid() && i < |src.flat|
    ensures StateAfter(GoldOf(src), e, i + 1) == StateAt(src, e, i, |src.flat[i].present|)
  {
    hide StateAfterCast, CastUpTo;
    assert GoldOf(src).segments[i] == SegmentOf(src, i);
  }

  /** The units' state of an entity is the last flashback's look when there was one since the last transform or
      persist label, and the timeline's state otherwise. */
  lemma {:induction false} StateIsFlashedOrRemembered(src: Source, e: string, n: nat)
    requires src.Valid() && e in src.entities && n <= |src.flat|
    ensures StateAfter(GoldOf(src), e, n) == if Flashed(src, e, n, 0).Some? then Flashed(src, e, n, 0)
                                             else Remembered(src, e, n, 0)
  {
    hide InitialLook, Label, StateAt, StateAfter, GoldOf;
    if n == 0 {
      UnitsStartWithIt(src, e);
    } else {
      StateIsFlashedOrRemembered(src, e, n - 1);
      StateWithin(src, e, n - 1, |src.flat[n - 1].present|);
      NextSegment(src, e, n - 1);
    }
  }

  /** ... so the two agree exactly when no flashback, or only one to the current look, came after that label. */
  lemma {:induction false} UnitsKeepTheStateIff(src: Source, e: string, n: nat)
    requires src.Valid() && e in src.entities && n <= |src.flat|
    ensures StateAfter(GoldOf(src), e, n) == Remembered(src, e, n, 0) <==>
            Flashed(src, e, n, 0).None? || Flashed(src, e, n, 0) == Remembered(src, e, n, 0)
  {
    StateIsFlashedOrRemembered(src, e, n);
  }

  /** Both sides of a unit, in the timeline's terms. */
  lemma {:induction false} UnitStates(src: Source, cfg: Config, u: Unit, n: nat, m: nat)
    requires src.Valid() && n < |src.flat| && m < |GoldOf(src).segments[n].cast|
    requires FromEntry(GoldOf(src), cfg, u, n, m)
    ensures u.eid in src.entities && 1 <= u.prev <= n && u.cur == n + 1
    ensures u.stateA == Remembered(src, u.eid, u.prev, 0) <==>
            Flashed(src, u.eid, u.prev, 0).None? || Flashed(src, u.eid, u.prev, 0) == Remembered(src, u.eid, u.prev, 0)
    ensures u.stateB == Remembered(src, u.eid, u.cur, 0) <==>
            Flashed(src, u.eid, u.cur, 0).None? || Flashed(src, u.eid, u.cur, 0) == Remembered(src, u.eid, u.cur, 0)
  {
    hide Remembered, Flashed, StateAfter, Prev;
    UnitParts(GoldOf(src), cfg, u, n, m);
    GoldHasTheEntities(src);
    UnitsKeepTheStateIff(src, u.eid, u.prev);
    UnitsKeepTheStateIff(src, u.eid, u.cur);
  }

  lemma GoldHasTheEntities(src: Source)
    requires src.Valid()
    ensures GoldOf(src).entities.Keys == src.entities.Keys
  {
    hide GoldEntity, GoldUpTo;
  }

  lemma UnitParts(gold: Gold, cfg: Config, u: Unit, n: nat, m: nat)
    requires n < |gold.segments| && m < |gold.segments[n].cast| && FromEntry(gold, cfg, u, n, m)
    ensures u.eid in gold.entities && 1 <= u.prev <= n && u.cur == n + 1
    ensures u.stateA == StateAfter(gold, u.eid, u.prev) && u.stateB == StateAfter(gold, u.eid, u.cur)
  {
    hide StateAfter, GapBin, StratumOf;
  }
}
