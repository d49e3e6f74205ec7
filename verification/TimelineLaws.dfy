/** What every compiled timeline satisfies. */
module TimelineLaws {
  import opened Basics
  import opened Decimal
  import opened Timeline

  /** Item (p, q) lies before item (i, j). */
  predicate Before(p: nat, q: nat, i: nat, j: nat) { p < i || (p == i && q < j) }

  predicate IsItem(flat: seq<Segment>, p: nat, q: nat) { p < |flat| && q < |flat[p].present| }

  /** The backward search finds the segment of the last earlier appearance, and nothing if there is none. */
  lemma {:induction false} LastSeenIsLatest(flat: seq<Segment>, e: string, i: nat, j: nat)
    requires AtItem(flat, i, j)
    ensures forall p: nat, q: nat :: IsItem(flat, p, q) && Before(p, q, i, j) && flat[p].present[q].eid == e
              ==> LastSeen(flat, e, i, j).Some? && p <= LastSeen(flat, e, i, j).value
    ensures LastSeen(flat, e, i, j).Some? ==>
              var p := LastSeen(flat, e, i, j).value;
              exists q: nat :: IsItem(flat, p, q) && Before(p, q, i, j) && flat[p].present[q].eid == e
    decreases i, j
  {
    if j > 0 {
      if flat[i].present[j - 1].eid != e {
        LastSeenIsLatest(flat, e, i, j - 1);
      } else {
        assert IsItem(flat, i, j - 1);
      }
    } else if i > 0 {
      LastSeenIsLatest(flat, e, i - 1, |flat[i - 1].present|);
    }
  }

  /** An entity is introduced at most once in a story. */
  lemma {:induction false} IntroducedOnce(src: Source, i: nat, j: nat, p: nat, q: nat)
    requires src.Valid() && IsItem(src.flat, i, j) && IsItem(src.flat, p, q)
    requires Label(src, i, j).op.Introduce? && Label(src, p, q).op.Introduce?
    requires src.flat[i].present[j].eid == src.flat[p].present[q].eid
    ensures i == p && j == q
  {
    var e := src.flat[i].present[j].eid;
    LastSeenIsLatest(src.flat, e, i, j);
    LastSeenIsLatest(src.flat, e, p, q);
    assert Before(p, q, i, j) || Before(i, j, p, q) || (i == p && j == q);
  }

  /** Gaps count the segments in between, so they are negative exactly on a repeat within a segment. */
  lemma {:induction false} GapIsNegativeIffRepeated(src: Source)
    requires src.Valid()
    ensures DistinctCast(src.flat) <==>
            forall i: nat, j: nat :: IsItem(src.flat, i, j) ==> GapAtLeastZero(Label(src, i, j))
  {
    forall i: nat, j: nat, k: nat | i < |src.flat| && j < k < |src.flat[i].present|
                     && src.flat[i].present[j].eid == src.flat[i].present[k].eid
      ensures IsItem(src.flat, i, k) && !GapAtLeastZero(Label(src, i, k))
    {
      LastSeenIsLatest(src.flat, src.flat[i].present[k].eid, i, k);
      assert IsItem(src.flat, i, j);
    }
    forall i: nat, j: nat | IsItem(src.flat, i, j) && !GapAtLeastZero(Label(src, i, j))
      ensures !DistinctCast(src.flat)
    {
      LastSeenIsLatest(src.flat, src.flat[i].present[j].eid, i, j);
    }
  }

  predicate GapAtLeastZero(c: Entry) { c.gap.Some? ==> c.gap.value >= 0 }

  /** Every label points back to the appearance it measures its gap from. */
  predicate PointsBack(c: Entry, i: nat) {
    && (c.lastSeen.Some? <==> c.gap.Some?)
    && (c.op.Introduce? ==> c.gap.None?)
    && (c.gap.Some? ==> 0 <= c.gap.value < i && c.lastSeen == Some(SegId(i - c.gap.value - 1)))
  }

  lemma {:induction false} LabelsPointBack(src: Source, i: nat, j: nat)
    requires src.Valid() && DistinctCast(src.flat) && IsItem(src.flat, i, j)
    ensures PointsBack(Label(src, i, j), i)
  {
    GapIsNegativeIffRepeated(src);
    assert GapAtLeastZero(Label(src, i, j));
  }

  // ----- cast entries and the items they come from -----

  /** Cast entries are the labels of the items, in order. */
  lemma {:induction false} CastFrom(src: Source, i: nat, j: nat, k: nat) returns (q: nat)
    requires src.Valid() && i < |src.flat| && j <= |src.flat[i].present| && k < |CastUpTo(src, i, j)|
    ensures k <= q < j && CastUpTo(src, i, j)[k] == Label(src, i, q)
    ensures src.flat[i].present[q].eid in src.entities
    ensures CastUpTo(src, i, q) == CastUpTo(src, i, j)[..k]
  {
    hide Label;
    var before := CastUpTo(src, i, j - 1);
    if k < |before| {
      q := CastFrom(src, i, j - 1, k);
      assert CastUpTo(src, i, j)[..k] == before[..k];
    } else {
      q := j - 1;
      assert CastUpTo(src, i, j)[..k] == before;
    }
  }

  /** Once every item is registered, the cast lists the items one by one. */
  lemma {:induction false} CastIsWholeSegment(src: Source, i: nat, j: nat)
    requires src.Valid() && i < |src.flat| && j <= |src.flat[i].present|
    requires forall k :: 0 <= k < |src.flat[i].present| ==> src.flat[i].present[k].eid in src.entities
    ensures |CastUpTo(src, i, j)| == j
    ensures forall k :: 0 <= k < j ==> CastUpTo(src, i, j)[k] == Label(src, i, k)
  {
    hide Label;
    if j > 0 { CastIsWholeSegment(src, i, j - 1); }
  }

  lemma {:induction false} CompiledCast(src: Source, i: nat)
    requires src.Valid() && MemoryRules(src) && i < |src.flat|
    ensures |CastOf(src, i)| == |src.flat[i].present|
    ensures forall k :: 0 <= k < |src.flat[i].present| ==>
              CastOf(src, i)[k] == Label(src, i, k) && CastOf(src, i)[k].eid == src.flat[i].present[k].eid
              && CastOf(src, i)[k].eid in src.entities
  {
    hide LabelFrom;
    assert SegmentRules(src, src.flat[i]);
    assert forall k :: 0 <= k < |src.flat[i].present| ==> ItemRules(src, src.flat[i], src.flat[i].present[k]);
    CastIsWholeSegment(src, i, |src.flat[i].present|);
    forall k | 0 <= k < |src.flat[i].present|
      ensures CastOf(src, i)[k].eid == src.flat[i].present[k].eid
    {
      LabelEid(src, i, k);
    }
  }

  lemma LabelEid(src: Source, i: nat, j: nat)
    requires src.Valid() && IsItem(src.flat, i, j)
    ensures Label(src, i, j).eid == src.flat[i].present[j].eid
  {}

  // ----- forbidden roster -----

  /** Entity `e` is on the removal roster of segment `i`: it was removed, and last so before `i`. */
  predicate Gone(src: Source, e: string, i: nat)
    requires i < |src.flat|
  {
    e in src.entities && LatestRemoval(src.flat, e, i + 1).Some? && LatestRemoval(src.flat, e, i + 1).value.idx < i
  }

  /** The removal entry of segment `i` for `e`. */
  predicate RemovalEntry(src: Source, i: nat, f: Forbidden)
    requires i < |src.flat|
  {
    && Gone(src, f.eid, i)
    && var r := LatestRemoval(src.flat, f.eid, i + 1).value;
       f == Forbidden(f.eid, r.reason, SegId(r.idx), Mentions(src, f.eid, src.flat[i].action))
  }

  lemma {:induction false} RosterOf(src: Source, i: nat, order: seq<string>)
    requires i < |src.flat| && Distinct(order)
    requires forall e :: e in order ==> e in src.entities && LatestRemoval(src.flat, e, i + 1).Some?
    ensures forall f :: f in RemovedRoster(src, i, order) <==> f.eid in order && RemovalEntry(src, i, f)
  {
    if order == [] {
      assert RemovedRoster(src, i, order) == [];
    } else {
      hide LatestRemoval, RemovedRoster, RemovalEntry, Gone;
      var e, rest := order[|order| - 1], order[..|order| - 1];
      assert order == rest + [e];
      assert e in order && forall x :: x in rest ==> x in order;
      RosterOf(src, i, rest);
      RosterStep(src, i, order);
    }
  }

  lemma {:induction false} RosterOnce(src: Source, i: nat, order: seq<string>)
    requires i < |src.flat| && Distinct(order)
    requires forall e :: e in order ==> e in src.entities && LatestRemoval(src.flat, e, i + 1).Some?
    ensures forall a, b :: 0 <= a < b < |RemovedRoster(src, i, order)|
              ==> RemovedRoster(src, i, order)[a].eid != RemovedRoster(src, i, order)[b].eid
  {
    if order == [] {
      assert RemovedRoster(src, i, order) == [];
    } else {
      hide LatestRemoval, RemovedRoster, RemovalEntry, Gone;
      var e, rest := order[|order| - 1], order[..|order| - 1];
      assert order == rest + [e];
      assert e in order && forall x :: x in rest ==> x in order;
      RosterOnce(src, i, rest);
      RosterOf(src, i, rest);
      RosterStep(src, i, order);
      var roster := RemovedRoster(src, i, rest);
      forall a | 0 <= a < |roster| ensures roster[a].eid != e { assert roster[a] in roster; }
    }
  }

  /** The last entity of the order adds its removal entry, if it has one. */
  lemma RosterStep(src: Source, i: nat, order: seq<string>)
    requires i < |src.flat| && order != []
    ensures var e, before := order[|order| - 1], RemovedRoster(src, i, order[..|order| - 1]);
            e in src.entities && LatestRemoval(src.flat, e, i + 1).Some? ==>
              (RemovedRoster(src, i, order) == before && (forall f: Forbidden :: f.eid == e ==> !RemovalEntry(src, i, f)))
              || (exists f: Forbidden :: RemovedRoster(src, i, order) == before + [f] && f.eid == e
                              && forall g: Forbidden :: g.eid == e ==> (RemovalEntry(src, i, g) <==> g == f))
  {
    hide Mentions, SegId, LatestRemoval;
    var e := order[|order| - 1];
    if e in src.entities && Gone(src, e, i) {
      var r := LatestRemoval(src.flat, e, i + 1).value;
      var f := Forbidden(e, r.reason, SegId(r.idx), Mentions(src, e, src.flat[i].action));
      assert RemovedRoster(src, i, order) == RemovedRoster(src, i, order[..|order| - 1]) + [f];
    }
  }

  function Roster(src: Source, i: nat): seq<Forbidden>
    requires i < |src.flat|
  {
    RemovedRoster(src, i, RemovalOrder(src, i + 1))
  }

  /** One entry for each entity gone by segment `i`, grounded by its latest removal. */
  lemma {:induction false} RosterIsTheGone(src: Source, i: nat)
    requires i < |src.flat|
    ensures forall f :: f in Roster(src, i) <==> RemovalEntry(src, i, f)
    ensures forall a, b :: 0 <= a < b < |Roster(src, i)| ==> Roster(src, i)[a].eid != Roster(src, i)[b].eid
  {
    RosterOf(src, i, RemovalOrder(src, i + 1));
    RosterOnce(src, i, RemovalOrder(src, i + 1));
  }

  /** On a timeline that meets the rules nobody on the removal roster is in the cast. */
  lemma {:induction false} GoneIsOffScreen(src: Source, i: nat, e: string)
    requires src.Valid() && MemoryRules(src) && i < |src.flat| && Gone(src, e, i)
    ensures !OnScreen(src.flat[i], e)
  {
    assert LatestRemoval(src.flat, e, i).Some?;
    forall j | 0 <= j < |src.flat[i].present| ensures src.flat[i].present[j].eid != e {
      assert LatestRemoval(src.flat, src.flat[i].present[j].eid, i).None?;
    }
  }

  /** The roster keeps `e` from one segment to the next exactly when the next one does not remove it
      again: the second removal overwrites the first. */
  lemma {:induction false} RosterGrowsUnlessRemovedAgain(src: Source, i: nat, e: string)
    requires i + 1 < |src.flat| && Gone(src, e, i)
    ensures Gone(src, e, i + 1) <==> RemoveEvent(src.flat[i + 1].events, e).None?
  {}

  ghost predicate RemovedOnce(flat: seq<Segment>) {
    forall i, k, e :: 0 <= i < k < |flat| && RemoveEvent(flat[i].events, e).Some?
      ==> RemoveEvent(flat[k].events, e).None?
  }

  /** With one removal per entity the roster is exactly the entities removed in an earlier segment,
      each grounded by that segment, and it only grows. */
  lemma {:induction false} RosterWithSingleRemovals(src: Source, i: nat, e: string)
    requires src.Valid() && MemoryRules(src) && RemovedOnce(src.flat) && i < |src.flat|
    ensures Gone(src, e, i) <==> exists k :: 0 <= k < i && RemoveEvent(src.flat[k].events, e).Some?
    ensures Gone(src, e, i) ==> exists k :: 0 <= k < i && RemoveEvent(src.flat[k].events, e).Some?
                                            && LatestRemoval(src.flat, e, i + 1).value.idx == k
    ensures Gone(src, e, i) && i + 1 < |src.flat| ==> Gone(src, e, i + 1)
  {
    if k :| 0 <= k < i && RemoveEvent(src.flat[k].events, e).Some? {
      assert SegmentRules(src, src.flat[k]);
      assert e in RemovedHere(src.flat[k].events);
      assert RemovalRule(src, src.flat[k], e);
      var r := LatestRemoval(src.flat, e, i + 1).value.idx;
      assert RemoveEvent(src.flat[r].events, e).Some?;
    }
  }
}
