/** The probes and the forbidden roster of a compiled segment in the author's terms. */
module Rosters {
  import opened Basics
  import opened Decimal
  import opened Timeline
  import opened TimelineLaws
  import opened Meaning

  // ----- who is gone -----

  /** Segment `k` removes `e`, and no later one up to `i`, which lies after it, does so again. */
  ghost predicate GoneSince(src: Source, e: string, i: nat, k: nat)
    requires i < |src.flat|
  {
    && e in src.entities && k < i && (exists m: nat :: RemovesAt(src.flat[k].events, e, m))
    && (forall l: nat, m: nat :: k < l <= i ==> !RemovesAt(src.flat[l].events, e, m))
  }

  ghost predicate NamedAt(action: string, name: string, x: nat) {
    x + |name| <= |action| && action[x..x + |name|] == name
  }

  /** The action names the entity. */
  ghost predicate NamedIn(src: Source, e: string, action: string) {
    e in src.entities && var name := src.entities[e].name;
    name != "" && exists x: nat :: NamedAt(action, name, x)
  }

  /** A roster entry for a removal: the reason is that of the segment's last removal of the entity. */
  ghost predicate StandsForRemoval(src: Source, i: nat, f: Forbidden, k: nat, m: nat)
    requires i < |src.flat|
  {
    && GoneSince(src, f.eid, i, k) && LastRemovalAt(src.flat[k].events, f.eid, m)
    && f.reason == src.flat[k].events[m].reason && f.groundedBy == SegId(k)
    && (f.indirect <==> NamedIn(src, f.eid, src.flat[i].action))
  }

  lemma NoRemoval(events: seq<Event>, e: string)
    ensures RemoveEvent(events, e).None? <==> forall m: nat :: !RemovesAt(events, e, m)
  {
    RemoveEventIs(events, e);
  }

  lemma {:induction false} LatestReason(flat: seq<Segment>, e: string, n: nat)
    requires n <= |flat|
    ensures LatestRemoval(flat, e, n).Some? ==>
              var r := LatestRemoval(flat, e, n).value;
              RemoveEvent(flat[r.idx].events, e).Some? && r.reason == RemoveEvent(flat[r.idx].events, e).value.reason
  {
    hide RemoveEvent;
    if n > 0 { LatestReason(flat, e, n - 1); }
  }

  lemma GoneIs(src: Source, e: string, i: nat)
    requires i < |src.flat|
    ensures Gone(src, e, i) <==> exists k: nat :: GoneSince(src, e, i, k)
    ensures forall k: nat :: GoneSince(src, e, i, k) ==>
              Gone(src, e, i) && LatestRemoval(src.flat, e, i + 1).value.idx == k
  {
    hide RemoveEvent, RemovesAt, LatestRemoval;
    forall l: nat | l <= i ensures RemoveEvent(src.flat[l].events, e).None? <==>
                                   forall m: nat :: !RemovesAt(src.flat[l].events, e, m) {
      NoRemoval(src.flat[l].events, e);
    }
    var r := LatestRemoval(src.flat, e, i + 1);
    if Gone(src, e, i) { assert GoneSince(src, e, i, r.value.idx); }
    forall k: nat | GoneSince(src, e, i, k) ensures Gone(src, e, i) && r.value.idx == k {
      assert RemoveEvent(src.flat[k].events, e).Some?;
      assert r.Some? && r.value.idx >= k;
      assert RemoveEvent(src.flat[r.value.idx].events, e).Some?;
    }
  }

  lemma MentionsIs(src: Source, e: string, action: string)
    requires e in src.entities
    ensures Mentions(src, e, action) <==> NamedIn(src, e, action)
  {
    var name := src.entities[e].name;
    if Mentions(src, e, action) {
      var x :| 0 <= x <= |action| && OccursAt(action, name, x);
      assert NamedAt(action, name, x);
    }
    if NamedIn(src, e, action) {
      var x: nat :| NamedAt(action, name, x);
      assert OccursAt(action, name, x);
    }
  }

  lemma LastOfSegment(events: seq<Event>, e: string)
    requires RemoveEvent(events, e).Some?
    ensures exists m: nat :: LastRemovalAt(events, e, m) && m < |events| && events[m] == RemoveEvent(events, e).value
    ensures forall m: nat :: LastRemovalAt(events, e, m) ==>
              m < |events| && events[m] == RemoveEvent(events, e).value
  {
    RemoveEventIs(events, e);
    var n: nat :| LastRemovalAt(events, e, n) && events[n] == RemoveEvent(events, e).value;
    forall m: nat | LastRemovalAt(events, e, m) ensures m == n { OneLast(events, e, m, n); }
  }

  lemma EntryStandsFor(src: Source, i: nat, f: Forbidden)
    requires i < |src.flat|
    ensures RemovalEntry(src, i, f) <==> exists k: nat, m: nat :: StandsForRemoval(src, i, f, k, m)
  {
    hide RemoveEvent, RemovesAt, LatestRemoval, LastRemovalAt, SegId, Gone, GoneSince, Mentions, NamedIn;
    GoneIs(src, f.eid, i);
    if Gone(src, f.eid, i) {
      assert f.eid in src.entities && LatestRemoval(src.flat, f.eid, i + 1).Some? by { GoneParts(src, f.eid, i); }
      MentionsIs(src, f.eid, src.flat[i].action);
      LatestReason(src.flat, f.eid, i + 1);
      var idx := LatestRemoval(src.flat, f.eid, i + 1).value.idx;
      LastOfSegment(src.flat[idx].events, f.eid);
      if RemovalEntry(src, i, f) {
        var m: nat :| LastRemovalAt(src.flat[idx].events, f.eid, m) && m < |src.flat[idx].events|
                      && src.flat[idx].events[m] == RemoveEvent(src.flat[idx].events, f.eid).value;
        assert StandsForRemoval(src, i, f, idx, m);
      }
    }
  }

  lemma GoneParts(src: Source, e: string, i: nat)
    requires i < |src.flat| && Gone(src, e, i)
    ensures e in src.entities && LatestRemoval(src.flat, e, i + 1).Some?
  {}

  // ----- the order of the roster -----

  /** Among the first `n` segments some removal of `x` comes before every removal of `y`. */
  ghost predicate RemovedEarlier(flat: seq<Segment>, n: nat, x: string, y: string)
    requires n <= |flat|
  {
    exists k: nat, m: nat :: k < n && RemovesAt(flat[k].events, x, m)
      && forall h: nat, l: nat :: h < n && RemovesAt(flat[h].events, y, l) ==> Before(k, m, h, l)
  }

  lemma {:induction false} RemovedHereInOrder(events: seq<Event>, a: nat, b: nat) returns (m: nat)
    requires a < b < |RemovedHere(events)|
    ensures RemovesAt(events, RemovedHere(events)[a], m)
    ensures forall l: nat :: RemovesAt(events, RemovedHere(events)[b], l) ==> m < l
  {
    var n := |events| - 1;
    var before, ev := events[..n], events[n];
    assert forall k: nat :: k < n ==> before[k] == events[k];
    var was, now := RemovedHere(before), RemovedHere(events);
    assert forall e, l: nat :: l < n ==> (RemovesAt(events, e, l) <==> RemovesAt(before, e, l));
    if b < |was| {
      m := RemovedHereInOrder(before, a, b);
    } else {
      assert was[a] in was;
      NoRemoval(before, was[a]);
      m :| RemovesAt(before, was[a], m);
      NoRemoval(before, ev.eid);
    }
  }

  ghost predicate InTurn(more: seq<string>, x: string, y: string, u: nat, v: nat) {
    u < v < |more| && more[u] == x && more[v] == y
  }

  ghost predicate Ordered(more: seq<string>, x: string, y: string) { exists u: nat, v: nat :: InTurn(more, x, y, u, v) }

  /** From `from` on, `r` lists elements of `more` in the order they have there. */
  ghost predicate InOrderFrom(r: seq<string>, from: nat, more: seq<string>) {
    forall a, b :: from <= a < b < |r| ==> Ordered(more, r[a], r[b])
  }

  lemma {:induction false} RegisteredInOrder(src: Source, s: seq<string>, more: seq<string>)
    requires Distinct(s) && Distinct(more)
    ensures s <= AppendRegistered(src, s, more) && InOrderFrom(AppendRegistered(src, s, more), |s|, more)
  {
    hide InOrderFrom, Distinct;
    if more == [] {
      NothingToOrder(s);
    } else {
      var n := |more| - 1;
      var before, e := more[..n], more[n];
      DistinctPrefix(more, n);
      RegisteredInOrder(src, s, before);
      var was := AppendRegistered(src, s, before);
      OrderGoesOn(was, |s|, more, n);
      if e in src.entities && e !in was { OrderGoesOnWith(s, was, more, n); }
    }
  }

  lemma NothingToOrder(s: seq<string>)
    ensures InOrderFrom(s, |s|, [])
  {}

  lemma DistinctPrefix(s: seq<string>, n: nat)
    requires Distinct(s) && n <= |s|
    ensures Distinct(s[..n])
  {}

  lemma OrderGoesOn(r: seq<string>, from: nat, more: seq<string>, n: nat)
    requires n < |more| && InOrderFrom(r, from, more[..n])
    ensures InOrderFrom(r, from, more)
  {
    forall a, b | from <= a < b < |r| ensures Ordered(more, r[a], r[b]) {
      assert Ordered(more[..n], r[a], r[b]);
      var u: nat, v: nat :| InTurn(more[..n], r[a], r[b], u, v);
      assert InTurn(more, r[a], r[b], u, v);
    }
  }

  lemma OrderGoesOnWith(s: seq<string>, was: seq<string>, more: seq<string>, n: nat)
    requires n < |more| && s <= was && Distinct(was) && InOrderFrom(was, |s|, more)
    requires forall x :: x in was ==> x in s || x in more[..n]
    ensures InOrderFrom(was + [more[n]], |s|, more)
  {
    var r := was + [more[n]];
    forall a, b | |s| <= a < b < |r| ensures Ordered(more, r[a], r[b]) {
      if b == |was| {
        assert was[a] in was;
        DistinctPast(s, was, a);
        var u :| 0 <= u < n && more[..n][u] == was[a];
        assert InTurn(more, r[a], r[b], u, n);
      } else {
        assert r[a] == was[a] && r[b] == was[b] && Ordered(more, was[a], was[b]);
      }
    }
  }

  lemma DistinctPast(s: seq<string>, r: seq<string>, a: nat)
    requires Distinct(r) && s <= r && |s| <= a < |r|
    ensures r[a] !in s
  {}

  lemma {:induction false} OrderedByRemoval(src: Source, n: nat, a: nat, b: nat)
    requires n <= |src.flat| && a < b < |RemovalOrder(src, n)|
    ensures RemovedEarlier(src.flat, n, RemovalOrder(src, n)[a], RemovalOrder(src, n)[b])
  {
    hide AppendRegistered, RemovedHere, RemovesAt, LatestRemoval, RemovedEarlier;
    if n > 0 {
      var was, here := RemovalOrder(src, n - 1), RemovedHere(src.flat[n - 1].events);
      var now := RemovalOrder(src, n);
      assert now == AppendRegistered(src, was, here);
      RegisteredInOrder(src, was, here);
      var x, y := now[a], now[b];
      if b < |was| {
        OrderedByRemoval(src, n - 1, a, b);
        StillEarlier(src.flat, n - 1, x, y);
      } else {
        assert y in now;
        NotYetRemoved(src, n - 1, y, was, now, b);
        if a < |was| {
          assert was[a] in was;
          SomeRemoval(src, n - 1, x);
          EarlierSegment(src.flat, n - 1, x, y);
        } else {
          var u, v := InOrderAt(now, |was|, here, a, b);
          var m := RemovedHereInOrder(src.flat[n - 1].events, u, v);
          SameSegment(src.flat, n - 1, x, y, m);
        }
      }
    }
  }

  lemma InOrderAt(r: seq<string>, from: nat, more: seq<string>, a: nat, b: nat) returns (u: nat, v: nat)
    requires InOrderFrom(r, from, more) && from <= a < b < |r|
    ensures u < v < |more| && more[u] == r[a] && more[v] == r[b]
  {
    assert Ordered(more, r[a], r[b]);
    u, v :| InTurn(more, r[a], r[b], u, v);
  }

  lemma StillEarlier(flat: seq<Segment>, n: nat, x: string, y: string)
    requires n < |flat| && RemovedEarlier(flat, n, x, y)
    ensures RemovedEarlier(flat, n + 1, x, y)
  {
    hide RemovesAt;
    var k: nat, m: nat :| k < n && RemovesAt(flat[k].events, x, m)
      && forall h: nat, l: nat :: h < n && RemovesAt(flat[h].events, y, l) ==> Before(k, m, h, l);
    assert k < n + 1 && RemovesAt(flat[k].events, x, m);
  }

  lemma EarlierSegment(flat: seq<Segment>, n: nat, x: string, y: string)
    requires n < |flat| && exists k: nat, m: nat :: k < n && RemovesAt(flat[k].events, x, m)
    requires forall h: nat, l: nat :: h < n ==> !RemovesAt(flat[h].events, y, l)
    ensures RemovedEarlier(flat, n + 1, x, y)
  {
    hide RemovesAt;
  }

  lemma SameSegment(flat: seq<Segment>, n: nat, x: string, y: string, m: nat)
    requires n < |flat| && RemovesAt(flat[n].events, x, m)
    requires forall l: nat :: RemovesAt(flat[n].events, y, l) ==> m < l
    requires forall h: nat, l: nat :: h < n ==> !RemovesAt(flat[h].events, y, l)
    ensures RemovedEarlier(flat, n + 1, x, y)
  {
    hide RemovesAt;
  }

  lemma SomeRemoval(src: Source, n: nat, e: string)
    requires n <= |src.flat| && LatestRemoval(src.flat, e, n).Some?
    ensures exists k: nat, m: nat :: k < n && RemovesAt(src.flat[k].events, e, m)
  {
    var k := LatestRemoval(src.flat, e, n).value.idx;
    NoRemoval(src.flat[k].events, e);
  }

  lemma NotYetRemoved(src: Source, n: nat, e: string, was: seq<string>, now: seq<string>, b: nat)
    requires n <= |src.flat| && was == RemovalOrder(src, n) && was <= now && Distinct(now)
    requires |was| <= b < |now| && now[b] == e && e in src.entities
    ensures forall h: nat, l: nat :: h < n ==> !RemovesAt(src.flat[h].events, e, l)
  {
    hide RemovalOrder, RemovesAt;
    DistinctPast(was, now, b);
    forall h: nat, l: nat | h < n ensures !RemovesAt(src.flat[h].events, e, l) { NoRemoval(src.flat[h].events, e); }
  }

  lemma {:induction false} RosterKeepsOrder(src: Source, i: nat, order: seq<string>, a: nat, b: nat)
    returns (u: nat, v: nat)
    requires i < |src.flat| && a < b < |RemovedRoster(src, i, order)|
    ensures u < v < |order| && order[u] == RemovedRoster(src, i, order)[a].eid
    ensures order[v] == RemovedRoster(src, i, order)[b].eid
  {
    hide LatestRemoval, Mentions, SegId;
    var n := |order| - 1;
    var was := RemovedRoster(src, i, order[..n]);
    if b < |was| {
      u, v := RosterKeepsOrder(src, i, order[..n], a, b);
    } else {
      v := n;
      u := RosterEntryFrom(src, i, order[..n], a);
    }
  }

  lemma {:induction false} RosterEntryFrom(src: Source, i: nat, order: seq<string>, a: nat) returns (u: nat)
    requires i < |src.flat| && a < |RemovedRoster(src, i, order)|
    ensures u < |order| && order[u] == RemovedRoster(src, i, order)[a].eid
  {
    hide LatestRemoval, Mentions, SegId;
    var n := |order| - 1;
    if a < |RemovedRoster(src, i, order[..n])| { u := RosterEntryFrom(src, i, order[..n], a); } else { u := n; }
  }

  /** The removal part of the roster: one entry for each entity gone, in the order in which they were first removed. */
  ghost predicate RosterMeans(src: Source, i: nat, roster: seq<Forbidden>)
    requires i < |src.flat|
  {
    && (forall f :: f in roster <==> exists k: nat, m: nat :: StandsForRemoval(src, i, f, k, m))
    && (forall a, b :: 0 <= a < b < |roster| ==>
          roster[a].eid != roster[b].eid && RemovedEarlier(src.flat, i + 1, roster[a].eid, roster[b].eid))
  }

  lemma {:induction false} RosterIs(src: Source, i: nat)
    requires i < |src.flat|
    ensures RosterMeans(src, i, Roster(src, i))
  {
    hide RemovedRoster, RemovalOrder, RemovalEntry, StandsForRemoval, RemovedEarlier;
    RosterIsTheGone(src, i);
    var roster, order := Roster(src, i), RemovalOrder(src, i + 1);
    forall f ensures f in roster <==> exists k: nat, m: nat :: StandsForRemoval(src, i, f, k, m) {
      EntryStandsFor(src, i, f);
    }
    forall a, b | 0 <= a < b < |roster| ensures RemovedEarlier(src.flat, i + 1, roster[a].eid, roster[b].eid) {
      var u, v := RosterKeepsOrder(src, i, order, a, b);
      OrderedByRemoval(src, i + 1, u, v);
    }
  }

  // ----- absent twins -----

  ghost function Unlisted(lp: Lookalike): nat -> bool { (p: nat) => p < |lp.pair| && lp.pair[p] !in lp.members }

  /** The twins among the first `n` of the pair that are not listed as shown, in the order of the pair. */
  ghost predicate TwinsMean(lp: Lookalike, n: nat, twins: seq<Forbidden>, places: seq<nat>) {
    && |places| == |twins| && PlacesOf(places, n, Unlisted(lp))
    && forall k :: 0 <= k < |twins| ==>
         places[k] < |lp.pair|
         && twins[k] == Forbidden(lp.pair[places[k]], "lookalike_absent", "lookalike:" + Join(lp.pair), false)
  }

  lemma {:induction false} TwinsAre(lp: Lookalike, n: nat) returns (places: seq<nat>)
    requires n <= |lp.pair|
    ensures TwinsMean(lp, n, AbsentTwins(lp.pair[..n], lp.pair, lp.members), places)
  {
    hide Join, PlacesOf;
    if n == 0 {
      places := [];
      NoPlaces(Unlisted(lp));
    } else {
      assert lp.pair[..n][..n - 1] == lp.pair[..n - 1];
      places := TwinsAre(lp, n - 1);
      PlacesStep(places, n - 1, Unlisted(lp));
      if lp.pair[n - 1] !in lp.members { places := places + [n - 1]; }
    }
  }

  /** The pair of two is named with a slash between them. */
  lemma PairIsNamed(a: string, b: string)
    ensures Join([a, b]) == a + "/" + b
  {
    assert [a, b][..1] == [a];
  }

  // ----- probes -----

  /** A probe about the cast is set exactly when some label calls for it. */
  ghost predicate CastProbesMean(src: Source, cast: seq<Entry>, probes: set<Probe>) {
    && (StateChangeProbe in probes <==> exists c :: c in cast && c.op.Transform?)
    && (FirstAppearance in probes <==> exists c :: c in cast && c.op.Introduce?)
    && (PersistState in probes <==> exists c :: c in cast && c.op.Persist?)
    && (Continuity in probes <==> exists c :: c in cast && c.op.Recall?)
    && (LongGap in probes <==> exists c :: c in cast && c.gap.Some? && c.gap.value >= src.gapLong)
    && (FalseFriend in probes <==> exists c :: c in cast && c.op.Introduce? && c.confusableWith.Some?)
    && (CountMemory in probes <==> exists c :: c in cast && !c.op.Introduce? && !c.op.Transform? && c.count.Some?)
    && (TemporalReference in probes <==> exists c :: c in cast && c.anchor.Some? && c.anchor.value.kind == "temporal")
    && (forall p :: p in probes ==> p in {StateChangeProbe, FirstAppearance, PersistState, Continuity, LongGap,
                                          FalseFriend, CountMemory, TemporalReference})
  }

  lemma {:induction false} ProbesOfCast(src: Source, cast: seq<Entry>, p: Probe)
    ensures p in CastProbes(src, cast) <==> exists c :: c in cast && p in EntryProbes(src, c)
  {
    hide EntryProbes;
    if cast != [] {
      var before, last := cast[..|cast| - 1], cast[|cast| - 1];
      assert cast == before + [last];
      assert forall c :: c in cast <==> c in before || c == last;
      ProbesOfCast(src, before, p);
    }
  }

  lemma EntryProbesAre(src: Source, c: Entry)
    ensures StateChangeProbe in EntryProbes(src, c) <==> c.op.Transform?
    ensures FirstAppearance in EntryProbes(src, c) <==> c.op.Introduce?
    ensures PersistState in EntryProbes(src, c) <==> c.op.Persist?
    ensures Continuity in EntryProbes(src, c) <==> c.op.Recall?
    ensures LongGap in EntryProbes(src, c) <==> c.gap.Some? && c.gap.value >= src.gapLong
    ensures FalseFriend in EntryProbes(src, c) <==> c.op.Introduce? && c.confusableWith.Some?
    ensures CountMemory in EntryProbes(src, c) <==> !c.op.Introduce? && !c.op.Transform? && c.count.Some?
    ensures TemporalReference in EntryProbes(src, c) <==> c.anchor.Some? && c.anchor.value.kind == "temporal"
    ensures forall p :: p in EntryProbes(src, c) ==>
              p in {StateChangeProbe, FirstAppearance, PersistState, Continuity, LongGap, FalseFriend, CountMemory,
                    TemporalReference}
  {}

  lemma CastProbesAre(src: Source, cast: seq<Entry>)
    ensures CastProbesMean(src, cast, CastProbes(src, cast))
  {
    hide EntryProbes, CastProbes;
    forall p ensures p in CastProbes(src, cast) <==> exists c :: c in cast && p in EntryProbes(src, c) {
      ProbesOfCast(src, cast, p);
    }
    forall c ensures StateChangeProbe in EntryProbes(src, c) <==> c.op.Transform?
             ensures FirstAppearance in EntryProbes(src, c) <==> c.op.Introduce?
             ensures PersistState in EntryProbes(src, c) <==> c.op.Persist?
             ensures Continuity in EntryProbes(src, c) <==> c.op.Recall?
             ensures LongGap in EntryProbes(src, c) <==> c.gap.Some? && c.gap.value >= src.gapLong
             ensures FalseFriend in EntryProbes(src, c) <==> c.op.Introduce? && c.confusableWith.Some?
             ensures CountMemory in EntryProbes(src, c) <==> !c.op.Introduce? && !c.op.Transform? && c.count.Some?
             ensures TemporalReference in EntryProbes(src, c) <==> c.anchor.Some? && c.anchor.value.kind == "temporal"
             ensures forall p :: p in EntryProbes(src, c) ==>
                       p in {StateChangeProbe, FirstAppearance, PersistState, Continuity, LongGap, FalseFriend,
                             CountMemory, TemporalReference} {
      EntryProbesAre(src, c);
    }
  }

  /** A probe about the removed: somebody gone is named, or was removed only a few segments ago. */
  ghost predicate RemovalProbesMean(src: Source, i: nat, probes: set<Probe>)
    requires i < |src.flat|
  {
    && (ReferenceIndirect in probes <==>
          exists e, k: nat :: GoneSince(src, e, i, k) && NamedIn(src, e, src.flat[i].action))
    && (DeprecationAvoidance in probes <==>
          exists e, k: nat :: GoneSince(src, e, i, k)
                              && (NamedIn(src, e, src.flat[i].action) || i - k <= src.avoidWindow))
    && probes <= {ReferenceIndirect, DeprecationAvoidance}
  }

  lemma {:induction false} ProbesOfRoster(src: Source, i: nat, order: seq<string>)
    requires i < |src.flat| && forall e :: e in order ==> e in src.entities
    ensures var probes := RemovedProbes(src, i, order);
            && (ReferenceIndirect in probes <==>
                  exists e :: e in order && Gone(src, e, i) && Mentions(src, e, src.flat[i].action))
            && (DeprecationAvoidance in probes <==>
                  exists e :: e in order && Gone(src, e, i)
                              && (Mentions(src, e, src.flat[i].action)
                                  || i - LatestRemoval(src.flat, e, i + 1).value.idx <= src.avoidWindow))
            && probes <= {ReferenceIndirect, DeprecationAvoidance}
  {
    hide Mentions, LatestRemoval;
    if order != [] {
      var before, last := order[..|order| - 1], order[|order| - 1];
      assert order == before + [last];
      assert forall e :: e in order <==> e in before || e == last;
      ProbesOfRoster(src, i, before);
    }
  }

  lemma {:induction false} RemovalProbesAre(src: Source, i: nat)
    requires i < |src.flat|
    ensures RemovalProbesMean(src, i, RemovedProbes(src, i, RemovalOrder(src, i + 1)))
  {
    hide RemovedProbes, RemovalOrder, Mentions, NamedIn, LatestRemoval, GoneSince;
    var order := RemovalOrder(src, i + 1);
    ProbesOfRoster(src, i, order);
    forall e | e in src.entities
      ensures Gone(src, e, i) <==> exists k: nat :: GoneSince(src, e, i, k)
      ensures forall k: nat :: GoneSince(src, e, i, k) ==>
                Gone(src, e, i) && LatestRemoval(src.flat, e, i + 1).value.idx == k
      ensures Mentions(src, e, src.flat[i].action) <==> NamedIn(src, e, src.flat[i].action)
    {
      GoneIs(src, e, i);
      MentionsIs(src, e, src.flat[i].action);
    }
    forall e, k: nat | GoneSince(src, e, i, k) ensures e in src.entities { GoneRegistered(src, e, i, k); }
  }

  lemma GoneRegistered(src: Source, e: string, i: nat, k: nat)
    requires i < |src.flat| && GoneSince(src, e, i, k)
    ensures e in src.entities
  {}

  // ----- the whole segment -----

  /** What the compiler writes for a segment: its own id, scene, cut and action, the probes that its cast, its gone
      and its look-alikes call for, the roster of the gone followed by the absent twins, and the pair with the
      features declared for it. */
  ghost predicate SegmentMeans(src: Source, i: nat, seg: GoldSegment)
    requires i < |src.flat|
  {
    var s := src.flat[i];
    && seg.id == SegId(i) && seg.sceneId == s.sceneId && seg.cut == s.cut && seg.action == s.action
    && (exists cast, removed: set<Probe> ::
          CastProbesMean(src, seg.cast, cast) && RemovalProbesMean(src, i, removed)
          && seg.probes == cast + removed + (if s.lookalike.Some? then {LookalikeDisambiguation} else {}))
    && (exists roster, twins: seq<Forbidden> ::
          seg.forbidden == roster + twins && RosterMeans(src, i, roster)
          && (s.lookalike.None? ==> twins == [])
          && (s.lookalike.Some? ==> exists places :: TwinsMean(s.lookalike.value, |s.lookalike.value.pair|, twins, places)))
    && (s.lookalike.None? ==> seg.twins == None)
    && (s.lookalike.Some? && s.lookalike.value.pair in src.pairs ==>
          var lp := s.lookalike.value; seg.twins == Some(Twins(lp.pair, src.pairs[lp.pair], lp.members)))
  }

  lemma {:induction false} SegmentIs(src: Source, i: nat)
    requires src.Valid() && i < |src.flat|
    ensures SegmentMeans(src, i, SegmentOf(src, i))
  {
    hide CastOf, CastProbes, RemovedProbes, RemovalOrder, RemovedRoster, AbsentTwins, SegId;
    hide CastProbesMean, RemovalProbesMean, RosterMeans, TwinsMean;
    CastProbesAre(src, CastOf(src, i));
    RemovalProbesAre(src, i);
    RosterIs(src, i);
    if src.flat[i].lookalike.Some? {
      var lp := src.flat[i].lookalike.value;
      var places := TwinsAre(lp, |lp.pair|);
      assert lp.pair[..|lp.pair|] == lp.pair;
      assert SegmentOf(src, i).forbidden == Roster(src, i) + AbsentTwins(lp.pair, lp.pair, lp.members);
    } else {
      assert SegmentOf(src, i).forbidden == Roster(src, i) + [];
    }
  }

  /** The registry: as authored, save that a stateful entity has no look of its own and names its first one. */
  lemma EntitiesAre(src: Source, e: string)
    requires src.Valid()
    ensures var gold := GoldOf(src).entities;
            && (e in gold <==> e in src.entities)
            && (e in src.entities ==>
                  var was, now := src.entities[e], gold[e];
                  && now.name == was.name && now.kind == was.kind && now.states == was.states
                  && (was.states == map[] ==> now == was)
                  && (was.states != map[] ==>
                        now.appearance == ""
                        && (forall name :: StartsAs(src, e, name) ==> now.initialState == name)
                        && ((forall name :: !StartsAs(src, e, name)) ==> now.initialState == "")))
  {
    hide GoldUpTo;
    if e in src.entities && InitialState(src, e).Some? { InitialStateIs(src, e, InitialState(src, e).value); }
  }
}
