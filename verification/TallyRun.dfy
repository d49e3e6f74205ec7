/** The counting itself: `_tally` as the source runs it, and the pooling of segments that finish in any
    order. */
module TallyRun {
  import opened Basics
  import opened Timeline
  import opened Scorer
  import opened Tallies

  /** `acc[key] += 1`. */
  function Bump(a: Acc, k: Key): Acc { a + One(k) }

  method BumpPair(a: Acc, tot: Key, hit: bool, won: Key) returns (a': Acc)
    ensures a' == a + (One(tot) + OneIf(hit, won))
  {
    a' := Bump(a, tot);
    if hit { a' := Bump(a', won); }
  }

  method CountRecall(a: Acc, c: Entry, kind: string, hit: bool) returns (a': Acc)
    ensures a' == a + (RecallMarks(kind, hit) + OpMarks(c, kind, hit) + GapMarks(c, kind, hit))
  {
    hide One, OneIf, GapBucket;
    a' := BumpPair(a, RecallTot(kind), hit, RecallHit(kind));
    if kind in {"character", "prop"} {
      if c.op.Introduce? {
        a' := BumpPair(a', FirstTot, hit, FirstHit);
      } else if c.op.Recall? && (c.gap.None? || c.gap.value < 30) {
        a' := BumpPair(a', ContinuityTot, hit, ContinuityHit);
      }
      if c.gap.Some? {
        if c.gap.value >= 30 { a' := BumpPair(a', LongTot, hit, LongHit); }
        a' := BumpPair(a', GapTot(GapBucket(c.gap.value)), hit, GapHit(GapBucket(c.gap.value)));
      }
    }
  }

  method CountState(a: Acc, c: Entry, hit: bool, state: Option<string>) returns (a': Acc)
    ensures a' == a + StateMarks(c, hit, state)
  {
    a' := a;
    if c.state.Some? && !c.state.value.flashback {
      if hit {
        if c.op.Transform? { a' := BumpPair(a', ChangeTot, state == Some("changed"), ChangeOk); }
        else { a' := BumpPair(a', PersistTot, state == Some("changed"), PersistOk); }
      } else {
        a' := Bump(a', if c.op.Transform? then ChangeMissed else PersistMissed);
      }
    }
  }

  method CountQuantity(a: Acc, c: Entry, hit: bool, got: Option<int>) returns (a': Acc)
    ensures a' == a + CountMarks(c, hit, got)
  {
    a' := a;
    if c.count.Some? && hit {
      a' := Bump(a', CountTot);
      if got == c.count {
        a' := Bump(a', CountExact);
      } else if got.Some? && (got.value - c.count.value == 1 || c.count.value - got.value == 1) {
        a' := Bump(a', CountNear);
      }
    }
  }

  method CountEntry(a: Acc, c: Entry, kind: string, hit: bool, vote: Vote) returns (a': Acc)
    ensures a' == a + EntryMarks(c, kind, hit, vote)
  {
    hide RecallMarks, OpMarks, GapMarks, StateMarks, CountMarks;
    a' := CountRecall(a, c, kind, hit);
    a' := CountState(a', c, hit, vote.state);
    a' := CountQuantity(a', c, hit, vote.count);
    if c.anchor.Some? && c.anchor.value.kind == "temporal" {
      a' := BumpPair(a', TemporalTot, hit, TemporalHit);
    }
  }

  method CountForbidden(a: Acc, f: Forbidden, seen: bool) returns (a': Acc)
    ensures a' == a + AvoidMarks(f, seen)
  {
    hide One, OneIf;
    a' := BumpPair(a, AvoidOpp, seen, AvoidViol);
    if f.reason == "lookalike_absent" {
      a' := BumpPair(a', AbsentOpp, seen, AbsentViol);
    } else {
      a' := BumpPair(a', DeprecatedOpp, seen, DeprecatedViol);
      if f.indirect { a' := BumpPair(a', IndirectOpp, seen, IndirectViol); }
    }
  }

  method CountTwin(a: Acc, e: string, pair: seq<string>, seen: bool, instance: Option<string>) returns (a': Acc)
    ensures a' == a + TwinMarks(e, pair, seen, instance)
  {
    a' := a;
    if seen {
      a' := Bump(a', TwinTot);
      if instance == Some(e) {
        a' := Bump(a', TwinRight);
      } else if instance.Some? && instance.value in pair {
        a' := Bump(a', TwinWrong);
      }
    }
  }

  method CountFriend(a: Acc, seen: bool, targetPresent: bool, targetSeen: bool) returns (a': Acc)
    ensures a' == a + FriendMarks(seen, targetPresent, targetSeen)
  {
    hide One, OneIf;
    a' := BumpPair(a, FriendTot, seen, FriendRight);
    if !targetPresent { a' := BumpPair(a', ConfusionTot, targetSeen, Confused); }
  }

  method CountCast(b: Ballot, a: Acc) returns (a': Acc)
    requires b.Valid()
    ensures a' == a + CastMarks(b, b.prep.cast)
  {
    hide EntryMarks;
    var cast := b.prep.cast;
    a' := a;
    for k := 0 to |cast|
      invariant a' == a + CastMarks(b, cast[..k])
    {
      assert cast[..k + 1][..k] == cast[..k];
      var e := cast[k].eid;
      a' := CountEntry(a', cast[k], b.Kind(e), e in b.Seen(), VoteFor(b, e));
    }
    assert cast[..|cast|] == cast;
  }

  method CountRoster(b: Ballot, a: Acc) returns (a': Acc)
    requires b.Valid()
    ensures a' == a + ForbiddenMarks(b, b.prep.forbiddenEntries)
  {
    hide AvoidMarks;
    var fs := b.prep.forbiddenEntries;
    a' := a;
    for k := 0 to |fs|
      invariant a' == a + ForbiddenMarks(b, fs[..k])
    {
      assert fs[..k + 1][..k] == fs[..k];
      a' := CountForbidden(a', fs[k], fs[k].eid in b.Seen());
    }
    assert fs[..|fs|] == fs;
  }

  method CountMembers(b: Ballot, a: Acc, pair: seq<string>, members: seq<string>) returns (a': Acc)
    requires b.Valid()
    ensures a' == a + MemberMarks(b, pair, members)
  {
    hide TwinMarks;
    a' := a;
    for k := 0 to |members|
      invariant a' == a + MemberMarks(b, pair, members[..k])
    {
      assert members[..k + 1][..k] == members[..k];
      a' := CountTwin(a', members[k], pair, members[k] in b.Seen(), VoteFor(b, members[k]).instance);
    }
    assert members[..|members|] == members;
  }

  method CountFriends(b: Ballot, a: Acc) returns (a': Acc)
    requires b.Valid()
    ensures a' == a + FriendsMarks(b, b.prep.ffs)
  {
    hide FriendMarks;
    var ffs := b.prep.ffs;
    a' := a;
    for k := 0 to |ffs|
      invariant a' == a + FriendsMarks(b, ffs[..k])
    {
      assert ffs[..k + 1][..k] == ffs[..k];
      var target := if ffs[k].confusableWith.Some? then ffs[k].confusableWith.value else "";
      a' := CountFriend(a', ffs[k].eid in b.Seen(), target in b.prep.present, target in b.Seen());
    }
    assert ffs[..|ffs|] == ffs;
  }

  method Tally(b: Ballot) returns (a: Acc)
    requires b.Valid()
    ensures a == TallyOf(b)
  {
    hide CastMarks, ForbiddenMarks, MemberMarks, FriendsMarks, Many, SeenStory;
    a := CountCast(b, multiset{});
    var seen := SeenStory(b);
    a := a + (Many(|seen|, PrecTot) + Many(|seen * b.prep.present|, PrecHit));
    a := CountRoster(b, a);
    if b.prep.twins.Some? { a := CountMembers(b, a, b.prep.twins.value.pair, b.prep.twins.value.members); }
    a := CountFriends(b, a);
    a := a + (Many(|b.prep.decoys|, DecoyTot) + Many(|b.prep.decoys * b.Seen()|, DecoySeen)
              + Many(|b.prep.roster|, RosterTot));
  }

  // ----- pooling -----

  /** Segments that were scored, in story order. */
  function Pool(ids: seq<string>, scored: map<string, Acc>): Acc {
    if ids == [] then multiset{}
    else
      var id := ids[|ids| - 1];
      Pool(ids[..|ids| - 1], scored) + (if id in scored then scored[id] else multiset{})
  }

  /** The scores as they arrive from the workers; a segment without a video brings none. */
  method PoolArrivals(ids: seq<string>, arrivals: seq<(string, Option<Acc>)>) returns (pooled: Acc)
    requires forall i, j :: 0 <= i < j < |arrivals| ==> arrivals[i].0 != arrivals[j].0
    ensures pooled == Pool(ids, Scored(arrivals))
  {
    var scored: map<string, Acc> := map[];
    for k := 0 to |arrivals|
      invariant scored == Scored(arrivals[..k])
    {
      assert arrivals[..k + 1][..k] == arrivals[..k];
      if arrivals[k].1.Some? { scored := scored[arrivals[k].0 := arrivals[k].1.value]; }
    }
    assert arrivals[..|arrivals|] == arrivals;
    pooled := multiset{};
    for k := 0 to |ids|
      invariant pooled == Pool(ids[..k], scored)
    {
      assert ids[..k + 1][..k] == ids[..k];
      if ids[k] in scored { pooled := pooled + scored[ids[k]]; }
    }
    assert ids[..|ids|] == ids;
  }

  function Scored(arrivals: seq<(string, Option<Acc>)>): map<string, Acc> {
    if arrivals == [] then map[]
    else
      var (id, acc) := arrivals[|arrivals| - 1];
      var before := Scored(arrivals[..|arrivals| - 1]);
      if acc.Some? then before[id := acc.value] else before
  }

  lemma {:induction false} ScoredHolds(arrivals: seq<(string, Option<Acc>)>)
    requires forall i, j :: 0 <= i < j < |arrivals| ==> arrivals[i].0 != arrivals[j].0
    ensures forall id, acc :: (id in Scored(arrivals) && Scored(arrivals)[id] == acc) <==> (id, Some(acc)) in arrivals
  {
    if arrivals != [] {
      var last, before := arrivals[|arrivals| - 1], arrivals[..|arrivals| - 1];
      assert arrivals == before + [last];
      ScoredHolds(before);
      assert forall x :: x in before ==> x.0 != last.0;
    }
  }

  /** The pooled counters do not depend on the order in which the segments finish. */
  lemma {:induction false} CompletionOrderIsIrrelevant(ids: seq<string>, one: seq<(string, Option<Acc>)>,
                                                       other: seq<(string, Option<Acc>)>)
    requires forall i, j :: 0 <= i < j < |one| ==> one[i].0 != one[j].0
    requires forall i, j :: 0 <= i < j < |other| ==> other[i].0 != other[j].0
    requires forall x :: x in one <==> x in other
    ensures Pool(ids, Scored(one)) == Pool(ids, Scored(other))
  {
    ScoredHolds(one);
    ScoredHolds(other);
    var s, t := Scored(one), Scored(other);
    forall id ensures id in s <==> id in t {
      if id in s { assert (id, Some(s[id])) in one; }
      if id in t { assert (id, Some(t[id])) in other; }
    }
    forall id | id in s ensures s[id] == t[id] {
      assert (id, Some(s[id])) in other;
    }
    assert s == t;
  }

  /** Sound segments pool to sound totals. */
  lemma {:induction false} PoolIsSound(ids: seq<string>, scored: map<string, Acc>)
    requires forall id :: id in scored ==> Sound(scored[id])
    ensures Sound(Pool(ids, scored))
  {
    NoneSound();
    hide Sound;
    if ids != [] {
      var id := ids[|ids| - 1];
      PoolIsSound(ids[..|ids| - 1], scored);
      SoundAdds(Pool(ids[..|ids| - 1], scored), if id in scored then scored[id] else multiset{});
    }
  }
}
