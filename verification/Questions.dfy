/** The questions put to the judge about each entity of the roster, and what hangs on their answers. */
module Questions {
  import opened Basics
  import opened Timeline
  import opened Scorer
  import opened Tallies
  import opened Judges

  /** Kind of an entity and which questions are put about it, besides its presence. */
  datatype Ask = Ask(kind: string, state: bool, instance: bool, count: bool)

  predicate AsksState(cast: seq<Entry>, e: string) { exists c :: c in cast && c.eid == e && Asked(c) }

  predicate AsksCount(cast: seq<Entry>, e: string) { exists c :: c in cast && c.eid == e && c.count.Some? }

  function Members(seg: GoldSegment): seq<string> { if seg.twins.Some? then seg.twins.value.members else [] }

  function AskOf(seg: GoldSegment, ents: map<string, Entity>, e: string): Ask {
    Ask(if e in ents then ents[e].kind else "prop", AsksState(seg.cast, e), e in Members(seg), AsksCount(seg.cast, e))
  }

  /** What is asked about an entity: its state if an entry of it transforms or persists with one, its count if an entry of
      it gives one, its features if it is one of the look-alikes; an entity that is not registered counts as a prop. */
  lemma {:induction false} AskTells(seg: GoldSegment, ents: map<string, Entity>, e: string)
    ensures var ask := AskOf(seg, ents, e);
            && (e in ents ==> ask.kind == ents[e].kind) && (e !in ents ==> ask.kind == "prop")
            && (ask.state <==> exists k :: 0 <= k < |seg.cast| && seg.cast[k].eid == e && seg.cast[k].state != None
                                           && (seg.cast[k].op == Transform || seg.cast[k].op == Persist))
            && (ask.count <==> exists k :: 0 <= k < |seg.cast| && seg.cast[k].eid == e && seg.cast[k].count != None)
            && (ask.instance <==> exists t :: seg.twins == Some(t) && e in t.members)
  {
    forall k | 0 <= k < |seg.cast| ensures seg.cast[k] in seg.cast {}
  }

  /** `meta`; `ids` is the roster in its shuffled order. */
  method Meta(seg: GoldSegment, ents: map<string, Entity>, ids: seq<string>) returns (meta: map<string, Ask>)
    ensures meta.Keys == set e | e in ids
    ensures forall e :: e in ids ==> meta[e] == AskOf(seg, ents, e)
  {
    var stateExpected, countExpected := Expectations(seg.cast);
    var members := Members(seg);
    meta := map[];
    for k := 0 to |ids|
      invariant meta.Keys == set e | e in ids[..k]
      invariant forall e :: e in meta ==> meta[e] == AskOf(seg, ents, e)
    {
      var e := ids[k];
      assert ids[..k + 1] == ids[..k] + [e];
      meta := meta[e := Ask(if e in ents then ents[e].kind else "prop", e in stateExpected, e in members,
                            e in countExpected)];
    }
    assert ids[..|ids|] == ids;
  }

  method Expectations(cast: seq<Entry>) returns (stateExpected: set<string>, countExpected: set<string>)
    ensures forall e :: e in stateExpected <==> AsksState(cast, e)
    ensures forall e :: e in countExpected <==> AsksCount(cast, e)
  {
    stateExpected, countExpected := {}, {};
    for k := 0 to |cast|
      invariant forall e :: e in stateExpected <==> AsksState(cast[..k], e)
      invariant forall e :: e in countExpected <==> AsksCount(cast[..k], e)
    {
      OneMore(cast, k);
      if Asked(cast[k]) { stateExpected := stateExpected + {cast[k].eid}; }
      if cast[k].count.Some? { countExpected := countExpected + {cast[k].eid}; }
    }
    assert cast[..|cast|] == cast;
  }

  lemma OneMore(cast: seq<Entry>, k: nat)
    requires k < |cast|
    ensures forall e :: AsksState(cast[..k + 1], e) <==> AsksState(cast[..k], e) || (cast[k].eid == e && Asked(cast[k]))
    ensures forall e ::
              AsksCount(cast[..k + 1], e) <==> AsksCount(cast[..k], e) || (cast[k].eid == e && cast[k].count.Some?)
  {
    hide Asked;
    var before, now := cast[..k], cast[..k + 1];
    assert now == before + [cast[k]];
    assert cast[k] in now && forall c :: c in now <==> c in before || c == cast[k];
    forall e ensures AsksState(now, e) <==> AsksState(before, e) || (cast[k].eid == e && Asked(cast[k])) {
      if c :| c in before && c.eid == e && Asked(c) { assert c in now; }
    }
    forall e ensures AsksCount(now, e) <==> AsksCount(before, e) || (cast[k].eid == e && cast[k].count.Some?) {
      if c :| c in before && c.eid == e && c.count.Some? { assert c in now; }
    }
  }

  /** State and count are asked of nobody but the entities shown. */
  lemma AskedAreShown(seg: GoldSegment, ents: map<string, Entity>, e: string)
    requires AskOf(seg, ents, e).state || AskOf(seg, ents, e).count
    ensures e in EidsOf(seg.cast)
  {}

  /** Two votes that agree on all the questions put. */
  predicate SameWhereAsked(q: Ask, a: Vote, b: Vote) {
    && a.present == b.present
    && (q.state ==> a.state == b.state)
    && (q.instance ==> a.instance == b.instance)
    && (q.count ==> a.count == b.count)
  }

  /** Two ballots on one segment whose votes agree so. */
  ghost predicate Alike(seg: GoldSegment, a: Ballot, b: Ballot) {
    && a.Valid() && b.Valid() && a.prep == b.prep && a.ents == b.ents
    && forall e :: e in a.prep.roster ==> SameWhereAsked(AskOf(seg, a.ents, e), a.voted[e], b.voted[e])
  }

  lemma SameSeen(seg: GoldSegment, a: Ballot, b: Ballot)
    requires Alike(seg, a, b)
    ensures a.Seen() == b.Seen()
  {
    hide AskOf;
  }

  lemma SameEntry(seg: GoldSegment, a: Ballot, b: Ballot, c: Entry)
    requires Alike(seg, a, b) && c in seg.cast && c.eid in a.prep.roster && (Changed(c) ==> Asked(c))
    ensures var kind, hit := a.Kind(c.eid), c.eid in a.Seen();
            EntryMarks(c, kind, hit, VoteFor(a, c.eid)) == EntryMarks(c, kind, hit, VoteFor(b, c.eid))
  {
    hide RecallMarks, OpMarks, GapMarks, TemporalMarks;
    assert Changed(c) ==> AskOf(seg, a.ents, c.eid).state;
    assert c.count.Some? ==> AskOf(seg, a.ents, c.eid).count;
    hide AskOf, Asked;
  }

  lemma {:induction false} SameCast(seg: GoldSegment, a: Ballot, b: Ballot, cast: seq<Entry>)
    requires Alike(seg, a, b)
    requires forall c :: c in cast ==> c in seg.cast && c.eid in a.prep.roster && (Changed(c) ==> Asked(c))
    ensures CastMarks(a, cast) == CastMarks(b, cast)
  {
    hide EntryMarks, Alike, Changed, Asked;
    assert a.Valid() && b.Valid() && a.prep == b.prep && a.ents == b.ents by { AlikeParts(seg, a, b); }
    if cast != [] {
      var c := cast[|cast| - 1];
      assert c in cast;
      SameCast(seg, a, b, cast[..|cast| - 1]);
      SameSeen(seg, a, b);
      SameEntry(seg, a, b, c);
    }
  }

  lemma AlikeParts(seg: GoldSegment, a: Ballot, b: Ballot)
    requires Alike(seg, a, b)
    ensures a.Valid() && b.Valid() && a.prep == b.prep && a.ents == b.ents
  {}

  lemma {:induction false} SameMembers(seg: GoldSegment, a: Ballot, b: Ballot, pair: seq<string>, members: seq<string>)
    requires Alike(seg, a, b) && forall e :: e in members ==> e in Members(seg)
    ensures MemberMarks(a, pair, members) == MemberMarks(b, pair, members)
  {
    hide AsksState, AsksCount;
    if members != [] {
      var e := members[|members| - 1];
      assert e in members;
      SameMembers(seg, a, b, pair, members[..|members| - 1]);
      SameSeen(seg, a, b);
      if e in a.Seen() { assert AskOf(seg, a.ents, e).instance; }
      hide AskOf, Members;
    }
  }

  lemma {:induction false} SameForbidden(a: Ballot, b: Ballot, fs: seq<Forbidden>)
    requires a.Valid() && b.Valid() && a.Seen() == b.Seen()
    ensures ForbiddenMarks(a, fs) == ForbiddenMarks(b, fs)
  {
    hide AvoidMarks;
    if fs != [] { SameForbidden(a, b, fs[..|fs| - 1]); }
  }

  lemma {:induction false} SameFriends(a: Ballot, b: Ballot, ffs: seq<Entry>)
    requires a.Valid() && b.Valid() && a.Seen() == b.Seen() && a.prep == b.prep
    ensures FriendsMarks(a, ffs) == FriendsMarks(b, ffs)
  {
    hide FriendMarks;
    if ffs != [] { SameFriends(a, b, ffs[..|ffs| - 1]); }
  }

  lemma SameSets(a: Ballot, b: Ballot)
    requires a.Valid() && b.Valid() && a.Seen() == b.Seen() && a.prep == b.prep && a.ents == b.ents
    ensures PrecisionMarks(a) == PrecisionMarks(b) && DecoyMarks(a) == DecoyMarks(b)
  {
    assert SeenStory(a) == SeenStory(b);
  }

  /** The counters of a prepared segment hang on nothing but the answers to the questions put, provided every change
      of state that counts is one that is asked about. */
  lemma {:induction false} OnlyAnswersCount(seg: GoldSegment, sample: set<string>, a: Ballot, b: Ballot)
    requires Alike(seg, a, b) && a.prep == PrepOf(seg, sample)
    requires forall c :: c in seg.cast && Changed(c) ==> Asked(c)
    ensures TallyOf(a) == TallyOf(b)
  {
    hide CastMarks, ForbiddenMarks, MemberMarks, FriendsMarks, PrecisionMarks, DecoyMarks, AskOf, Changed, Asked;
    hide TargetsOf, FalseFriends, ForbiddenEids;
    EntriesAreListed(seg);
    SameSeen(seg, a, b);
    SameCast(seg, a, b, a.prep.cast);
    SameForbidden(a, b, a.prep.forbiddenEntries);
    SameFriends(a, b, a.prep.ffs);
    SameSets(a, b);
    if seg.twins.Some? { SameMembers(seg, a, b, seg.twins.value.pair, seg.twins.value.members); }
  }

  /** On a compiled segment that is so: no answer that was not asked for changes a counter. */
  lemma {:induction false} CompiledAnswersCount(src: Source, i: nat, sample: set<string>, a: Ballot, b: Ballot)
    requires src.Valid() && i < |src.flat|
    requires Alike(SegmentOf(src, i), a, b) && a.prep == PrepOf(SegmentOf(src, i), sample)
    ensures TallyOf(a) == TallyOf(b)
  {
    hide CastOf, PrepOf, TallyOf, Alike, Changed, Asked;
    var seg := SegmentOf(src, i);
    forall c | c in seg.cast && Changed(c) ensures Asked(c) { CompiledStates(src, i, c); }
    OnlyAnswersCount(seg, sample, a, b);
  }
}
