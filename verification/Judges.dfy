/** The scorer at its two ends: a judge that sees exactly what is there, and one that says yes to all. */
module Judges {
  import opened Basics
  import opened Timeline
  import opened TimelineLaws
  import opened Scorer
  import opened Tallies

  datatype Judge = Ideal | YesToAll

  /** Counters that reach their totals under the judge. */
  predicate Wins(j: Judge, k: Key) {
    match k
    case RecallHit(_) => true
    case GapHit(_) => true
    case FirstHit => true
    case ContinuityHit => true
    case LongHit => true
    case TemporalHit => true
    case FriendRight => true
    case ChangeOk => j.Ideal?
    case PersistOk => j.Ideal?
    case CountExact => j.Ideal?
    case PrecHit => j.Ideal?
    case TwinRight => j.Ideal?
    case AvoidViol => j.YesToAll?
    case AbsentViol => j.YesToAll?
    case DeprecatedViol => j.YesToAll?
    case IndirectViol => j.YesToAll?
    case Confused => j.YesToAll?
    case DecoySeen => j.YesToAll?
    case _ => false
  }

  /** Counters that stay at zero. */
  predicate Never(j: Judge, k: Key) {
    k in {ChangeMissed, PersistMissed}
    || (j.Ideal? && k in {CountNear, AvoidViol, AbsentViol, DeprecatedViol, IndirectViol, TwinWrong, Confused, DecoySeen})
  }

  ghost predicate Matched(j: Judge, a: Acc) {
    && (forall k :: Wins(j, k) ==> TotalOf(k).Some? && a[k] == a[TotalOf(k).value])
    && (forall k :: Never(j, k) ==> a[k] == 0)
  }

  lemma WinsHaveTotals(j: Judge, k: Key)
    requires Wins(j, k)
    ensures TotalOf(k).Some?
  {}

  lemma MatchedAdds(j: Judge, a: Acc, b: Acc)
    requires Matched(j, a) && Matched(j, b)
    ensures Matched(j, a + b)
  {
    hide TotalOf, Wins, Never;
  }

  /** The counter that wins a total. */
  function WinnerOf(tot: Key): Option<Key> {
    match tot
    case RecallTot(kind) => Some(RecallHit(kind))
    case GapTot(b) => Some(GapHit(b))
    case FirstTot => Some(FirstHit)
    case ContinuityTot => Some(ContinuityHit)
    case LongTot => Some(LongHit)
    case TemporalTot => Some(TemporalHit)
    case FriendTot => Some(FriendRight)
    case ChangeTot => Some(ChangeOk)
    case PersistTot => Some(PersistOk)
    case CountTot => Some(CountExact)
    case PrecTot => Some(PrecHit)
    case TwinTot => Some(TwinRight)
    case AvoidOpp => Some(AvoidViol)
    case AbsentOpp => Some(AbsentViol)
    case DeprecatedOpp => Some(DeprecatedViol)
    case IndirectOpp => Some(IndirectViol)
    case ConfusionTot => Some(Confused)
    case DecoyTot => Some(DecoySeen)
    case _ => None
  }

  lemma WinsItsTotal(j: Judge, k: Key)
    requires Wins(j, k)
    ensures TotalOf(k).Some? && WinnerOf(TotalOf(k).value) == Some(k)
  {}

  lemma TotalsAreNotCounters(j: Judge, t: Key)
    requires WinnerOf(t).Some?
    ensures !Wins(j, t) && !Never(j, t)
  {}

  lemma WinnersHaveThatTotal(t: Key)
    requires WinnerOf(t).Some?
    ensures TotalOf(WinnerOf(t).value) == Some(t) && WinnerOf(WinnerOf(t).value).None?
  {}

  lemma WinnersAreUnique()
    ensures forall j, k :: Wins(j, k) ==> TotalOf(k).Some? && WinnerOf(TotalOf(k).value) == Some(k)
    ensures forall j, t :: WinnerOf(t).Some? ==> !Wins(j, t) && !Never(j, t)
    ensures forall t :: WinnerOf(t).Some? ==>
              TotalOf(WinnerOf(t).value) == Some(t) && WinnerOf(WinnerOf(t).value).None?
  {
    hide Wins, Never, TotalOf, WinnerOf;
    forall j, k | Wins(j, k) ensures TotalOf(k).Some? && WinnerOf(TotalOf(k).value) == Some(k) {
      WinsItsTotal(j, k);
    }
    forall j, t | WinnerOf(t).Some?
      ensures !Wins(j, t) && !Never(j, t)
    {
      TotalsAreNotCounters(j, t);
    }
    forall t | WinnerOf(t).Some?
      ensures TotalOf(WinnerOf(t).value) == Some(t) && WinnerOf(WinnerOf(t).value).None?
    {
      WinnersHaveThatTotal(t);
    }
  }

  lemma ManyMatched(j: Judge, tot: Key, n: nat, m: nat)
    requires WinnerOf(tot).Some?
    requires Wins(j, WinnerOf(tot).value) ==> n == m
    requires Never(j, WinnerOf(tot).value) ==> m == 0
    ensures Matched(j, Many(n, tot) + Many(m, WinnerOf(tot).value))
  {
    WinnersAreUnique();
    hide TotalOf, Wins, Never, WinnerOf;
  }

  lemma PairMatched(j: Judge, tot: Key, b: bool)
    requires WinnerOf(tot).Some?
    requires Wins(j, WinnerOf(tot).value) ==> b
    requires Never(j, WinnerOf(tot).value) ==> !b
    ensures Matched(j, One(tot) + OneIf(b, WinnerOf(tot).value))
  {
    hide Matched, TotalOf, Wins, Never, WinnerOf;
    var hit := WinnerOf(tot).value;
    ManyMatched(j, tot, 1, if b then 1 else 0);
    assert Many(1, tot) == One(tot) && Many(if b then 1 else 0, hit) == OneIf(b, hit);
  }

  lemma NothingMatched(j: Judge)
    ensures Matched(j, multiset{})
  {
    forall k | Wins(j, k) ensures TotalOf(k).Some? { WinsHaveTotals(j, k); }
  }

  lemma EntryMatched(j: Judge, c: Entry, kind: string, vote: Vote)
    requires j.Ideal? && c.state.Some? && !c.state.value.flashback ==> vote.state == Some("changed")
    requires j.Ideal? && c.count.Some? ==> vote.count == c.count
    ensures Matched(j, EntryMarks(c, kind, true, vote))
  {
    hide Matched, RecallMarks, OpMarks, GapMarks, StateMarks, CountMarks, TemporalMarks;
    SeenMatched(j, c, kind);
    StateMatched(j, c, vote.state);
    CountMatched(j, c, vote.count);
    var a := RecallMarks(kind, true);
    MatchedAdds(j, a, OpMarks(c, kind, true));
    a := a + OpMarks(c, kind, true);
    MatchedAdds(j, a, GapMarks(c, kind, true));
    a := a + GapMarks(c, kind, true);
    MatchedAdds(j, a, StateMarks(c, true, vote.state));
    a := a + StateMarks(c, true, vote.state);
    MatchedAdds(j, a, CountMarks(c, true, vote.count));
    MatchedAdds(j, a + CountMarks(c, true, vote.count), TemporalMarks(c, true));
  }

  lemma SeenMatched(j: Judge, c: Entry, kind: string)
    ensures Matched(j, RecallMarks(kind, true)) && Matched(j, OpMarks(c, kind, true))
    ensures Matched(j, GapMarks(c, kind, true)) && Matched(j, TemporalMarks(c, true))
  {
    hide Matched, GapMarks;
    NothingMatched(j);
    PairMatched(j, RecallTot(kind), true);
    PairMatched(j, FirstTot, true);
    PairMatched(j, ContinuityTot, true);
    PairMatched(j, TemporalTot, true);
    GapMatched(j, c, kind);
  }

  lemma GapMatched(j: Judge, c: Entry, kind: string)
    ensures Matched(j, GapMarks(c, kind, true))
  {
    hide Matched, GapBucket;
    NothingMatched(j);
    if c.gap.Some? {
      var b := GapBucket(c.gap.value);
      PairMatched(j, LongTot, true);
      PairMatched(j, GapTot(b), true);
      MatchedAdds(j, if c.gap.value >= 30 then One(LongTot) + OneIf(true, LongHit) else multiset{},
                  One(GapTot(b)) + OneIf(true, GapHit(b)));
    }
  }

  lemma StateMatched(j: Judge, c: Entry, state: Option<string>)
    requires j.Ideal? && c.state.Some? && !c.state.value.flashback ==> state == Some("changed")
    ensures Matched(j, StateMarks(c, true, state))
  {
    hide Matched;
    NothingMatched(j);
    if c.state.Some? && !c.state.value.flashback {
      PairMatched(j, ChangeTot, state == Some("changed"));
      PairMatched(j, PersistTot, state == Some("changed"));
    }
  }

  lemma CountMatched(j: Judge, c: Entry, got: Option<int>)
    requires j.Ideal? && c.count.Some? ==> got == c.count
    ensures Matched(j, CountMarks(c, true, got))
  {
    NothingMatched(j);
    if j.Ideal? {
      hide Matched;
      PairMatched(j, CountTot, true);
    } else {
      CountFree(c, got);
    }
  }

  lemma CountFree(c: Entry, got: Option<int>)
    ensures Matched(YesToAll, CountMarks(c, true, got))
  {
    Untouched(CountMarks(c, true, got));
  }

  /** The yes-to-all judge leaves these counters unconstrained. */
  predicate Unjudged(k: Key) {
    k in {CountTot, CountExact, CountNear, TwinTot, TwinRight, TwinWrong, PrecTot, PrecHit, RosterTot,
          ChangeTot, ChangeOk, PersistTot, PersistOk}
  }

  lemma YesWins(k: Key)
    requires Wins(YesToAll, k)
    ensures !Unjudged(k) && TotalOf(k).Some? && !Unjudged(TotalOf(k).value)
  {}

  lemma YesNever(k: Key)
    requires Never(YesToAll, k)
    ensures !Unjudged(k)
  {}

  lemma Untouched(a: Acc)
    requires forall k :: k in a ==> Unjudged(k)
    ensures Matched(YesToAll, a)
  {
    hide Wins, Never, TotalOf, Unjudged;
    forall k | Wins(YesToAll, k) ensures TotalOf(k).Some? && a[k] == a[TotalOf(k).value] { YesWins(k); }
    forall k | Never(YesToAll, k) ensures a[k] == 0 { YesNever(k); }
  }

  // ----- whole segments -----

  /** How a prepared segment fits together. */
  ghost predicate WellPrepared(p: Prep) {
    && p.present + p.decoys + p.forbidden + p.ffTargets == p.roster
    && p.decoys !! p.present && p.ffTargets !! p.present
    && (forall c :: c in p.cast ==> c.eid in p.present && (Changed(c) ==> Asked(c)))
    && (forall f :: f in p.forbiddenEntries ==> f.eid in p.forbidden)
    && (forall c :: c in p.ffs ==> c.eid in p.present && c.confusableWith.Some?
                                   && (c.confusableWith.value in p.present || c.confusableWith.value in p.ffTargets))
  }

  predicate Changed(c: Entry) { c.state.Some? && !c.state.value.flashback }

  /** The state question is put only for transforms and persists. */
  predicate Asked(c: Entry) { c.state.Some? && (c.op.Transform? || c.op.Persist?) }

  /** Every vote states what the gold says. */
  ghost predicate Truthful(b: Ballot) {
    && b.Valid()
    && (forall e :: e in b.prep.roster ==> (b.voted[e].present.Seen? <==> e in b.prep.present))
    && (forall c :: c in b.prep.cast && c.eid in b.prep.roster ==>
          (Asked(c) ==> b.voted[c.eid].state == Some("changed"))
          && (c.count.Some? ==> b.voted[c.eid].count == c.count))
    && (forall e :: b.prep.twins.Some? && e in b.prep.twins.value.members && e in b.prep.roster ==>
          b.voted[e].instance == Some(e))
  }

  ghost predicate SaysYes(b: Ballot) {
    b.Valid() && forall e :: e in b.prep.roster ==> b.voted[e].present.Seen?
  }

  ghost predicate Votes(j: Judge, b: Ballot) {
    WellPrepared(b.prep) && (if j.Ideal? then Truthful(b) else SaysYes(b))
  }

  lemma {:induction false} CastMatched(j: Judge, b: Ballot, cast: seq<Entry>)
    requires Votes(j, b) && forall c :: c in cast ==> c in b.prep.cast
    ensures Matched(j, CastMarks(b, cast))
  {
    NothingMatched(j);
    hide Matched, EntryMarks;
    if cast != [] {
      var c := cast[|cast| - 1];
      assert c in cast && c in b.prep.cast;
      CastMatched(j, b, cast[..|cast| - 1]);
      EntryMatched(j, c, b.Kind(c.eid), VoteFor(b, c.eid));
      MatchedAdds(j, CastMarks(b, cast[..|cast| - 1]), EntryMarks(c, b.Kind(c.eid), true, VoteFor(b, c.eid)));
    }
  }

  lemma AvoidPair(j: Judge, tot: Key, seen: bool)
    requires tot in {AvoidOpp, AbsentOpp, DeprecatedOpp, IndirectOpp} && (seen <==> j.YesToAll?)
    ensures WinnerOf(tot).Some? && Matched(j, One(tot) + OneIf(seen, WinnerOf(tot).value))
  {
    hide Matched, One, OneIf;
    PairMatched(j, tot, seen);
  }

  lemma AvoidPairs(j: Judge, seen: bool)
    requires seen <==> j.YesToAll?
    ensures Matched(j, One(AvoidOpp) + OneIf(seen, AvoidViol)) && Matched(j, One(AbsentOpp) + OneIf(seen, AbsentViol))
    ensures Matched(j, One(DeprecatedOpp) + OneIf(seen, DeprecatedViol))
    ensures Matched(j, One(IndirectOpp) + OneIf(seen, IndirectViol))
  {
    hide Matched, One, OneIf;
    AvoidPair(j, AvoidOpp, seen);
    AvoidPair(j, AbsentOpp, seen);
    AvoidPair(j, DeprecatedOpp, seen);
    AvoidPair(j, IndirectOpp, seen);
  }

  lemma AvoidMatched(j: Judge, f: Forbidden, seen: bool)
    requires seen <==> j.YesToAll?
    ensures Matched(j, AvoidMarks(f, seen))
  {
    hide Matched, One, OneIf;
    NothingMatched(j);
    AvoidPairs(j, seen);
    var all, absent := One(AvoidOpp) + OneIf(seen, AvoidViol), One(AbsentOpp) + OneIf(seen, AbsentViol);
    var gone := One(DeprecatedOpp) + OneIf(seen, DeprecatedViol);
    var named := if f.indirect then One(IndirectOpp) + OneIf(seen, IndirectViol) else multiset{};
    MatchedAdds(j, all, absent);
    MatchedAdds(j, gone, named);
    MatchedAdds(j, all, gone + named);
  }

  lemma {:induction false} ForbiddenMatched(j: Judge, b: Ballot, fs: seq<Forbidden>)
    requires Votes(j, b) && forall f :: f in fs ==> f in b.prep.forbiddenEntries
    requires j.Ideal? ==> forall f :: f in fs ==> f.eid !in b.prep.present
    ensures Matched(j, ForbiddenMarks(b, fs))
  {
    NothingMatched(j);
    hide Matched, AvoidMarks;
    if fs != [] {
      var f := fs[|fs| - 1];
      assert f in fs && f in b.prep.forbiddenEntries;
      ForbiddenMatched(j, b, fs[..|fs| - 1]);
      AvoidMatched(j, f, f.eid in b.Seen());
      MatchedAdds(j, ForbiddenMarks(b, fs[..|fs| - 1]), AvoidMarks(f, f.eid in b.Seen()));
    }
  }

  lemma TwinMatched(j: Judge, e: string, pair: seq<string>, seen: bool, instance: Option<string>)
    requires j.Ideal? && seen ==> instance == Some(e)
    ensures Matched(j, TwinMarks(e, pair, seen, instance))
  {
    NothingMatched(j);
    if j.Ideal? {
      hide Matched;
      PairMatched(j, TwinTot, true);
    } else {
      var a := TwinMarks(e, pair, seen, instance);
      assert forall k :: k in a ==> k in {TwinTot, TwinRight, TwinWrong};
      Untouched(a);
    }
  }

  lemma {:induction false} MembersMatched(j: Judge, b: Ballot, pair: seq<string>, members: seq<string>)
    requires Votes(j, b) && b.prep.twins.Some? && forall e :: e in members ==> e in b.prep.twins.value.members
    ensures Matched(j, MemberMarks(b, pair, members))
  {
    NothingMatched(j);
    hide Matched, TwinMarks;
    if members != [] {
      var e := members[|members| - 1];
      assert e in members;
      MembersMatched(j, b, pair, members[..|members| - 1]);
      TwinMatched(j, e, pair, e in b.Seen(), VoteFor(b, e).instance);
      MatchedAdds(j, MemberMarks(b, pair, members[..|members| - 1]),
                  TwinMarks(e, pair, e in b.Seen(), VoteFor(b, e).instance));
    }
  }

  lemma FriendMatched(j: Judge, targetPresent: bool, targetSeen: bool)
    requires !targetPresent ==> (targetSeen <==> j.YesToAll?)
    ensures Matched(j, FriendMarks(true, targetPresent, targetSeen))
  {
    NothingMatched(j);
    hide Matched;
    PairMatched(j, FriendTot, true);
    if !targetPresent {
      PairMatched(j, ConfusionTot, targetSeen);
    }
    MatchedAdds(j, One(FriendTot) + OneIf(true, FriendRight),
                if targetPresent then multiset{} else One(ConfusionTot) + OneIf(targetSeen, Confused));
  }

  lemma {:induction false} FriendsMatched(j: Judge, b: Ballot, ffs: seq<Entry>)
    requires Votes(j, b) && forall c :: c in ffs ==> c in b.prep.ffs
    ensures Matched(j, FriendsMarks(b, ffs))
  {
    NothingMatched(j);
    hide Matched, FriendMarks;
    if ffs != [] {
      var c := ffs[|ffs| - 1];
      assert c in ffs && c in b.prep.ffs;
      var target := if c.confusableWith.Some? then c.confusableWith.value else "";
      FriendsMatched(j, b, ffs[..|ffs| - 1]);
      FriendMatched(j, target in b.prep.present, target in b.Seen());
      MatchedAdds(j, FriendsMarks(b, ffs[..|ffs| - 1]), FriendMarks(true, target in b.prep.present, target in b.Seen()));
    }
  }

  lemma PrecisionUnjudged(b: Ballot)
    requires b.Valid()
    ensures forall k :: k in PrecisionMarks(b) ==> Unjudged(k)
  {
    hide SeenStory;
    forall k | k in PrecisionMarks(b) ensures k == PrecTot || k == PrecHit {}
  }

  lemma IdealSeesOnlyPresent(j: Judge, b: Ballot)
    requires Votes(j, b) && j.Ideal?
    ensures SeenStory(b) * b.prep.present == SeenStory(b)
  {}

  lemma PrecisionMatched(j: Judge, b: Ballot)
    requires Votes(j, b)
    ensures Matched(j, PrecisionMarks(b))
  {
    if j.Ideal? {
      PrecisionIdeal(j, b);
    } else {
      PrecisionUnjudged(b);
      hide Matched, PrecisionMarks, Unjudged, Votes;
      Untouched(PrecisionMarks(b));
    }
  }

  lemma PrecisionWinner(j: Judge)
    ensures WinnerOf(PrecTot) == Some(PrecHit) && (j.Ideal? ==> !Never(j, PrecHit))
  {}

  lemma PrecisionIdeal(j: Judge, b: Ballot)
    requires Votes(j, b) && j.Ideal?
    ensures Matched(j, PrecisionMarks(b))
  {
    IdealSeesOnlyPresent(j, b);
    assert b.Valid();
    PrecisionWinner(j);
    hide Matched, SeenStory, Many, Votes, WinnerOf, Wins, Never;
    ManyMatched(j, PrecTot, |SeenStory(b)|, |SeenStory(b) * b.prep.present|);
  }

  lemma DecoysMatched(j: Judge, b: Ballot)
    requires Votes(j, b)
    ensures Matched(j, DecoyMarks(b))
  {
    hide Matched, Many;
    DecoysSeen(j, b);
    SetMatched(j, |b.prep.decoys|, |b.prep.decoys * b.Seen()|);
    RosterMatched(j, |b.prep.roster|);
    MatchedAdds(j, Many(|b.prep.decoys|, DecoyTot) + Many(|b.prep.decoys * b.Seen()|, DecoySeen),
                Many(|b.prep.roster|, RosterTot));
  }

  lemma DecoysSeen(j: Judge, b: Ballot)
    requires Votes(j, b)
    ensures |b.prep.decoys * b.Seen()| == if j.Ideal? then 0 else |b.prep.decoys|
  {
    assert b.prep.decoys * b.Seen() == if j.Ideal? then {} else b.prep.decoys;
  }

  lemma SetMatched(j: Judge, n: nat, m: nat)
    requires m == if j.Ideal? then 0 else n
    ensures Matched(j, Many(n, DecoyTot) + Many(m, DecoySeen))
  {
    hide Matched, Many;
    ManyMatched(j, DecoyTot, n, m);
  }

  lemma RosterMatched(j: Judge, n: nat)
    ensures Matched(j, Many(n, RosterTot))
  {
    WinnersAreUnique();
    hide Wins, TotalOf, WinnerOf;
    assert WinnerOf(RosterTot).None? by { NoWinner(); }
    NoRosterWin(j);
  }

  lemma NoWinner()
    ensures WinnerOf(RosterTot).None?
  {}

  lemma NoRosterWin(j: Judge)
    ensures !Wins(j, RosterTot) && !Never(j, RosterTot)
  {}

  /** Truthful votes hit every total with no violation, confusion or decoy, once nothing on the forbidden
      roster is on screen; yes-to-all votes keep recall full but fail every avoidance and every decoy. */
  lemma {:induction false} JudgeMatches(j: Judge, b: Ballot)
    requires Votes(j, b)
    requires j.Ideal? ==> forall f :: f in b.prep.forbiddenEntries ==> f.eid !in b.prep.present
    ensures Matched(j, TallyOf(b))
  {
    CastMatched(j, b, b.prep.cast);
    PrecisionMatched(j, b);
    ForbiddenMatched(j, b, b.prep.forbiddenEntries);
    FriendsMatched(j, b, b.prep.ffs);
    DecoysMatched(j, b);
    NothingMatched(j);
    if b.prep.twins.Some? { MembersMatched(j, b, b.prep.twins.value.pair, b.prep.twins.value.members); }
    hide Matched, CastMarks, PrecisionMarks, ForbiddenMarks, MemberMarks, FriendsMarks, DecoyMarks, Votes;
    var twins := if b.prep.twins.Some? then MemberMarks(b, b.prep.twins.value.pair, b.prep.twins.value.members)
                 else multiset{};
    var a := CastMarks(b, b.prep.cast);
    MatchedAdds(j, a, PrecisionMarks(b));
    a := a + PrecisionMarks(b);
    MatchedAdds(j, a, ForbiddenMarks(b, b.prep.forbiddenEntries));
    a := a + ForbiddenMarks(b, b.prep.forbiddenEntries);
    MatchedAdds(j, a, twins);
    MatchedAdds(j, a + twins, FriendsMarks(b, b.prep.ffs));
    MatchedAdds(j, a + twins + FriendsMarks(b, b.prep.ffs), DecoyMarks(b));
  }

  lemma AvoidCount(f: Forbidden, seen: bool)
    ensures AvoidMarks(f, seen)[AvoidViol] == if seen then 1 else 0
  {}

  /** A violation is counted exactly when a forbidden entity is seen. */
  lemma {:induction false} ViolationsSeen(b: Ballot, fs: seq<Forbidden>)
    requires b.Valid()
    ensures ForbiddenMarks(b, fs)[AvoidViol] > 0 <==> exists i :: 0 <= i < |fs| && fs[i].eid in b.Seen()
  {
    hide AvoidMarks;
    if fs != [] {
      var f, before := fs[|fs| - 1], fs[..|fs| - 1];
      ViolationsSeen(b, before);
      AvoidCount(f, f.eid in b.Seen());
      if i :| 0 <= i < |before| && before[i].eid in b.Seen() { assert fs[i].eid in b.Seen(); }
    }
  }

  // ----- compiled segments -----

  lemma {:induction false} CompiledStates(src: Source, i: nat, c: Entry)
    requires src.Valid() && i < |src.flat| && c in CastOf(src, i)
    ensures Changed(c) ==> Asked(c)
  {
    hide Label;
    var k :| 0 <= k < |CastOf(src, i)| && CastOf(src, i)[k] == c;
    var q := CastFrom(src, i, |src.flat[i].present|, k);
    LabelStates(src, i, q);
  }

  lemma LabelStates(src: Source, i: nat, q: nat)
    requires src.Valid() && IsItem(src.flat, i, q)
    ensures Changed(Label(src, i, q)) ==> Asked(Label(src, i, q))
  {
    hide LastSeen, LatestState, TransformsTo, AppearanceOf, InitialState;
  }

  lemma EntriesAreListed(seg: GoldSegment)
    ensures forall c :: c in ByEid(seg.cast) ==> c in seg.cast && c.eid in EidsOf(seg.cast)
    ensures var ffs := FalseFriends(seg.cast);
            forall c :: c in ffs ==> c.eid in EidsOf(seg.cast) && c.confusableWith.Some?
                                     && c.confusableWith.value in TargetsOf(ffs)
    ensures forall f :: f in seg.forbidden ==> f.eid in ForbiddenEids(seg.forbidden)
  {}

  lemma {:induction false} SegmentPrepares(seg: GoldSegment, ents: map<string, Entity>, sample: set<string>)
    requires sample <= Candidates(seg, ents) && forall c :: c in seg.cast && Changed(c) ==> Asked(c)
    ensures WellPrepared(PrepOf(seg, sample))
  {
    hide Changed, Asked, EidsOf, TargetsOf, FalseFriends, ByEid, ForbiddenEids;
    EntriesAreListed(seg);
    var p := PrepOf(seg, sample);
    assert p.decoys !! p.present;
    assert p.present + p.decoys + p.forbidden + p.ffTargets == p.roster;
  }

  /** A compiled segment prepares well, whatever the decoy draw. */
  lemma {:induction false} CompiledPrep(src: Source, i: nat, sample: set<string>)
    requires src.Valid() && i < |src.flat|
    requires sample <= Candidates(SegmentOf(src, i), GoldEntities(src))
    ensures WellPrepared(PrepOf(SegmentOf(src, i), sample))
  {
    hide CastOf, Candidates, PrepOf, WellPrepared, Changed, Asked, GoldEntities;
    var seg := SegmentOf(src, i);
    assert seg.cast == CastOf(src, i);
    forall c | c in seg.cast && Changed(c) ensures Asked(c) { CompiledStates(src, i, c); }
    SegmentPrepares(seg, GoldEntities(src), sample);
  }

  /** No look-alike is on screen in a segment that lists it as the absent twin. */
  predicate TwinsAbsent(seg: Segment) {
    seg.lookalike.Some? ==>
      forall m :: m in seg.lookalike.value.pair && m !in seg.lookalike.value.members ==> !OnScreen(seg, m)
  }

  lemma {:induction false} AbsentTwinsListed(pair: seq<string>, all: seq<string>, members: seq<string>)
    ensures forall f :: f in AbsentTwins(pair, all, members) ==> f.eid in pair && f.eid !in members
    ensures forall m :: m in pair && m !in members ==> exists f :: f in AbsentTwins(pair, all, members) && f.eid == m
  {
    hide Join;
    if pair != [] {
      var m, rest := pair[|pair| - 1], pair[..|pair| - 1];
      assert pair == rest + [m];
      AbsentTwinsListed(rest, all, members);
      var roster := AbsentTwins(rest, all, members);
      if m !in members {
        var f := Forbidden(m, "lookalike_absent", "lookalike:" + Join(all), false);
        assert AbsentTwins(pair, all, members) == roster + [f];
        assert f in roster + [f];
        assert forall x :: x in roster ==> x in roster + [f];
      }
    }
  }

  /** On a compiled segment the forbidden roster and the cast meet only in an absent twin on screen. */
  lemma {:induction false} ForbiddenMeetsCast(src: Source, i: nat)
    requires src.Valid() && MemoryRules(src) && i < |src.flat|
    ensures (forall f :: f in ForbiddenOf(src, i) ==> !OnScreen(src.flat[i], f.eid)) <==> TwinsAbsent(src.flat[i])
  {
    hide MemoryRules, OnScreen, RemovedRoster, RemovalOrder, AbsentTwins;
    var seg := src.flat[i];
    RosterIsTheGone(src, i);
    forall f | f in Roster(src, i) ensures !OnScreen(seg, f.eid) { GoneIsOffScreen(src, i, f.eid); }
    if seg.lookalike.Some? {
      var lp := seg.lookalike.value;
      AbsentTwinsListed(lp.pair, lp.pair, lp.members);
    }
  }

  /** The scorer on a compiled segment, at both ends. Truthful votes are perfect exactly when no absent
      look-alike is on screen. */
  lemma {:induction false} CompiledSegmentScores(src: Source, i: nat, sample: set<string>, voted: map<string, Vote>)
    requires src.Valid() && MemoryRules(src) && i < |src.flat|
    requires sample <= Candidates(SegmentOf(src, i), GoldEntities(src))
    ensures var b := Ballot(PrepOf(SegmentOf(src, i), sample), GoldEntities(src), voted);
            && (Truthful(b) ==> (Matched(Ideal, TallyOf(b)) <==> TwinsAbsent(src.flat[i])))
            && (SaysYes(b) ==> Matched(YesToAll, TallyOf(b)))
  {
    hide Matched, TallyOf, MemoryRules, CastOf, ForbiddenOf, TwinsAbsent, GoldEntities, Candidates, WellPrepared;
    var seg := SegmentOf(src, i);
    var b := Ballot(PrepOf(seg, sample), GoldEntities(src), voted);
    CompiledPrep(src, i, sample);
    if SaysYes(b) { JudgeMatches(YesToAll, b); }
    if Truthful(b) {
      ForbiddenMeetsCast(src, i);
      PresentIsOnScreen(src, i);
      if TwinsAbsent(src.flat[i]) {
        JudgeMatches(Ideal, b);
      } else {
        SeenForbiddenSpoils(b);
      }
    }
  }

  lemma PresentIsOnScreen(src: Source, i: nat)
    requires src.Valid() && MemoryRules(src) && i < |src.flat|
    ensures forall e :: e in EidsOf(CastOf(src, i)) <==> OnScreen(src.flat[i], e)
  {
    hide CastOf, MemoryRules;
    CompiledCast(src, i);
    var cast, present := CastOf(src, i), src.flat[i].present;
    forall e ensures e in EidsOf(cast) <==> OnScreen(src.flat[i], e) {
      if e in EidsOf(cast) {
        var k :| 0 <= k < |cast| && cast[k].eid == e;
        assert present[k].eid == e;
      }
      if OnScreen(src.flat[i], e) {
        var k :| 0 <= k < |present| && present[k].eid == e;
        assert cast[k] in cast && cast[k].eid == e;
      }
    }
  }

  lemma SeenForbiddenSpoils(b: Ballot)
    requires Truthful(b) && WellPrepared(b.prep)
    requires exists f :: f in b.prep.forbiddenEntries && f.eid in b.prep.present
    ensures !Matched(Ideal, TallyOf(b))
  {
    var f :| f in b.prep.forbiddenEntries && f.eid in b.prep.present;
    var fs := b.prep.forbiddenEntries;
    var i :| 0 <= i < |fs| && fs[i] == f;
    assert fs[i].eid in b.Seen();
    ViolationsSeen(b, fs);
    hide CastMarks, PrecisionMarks, ForbiddenMarks, MemberMarks, FriendsMarks, DecoyMarks, Truthful, WellPrepared;
    assert TallyOf(b)[AvoidViol] > 0;
    assert Never(Ideal, AvoidViol);
  }
}
