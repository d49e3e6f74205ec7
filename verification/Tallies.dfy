/** `_tally` and the pooling over segments: what the capability counters can and cannot say. */
module Tallies {
  import opened Basics
  import opened Timeline
  import opened Scorer

  datatype Key =
    | RecallTot(kind: string) | RecallHit(kind: string)
    | FirstTot | FirstHit | ContinuityTot | ContinuityHit | LongTot | LongHit
    | GapTot(bucket: string) | GapHit(bucket: string)
    | ChangeTot | ChangeOk | ChangeMissed | PersistTot | PersistOk | PersistMissed
    | CountTot | CountExact | CountNear | TemporalTot | TemporalHit
    | PrecTot | PrecHit
    | AvoidOpp | AvoidViol | AbsentOpp | AbsentViol | DeprecatedOpp | DeprecatedViol | IndirectOpp | IndirectViol
    | TwinTot | TwinRight | TwinWrong
    | FriendTot | FriendRight | ConfusionTot | Confused
    | DecoyTot | DecoySeen | RosterTot

  type Acc = multiset<Key>

  function One(k: Key): Acc { multiset{k} }

  function OneIf(b: bool, k: Key): Acc { if b then multiset{k} else multiset{} }

  function Many(n: nat, k: Key): Acc { multiset{}[k := n] }

  function GapBucket(gap: int): string {
    if gap <= 0 then "0" else if gap <= 4 then "1-4" else if gap < 30 then "5-29" else ">=30"
  }

  datatype Ballot = Ballot(prep: Prep, ents: map<string, Entity>, voted: map<string, Vote>)
  {
    predicate Valid() { prep.roster <= voted.Keys }

    function Seen(): set<string>
      requires Valid()
    {
      set e | e in prep.roster && voted[e].present.Seen?
    }

    function Kind(e: string): string {
      if e in prep.roster && e in ents then ents[e].kind else "prop"
    }
  }

  // ----- one cast entry -----

  function RecallMarks(kind: string, hit: bool): Acc {
    One(RecallTot(kind)) + OneIf(hit, RecallHit(kind))
  }

  /** First sight and short-gap continuity, characters and props only. */
  function OpMarks(c: Entry, kind: string, hit: bool): Acc {
    if kind !in {"character", "prop"} then multiset{}
    else if c.op.Introduce? then One(FirstTot) + OneIf(hit, FirstHit)
    else if c.op.Recall? && (c.gap.None? || c.gap.value < 30) then One(ContinuityTot) + OneIf(hit, ContinuityHit)
    else multiset{}
  }

  /** The long-gap capability and the gap-decay curve. */
  function GapMarks(c: Entry, kind: string, hit: bool): Acc {
    if kind !in {"character", "prop"} || c.gap.None? then multiset{}
    else
      (if c.gap.value >= 30 then One(LongTot) + OneIf(hit, LongHit) else multiset{})
      + (One(GapTot(GapBucket(c.gap.value))) + OneIf(hit, GapHit(GapBucket(c.gap.value))))
  }

  function StateMarks(c: Entry, hit: bool, state: Option<string>): Acc {
    if c.state.None? || c.state.value.flashback then multiset{}
    else if c.op.Transform? then
      (if hit then One(ChangeTot) + OneIf(state == Some("changed"), ChangeOk) else One(ChangeMissed))
    else
      (if hit then One(PersistTot) + OneIf(state == Some("changed"), PersistOk) else One(PersistMissed))
  }

  function CountMarks(c: Entry, hit: bool, got: Option<int>): Acc {
    if c.count.None? || !hit then multiset{}
    else
      One(CountTot)
      + (if got == c.count then One(CountExact)
         else OneIf(got.Some? && (got.value - c.count.value == 1 || c.count.value - got.value == 1), CountNear))
  }

  function TemporalMarks(c: Entry, hit: bool): Acc {
    if c.anchor.Some? && c.anchor.value.kind == "temporal" then One(TemporalTot) + OneIf(hit, TemporalHit)
    else multiset{}
  }

  function EntryMarks(c: Entry, kind: string, hit: bool, vote: Vote): Acc {
    RecallMarks(kind, hit) + OpMarks(c, kind, hit) + GapMarks(c, kind, hit)
    + StateMarks(c, hit, vote.state) + CountMarks(c, hit, vote.count) + TemporalMarks(c, hit)
  }

  // ----- the rest of the segment -----

  function AvoidMarks(f: Forbidden, seen: bool): Acc {
    One(AvoidOpp) + OneIf(seen, AvoidViol)
    + (if f.reason == "lookalike_absent" then One(AbsentOpp) + OneIf(seen, AbsentViol)
       else One(DeprecatedOpp) + OneIf(seen, DeprecatedViol)
            + (if f.indirect then One(IndirectOpp) + OneIf(seen, IndirectViol) else multiset{}))
  }

  function TwinMarks(e: string, pair: seq<string>, seen: bool, instance: Option<string>): Acc {
    if !seen then multiset{}
    else One(TwinTot) + (if instance == Some(e) then One(TwinRight)
                         else OneIf(instance.Some? && instance.value in pair, TwinWrong))
  }

  function FriendMarks(seen: bool, targetPresent: bool, targetSeen: bool): Acc {
    One(FriendTot) + OneIf(seen, FriendRight)
    + (if targetPresent then multiset{} else One(ConfusionTot) + OneIf(targetSeen, Confused))
  }

  function VoteFor(b: Ballot, e: string): Vote {
    if e in b.voted then b.voted[e] else Vote(Abstain, None, None, None)
  }

  function CastMarks(b: Ballot, cast: seq<Entry>): Acc
    requires b.Valid()
  {
    if cast == [] then multiset{}
    else
      var c := cast[|cast| - 1];
      CastMarks(b, cast[..|cast| - 1]) + EntryMarks(c, b.Kind(c.eid), c.eid in b.Seen(), VoteFor(b, c.eid))
  }

  function ForbiddenMarks(b: Ballot, fs: seq<Forbidden>): Acc
    requires b.Valid()
  {
    if fs == [] then multiset{}
    else ForbiddenMarks(b, fs[..|fs| - 1]) + AvoidMarks(fs[|fs| - 1], fs[|fs| - 1].eid in b.Seen())
  }

  function MemberMarks(b: Ballot, pair: seq<string>, members: seq<string>): Acc
    requires b.Valid()
  {
    if members == [] then multiset{}
    else
      var e := members[|members| - 1];
      MemberMarks(b, pair, members[..|members| - 1]) + TwinMarks(e, pair, e in b.Seen(), VoteFor(b, e).instance)
  }

  function FriendsMarks(b: Ballot, ffs: seq<Entry>): Acc
    requires b.Valid()
  {
    if ffs == [] then multiset{}
    else
      var c := ffs[|ffs| - 1];
      var target := if c.confusableWith.Some? then c.confusableWith.value else "";
      FriendsMarks(b, ffs[..|ffs| - 1])
      + FriendMarks(c.eid in b.Seen(), target in b.prep.present, target in b.Seen())
  }

  /** Seen story entities that are not locations. */
  function SeenStory(b: Ballot): set<string>
    requires b.Valid()
  {
    set e | e in b.Seen() && e in b.prep.present + b.prep.forbidden + b.prep.ffTargets && b.Kind(e) != "location"
  }

  function PrecisionMarks(b: Ballot): Acc
    requires b.Valid()
  {
    Many(|SeenStory(b)|, PrecTot) + Many(|SeenStory(b) * b.prep.present|, PrecHit)
  }

  function DecoyMarks(b: Ballot): Acc
    requires b.Valid()
  {
    Many(|b.prep.decoys|, DecoyTot) + Many(|b.prep.decoys * b.Seen()|, DecoySeen) + Many(|b.prep.roster|, RosterTot)
  }

  function TallyOf(b: Ballot): Acc
    requires b.Valid()
  {
    CastMarks(b, b.prep.cast) + PrecisionMarks(b) + ForbiddenMarks(b, b.prep.forbiddenEntries)
    + (if b.prep.twins.Some? then MemberMarks(b, b.prep.twins.value.pair, b.prep.twins.value.members)
       else multiset{})
    + FriendsMarks(b, b.prep.ffs) + DecoyMarks(b)
  }

  // ----- counters against their totals -----

  /** The total that bounds a counter. */
  function TotalOf(k: Key): Option<Key> {
    match k
    case RecallHit(kind) => Some(RecallTot(kind))
    case FirstHit => Some(FirstTot)
    case ContinuityHit => Some(ContinuityTot)
    case LongHit => Some(LongTot)
    case GapHit(bucket) => Some(GapTot(bucket))
    case ChangeOk => Some(ChangeTot)
    case PersistOk => Some(PersistTot)
    case CountExact => Some(CountTot)
    case CountNear => Some(CountTot)
    case TemporalHit => Some(TemporalTot)
    case PrecHit => Some(PrecTot)
    case AvoidViol => Some(AvoidOpp)
    case AbsentViol => Some(AbsentOpp)
    case DeprecatedViol => Some(DeprecatedOpp)
    case IndirectViol => Some(IndirectOpp)
    case TwinRight => Some(TwinTot)
    case TwinWrong => Some(TwinTot)
    case FriendRight => Some(FriendTot)
    case Confused => Some(ConfusionTot)
    case DecoySeen => Some(DecoyTot)
    case _ => None
  }

  /** No counter exceeds its total. */
  ghost predicate Capped(a: Acc) { forall k :: TotalOf(k).Some? ==> a[k] <= a[TotalOf(k).value] }

  /** The counters that split a total add up to it, or stay within it. */
  ghost predicate AddsUp(a: Acc) {
    && a[CountExact] + a[CountNear] <= a[CountTot] && a[TwinRight] + a[TwinWrong] <= a[TwinTot]
    && a[LongTot] == a[GapTot(">=30")] && a[LongHit] == a[GapHit(">=30")]
    && a[DeprecatedOpp] + a[AbsentOpp] == a[AvoidOpp] && a[DeprecatedViol] + a[AbsentViol] == a[AvoidViol]
    && a[IndirectOpp] <= a[DeprecatedOpp] && a[IndirectViol] <= a[DeprecatedViol]
  }

  ghost predicate Sound(a: Acc) { Capped(a) && AddsUp(a) }

  lemma SoundAdds(a: Acc, b: Acc)
    requires Sound(a) && Sound(b)
    ensures Sound(a + b)
  {
    hide TotalOf;
  }

  lemma CappedAdds(a: Acc, b: Acc)
    requires Capped(a) && Capped(b)
    ensures Capped(a + b)
  {
    hide TotalOf;
  }

  lemma PairCapped(tot: Key, hit: Key, b: bool)
    requires TotalOf(hit) == Some(tot) && TotalOf(tot).None?
    ensures Capped(One(tot) + OneIf(b, hit))
  {
    hide TotalOf;
  }

  /** Keys that `AddsUp` ties to others. */
  predicate Linked(k: Key) {
    k in {CountTot, CountExact, CountNear, TwinTot, TwinRight, TwinWrong, LongTot, LongHit, GapTot(">=30"),
          GapHit(">=30"), AvoidOpp, AvoidViol, AbsentOpp, AbsentViol, DeprecatedOpp, DeprecatedViol,
          IndirectOpp, IndirectViol}
  }

  lemma FreeAddsUp(a: Acc)
    requires forall k :: k in a ==> !Linked(k)
    ensures AddsUp(a)
  {}

  lemma PairSound(tot: Key, hit: Key, b: bool)
    requires TotalOf(hit) == Some(tot) && TotalOf(tot).None? && !Linked(tot) && !Linked(hit)
    ensures Sound(One(tot) + OneIf(b, hit))
  {
    hide TotalOf, Linked;
    PairCapped(tot, hit, b);
    FreeAddsUp(One(tot) + OneIf(b, hit));
  }

  lemma NoneSound()
    ensures Sound(multiset{}) && Sound(One(ChangeMissed)) && Sound(One(PersistMissed))
  {
    NoneCapped(multiset{});
    NoneCapped(One(ChangeMissed));
    NoneCapped(One(PersistMissed));
  }

  lemma NoneCapped(a: Acc)
    requires a == multiset{} || exists k :: TotalOf(k).None? && a == One(k)
    ensures Capped(a)
  {
    hide TotalOf;
  }

  lemma RecallSound(kind: string, hit: bool)
    ensures Sound(RecallMarks(kind, hit))
  {
    hide Sound;
    PairSound(RecallTot(kind), RecallHit(kind), hit);
  }

  lemma OpSound(c: Entry, kind: string, hit: bool)
    ensures Sound(OpMarks(c, kind, hit))
  {
    hide Sound;
    NoneSound();
    PairSound(FirstTot, FirstHit, hit);
    PairSound(ContinuityTot, ContinuityHit, hit);
  }

  lemma GapSound(c: Entry, kind: string, hit: bool)
    ensures Sound(GapMarks(c, kind, hit))
  {
    hide Capped, GapBucket;
    NoneCapped(multiset{});
    if kind in {"character", "prop"} && c.gap.Some? {
      var b := GapBucket(c.gap.value);
      BucketOfLongGap(c.gap.value);
      PairCapped(LongTot, LongHit, hit);
      PairCapped(GapTot(b), GapHit(b), hit);
      var long := if c.gap.value >= 30 then One(LongTot) + OneIf(hit, LongHit) else multiset{};
      var curve := One(GapTot(b)) + OneIf(hit, GapHit(b));
      CappedAdds(long, curve);
      GapAddsUp(c.gap.value >= 30, b, hit);
    }
  }

  lemma BucketOfLongGap(gap: int)
    ensures GapBucket(gap) == ">=30" <==> gap >= 30
  {}

  lemma GapAddsUp(far: bool, b: string, hit: bool)
    requires far <==> b == ">=30"
    ensures AddsUp((if far then One(LongTot) + OneIf(hit, LongHit) else multiset{})
                   + (One(GapTot(b)) + OneIf(hit, GapHit(b))))
  {}

  lemma StateSound(c: Entry, hit: bool, state: Option<string>)
    ensures Sound(StateMarks(c, hit, state))
  {
    hide Sound, One, OneIf;
    NoneSound();
    PairSound(ChangeTot, ChangeOk, state == Some("changed"));
    PairSound(PersistTot, PersistOk, state == Some("changed"));
  }

  lemma CountSound(c: Entry, hit: bool, got: Option<int>)
    ensures Sound(CountMarks(c, hit, got))
  {
    hide Capped, AddsUp, One, OneIf;
    NoneSound();
    var near := got.Some? && c.count.Some?
                && (got.value - c.count.value == 1 || c.count.value - got.value == 1);
    PairCapped(CountTot, CountExact, true);
    PairCapped(CountTot, CountNear, near);
    ExactIf();
    CountAddsUp(true, CountExact);
    CountAddsUp(near, CountNear);
  }

  lemma ExactIf()
    ensures forall k :: OneIf(true, k) == One(k)
  {}

  lemma CountAddsUp(b: bool, k: Key)
    requires k == CountExact || k == CountNear
    ensures AddsUp(One(CountTot) + OneIf(b, k))
  {}

  lemma TemporalSound(c: Entry, hit: bool)
    ensures Sound(TemporalMarks(c, hit))
  {
    hide Sound;
    NoneSound();
    PairSound(TemporalTot, TemporalHit, hit);
  }

  lemma EntrySound(c: Entry, kind: string, hit: bool, vote: Vote)
    ensures Sound(EntryMarks(c, kind, hit, vote))
  {
    hide Sound, RecallMarks, OpMarks, GapMarks, StateMarks, CountMarks, TemporalMarks;
    RecallSound(kind, hit);
    OpSound(c, kind, hit);
    GapSound(c, kind, hit);
    StateSound(c, hit, vote.state);
    CountSound(c, hit, vote.count);
    TemporalSound(c, hit);
    var a := RecallMarks(kind, hit);
    SoundAdds(a, OpMarks(c, kind, hit));
    a := a + OpMarks(c, kind, hit);
    SoundAdds(a, GapMarks(c, kind, hit));
    a := a + GapMarks(c, kind, hit);
    SoundAdds(a, StateMarks(c, hit, vote.state));
    a := a + StateMarks(c, hit, vote.state);
    SoundAdds(a, CountMarks(c, hit, vote.count));
    SoundAdds(a + CountMarks(c, hit, vote.count), TemporalMarks(c, hit));
  }

  lemma {:induction false} CastSound(b: Ballot, cast: seq<Entry>)
    requires b.Valid()
    ensures Sound(CastMarks(b, cast))
  {
    hide Sound, EntryMarks;
    NoneSound();
    if cast != [] {
      var c := cast[|cast| - 1];
      CastSound(b, cast[..|cast| - 1]);
      EntrySound(c, b.Kind(c.eid), c.eid in b.Seen(), VoteFor(b, c.eid));
      SoundAdds(CastMarks(b, cast[..|cast| - 1]),
                EntryMarks(c, b.Kind(c.eid), c.eid in b.Seen(), VoteFor(b, c.eid)));
    }
  }

  lemma AvoidSound(f: Forbidden, seen: bool)
    ensures Sound(AvoidMarks(f, seen))
  {
    hide Capped, AddsUp, One, OneIf;
    AvoidCapped(f, seen);
    if f.reason == "lookalike_absent" { AbsentAddsUp(seen); } else { GoneAddsUp(seen, f.indirect); }
  }

  lemma AvoidTotals()
    ensures TotalOf(AvoidViol) == Some(AvoidOpp) && TotalOf(AbsentViol) == Some(AbsentOpp)
    ensures TotalOf(DeprecatedViol) == Some(DeprecatedOpp) && TotalOf(IndirectViol) == Some(IndirectOpp)
    ensures TotalOf(AvoidOpp) == TotalOf(AbsentOpp) == TotalOf(DeprecatedOpp) == TotalOf(IndirectOpp) == None
  {}

  lemma AvoidPairsCapped(seen: bool)
    ensures Capped(One(AvoidOpp) + OneIf(seen, AvoidViol)) && Capped(One(AbsentOpp) + OneIf(seen, AbsentViol))
    ensures Capped(One(DeprecatedOpp) + OneIf(seen, DeprecatedViol))
    ensures Capped(One(IndirectOpp) + OneIf(seen, IndirectViol))
  {
    AvoidTotals();
    hide Capped, One, OneIf, TotalOf;
    PairCapped(AvoidOpp, AvoidViol, seen);
    PairCapped(AbsentOpp, AbsentViol, seen);
    PairCapped(DeprecatedOpp, DeprecatedViol, seen);
    PairCapped(IndirectOpp, IndirectViol, seen);
  }

  lemma AvoidCapped(f: Forbidden, seen: bool)
    ensures Capped(AvoidMarks(f, seen))
  {
    hide Capped, One, OneIf;
    NoneCapped(multiset{});
    AvoidPairsCapped(seen);
    var all, absent := One(AvoidOpp) + OneIf(seen, AvoidViol), One(AbsentOpp) + OneIf(seen, AbsentViol);
    var gone := One(DeprecatedOpp) + OneIf(seen, DeprecatedViol);
    var named := if f.indirect then One(IndirectOpp) + OneIf(seen, IndirectViol) else multiset{};
    CappedAdds(all, absent);
    CappedAdds(gone, named);
    CappedAdds(all, gone + named);
  }

  lemma AbsentAddsUp(seen: bool)
    ensures AddsUp(One(AvoidOpp) + OneIf(seen, AvoidViol) + (One(AbsentOpp) + OneIf(seen, AbsentViol)))
  {}

  lemma GoneAddsUp(seen: bool, indirect: bool)
    ensures AddsUp(One(AvoidOpp) + OneIf(seen, AvoidViol)
                   + (One(DeprecatedOpp) + OneIf(seen, DeprecatedViol)
                      + (if indirect then One(IndirectOpp) + OneIf(seen, IndirectViol) else multiset{})))
  {
    hide AddsUp;
    if seen { GoneSeen(indirect); } else { GoneUnseen(indirect); }
  }

  lemma GoneSeen(indirect: bool)
    ensures AddsUp(One(AvoidOpp) + One(AvoidViol)
                   + (One(DeprecatedOpp) + One(DeprecatedViol)
                      + (if indirect then One(IndirectOpp) + One(IndirectViol) else multiset{})))
  {}

  lemma GoneUnseen(indirect: bool)
    ensures AddsUp(One(AvoidOpp) + multiset{}
                   + (One(DeprecatedOpp) + multiset{}
                      + (if indirect then One(IndirectOpp) + multiset{} else multiset{})))
  {}

  lemma {:induction false} ForbiddenSound(b: Ballot, fs: seq<Forbidden>)
    requires b.Valid()
    ensures Sound(ForbiddenMarks(b, fs))
  {
    hide Sound, AvoidMarks;
    NoneSound();
    if fs != [] {
      var f := fs[|fs| - 1];
      ForbiddenSound(b, fs[..|fs| - 1]);
      AvoidSound(f, f.eid in b.Seen());
      SoundAdds(ForbiddenMarks(b, fs[..|fs| - 1]), AvoidMarks(f, f.eid in b.Seen()));
    }
  }

  lemma TwinSound(e: string, pair: seq<string>, seen: bool, instance: Option<string>)
    ensures Sound(TwinMarks(e, pair, seen, instance))
  {
    hide Capped, AddsUp, One, OneIf;
    NoneSound();
    PairCapped(TwinTot, TwinRight, true);
    PairCapped(TwinTot, TwinWrong, instance.Some? && instance.value in pair);
    ExactIf();
    TwinAddsUp(true, TwinRight);
    TwinAddsUp(instance.Some? && instance.value in pair, TwinWrong);
  }

  lemma TwinAddsUp(b: bool, k: Key)
    requires k == TwinRight || k == TwinWrong
    ensures AddsUp(One(TwinTot) + OneIf(b, k))
  {}

  lemma {:induction false} MembersSound(b: Ballot, pair: seq<string>, members: seq<string>)
    requires b.Valid()
    ensures Sound(MemberMarks(b, pair, members))
  {
    hide Sound, TwinMarks;
    NoneSound();
    if members != [] {
      var e := members[|members| - 1];
      MembersSound(b, pair, members[..|members| - 1]);
      TwinSound(e, pair, e in b.Seen(), VoteFor(b, e).instance);
      SoundAdds(MemberMarks(b, pair, members[..|members| - 1]),
                TwinMarks(e, pair, e in b.Seen(), VoteFor(b, e).instance));
    }
  }

  lemma FriendSound(seen: bool, targetPresent: bool, targetSeen: bool)
    ensures Sound(FriendMarks(seen, targetPresent, targetSeen))
  {
    hide Sound, One, OneIf;
    NoneSound();
    PairSound(FriendTot, FriendRight, seen);
    PairSound(ConfusionTot, Confused, targetSeen);
    SoundAdds(One(FriendTot) + OneIf(seen, FriendRight),
              if targetPresent then multiset{} else One(ConfusionTot) + OneIf(targetSeen, Confused));
  }

  lemma {:induction false} FriendsSound(b: Ballot, ffs: seq<Entry>)
    requires b.Valid()
    ensures Sound(FriendsMarks(b, ffs))
  {
    hide Sound, FriendMarks;
    NoneSound();
    if ffs != [] {
      var c := ffs[|ffs| - 1];
      var target := if c.confusableWith.Some? then c.confusableWith.value else "";
      FriendsSound(b, ffs[..|ffs| - 1]);
      FriendSound(c.eid in b.Seen(), target in b.prep.present, target in b.Seen());
      SoundAdds(FriendsMarks(b, ffs[..|ffs| - 1]),
                FriendMarks(c.eid in b.Seen(), target in b.prep.present, target in b.Seen()));
    }
  }

  lemma ManyCapped(tot: Key, hit: Key, n: nat, m: nat)
    requires TotalOf(hit) == Some(tot) && TotalOf(tot).None? && m <= n
    ensures Capped(Many(n, tot) + Many(m, hit))
  {
    hide TotalOf;
    var a := Many(n, tot) + Many(m, hit);
    forall k | TotalOf(k).Some? ensures a[k] <= a[TotalOf(k).value] {
      if k != hit { assert a[k] == 0; }
    }
  }

  lemma ManySound(tot: Key, hit: Key, n: nat, m: nat)
    requires TotalOf(hit) == Some(tot) && TotalOf(tot).None? && !Linked(tot) && !Linked(hit) && m <= n
    ensures Sound(Many(n, tot) + Many(m, hit))
  {
    hide TotalOf, Linked, AddsUp, Capped;
    var a := Many(n, tot) + Many(m, hit);
    ManyCapped(tot, hit, n, m);
    assert forall k :: k in a ==> k == tot || k == hit;
    FreeAddsUp(a);
  }

  lemma SetsSound(tot: Key, hit: Key, big: set<string>, small: set<string>)
    requires TotalOf(hit) == Some(tot) && TotalOf(tot).None? && !Linked(tot) && !Linked(hit) && small <= big
    ensures Sound(Many(|big|, tot) + Many(|small|, hit))
  {
    hide Sound, Many, TotalOf, Linked;
    SubsetCount(small, big);
    ManySound(tot, hit, |big|, |small|);
  }

  lemma PrecisionSound(b: Ballot)
    requires b.Valid()
    ensures Sound(PrecisionMarks(b))
  {
    hide Sound, SeenStory, Many;
    SetsSound(PrecTot, PrecHit, SeenStory(b), SeenStory(b) * b.prep.present);
  }

  lemma DecoysSound(b: Ballot)
    requires b.Valid()
    ensures Sound(DecoyMarks(b))
  {
    hide Sound, Many;
    var seen := b.Seen();
    SetsSound(DecoyTot, DecoySeen, b.prep.decoys, b.prep.decoys * seen);
    RosterSound(|b.prep.roster|);
    SoundAdds(Many(|b.prep.decoys|, DecoyTot) + Many(|b.prep.decoys * seen|, DecoySeen),
              Many(|b.prep.roster|, RosterTot));
  }

  lemma RosterSound(n: nat)
    ensures Sound(Many(n, RosterTot))
  {
    FreeAddsUp(Many(n, RosterTot));
  }

  /** Whatever the votes, a segment's counters stay within their totals and add up. */
  lemma {:induction false} TallyIsSound(b: Ballot)
    requires b.Valid()
    ensures Sound(TallyOf(b))
  {
    hide Sound, CastMarks, PrecisionMarks, ForbiddenMarks, MemberMarks, FriendsMarks, DecoyMarks;
    NoneSound();
    CastSound(b, b.prep.cast);
    PrecisionSound(b);
    DecoysSound(b);
    ForbiddenSound(b, b.prep.forbiddenEntries);
    FriendsSound(b, b.prep.ffs);
    var twins := if b.prep.twins.Some? then MemberMarks(b, b.prep.twins.value.pair, b.prep.twins.value.members)
                 else multiset{};
    if b.prep.twins.Some? { MembersSound(b, b.prep.twins.value.pair, b.prep.twins.value.members); }
    var a := CastMarks(b, b.prep.cast);
    SoundAdds(a, PrecisionMarks(b));
    a := a + PrecisionMarks(b);
    SoundAdds(a, ForbiddenMarks(b, b.prep.forbiddenEntries));
    a := a + ForbiddenMarks(b, b.prep.forbiddenEntries);
    SoundAdds(a, twins);
    SoundAdds(a + twins, FriendsMarks(b, b.prep.ffs));
    SoundAdds(a + twins + FriendsMarks(b, b.prep.ffs), DecoyMarks(b));
  }
}
