/** What each capability counter of a segment counts, one counter at a time. */
module Counters {
  import opened Basics
  import opened Timeline
  import opened Scorer
  import opened Tallies

  function Bit(b: bool): nat { if b then 1 else 0 }

  predicate Recalled(kind: string) { kind in {"character", "prop"} }

  predicate Reappears(c: Entry, kind: string) { Recalled(kind) && c.gap.Some? }

  /** A state to judge: flashbacks carry a past look and are not judged. */
  predicate Judged(c: Entry) { c.state.Some? && !c.state.value.flashback }

  predicate Temporal(c: Entry) { c.anchor.Some? && c.anchor.value.kind == "temporal" }

  predicate OffByOne(got: Option<int>, count: Option<int>) {
    got.Some? && count.Some? && (got.value - count.value == 1 || count.value - got.value == 1)
  }

  /** Whether a cast entry counts towards a counter. */
  predicate EntryCounts(c: Entry, kind: string, hit: bool, vote: Vote, k: Key) {
    match k
    case RecallTot(x) => x == kind
    case RecallHit(x) => x == kind && hit
    case FirstTot => Recalled(kind) && c.op.Introduce?
    case FirstHit => Recalled(kind) && c.op.Introduce? && hit
    case ContinuityTot => Recalled(kind) && c.op.Recall? && (c.gap.Some? ==> c.gap.value < 30)
    case ContinuityHit => Recalled(kind) && c.op.Recall? && (c.gap.Some? ==> c.gap.value < 30) && hit
    case LongTot => Reappears(c, kind) && c.gap.value >= 30
    case LongHit => Reappears(c, kind) && c.gap.value >= 30 && hit
    case GapTot(bucket) => Reappears(c, kind) && bucket == GapBucket(c.gap.value)
    case GapHit(bucket) => Reappears(c, kind) && bucket == GapBucket(c.gap.value) && hit
    case ChangeTot => Judged(c) && c.op.Transform? && hit
    case ChangeOk => Judged(c) && c.op.Transform? && hit && vote.state == Some("changed")
    case ChangeMissed => Judged(c) && c.op.Transform? && !hit
    case PersistTot => Judged(c) && !c.op.Transform? && hit
    case PersistOk => Judged(c) && !c.op.Transform? && hit && vote.state == Some("changed")
    case PersistMissed => Judged(c) && !c.op.Transform? && !hit
    case CountTot => c.count.Some? && hit
    case CountExact => c.count.Some? && hit && vote.count == c.count
    case CountNear => hit && OffByOne(vote.count, c.count)
    case TemporalTot => Temporal(c)
    case TemporalHit => Temporal(c) && hit
    case _ => false
  }

  predicate ForbiddenCounts(f: Forbidden, seen: bool, k: Key) {
    match k
    case AvoidOpp => true
    case AvoidViol => seen
    case AbsentOpp => f.reason == "lookalike_absent"
    case AbsentViol => f.reason == "lookalike_absent" && seen
    case DeprecatedOpp => f.reason != "lookalike_absent"
    case DeprecatedViol => f.reason != "lookalike_absent" && seen
    case IndirectOpp => f.reason != "lookalike_absent" && f.indirect
    case IndirectViol => f.reason != "lookalike_absent" && f.indirect && seen
    case _ => false
  }

  predicate MemberCounts(e: string, pair: seq<string>, seen: bool, instance: Option<string>, k: Key) {
    match k
    case TwinTot => seen
    case TwinRight => seen && instance == Some(e)
    case TwinWrong => seen && instance.Some? && instance.value != e && instance.value in pair
    case _ => false
  }

  predicate FriendCounts(seen: bool, targetPresent: bool, targetSeen: bool, k: Key) {
    match k
    case FriendTot => true
    case FriendRight => seen
    case ConfusionTot => !targetPresent
    case Confused => !targetPresent && targetSeen
    case _ => false
  }

  // ----- one entry -----

  lemma RecallCounts(c: Entry, kind: string, hit: bool, vote: Vote, k: Key)
    ensures RecallMarks(kind, hit)[k] == Bit((k.RecallTot? || k.RecallHit?) && EntryCounts(c, kind, hit, vote, k))
  {}

  lemma PairCount(tot: Key, hit: Key, b: bool, k: Key)
    ensures (One(tot) + OneIf(b, hit))[k] == Bit(k == tot) + Bit(b && k == hit)
    ensures One(tot)[k] == Bit(k == tot)
  {}

  lemma OpCounts(c: Entry, kind: string, hit: bool, vote: Vote, k: Key)
    ensures OpMarks(c, kind, hit)[k]
            == Bit((k.FirstTot? || k.FirstHit? || k.ContinuityTot? || k.ContinuityHit?) && EntryCounts(c, kind, hit, vote, k))
  {
    hide GapBucket, One, OneIf;
    PairCount(FirstTot, FirstHit, hit, k);
    PairCount(ContinuityTot, ContinuityHit, hit, k);
  }

  lemma GapCounts(c: Entry, kind: string, hit: bool, vote: Vote, k: Key)
    ensures GapMarks(c, kind, hit)[k]
            == Bit((k.LongTot? || k.LongHit? || k.GapTot? || k.GapHit?) && EntryCounts(c, kind, hit, vote, k))
  {
    hide GapBucket, One, OneIf;
    PairCount(LongTot, LongHit, hit, k);
    if c.gap.Some? { PairCount(GapTot(GapBucket(c.gap.value)), GapHit(GapBucket(c.gap.value)), hit, k); }
  }

  lemma StateCounts(c: Entry, kind: string, hit: bool, vote: Vote, k: Key)
    ensures StateMarks(c, hit, vote.state)[k]
            == Bit((k.ChangeTot? || k.ChangeOk? || k.ChangeMissed? || k.PersistTot? || k.PersistOk? || k.PersistMissed?)
                   && EntryCounts(c, kind, hit, vote, k))
  {
    hide GapBucket, One, OneIf;
    var changed := vote.state == Some("changed");
    PairCount(ChangeTot, ChangeOk, changed, k);
    PairCount(ChangeMissed, ChangeOk, changed, k);
    PairCount(PersistTot, PersistOk, changed, k);
    PairCount(PersistMissed, PersistOk, changed, k);
  }

  lemma QuantityCounts(c: Entry, kind: string, hit: bool, vote: Vote, k: Key)
    ensures CountMarks(c, hit, vote.count)[k]
            == Bit((k.CountTot? || k.CountExact? || k.CountNear?) && EntryCounts(c, kind, hit, vote, k))
  {
    hide GapBucket;
  }

  lemma TemporalCounts(c: Entry, kind: string, hit: bool, vote: Vote, k: Key)
    ensures TemporalMarks(c, hit)[k] == Bit((k.TemporalTot? || k.TemporalHit?) && EntryCounts(c, kind, hit, vote, k))
  {
    hide GapBucket;
  }

  lemma EntryMarksCount(c: Entry, kind: string, hit: bool, vote: Vote, k: Key)
    ensures EntryMarks(c, kind, hit, vote)[k] == Bit(EntryCounts(c, kind, hit, vote, k))
  {
    RecallCounts(c, kind, hit, vote, k);
    OpCounts(c, kind, hit, vote, k);
    GapCounts(c, kind, hit, vote, k);
    StateCounts(c, kind, hit, vote, k);
    QuantityCounts(c, kind, hit, vote, k);
    TemporalCounts(c, kind, hit, vote, k);
    hide RecallMarks, OpMarks, GapMarks, StateMarks, CountMarks, TemporalMarks;
  }

  lemma AvoidMarksCount(f: Forbidden, seen: bool, k: Key)
    ensures AvoidMarks(f, seen)[k] == Bit(ForbiddenCounts(f, seen, k))
  {
    hide One, OneIf;
    PairCount(AvoidOpp, AvoidViol, seen, k);
    if f.reason == "lookalike_absent" {
      PairCount(AbsentOpp, AbsentViol, seen, k);
    } else {
      PairCount(DeprecatedOpp, DeprecatedViol, seen, k);
      PairCount(IndirectOpp, IndirectViol, seen, k);
    }
  }

  lemma TwinMarksCount(e: string, pair: seq<string>, seen: bool, instance: Option<string>, k: Key)
    ensures TwinMarks(e, pair, seen, instance)[k] == Bit(MemberCounts(e, pair, seen, instance, k))
  {}

  lemma FriendMarksCount(seen: bool, targetPresent: bool, targetSeen: bool, k: Key)
    ensures FriendMarks(seen, targetPresent, targetSeen)[k] == Bit(FriendCounts(seen, targetPresent, targetSeen, k))
  {}

  // ----- the segment -----

  predicate CastCounts(b: Ballot, c: Entry, k: Key)
    requires b.Valid()
  {
    EntryCounts(c, b.Kind(c.eid), c.eid in b.Seen(), VoteFor(b, c.eid), k)
  }

  predicate FriendEntryCounts(b: Ballot, c: Entry, k: Key)
    requires b.Valid()
  {
    var target := if c.confusableWith.Some? then c.confusableWith.value else "";
    FriendCounts(c.eid in b.Seen(), target in b.prep.present, target in b.Seen(), k)
  }

  predicate ForbiddenEntryCounts(b: Ballot, f: Forbidden, k: Key)
    requires b.Valid()
  {
    ForbiddenCounts(f, f.eid in b.Seen(), k)
  }

  predicate MemberEntryCounts(b: Ballot, pair: seq<string>, e: string, k: Key)
    requires b.Valid()
  {
    MemberCounts(e, pair, e in b.Seen(), VoteFor(b, e).instance, k)
  }

  function CastPlaces(b: Ballot, cast: seq<Entry>, k: Key): set<nat>
    requires b.Valid()
  {
    set i: nat | i < |cast| && CastCounts(b, cast[i], k)
  }

  function ForbiddenPlaces(b: Ballot, fs: seq<Forbidden>, k: Key): set<nat>
    requires b.Valid()
  {
    set i: nat | i < |fs| && ForbiddenEntryCounts(b, fs[i], k)
  }

  function MemberPlaces(b: Ballot, pair: seq<string>, members: seq<string>, k: Key): set<nat>
    requires b.Valid()
  {
    set i: nat | i < |members| && MemberEntryCounts(b, pair, members[i], k)
  }

  function FriendPlaces(b: Ballot, ffs: seq<Entry>, k: Key): set<nat>
    requires b.Valid()
  {
    set i: nat | i < |ffs| && FriendEntryCounts(b, ffs[i], k)
  }

  /** Adding a last place to a set of places. */
  lemma OnePlaceMore(before: set<nat>, all: set<nat>, n: nat, counts: bool)
    requires forall i :: i in before ==> i < n
    requires forall i: nat :: i in all <==> i in before || (counts && i == n)
    ensures |all| == |before| + Bit(counts)
  {
    assert all == before + (if counts then {n} else {});
  }

  lemma CastPlacesStep(b: Ballot, cast: seq<Entry>, c: Entry, k: Key)
    requires b.Valid()
    ensures |CastPlaces(b, cast + [c], k)| == |CastPlaces(b, cast, k)| + Bit(CastCounts(b, c, k))
  {
    hide CastCounts;
    var n, longer := |cast|, cast + [c];
    assert longer[n] == c;
    forall i: nat | i < n ensures longer[i] == cast[i] {}
    OnePlaceMore(CastPlaces(b, cast, k), CastPlaces(b, longer, k), n, CastCounts(b, c, k));
  }

  lemma {:induction false} CastMarksCount(b: Ballot, cast: seq<Entry>, k: Key)
    requires b.Valid()
    ensures CastMarks(b, cast)[k] == |CastPlaces(b, cast, k)|
  {
    hide EntryMarks, CastCounts, VoteFor;
    if cast == [] {
      assert CastPlaces(b, cast, k) == {};
    } else {
      var n, c := |cast| - 1, cast[|cast| - 1];
      CastMarksCount(b, cast[..n], k);
      OneEntryMore(b, c, k);
      assert cast == cast[..n] + [c];
      CastPlacesStep(b, cast[..n], c, k);
      hide CastPlaces, CastCounts;
    }
  }

  lemma OneEntryMore(b: Ballot, c: Entry, k: Key)
    requires b.Valid()
    ensures EntryMarks(c, b.Kind(c.eid), c.eid in b.Seen(), VoteFor(b, c.eid))[k] == Bit(CastCounts(b, c, k))
  {
    hide EntryMarks, EntryCounts;
    EntryMarksCount(c, b.Kind(c.eid), c.eid in b.Seen(), VoteFor(b, c.eid), k);
  }

  lemma ForbiddenPlacesStep(b: Ballot, fs: seq<Forbidden>, f: Forbidden, k: Key)
    requires b.Valid()
    ensures |ForbiddenPlaces(b, fs + [f], k)| == |ForbiddenPlaces(b, fs, k)| + Bit(ForbiddenEntryCounts(b, f, k))
  {
    hide ForbiddenEntryCounts;
    var n, longer := |fs|, fs + [f];
    assert longer[n] == f;
    forall i: nat | i < n ensures longer[i] == fs[i] {}
    OnePlaceMore(ForbiddenPlaces(b, fs, k), ForbiddenPlaces(b, longer, k), n, ForbiddenEntryCounts(b, f, k));
  }

  lemma {:induction false} ForbiddenMarksCount(b: Ballot, fs: seq<Forbidden>, k: Key)
    requires b.Valid()
    ensures ForbiddenMarks(b, fs)[k] == |ForbiddenPlaces(b, fs, k)|
  {
    hide AvoidMarks, ForbiddenEntryCounts;
    if fs == [] {
      assert ForbiddenPlaces(b, fs, k) == {};
    } else {
      var n, f := |fs| - 1, fs[|fs| - 1];
      ForbiddenMarksCount(b, fs[..n], k);
      OneForbiddenMore(b, f, k);
      assert fs == fs[..n] + [f];
      ForbiddenPlacesStep(b, fs[..n], f, k);
      hide ForbiddenPlaces, ForbiddenEntryCounts;
    }
  }

  lemma OneForbiddenMore(b: Ballot, f: Forbidden, k: Key)
    requires b.Valid()
    ensures AvoidMarks(f, f.eid in b.Seen())[k] == Bit(ForbiddenEntryCounts(b, f, k))
  {
    hide AvoidMarks, ForbiddenCounts;
    AvoidMarksCount(f, f.eid in b.Seen(), k);
  }

  lemma MemberPlacesStep(b: Ballot, pair: seq<string>, members: seq<string>, e: string, k: Key)
    requires b.Valid()
    ensures |MemberPlaces(b, pair, members + [e], k)| == |MemberPlaces(b, pair, members, k)| + Bit(MemberEntryCounts(b, pair, e, k))
  {
    hide MemberEntryCounts;
    var n, longer := |members|, members + [e];
    assert longer[n] == e;
    forall i: nat | i < n ensures longer[i] == members[i] {}
    OnePlaceMore(MemberPlaces(b, pair, members, k), MemberPlaces(b, pair, longer, k), n, MemberEntryCounts(b, pair, e, k));
  }

  lemma {:induction false} MemberMarksCount(b: Ballot, pair: seq<string>, members: seq<string>, k: Key)
    requires b.Valid()
    ensures MemberMarks(b, pair, members)[k] == |MemberPlaces(b, pair, members, k)|
  {
    hide TwinMarks, MemberEntryCounts, VoteFor;
    if members == [] {
      assert MemberPlaces(b, pair, members, k) == {};
    } else {
      var n, e := |members| - 1, members[|members| - 1];
      MemberMarksCount(b, pair, members[..n], k);
      OneMemberMore(b, pair, e, k);
      assert members == members[..n] + [e];
      MemberPlacesStep(b, pair, members[..n], e, k);
      hide MemberPlaces, MemberEntryCounts;
    }
  }

  lemma OneMemberMore(b: Ballot, pair: seq<string>, e: string, k: Key)
    requires b.Valid()
    ensures TwinMarks(e, pair, e in b.Seen(), VoteFor(b, e).instance)[k] == Bit(MemberEntryCounts(b, pair, e, k))
  {
    hide TwinMarks, MemberCounts, VoteFor;
    TwinMarksCount(e, pair, e in b.Seen(), VoteFor(b, e).instance, k);
  }

  lemma FriendPlacesStep(b: Ballot, ffs: seq<Entry>, c: Entry, k: Key)
    requires b.Valid()
    ensures |FriendPlaces(b, ffs + [c], k)| == |FriendPlaces(b, ffs, k)| + Bit(FriendEntryCounts(b, c, k))
  {
    hide FriendEntryCounts;
    var n, longer := |ffs|, ffs + [c];
    assert longer[n] == c;
    forall i: nat | i < n ensures longer[i] == ffs[i] {}
    OnePlaceMore(FriendPlaces(b, ffs, k), FriendPlaces(b, longer, k), n, FriendEntryCounts(b, c, k));
  }

  lemma {:induction false} FriendsMarksCount(b: Ballot, ffs: seq<Entry>, k: Key)
    requires b.Valid()
    ensures FriendsMarks(b, ffs)[k] == |FriendPlaces(b, ffs, k)|
  {
    hide FriendMarks, FriendEntryCounts;
    if ffs == [] {
      assert FriendPlaces(b, ffs, k) == {};
    } else {
      var n, c := |ffs| - 1, ffs[|ffs| - 1];
      FriendsMarksCount(b, ffs[..n], k);
      OneFriendMore(b, c, k);
      assert ffs == ffs[..n] + [c];
      FriendPlacesStep(b, ffs[..n], c, k);
      hide FriendPlaces, FriendEntryCounts;
    }
  }

  lemma OneFriendMore(b: Ballot, c: Entry, k: Key)
    requires b.Valid()
    ensures var target := if c.confusableWith.Some? then c.confusableWith.value else "";
            FriendMarks(c.eid in b.Seen(), target in b.prep.present, target in b.Seen())[k]
            == Bit(FriendEntryCounts(b, c, k))
  {
    hide FriendMarks, FriendCounts;
    var target := if c.confusableWith.Some? then c.confusableWith.value else "";
    FriendMarksCount(c.eid in b.Seen(), target in b.prep.present, target in b.Seen(), k);
  }

  /** The counters of entity sets. */
  function SetCount(b: Ballot, k: Key): nat
    requires b.Valid()
  {
    if k.PrecTot? then |SeenStory(b)|
    else if k.PrecHit? then |SeenStory(b) * b.prep.present|
    else if k.DecoyTot? then |b.prep.decoys|
    else if k.DecoySeen? then |b.prep.decoys * b.Seen()|
    else if k.RosterTot? then |b.prep.roster|
    else 0
  }

  lemma SetMarksCount(b: Ballot, k: Key)
    requires b.Valid()
    ensures PrecisionMarks(b)[k] + DecoyMarks(b)[k] == SetCount(b, k)
  {
    PrecisionCount(b, k);
    DecoyCount(b, k);
    hide PrecisionMarks, DecoyMarks, SeenStory;
  }

  /** What precision is over: the entities of the roster that are seen and no locations, decoys aside; a hit is one that
      is present. */
  lemma {:induction false} PrecisionMeans(b: Ballot)
    requires b.Valid()
    ensures var seen := set e | e in b.prep.roster && b.voted[e].present.Seen?
                                && (e in b.prep.present || e in b.prep.forbidden || e in b.prep.ffTargets)
                                && !(e in b.ents && b.ents[e].kind == "location");
            && SetCount(b, PrecTot) == |seen| && SetCount(b, PrecHit) == |seen * b.prep.present|
            && SetCount(b, DecoyTot) == |b.prep.decoys| && SetCount(b, RosterTot) == |b.prep.roster|
            && SetCount(b, DecoySeen) == |set e | e in b.prep.decoys && e in b.prep.roster && b.voted[e].present.Seen?|
  {
    SeenStoryIs(b);
    hide SeenStory;
    SetCountsAre(b);
    hide SetCount;
    assert b.prep.decoys * b.Seen() == set e | e in b.prep.decoys && e in b.prep.roster && b.voted[e].present.Seen?;
  }

  lemma SetCountsAre(b: Ballot)
    requires b.Valid()
    ensures SetCount(b, PrecTot) == |SeenStory(b)| && SetCount(b, PrecHit) == |SeenStory(b) * b.prep.present|
    ensures SetCount(b, DecoyTot) == |b.prep.decoys| && SetCount(b, DecoySeen) == |b.prep.decoys * b.Seen()|
    ensures SetCount(b, RosterTot) == |b.prep.roster|
  {
    hide SeenStory;
  }

  lemma SeenStoryIs(b: Ballot)
    requires b.Valid()
    ensures SeenStory(b) == set e | e in b.prep.roster && b.voted[e].present.Seen?
                                    && (e in b.prep.present || e in b.prep.forbidden || e in b.prep.ffTargets)
                                    && !(e in b.ents && b.ents[e].kind == "location")
  {
    NotALocation();
    var seen := set e | e in b.prep.roster && b.voted[e].present.Seen?
                        && (e in b.prep.present || e in b.prep.forbidden || e in b.prep.ffTargets)
                        && !(e in b.ents && b.ents[e].kind == "location");
    forall e ensures e in SeenStory(b) <==> e in seen {}
  }

  lemma NotALocation()
    ensures "prop" != "location"
  {
    assert "prop"[0] != "location"[0];
  }

  /** The bins of the gap-decay curve. */
  lemma BucketsAre(gap: int)
    ensures GapBucket(gap) == "0" <==> gap <= 0
    ensures GapBucket(gap) == "1-4" <==> 1 <= gap <= 4
    ensures GapBucket(gap) == "5-29" <==> 5 <= gap <= 29
    ensures GapBucket(gap) == ">=30" <==> gap >= 30
  {
    assert |"0"| == 1 && |"1-4"| == 3 && |"5-29"| == 4 && |">=30"| == 4 && "5-29"[0] != ">=30"[0];
  }

  lemma PrecisionCount(b: Ballot, k: Key)
    requires b.Valid()
    ensures PrecisionMarks(b)[k] == match k
                                    case PrecTot => |SeenStory(b)|
                                    case PrecHit => |SeenStory(b) * b.prep.present|
                                    case _ => 0
  {
    hide SeenStory, Many;
    ManyCount(|SeenStory(b)|, PrecTot, k);
    ManyCount(|SeenStory(b) * b.prep.present|, PrecHit, k);
  }

  lemma DecoyCount(b: Ballot, k: Key)
    requires b.Valid()
    ensures DecoyMarks(b)[k] == match k
                                case DecoyTot => |b.prep.decoys|
                                case DecoySeen => |b.prep.decoys * b.Seen()|
                                case RosterTot => |b.prep.roster|
                                case _ => 0
  {
    hide Many;
    ManyCount(|b.prep.decoys|, DecoyTot, k);
    ManyCount(|b.prep.decoys * b.Seen()|, DecoySeen, k);
    ManyCount(|b.prep.roster|, RosterTot, k);
  }

  lemma ManyCount(n: nat, key: Key, k: Key)
    ensures Many(n, key)[k] == if k == key then n else 0
  {}

  /** Every counter of a segment is the number of cast entries, forbidden entries, look-alike members and false
      friends that count towards it, or the size of its entity set. */
  lemma {:induction false} TallyCounts(b: Ballot, k: Key)
    requires b.Valid()
    ensures TallyOf(b)[k]
            == |CastPlaces(b, b.prep.cast, k)| + |ForbiddenPlaces(b, b.prep.forbiddenEntries, k)|
               + (if b.prep.twins.Some?
                  then |MemberPlaces(b, b.prep.twins.value.pair, b.prep.twins.value.members, k)| else 0)
               + |FriendPlaces(b, b.prep.ffs, k)| + SetCount(b, k)
  {
    hide CastMarks, ForbiddenMarks, MemberMarks, FriendsMarks, PrecisionMarks, DecoyMarks;
    hide CastPlaces, ForbiddenPlaces, MemberPlaces, FriendPlaces, SetCount;
    CastMarksCount(b, b.prep.cast, k);
    ForbiddenMarksCount(b, b.prep.forbiddenEntries, k);
    if b.prep.twins.Some? { MemberMarksCount(b, b.prep.twins.value.pair, b.prep.twins.value.members, k); }
    FriendsMarksCount(b, b.prep.ffs, k);
    SetMarksCount(b, k);
  }
}
