/** The end-to-end scorer's first half: a blinded roster for each segment, and majority votes on its entities. */
module Scorer {
  import opened Basics
  import opened Timeline

  // ----- segment prep -----

  const DECOY_MIN: nat := 3
  const DECOY_MAX: nat := 5

  function EidsOf(cast: seq<Entry>): set<string> { set c | c in cast :: c.eid }

  /** `cast_by_eid`: of several entries with one eid the last stays. */
  function ByEid(cast: seq<Entry>): (r: seq<Entry>)
    ensures forall c :: c in r ==> c in cast
  {
    if cast == [] then []
    else (if cast[0].eid in EidsOf(cast[1..]) then [] else [cast[0]]) + ByEid(cast[1..])
  }

  lemma EidsPrepend(c: Entry, rest: seq<Entry>)
    ensures EidsOf([c] + rest) == {c.eid} + EidsOf(rest)
  {
    assert forall x :: x in [c] + rest <==> x == c || x in rest;
  }

  predicate DistinctEids(cast: seq<Entry>) {
    forall i, j :: 0 <= i < j < |cast| ==> cast[i].eid != cast[j].eid
  }

  lemma {:induction false} ByEidKeepsDistinct(cast: seq<Entry>)
    ensures EidsOf(ByEid(cast)) == EidsOf(cast)
    ensures DistinctEids(cast) ==> ByEid(cast) == cast
  {
    if cast != [] {
      hide ByEid, EidsOf, DistinctEids;
      ByEidKeepsDistinct(cast[1..]);
      assert cast == [cast[0]] + cast[1..];
      ByEidOneMore(cast[0], cast[1..]);
    }
  }

  lemma ByEidOneMore(c: Entry, rest: seq<Entry>)
    requires EidsOf(ByEid(rest)) == EidsOf(rest) && (DistinctEids(rest) ==> ByEid(rest) == rest)
    ensures EidsOf(ByEid([c] + rest)) == EidsOf([c] + rest)
    ensures DistinctEids([c] + rest) ==> ByEid([c] + rest) == [c] + rest
  {
    hide ByEid, EidsOf, DistinctEids;
    ByEidHead(c, rest);
    if DistinctEids([c] + rest) { DistinctRest(c, rest); }
    EidsPrepend(c, rest);
    EidsPrepend(c, ByEid(rest));
    assert [] + ByEid(rest) == ByEid(rest);
  }

  lemma ByEidHead(c: Entry, rest: seq<Entry>)
    ensures ByEid([c] + rest) == (if c.eid in EidsOf(rest) then [] else [c]) + ByEid(rest)
  {
    assert ([c] + rest)[1..] == rest;
  }

  lemma DistinctRest(c: Entry, rest: seq<Entry>)
    requires DistinctEids([c] + rest)
    ensures c.eid !in EidsOf(rest) && DistinctEids(rest)
  {
    var all := [c] + rest;
    forall i | 0 <= i < |rest| ensures rest[i].eid != c.eid && rest[i] == all[i + 1] {
      assert rest[i] == all[i + 1] && all[0].eid != all[i + 1].eid;
    }
  }

  /** The dict keeps, for each entity, its last entry and no other. */
  lemma {:induction false} ByEidKeepsLast(cast: seq<Entry>, c: Entry)
    ensures c in ByEid(cast) <==> IsLast(cast, c)
  {
    hide ByEid, EidsOf, IsLast;
    if cast == [] {
      NobodyIsLast(cast, c);
    } else {
      ByEidKeepsLast(cast[1..], c);
      assert cast == [cast[0]] + cast[1..];
      ByEidHead(cast[0], cast[1..]);
      EidsAre(cast[1..], cast[0].eid);
      LastOneMore(cast[0], cast[1..], c);
    }
  }

  ghost predicate IsLast(cast: seq<Entry>, c: Entry) {
    exists i :: 0 <= i < |cast| && cast[i] == c && forall k :: i < k < |cast| ==> cast[k].eid != c.eid
  }

  lemma NobodyIsLast(cast: seq<Entry>, c: Entry)
    requires cast == []
    ensures c !in ByEid(cast) && !IsLast(cast, c)
  {}

  lemma LastOneMore(d: Entry, rest: seq<Entry>, c: Entry)
    ensures IsLast([d] + rest, c)
            <==> IsLast(rest, c) || (c == d && forall k :: 0 <= k < |rest| ==> rest[k].eid != c.eid)
  {
    var cast := [d] + rest;
    assert forall k :: 0 <= k < |rest| ==> cast[k + 1] == rest[k];
    if i :| 0 <= i < |rest| && rest[i] == c && forall k :: i < k < |rest| ==> rest[k].eid != c.eid {
      assert cast[i + 1] == c && forall k :: i + 1 < k < |cast| ==> cast[k] == rest[k - 1];
    }
    if c == d && forall k :: 0 <= k < |rest| ==> rest[k].eid != c.eid {
      assert cast[0] == c && forall k :: 0 < k < |cast| ==> cast[k] == rest[k - 1];
    }
  }

  lemma EidsAre(cast: seq<Entry>, e: string)
    ensures e in EidsOf(cast) <==> exists k :: 0 <= k < |cast| && cast[k].eid == e
  {}

  function ForbiddenEids(fs: seq<Forbidden>): set<string> { set f | f in fs :: f.eid }

  /** New look-alikes: introduced entities with a confusable twin. */
  predicate IsFalseFriend(c: Entry) {
    c.confusableWith.Some? && c.confusableWith.value != "" && c.op.Introduce?
  }

  function FalseFriends(cast: seq<Entry>): (r: seq<Entry>)
    ensures forall c :: c in r <==> c in cast && IsFalseFriend(c)
  {
    if cast == [] then []
    else FalseFriends(cast[..|cast| - 1])
         + (if IsFalseFriend(cast[|cast| - 1]) then [cast[|cast| - 1]] else [])
  }

  /** The false friends are the introduced entries that name somebody they may be confused with. */
  lemma FriendsAre(cast: seq<Entry>, c: Entry)
    ensures c in FalseFriends(cast) <==>
            c in cast && c.op == Introduce && exists other :: c.confusableWith == Some(other) && |other| > 0
  {}

  function TargetsOf(ffs: seq<Entry>): set<string>
    requires forall c :: c in ffs ==> IsFalseFriend(c)
  {
    set c | c in ffs && c.confusableWith.Some? :: c.confusableWith.value
  }

  datatype Prep = Prep(cast: seq<Entry>, present: set<string>, forbiddenEntries: seq<Forbidden>,
                       forbidden: set<string>, ffs: seq<Entry>, ffTargets: set<string>,
                       decoys: set<string>, roster: set<string>, twins: Option<Twins>)

  /** What a seeded sample of at most `k` can be: as many candidates as there are, up to `k`. */
  predicate IsSample(sample: set<string>, candidates: set<string>, k: nat) {
    sample <= candidates && |sample| == if |candidates| < k then |candidates| else k
  }

  function Candidates(seg: GoldSegment, ents: map<string, Entity>): set<string> {
    ents.Keys - EidsOf(seg.cast) - ForbiddenEids(seg.forbidden)
    - (TargetsOf(FalseFriends(seg.cast)) - EidsOf(seg.cast))
  }

  /** Who can be a decoy: a registered entity that is not in the cast, not forbidden, and not what a new look-alike may
      be confused with. */
  lemma DecoysAre(seg: GoldSegment, ents: map<string, Entity>, e: string)
    ensures e in Candidates(seg, ents) <==>
            && e in ents
            && (forall c :: c in seg.cast ==> c.eid != e)
            && (forall f :: f in seg.forbidden ==> f.eid != e)
            && (forall c :: c in seg.cast && IsFalseFriend(c) ==> c.confusableWith != Some(e))
  {
    if e in TargetsOf(FalseFriends(seg.cast)) {
      var c :| c in FalseFriends(seg.cast) && c.confusableWith == Some(e);
    }
    if c :| c in seg.cast && c.eid == e { assert e in EidsOf(seg.cast); }
    if f :| f in seg.forbidden && f.eid == e { assert e in ForbiddenEids(seg.forbidden); }
    if c :| c in seg.cast && IsFalseFriend(c) && c.confusableWith == Some(e) { assert c in FalseFriends(seg.cast); }
  }

  /** `_prep_segment`; `sample` is the seeded decoy draw, `first` the first candidates in sorted order. */
  method PrepSegment(seg: GoldSegment, ents: map<string, Entity>, sample: set<string>, first: set<string>)
    returns (p: Prep)
    requires IsSample(sample, Candidates(seg, ents), DECOY_MAX)
    ensures p == PrepOf(seg, sample)
  {
    var cast := ByEid(seg.cast);
    ByEidKeepsDistinct(seg.cast);
    var present := EidsOf(cast);
    var forbidden := ForbiddenEids(seg.forbidden);
    var ffs := FalseFriends(seg.cast);
    var ffTargets := TargetsOf(ffs) - present;
    var candidates := ents.Keys - present - forbidden - ffTargets;
    var decoys := sample;
    if |decoys| < (if DECOY_MIN < |candidates| then DECOY_MIN else |candidates|) {
      assert false;
      decoys := decoys + first;
    }
    p := Prep(cast, present, seg.forbidden, forbidden, ffs, ffTargets, decoys,
              present + forbidden + ffTargets + decoys, seg.twins);
  }

  /** The prep of a segment: the decoys are the sample, as the top-up never runs. */
  function PrepOf(seg: GoldSegment, sample: set<string>): Prep {
    var present := EidsOf(seg.cast);
    var forbidden := ForbiddenEids(seg.forbidden);
    var ffTargets := TargetsOf(FalseFriends(seg.cast)) - present;
    Prep(ByEid(seg.cast), present, seg.forbidden, forbidden, FalseFriends(seg.cast), ffTargets, sample,
         present + forbidden + ffTargets + sample, seg.twins)
  }

  // ----- votes -----

  datatype Presence = Seen | Unseen | Abstain

  datatype Vote = Vote(present: Presence, state: Option<string>, count: Option<int>, instance: Option<string>)

  /** `i` is the place of the first value that no other one outnumbers. */
  predicate LeadsAt<T(==)>(s: seq<T>, i: nat, k: nat)
    requires i < k <= |s|
  {
    && (forall j :: 0 <= j < k ==> multiset(s)[s[j]] <= multiset(s)[s[i]])
    && (forall j :: 0 <= j < i ==> multiset(s)[s[j]] < multiset(s)[s[i]])
  }

  /** `Counter(s).most_common(1)`: of the values that no other one outnumbers, the one seen first. */
  function MostCommon<T(==)>(s: seq<T>): (r: T)
    requires s != []
    ensures r in s && forall x :: x in s ==> multiset(s)[x] <= multiset(s)[r]
    ensures exists i: nat :: i < |s| && LeadsAt(s, i, |s|) && s[i] == r
  {
    Leading(s, |s|)
  }

  function Leading<T(==)>(s: seq<T>, k: nat): (r: T)
    requires 0 < k <= |s|
    ensures exists i: nat :: i < k && LeadsAt(s, i, k) && s[i] == r
  {
    if k == 1 then
      assert LeadsAt(s, 0, 1);
      s[0]
    else
      var r := Leading(s, k - 1);
      if multiset(s)[s[k - 1]] > multiset(s)[r] then
        assert LeadsAt(s, k - 1, k);
        s[k - 1]
      else
        assert forall i: nat :: i < k - 1 && LeadsAt(s, i, k - 1) && s[i] == r ==> LeadsAt(s, i, k);
        r
  }

  /** One judge call's answer for one entity; an entity it leaves out counts as an abstention. */
  type Call = map<string, Vote>

  function Presences(calls: seq<Call>, e: string): (r: seq<Presence>)
    ensures |r| == |calls|
    ensures forall i :: 0 <= i < |calls| ==> r[i] == if e in calls[i] then calls[i][e].present else Abstain
  {
    seq(|calls|, i requires 0 <= i < |calls| => if e in calls[i] then calls[i][e].present else Abstain)
  }

  /** The answers that some calls gave to an optional question. */
  function Given<T>(calls: seq<Call>, e: string, pick: Vote -> Option<T>): (r: seq<T>)
    ensures forall x :: x in r ==> exists i :: 0 <= i < |calls| && e in calls[i] && pick(calls[i][e]) == Some(x)
    ensures (exists i :: 0 <= i < |calls| && e in calls[i] && pick(calls[i][e]).Some?) ==> r != []
  {
    if calls == [] then []
    else
      var last := calls[|calls| - 1];
      Given(calls[..|calls| - 1], e, pick)
      + (if e in last && pick(last[e]).Some? then [pick(last[e]).value] else [])
  }

  function Majority<T(==)>(answers: seq<T>): Option<T> {
    if answers == [] then None else Some(MostCommon(answers))
  }

  /** `_vote` for one entity. */
  function VoteOn(calls: seq<Call>, e: string): Vote
    requires calls != []
  {
    Vote(MostCommon(Presences(calls, e)),
         Majority(Given(calls, e, (v: Vote) => v.state)),
         Majority(Given(calls, e, (v: Vote) => v.count)),
         Majority(Given(calls, e, (v: Vote) => v.instance)))
  }

  // ----- what a vote elects -----

  /** The calls that say `x` of an entity's presence, leaving it out being an abstention. */
  ghost function CallsSaying(calls: seq<Call>, e: string, x: Presence): set<nat> {
    set i: nat | i < |calls| && (if e in calls[i] then calls[i][e].present == x else x == Abstain)
  }

  /** Call `i` says `said`, and no call before it says something that as many calls say. */
  ghost predicate FirstSaid(calls: seq<Call>, e: string, said: Presence, i: nat) {
    i in CallsSaying(calls, e, said)
    && forall h: nat, x :: h < i && h in CallsSaying(calls, e, x) ==>
         |CallsSaying(calls, e, x)| < |CallsSaying(calls, e, said)|
  }

  /** The calls that give `x` to an optional question. */
  ghost function CallsGiving<T(!new)>(calls: seq<Call>, e: string, pick: Vote -> Option<T>, x: T): set<nat> {
    set i: nat | i < |calls| && e in calls[i] && pick(calls[i][e]) == Some(x)
  }

  /** No value is given by more calls than the elected one, and none first given before it by as many. */
  ghost predicate Elected<T(!new)>(calls: seq<Call>, e: string, pick: Vote -> Option<T>, elected: Option<T>) {
    if elected.None? then forall i :: 0 <= i < |calls| && e in calls[i] ==> pick(calls[i][e]).None?
    else
      && CallsGiving(calls, e, pick, elected.value) != {}
      && (forall x :: |CallsGiving(calls, e, pick, x)| <= |CallsGiving(calls, e, pick, elected.value)|)
      && exists i: nat :: FirstGiven(calls, e, pick, elected.value, i)
  }

  /** Call `i` gives `given`, and no call before it gives what as many calls give. */
  ghost predicate FirstGiven<T(!new)>(calls: seq<Call>, e: string, pick: Vote -> Option<T>, given: T, i: nat) {
    i in CallsGiving(calls, e, pick, given)
    && forall h: nat, x :: h < i && h in CallsGiving(calls, e, pick, x) ==>
         |CallsGiving(calls, e, pick, x)| < |CallsGiving(calls, e, pick, given)|
  }

  ghost function Occurrences<T(!new)>(s: seq<T>, x: T): set<nat> { set i: nat | i < |s| && s[i] == x }

  lemma {:induction false} CountOf<T(!new)>(s: seq<T>, x: T)
    ensures multiset(s)[x] == |Occurrences(s, x)|
  {
    if s == [] {
      assert Occurrences(s, x) == {};
    } else {
      var n := |s| - 1;
      CountOf(s[..n], x);
      assert s == s[..n] + [s[n]];
      assert Occurrences(s, x) == Occurrences(s[..n], x) + (if s[n] == x then {n} else {});
    }
  }

  lemma SayingCount(calls: seq<Call>, e: string, x: Presence)
    ensures multiset(Presences(calls, e))[x] == |CallsSaying(calls, e, x)|
  {
    var p := Presences(calls, e);
    CountOf(p, x);
    assert Occurrences(p, x) == CallsSaying(calls, e, x);
  }

  lemma GivenStep<T(!new)>(calls: seq<Call>, n: nat, e: string, pick: Vote -> Option<T>)
    requires n < |calls|
    ensures Given(calls[..n + 1], e, pick)
            == Given(calls[..n], e, pick)
               + (if e in calls[n] && pick(calls[n][e]).Some? then [pick(calls[n][e]).value] else [])
  {
    assert calls[..n + 1][..n] == calls[..n];
  }

  lemma GivingStep<T(!new)>(calls: seq<Call>, n: nat, e: string, pick: Vote -> Option<T>, x: T)
    requires n < |calls|
    ensures |CallsGiving(calls[..n + 1], e, pick, x)|
            == |CallsGiving(calls[..n], e, pick, x)| + (if e in calls[n] && pick(calls[n][e]) == Some(x) then 1 else 0)
  {
    var before, now := CallsGiving(calls[..n], e, pick, x), CallsGiving(calls[..n + 1], e, pick, x);
    var more := if e in calls[n] && pick(calls[n][e]) == Some(x) then {n} else {};
    forall i: nat ensures i in now <==> i in before || i in more {
      if i < n { assert calls[..n + 1][i] == calls[..n][i]; }
    }
    assert now == before + more && before !! more;
  }

  lemma NoneGiven<T(!new)>(calls: seq<Call>, e: string, pick: Vote -> Option<T>, x: T)
    requires calls == []
    ensures Given(calls, e, pick) == [] && CallsGiving(calls, e, pick, x) == {}
  {}

  lemma {:induction false} GivingCount<T(!new)>(calls: seq<Call>, n: nat, e: string, pick: Vote -> Option<T>, x: T)
    requires n <= |calls|
    ensures multiset(Given(calls[..n], e, pick))[x] == |CallsGiving(calls[..n], e, pick, x)|
  {
    hide Given, CallsGiving;
    if n == 0 {
      NoneGiven(calls[..0], e, pick, x);
    } else {
      GivingCount(calls, n - 1, e, pick, x);
      GivenStep(calls, n - 1, e, pick);
      GivingStep(calls, n - 1, e, pick, x);
    }
  }

  lemma NobodyGives<T(!new)>(calls: seq<Call>, e: string, pick: Vote -> Option<T>)
    requires calls == []
    ensures Given(calls, e, pick) == []
  {}

  /** The calls behind the answers, in order. */
  lemma {:induction false} GivenFrom<T(!new)>(calls: seq<Call>, n: nat, e: string, pick: Vote -> Option<T>)
    returns (from: seq<nat>)
    requires n <= |calls|
    ensures |from| == |Given(calls[..n], e, pick)| && forall a, b :: 0 <= a < b < |from| ==> from[a] < from[b]
    ensures forall a :: 0 <= a < |from| ==>
              from[a] < n && e in calls[from[a]] && pick(calls[from[a]][e]) == Some(Given(calls[..n], e, pick)[a])
    ensures forall i: nat :: i < n && e in calls[i] && pick(calls[i][e]).Some? ==> i in from
  {
    from := [];
    hide Given;
    if n == 0 {
      NobodyGives(calls[..0], e, pick);
    } else {
      from := GivenFrom(calls, n - 1, e, pick);
      GivenStep(calls, n - 1, e, pick);
      if e in calls[n - 1] && pick(calls[n - 1][e]).Some? { from := from + [n - 1]; }
    }
  }

  lemma {:induction false} MajorityElects<T(!new)>(calls: seq<Call>, e: string, pick: Vote -> Option<T>)
    ensures Elected(calls, e, pick, Majority(Given(calls, e, pick)))
  {
    hide Elected, Given, LeadsAt;
    var given := Given(calls, e, pick);
    var from := GivenFrom(calls, |calls|, e, pick);
    assert calls[..|calls|] == calls;
    forall x ensures multiset(given)[x] == |CallsGiving(calls, e, pick, x)| { GivingCount(calls, |calls|, e, pick, x); }
    if given != [] {
      var r := MostCommon(given);
      var a: nat :| a < |given| && LeadsAt(given, a, |given|) && given[a] == r;
      LeaderIsElected(calls, e, pick, given, from, a);
    } else {
      NobodyElected(calls, e, pick, from);
    }
  }

  lemma NobodyElected<T(!new)>(calls: seq<Call>, e: string, pick: Vote -> Option<T>, from: seq<nat>)
    requires from == [] && forall i: nat :: i < |calls| && e in calls[i] && pick(calls[i][e]).Some? ==> i in from
    ensures Elected(calls, e, pick, None)
  {}

  lemma LeaderIsElected<T(!new)>(calls: seq<Call>, e: string, pick: Vote -> Option<T>, given: seq<T>, from: seq<nat>,
                                 a: nat)
    requires a < |given| == |from| && LeadsAt(given, a, |given|)
    requires forall b, c :: 0 <= b < c < |from| ==> from[b] < from[c]
    requires forall b :: 0 <= b < |from| ==>
               from[b] < |calls| && e in calls[from[b]] && pick(calls[from[b]][e]) == Some(given[b])
    requires forall i: nat :: i < |calls| && e in calls[i] && pick(calls[i][e]).Some? ==> i in from
    requires forall x :: multiset(given)[x] == |CallsGiving(calls, e, pick, x)|
    ensures Elected(calls, e, pick, Some(given[a]))
  {
    hide LeadsAt;
    var r := given[a];
    assert from[a] in CallsGiving(calls, e, pick, r);
    LeaderLeads(given, a);
    forall h: nat, x | h < from[a] && h in CallsGiving(calls, e, pick, x)
      ensures |CallsGiving(calls, e, pick, x)| < |CallsGiving(calls, e, pick, r)|
    {
      var b :| 0 <= b < |from| && from[b] == h;
      assert b < a && given[b] == x;
    }
    assert FirstGiven(calls, e, pick, r, from[a]);
  }

  /** The vote on an entity: for its presence the answer of most calls, of those with as many the one that some call
      gave first, and so for each question among the calls that answered it. */
  lemma {:induction false} VoteMeans(calls: seq<Call>, e: string)
    requires calls != []
    ensures var v := VoteOn(calls, e);
            && (forall x :: |CallsSaying(calls, e, x)| <= |CallsSaying(calls, e, v.present)|)
            && (exists i: nat :: FirstSaid(calls, e, v.present, i))
            && Elected(calls, e, (w: Vote) => w.state, v.state)
            && Elected(calls, e, (w: Vote) => w.count, v.count)
            && Elected(calls, e, (w: Vote) => w.instance, v.instance)
  {
    hide Elected, Given, Majority;
    MajorityElects(calls, e, (w: Vote) => w.state);
    MajorityElects(calls, e, (w: Vote) => w.count);
    MajorityElects(calls, e, (w: Vote) => w.instance);
    PresenceElects(calls, e);
  }

  lemma PresenceElects(calls: seq<Call>, e: string)
    requires calls != []
    ensures var present := MostCommon(Presences(calls, e));
            && (forall x :: |CallsSaying(calls, e, x)| <= |CallsSaying(calls, e, present)|)
            && (exists i: nat :: FirstSaid(calls, e, present, i))
  {
    hide CallsSaying, LeadsAt;
    var p := Presences(calls, e);
    var r := MostCommon(p);
    forall x ensures multiset(p)[x] == |CallsSaying(calls, e, x)| { SayingCount(calls, e, x); }
    var a: nat :| a < |p| && LeadsAt(p, a, |p|) && p[a] == r;
    LeaderLeads(p, a);
    forall h: nat, x ensures h in CallsSaying(calls, e, x) <==> h < |calls| && p[h] == x { SayingIs(calls, e, h, x); }
    forall h: nat, x | h < a && h in CallsSaying(calls, e, x)
      ensures |CallsSaying(calls, e, x)| < |CallsSaying(calls, e, r)|
    {
      assert multiset(p)[p[h]] < multiset(p)[p[a]];
      assert multiset(p)[x] == |CallsSaying(calls, e, x)| && multiset(p)[r] == |CallsSaying(calls, e, r)|;
    }
    assert FirstSaid(calls, e, r, a);
  }

  lemma SayingIs(calls: seq<Call>, e: string, h: nat, x: Presence)
    ensures h in CallsSaying(calls, e, x) <==> h < |calls| && Presences(calls, e)[h] == x
  {}

  lemma LeaderLeads<T(!new)>(s: seq<T>, a: nat)
    requires a < |s| && LeadsAt(s, a, |s|)
    ensures forall x :: multiset(s)[x] <= multiset(s)[s[a]]
    ensures forall h: nat :: h < a ==> multiset(s)[s[h]] < multiset(s)[s[a]]
  {
    forall x ensures multiset(s)[x] <= multiset(s)[s[a]] {
      if x in s {
        var h :| 0 <= h < |s| && s[h] == x;
      } else {
        assert multiset(s)[x] == 0;
      }
    }
  }

  /** Calls that agree on an entity elect that answer. */
  lemma {:induction false} UnanimousVote(calls: seq<Call>, e: string, v: Vote)
    requires calls != [] && forall i :: 0 <= i < |calls| ==> e in calls[i] && calls[i][e] == v
    ensures VoteOn(calls, e) == v
  {
    var p := Presences(calls, e);
    assert MostCommon(p) in p;
  }
}
