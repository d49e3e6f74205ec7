/** `build_units`: the identity units of one story, cut from its gold labels by a second pass that keeps
    its own idea of when each entity was last seen. */
module Units {
  import opened Basics
  import opened Decimal
  import opened Timeline
  import opened TimelineLaws

  datatype Config = Config(kinds: set<string>, ops: set<Op>, transformMinGap: int)

  datatype Stratum = Main | Gap0 | TransformFar

  datatype Unit = Unit(eid: string, kind: string, op: Op, gap: int, gapBin: string, stratum: Stratum,
                       cur: nat, prev: nat, stateA: Option<string>, stateB: Option<string>)

  function GapBin(gap: int): string {
    if gap == 0 then "0" else if gap <= 4 then "1-4" else if gap <= 29 then "5-29" else ">=30"
  }

  /** Segment `i` of the story carries the number `i + 1`, and every cast entity is registered. */
  predicate Numbered(gold: Gold) {
    && (forall i :: 0 <= i < |gold.segments| ==> SegNum(gold.segments[i].id) == Some(i + 1))
    && (forall i, k :: 0 <= i < |gold.segments| && 0 <= k < |gold.segments[i].cast|
          ==> gold.segments[i].cast[k].eid in gold.entities)
  }

  predicate InCast(cast: seq<Entry>, e: string) { exists k :: 0 <= k < |cast| && cast[k].eid == e }

  /** The number of the latest segment before the `n`-th that shows `e`. */
  function Prev(segments: seq<GoldSegment>, e: string, n: nat): (r: Option<nat>)
    requires n <= |segments|
    ensures r.Some? ==> 1 <= r.value <= n && InCast(segments[r.value - 1].cast, e)
    ensures r.Some? ==> forall k :: r.value <= k < n ==> !InCast(segments[k].cast, e)
    ensures r.None? ==> forall k :: 0 <= k < n ==> !InCast(segments[k].cast, e)
  {
    if n == 0 then None
    else if InCast(segments[n - 1].cast, e) then Some(n)
    else Prev(segments, e, n - 1)
  }

  /** The state a list of entries leaves `e` in; any labelled entry counts, flashbacks included. */
  function StateAfterCast(cast: seq<Entry>, e: string, was: Option<string>): Option<string> {
    if cast == [] then was
    else
      StateAfterEntry(cast[|cast| - 1], e, StateAfterCast(cast[..|cast| - 1], e, was))
  }

  /** The state of `e` after the first `n` segments. */
  function StateAfter(gold: Gold, e: string, n: nat): Option<string>
    requires n <= |gold.segments|
  {
    if n == 0 then
      if e in gold.entities && gold.entities[e].initialState != "" then Some(gold.entities[e].initialState)
      else None
    else StateAfterCast(gold.segments[n - 1].cast, e, StateAfter(gold, e, n - 1))
  }

  function GapOf(c: Entry): int { if c.gap.Some? then c.gap.value else 0 }

  /** An entry that shows again an entity of the wanted kinds. */
  predicate Eligible(gold: Gold, cfg: Config, c: Entry, n: nat)
    requires n <= |gold.segments|
  {
    c.eid in gold.entities && gold.entities[c.eid].kind in cfg.kinds && !c.op.Introduce?
    && Prev(gold.segments, c.eid, n).Some?
  }

  /** The entry's recorded `last_seen` disagrees with the pass's own. */
  predicate Mismatch(gold: Gold, cfg: Config, c: Entry, n: nat)
    requires n <= |gold.segments|
  {
    Eligible(gold, cfg, c, n) && c.lastSeen.Some? && c.lastSeen.value != ""
    && SegNum(c.lastSeen.value) != Prev(gold.segments, c.eid, n)
  }

  function StratumOf(cfg: Config, c: Entry, draw: bool): Option<Stratum> {
    if c.op in cfg.ops && GapOf(c) >= 1 then Some(Main)
    else if c.op in cfg.ops && GapOf(c) == 0 then (if draw then Some(Gap0) else None)
    else if c.op.Transform? && GapOf(c) >= cfg.transformMinGap then Some(TransformFar)
    else None
  }

  /** The unit that an eligible entry of segment `n` (counted from zero) gives. */
  function UnitOf(gold: Gold, c: Entry, n: nat, stratum: Stratum): Unit
    requires n < |gold.segments| && c.eid in gold.entities && Prev(gold.segments, c.eid, n).Some?
  {
    var prev := Prev(gold.segments, c.eid, n).value;
    Unit(c.eid, gold.entities[c.eid].kind, c.op, GapOf(c), GapBin(GapOf(c)), stratum, n + 1, prev,
         StateAfter(gold, c.eid, prev), StateAfter(gold, c.eid, n + 1))
  }

  /** A unit that the first `k` entries of segment `n` can give. */
  ghost predicate FromEntries(gold: Gold, cfg: Config, u: Unit, n: nat, k: nat)
    requires n < |gold.segments| && k <= |gold.segments[n].cast|
  {
    exists m :: 0 <= m < k && FromEntry(gold, cfg, u, n, m)
  }

  predicate FromEntry(gold: Gold, cfg: Config, u: Unit, n: nat, m: nat)
    requires n < |gold.segments| && m < |gold.segments[n].cast|
  {
    var c := gold.segments[n].cast[m];
    Eligible(gold, cfg, c, n) && u == UnitOf(gold, c, n, u.stratum)
    && StratumOf(cfg, c, u.stratum.Gap0?) == Some(u.stratum)
  }

  ghost predicate MismatchUpTo(gold: Gold, cfg: Config, n: nat, k: nat)
    requires n < |gold.segments| && k <= |gold.segments[n].cast|
  {
    exists m :: 0 <= m < k && Mismatch(gold, cfg, gold.segments[n].cast[m], n)
  }

  /** An entry whose unit does not hang on a random draw. */
  predicate Sure(gold: Gold, cfg: Config, n: nat, m: nat)
    requires n < |gold.segments| && m < |gold.segments[n].cast|
  {
    Eligible(gold, cfg, gold.segments[n].cast[m], n) && StratumOf(cfg, gold.segments[n].cast[m], false).Some?
  }

  /** ... and its unit is among `units`. */
  predicate Covered(gold: Gold, cfg: Config, units: seq<Unit>, n: nat, m: nat)
    requires n < |gold.segments| && m < |gold.segments[n].cast|
  {
    var c := gold.segments[n].cast[m];
    Sure(gold, cfg, n, m) ==> UnitOf(gold, c, n, StratumOf(cfg, c, false).value) in units
  }

  // ----- the gap-0 draws -----

  /** An entry whose unit hangs on a draw. */
  predicate Draws(gold: Gold, cfg: Config, n: nat, m: nat)
    requires n < |gold.segments| && m < |gold.segments[n].cast|
  {
    var c := gold.segments[n].cast[m];
    Eligible(gold, cfg, c, n) && c.op in cfg.ops && GapOf(c) == 0
  }

  /** The number of draws before entry `m` of segment `n`, in document order. */
  function DrawsBefore(gold: Gold, cfg: Config, n: nat, m: nat): nat
    requires n <= |gold.segments| && m <= if n < |gold.segments| then |gold.segments[n].cast| else 0
    decreases n, m
  {
    if m > 0 then DrawsBefore(gold, cfg, n, m - 1) + (if Draws(gold, cfg, n, m - 1) then 1 else 0)
    else if n > 0 then DrawsBefore(gold, cfg, n - 1, |gold.segments[n - 1].cast|)
    else 0
  }

  /** The places before another, in document order, whose units hang on a draw. */
  ghost function HangingBefore(gold: Gold, cfg: Config, n: nat, m: nat): set<(nat, nat)> {
    set h: nat, k: nat | h < |gold.segments| && k < |gold.segments[h].cast| && Draws(gold, cfg, h, k)
                         && Earlier((h, k), (n, m)) :: (h, k)
  }

  /** Which draw is whose: an entry that hangs on one has the draw numbered by the hanging entries before it. */
  lemma {:induction false} DrawsAreInOrder(gold: Gold, cfg: Config, n: nat, m: nat)
    requires n <= |gold.segments| && m <= if n < |gold.segments| then |gold.segments[n].cast| else 0
    ensures DrawsBefore(gold, cfg, n, m) == |HangingBefore(gold, cfg, n, m)|
    decreases n, m
  {
    hide Draws, HangingBefore;
    HangingGoesOn(gold, cfg);
    if m > 0 {
      DrawsAreInOrder(gold, cfg, n, m - 1);
      HangingNext(gold, cfg, n, m - 1);
    } else if n > 0 {
      DrawsAreInOrder(gold, cfg, n - 1, |gold.segments[n - 1].cast|);
    }
  }

  lemma HangingNext(gold: Gold, cfg: Config, n: nat, m: nat)
    requires n < |gold.segments| && m < |gold.segments[n].cast|
    ensures |HangingBefore(gold, cfg, n, m + 1)|
            == |HangingBefore(gold, cfg, n, m)| + (if Draws(gold, cfg, n, m) then 1 else 0)
  {
    hide Draws;
    var was, here := HangingBefore(gold, cfg, n, m), (n, m);
    assert here !in was;
    assert HangingBefore(gold, cfg, n, m + 1) == if Draws(gold, cfg, n, m) then was + {here} else was;
  }

  lemma HangingGoesOn(gold: Gold, cfg: Config)
    ensures HangingBefore(gold, cfg, 0, 0) == {}
    ensures forall n: nat :: n < |gold.segments| ==>
              HangingBefore(gold, cfg, n, |gold.segments[n].cast|) == HangingBefore(gold, cfg, n + 1, 0)
  {
    hide Draws;
  }

  /** The entry gives a unit: of itself, or because its own draw succeeds. */
  predicate Gives(gold: Gold, cfg: Config, draws: nat -> bool, n: nat, m: nat)
    requires n < |gold.segments| && m < |gold.segments[n].cast|
  {
    if Draws(gold, cfg, n, m) then draws(DrawsBefore(gold, cfg, n, m)) else Sure(gold, cfg, n, m)
  }

  /** Which entries give a unit: of a kind and entity wanted that is not introduced here and was in an earlier cast;
      with an operation wanted, after a gap, or without one if its draw succeeds; or else a transform after a gap that
      is long enough. */
  lemma {:induction false} GivesIff(gold: Gold, cfg: Config, draws: nat -> bool, n: nat, m: nat)
    requires n < |gold.segments| && m < |gold.segments[n].cast|
    ensures var c := gold.segments[n].cast[m];
            var gap := if c.gap.Some? then c.gap.value else 0;
            Gives(gold, cfg, draws, n, m) <==>
              && c.eid in gold.entities && gold.entities[c.eid].kind in cfg.kinds && !c.op.Introduce?
              && (exists k :: 0 <= k < n && InCast(gold.segments[k].cast, c.eid))
              && ((c.op in cfg.ops && gap > 0)
                  || (c.op in cfg.ops && gap == 0 && draws(DrawsBefore(gold, cfg, n, m)))
                  || (!(c.op in cfg.ops && gap >= 0) && c.op.Transform? && gap >= cfg.transformMinGap))
  {
    hide InCast, DrawsBefore;
    var prev := Prev(gold.segments, gold.segments[n].cast[m].eid, n);
    if prev.Some? { assert InCast(gold.segments[prev.value - 1].cast, gold.segments[n].cast[m].eid); }
  }

  /** What a unit records: its entity and operation, the gap and its bin, the stratum that let it in, the numbers of the
      two segments, counted from one, and the states after them. */
  lemma {:induction false} UnitRecords(gold: Gold, cfg: Config, u: Unit, n: nat, m: nat)
    requires n < |gold.segments| && m < |gold.segments[n].cast| && FromEntry(gold, cfg, u, n, m)
    ensures var c := gold.segments[n].cast[m];
            && u.eid == c.eid && c.eid in gold.entities && u.kind == gold.entities[c.eid].kind && u.op == c.op
            && u.gap == (if c.gap.Some? then c.gap.value else 0)
            && (u.gapBin == "0" <==> u.gap == 0) && (u.gapBin == "1-4" <==> u.gap != 0 && u.gap < 5)
            && (u.gapBin == "5-29" <==> 5 <= u.gap < 30) && (u.gapBin == ">=30" <==> u.gap >= 30)
            && (u.stratum.Main? <==> c.op in cfg.ops && u.gap > 0)
            && (u.stratum.Gap0? <==> c.op in cfg.ops && u.gap == 0)
            && u.cur == n + 1 && 1 <= u.prev <= n && InCast(gold.segments[u.prev - 1].cast, u.eid)
            && (forall k :: u.prev <= k < n ==> !InCast(gold.segments[k].cast, u.eid))
            && u.stateA == StateAfter(gold, u.eid, u.prev) && u.stateB == StateAfter(gold, u.eid, u.cur)
  {
    hide InCast, StateAfter;
    BinsDiffer();
  }

  lemma BinsDiffer()
    ensures "0" != "1-4" && "0" != "5-29" && "0" != ">=30" && "1-4" != "5-29" && "1-4" != ">=30" && "5-29" != ">=30"
  {
    assert |"0"| == 1 && |"1-4"| == 3 && |"5-29"| == 4 && |">=30"| == 4 && "5-29"[0] != ">=30"[0];
  }

  /** The units come from these entries of segment `n`, in the order of the cast and one from each. */
  ghost predicate InCastOrder(gold: Gold, cfg: Config, units: seq<Unit>, n: nat, places: seq<nat>, k: nat)
    requires n < |gold.segments| && k <= |gold.segments[n].cast|
  {
    && |places| == |units|
    && (forall q :: 0 <= q < |places| ==> places[q] < k && FromEntry(gold, cfg, units[q], n, places[q]))
    && (forall q, r :: 0 <= q < r < |places| ==> places[q] < places[r])
  }

  /** A place is a segment and a position in its cast. */
  predicate Earlier(a: (nat, nat), b: (nat, nat)) { a.0 < b.0 || (a.0 == b.0 && a.1 < b.1) }

  /** The units come from these entries of the first `n` segments, in the order of the story and one from each. */
  ghost predicate InStoryOrder(gold: Gold, cfg: Config, units: seq<Unit>, places: seq<(nat, nat)>, n: nat)
    requires n <= |gold.segments|
  {
    && |places| == |units|
    && (forall q :: 0 <= q < |places| ==> places[q].0 < n && places[q].1 < |gold.segments[places[q].0].cast|
                                          && FromEntry(gold, cfg, units[q], places[q].0, places[q].1))
    && (forall q, r :: 0 <= q < r < |places| ==> Earlier(places[q], places[r]))
  }

  ghost function Placed(n: nat, places: seq<nat>): (r: seq<(nat, nat)>)
    ensures |r| == |places| && forall q :: 0 <= q < |r| ==> r[q] == (n, places[q])
  {
    seq(|places|, q requires 0 <= q < |places| => (n, places[q]))
  }

  lemma SegmentInOrder(gold: Gold, cfg: Config, units: seq<Unit>, places: seq<(nat, nat)>, n: nat,
                       more: seq<Unit>, here: seq<nat>)
    requires n < |gold.segments| && InStoryOrder(gold, cfg, units, places, n)
    requires InCastOrder(gold, cfg, more, n, here, |gold.segments[n].cast|)
    ensures InStoryOrder(gold, cfg, units + more, places + Placed(n, here), n + 1)
  {
    hide FromEntry, Placed;
    var all := places + Placed(n, here);
    forall q | 0 <= q < |all| && q >= |places| ensures all[q] == (n, here[q - |places|]) {}
  }

  lemma InOrderGivesEntries(gold: Gold, cfg: Config, units: seq<Unit>, places: seq<(nat, nat)>)
    requires InStoryOrder(gold, cfg, units, places, |gold.segments|)
    ensures forall u :: u in units ==>
              exists n :: 0 <= n < |gold.segments| && FromEntries(gold, cfg, u, n, |gold.segments[n].cast|)
  {
    hide FromEntry;
    forall u | u in units
      ensures exists n :: 0 <= n < |gold.segments| && FromEntries(gold, cfg, u, n, |gold.segments[n].cast|)
    {
      var q :| 0 <= q < |units| && units[q] == u;
      assert FromEntries(gold, cfg, u, places[q].0, |gold.segments[places[q].0].cast|);
    }
  }

  // ----- the pass's own maps -----

  ghost predicate LastSeenTracks(gold: Gold, n: nat, lastSeen: map<string, nat>)
    requires n <= |gold.segments|
  {
    forall e :: Get(lastSeen, e) == Prev(gold.segments, e, n)
  }

  ghost predicate StateTracks(gold: Gold, n: nat, state: map<string, Option<string>>)
    requires n <= |gold.segments|
  {
    forall e :: e in gold.entities ==> e in state && state[e] == StateAfter(gold, e, n)
  }

  /** A shown entity's state is on file for each of the first `n` segments. */
  ghost predicate OnFile(gold: Gold, n: nat, segState: map<(string, nat), Option<string>>)
    requires n <= |gold.segments|
  {
    forall e, k: nat :: k < n && InCast(gold.segments[k].cast, e) ==>
      (e, k + 1) in segState && segState[(e, k + 1)] == StateAfter(gold, e, k + 1)
  }

  method UpdateStates(gold: Gold, n: nat, state: map<string, Option<string>>,
                      segState: map<(string, nat), Option<string>>)
    returns (state': map<string, Option<string>>, segState': map<(string, nat), Option<string>>)
    requires Numbered(gold) && n < |gold.segments|
    requires StateTracks(gold, n, state) && OnFile(gold, n, segState)
    ensures StateTracks(gold, n + 1, state') && OnFile(gold, n + 1, segState')
  {
    hide StateAfter, StateAfterCast, InCast, OnFile;
    var cast := gold.segments[n].cast;
    state', segState' := state, segState;
    NoEntries(gold, cast[..0], n);
    for k := 0 to |cast|
      invariant forall e :: e in gold.entities ==>
        e in state' && state'[e] == StateAfterCast(cast[..k], e, StateAfter(gold, e, n))
      invariant forall e :: InCast(cast[..k], e) ==>
        e in gold.entities && Get(segState', (e, n + 1)) == Some(state'[e])
      invariant forall key: (string, nat) :: key.1 != n + 1 ==> Get(segState', key) == Get(segState, key)
    {
      var c := cast[k];
      assert c.eid in gold.entities;
      StateStep(cast, k);
      InCastStep(cast, k);
      if c.state.Some? && c.state.value.name != "" { state' := state'[c.eid := Some(c.state.value.name)]; }
      GetAfterPut(segState', (c.eid, n + 1), state'[c.eid]);
      segState' := segState'[(c.eid, n + 1) := state'[c.eid]];
    }
    assert cast[..|cast|] == cast;
    StateAfterUnfolds(gold, n);
    FiledAway(gold, n, segState, segState');
  }

  lemma NoEntries(gold: Gold, cast: seq<Entry>, n: nat)
    requires cast == [] && n <= |gold.segments|
    ensures forall e :: !InCast(cast, e) && StateAfterCast(cast, e, StateAfter(gold, e, n)) == StateAfter(gold, e, n)
  {}

  lemma StateStep(cast: seq<Entry>, k: nat)
    requires k < |cast|
    ensures forall e, was ::
              StateAfterCast(cast[..k + 1], e, was) == StateAfterEntry(cast[k], e, StateAfterCast(cast[..k], e, was))
  {
    var now := cast[..k + 1];
    assert now[..k] == cast[..k] && now[k] == cast[k];
    forall e, was ensures StateAfterCast(now, e, was) == StateAfterEntry(cast[k], e, StateAfterCast(cast[..k], e, was)) {}
  }

  function StateAfterEntry(c: Entry, e: string, was: Option<string>): Option<string> {
    if c.eid == e && c.state.Some? && c.state.value.name != "" then Some(c.state.value.name) else was
  }

  lemma FiledAway(gold: Gold, n: nat, was: map<(string, nat), Option<string>>,
                  now: map<(string, nat), Option<string>>)
    requires n < |gold.segments| && OnFile(gold, n, was)
    requires forall e :: InCast(gold.segments[n].cast, e) ==>
      Get(now, (e, n + 1)) == Some(StateAfter(gold, e, n + 1))
    requires forall key: (string, nat) :: key.1 != n + 1 ==> Get(now, key) == Get(was, key)
    ensures OnFile(gold, n + 1, now)
  {
    hide InCast, StateAfter;
    forall e, k: nat | k < n + 1 && InCast(gold.segments[k].cast, e)
      ensures (e, k + 1) in now && now[(e, k + 1)] == StateAfter(gold, e, k + 1)
    {
      if k < n { assert Get(now, (e, k + 1)) == Get(was, (e, k + 1)); }
    }
  }

  lemma InCastStep(cast: seq<Entry>, k: nat)
    requires k < |cast|
    ensures forall e :: InCast(cast[..k + 1], e) <==> InCast(cast[..k], e) || cast[k].eid == e
  {
    assert cast[..k + 1] == cast[..k] + [cast[k]];
    forall e ensures InCast(cast[..k + 1], e) <==> InCast(cast[..k], e) || cast[k].eid == e {
      if InCast(cast[..k], e) {
        var m :| 0 <= m < k && cast[..k][m].eid == e;
        assert cast[..k + 1][m].eid == e;
      }
      if cast[k].eid == e { assert cast[..k + 1][k].eid == e; }
    }
  }

  lemma StateAfterUnfolds(gold: Gold, n: nat)
    requires n < |gold.segments|
    ensures forall e :: StateAfter(gold, e, n + 1)
                        == StateAfterCast(gold.segments[n].cast, e, StateAfter(gold, e, n))
  {}

  method UpdateLastSeen(gold: Gold, n: nat, lastSeen: map<string, nat>) returns (lastSeen': map<string, nat>)
    requires n < |gold.segments| && LastSeenTracks(gold, n, lastSeen)
    ensures LastSeenTracks(gold, n + 1, lastSeen')
  {
    hide InCast;
    var cast := gold.segments[n].cast;
    lastSeen' := lastSeen;
    assert forall e :: !InCast(cast[..0], e) by { NobodyInCast(cast[..0]); }
    for k := 0 to |cast|
      invariant forall e :: Get(lastSeen', e)
                            == if InCast(cast[..k], e) then Some(n + 1) else Prev(gold.segments, e, n)
    {
      InCastStep(cast, k);
      ghost var was := lastSeen';
      lastSeen' := lastSeen'[cast[k].eid := n + 1];
      forall e ensures Get(lastSeen', e) == if InCast(cast[..k + 1], e) then Some(n + 1) else Prev(gold.segments, e, n) {
        assert Get(was, e) == if InCast(cast[..k], e) then Some(n + 1) else Prev(gold.segments, e, n);
      }
    }
    assert cast[..|cast|] == cast;
  }

  lemma NobodyInCast(cast: seq<Entry>)
    requires cast == []
    ensures forall e :: !InCast(cast, e)
  {}

  // ----- cutting the units -----

  method CutUnits(gold: Gold, cfg: Config, n: nat, lastSeen: map<string, nat>,
                  segState: map<(string, nat), Option<string>>, draws: nat -> bool, drawn: nat)
    returns (units: seq<Unit>, mismatches: nat, drawn': nat, ghost places: seq<nat>)
    requires Numbered(gold) && n < |gold.segments|
    requires LastSeenTracks(gold, n, lastSeen) && OnFile(gold, n + 1, segState)
    requires drawn == DrawsBefore(gold, cfg, n, 0)
    ensures InCastOrder(gold, cfg, units, n, places, |gold.segments[n].cast|)
    ensures forall m: nat :: m < |gold.segments[n].cast| ==> (m in places <==> Gives(gold, cfg, draws, n, m))
    ensures drawn' == DrawsBefore(gold, cfg, n, |gold.segments[n].cast|)
    ensures forall m :: 0 <= m < |gold.segments[n].cast| ==> Covered(gold, cfg, units, n, m)
    ensures |MismatchesBefore(gold, cfg, n, 0)| + mismatches == |MismatchesBefore(gold, cfg, n, |gold.segments[n].cast|)|
  {
    hide FromEntry, Mismatch, StateAfter, Covered, LastSeenTracks, OnFile, InCastOrder, Gives, Sure, Draws, DrawsBefore, MismatchesBefore;
    var cast := gold.segments[n].cast;
    units, mismatches, drawn', places := [], 0, drawn, [];
    NoPlaces(gold, cfg, n);
    for k := 0 to |cast|
      invariant InCastOrder(gold, cfg, units, n, places, k)
      invariant forall m: nat :: m < k ==> (m in places <==> Gives(gold, cfg, draws, n, m))
      invariant drawn' == DrawsBefore(gold, cfg, n, k)
      invariant forall m :: 0 <= m < k ==> Covered(gold, cfg, units, n, m)
      invariant |MismatchesBefore(gold, cfg, n, 0)| + mismatches == |MismatchesBefore(gold, cfg, n, k)|
    {
      assert cast[k].eid in gold.entities;
      var unit, bad, drew := CutUnit(gold, cfg, n, k, lastSeen, segState, draws(drawn'));
      MismatchNext(gold, cfg, n, k);
      if bad { mismatches := mismatches + 1; }
      GivesNext(gold, cfg, draws, n, k);
      if drew { drawn' := drawn' + 1; }
      PlaceNext(gold, cfg, draws, units, n, places, k, unit);
      ghost var before := units;
      if unit.Some? { units, places := units + [unit.value], places + [k]; }
      forall m | 0 <= m < k + 1 ensures Covered(gold, cfg, units, n, m) {
        CoveredGrows(gold, cfg, if m < k then before else if unit.Some? then [unit.value] else [], units, n, m);
      }
    }
  }

  lemma NoPlaces(gold: Gold, cfg: Config, n: nat)
    requires n < |gold.segments|
    ensures InCastOrder(gold, cfg, [], n, [], 0)
  {}

  lemma GivesNext(gold: Gold, cfg: Config, draws: nat -> bool, n: nat, k: nat)
    requires n < |gold.segments| && k < |gold.segments[n].cast|
    ensures Gives(gold, cfg, draws, n, k)
            == if Draws(gold, cfg, n, k) then draws(DrawsBefore(gold, cfg, n, k)) else Sure(gold, cfg, n, k)
    ensures DrawsBefore(gold, cfg, n, k + 1) == DrawsBefore(gold, cfg, n, k) + (if Draws(gold, cfg, n, k) then 1 else 0)
  {
    hide Draws, Sure;
  }

  lemma PlaceNext(gold: Gold, cfg: Config, draws: nat -> bool, units: seq<Unit>, n: nat, places: seq<nat>, k: nat,
                  unit: Option<Unit>)
    requires n < |gold.segments| && k < |gold.segments[n].cast| && InCastOrder(gold, cfg, units, n, places, k)
    requires forall m: nat :: m < k ==> (m in places <==> Gives(gold, cfg, draws, n, m))
    requires unit.Some? <==> Gives(gold, cfg, draws, n, k)
    requires unit.Some? ==> FromEntry(gold, cfg, unit.value, n, k)
    ensures var here := if unit.Some? then places + [k] else places;
            && InCastOrder(gold, cfg, if unit.Some? then units + [unit.value] else units, n, here, k + 1)
            && forall m: nat :: m < k + 1 ==> (m in here <==> Gives(gold, cfg, draws, n, m))
  {
    hide FromEntry, Gives;
  }

  lemma CoveredGrows(gold: Gold, cfg: Config, some: seq<Unit>, all: seq<Unit>, n: nat, m: nat)
    requires n < |gold.segments| && m < |gold.segments[n].cast|
    requires Covered(gold, cfg, some, n, m) && forall u :: u in some ==> u in all
    ensures Covered(gold, cfg, all, n, m)
  {}

  method CutUnit(gold: Gold, cfg: Config, n: nat, k: nat, lastSeen: map<string, nat>,
                 segState: map<(string, nat), Option<string>>, draw: bool)
    returns (unit: Option<Unit>, bad: bool, drew: bool)
    requires Numbered(gold) && n < |gold.segments| && k < |gold.segments[n].cast|
    requires LastSeenTracks(gold, n, lastSeen) && OnFile(gold, n + 1, segState)
    ensures unit.Some? ==> FromEntry(gold, cfg, unit.value, n, k)
    ensures drew <==> Draws(gold, cfg, n, k)
    ensures unit.Some? <==> if drew then draw else Sure(gold, cfg, n, k)
    ensures Covered(gold, cfg, if unit.Some? then [unit.value] else [], n, k)
    ensures bad <==> Mismatch(gold, cfg, gold.segments[n].cast[k], n)
  {
    hide StateAfter, SegNum, GapBin;
    var c := gold.segments[n].cast[k];
    assert c.eid in gold.entities;
    assert Get(lastSeen, c.eid) == Prev(gold.segments, c.eid, n);
    unit, bad, drew := None, false, false;
    if gold.entities[c.eid].kind !in cfg.kinds || c.op.Introduce? || c.eid !in lastSeen { return; }
    var prev := lastSeen[c.eid];
    bad := c.lastSeen.Some? && c.lastSeen.value != "" && SegNum(c.lastSeen.value) != Some(prev);
    var gap := GapOf(c);
    var stratum := None;
    if c.op in cfg.ops && gap >= 1 {
      stratum := Some(Main);
    } else if c.op in cfg.ops && gap == 0 {
      drew := true;
      if draw { stratum := Some(Gap0); }
    } else if c.op.Transform? && gap >= cfg.transformMinGap {
      stratum := Some(TransformFar);
    }
    if stratum.None? { return; }
    assert InCast(gold.segments[n].cast, c.eid);
    assert InCast(gold.segments[prev - 1].cast, c.eid);
    unit := Some(Unit(c.eid, gold.entities[c.eid].kind, c.op, gap, GapBin(gap), stratum.value, n + 1, prev,
                      segState[(c.eid, prev)], segState[(c.eid, n + 1)]));
  }

  method InitialStates(gold: Gold) returns (state: map<string, Option<string>>)
    ensures StateTracks(gold, 0, state)
  {
    state := map e | e in gold.entities ::
      if gold.entities[e].initialState != "" then Some(gold.entities[e].initialState) else None;
  }

  /** Every unit comes from an eligible entry, with the state each side was in; no entry gives two, and they are in
      the order of the story. An entry that hangs on a draw gives one exactly when its draw succeeds, and the draws
      are made in document order, one for each such entry. */
  method BuildUnits(gold: Gold, cfg: Config, draws: nat -> bool)
    returns (units: seq<Unit>, mismatches: nat, ghost places: seq<(nat, nat)>)
    requires Numbered(gold)
    ensures InStoryOrder(gold, cfg, units, places, |gold.segments|)
    ensures forall n: nat, m: nat :: n < |gold.segments| && m < |gold.segments[n].cast| ==>
              ((n, m) in places <==> Gives(gold, cfg, draws, n, m))
    ensures forall u :: u in units ==>
              exists n :: 0 <= n < |gold.segments| && FromEntries(gold, cfg, u, n, |gold.segments[n].cast|)
    ensures forall n, m :: 0 <= n < |gold.segments| && 0 <= m < |gold.segments[n].cast|
              ==> Covered(gold, cfg, units, n, m)
    ensures mismatches == |MismatchesBefore(gold, cfg, |gold.segments|, 0)|
    ensures mismatches > 0 <==>
            exists n :: 0 <= n < |gold.segments| && MismatchUpTo(gold, cfg, n, |gold.segments[n].cast|)
  {
    hide MismatchesBefore, InStoryOrder, InCastOrder, Placed, FromEntries, Covered, MismatchUpTo, StateTracks, LastSeenTracks, OnFile, Numbered;
    units, mismatches, places := [], 0, [];
    var drawn := 0;
    var state := InitialStates(gold);
    var segState: map<(string, nat), Option<string>> := map[];
    var lastSeen: map<string, nat> := map[];
    StartTracks(gold);
    NoUnits(gold, cfg);
    MismatchesGoOn(gold, cfg);
    SomeMismatch(gold, cfg);
    for n := 0 to |gold.segments|
      invariant StateTracks(gold, n, state) && OnFile(gold, n, segState) && LastSeenTracks(gold, n, lastSeen)
      invariant InStoryOrder(gold, cfg, units, places, n)
      invariant drawn == DrawsBefore(gold, cfg, n, 0)
      invariant forall h: nat, m: nat :: h < n && m < |gold.segments[h].cast| ==>
        ((h, m) in places <==> Gives(gold, cfg, draws, h, m))
      invariant forall h, m :: 0 <= h < n && 0 <= m < |gold.segments[h].cast| ==> Covered(gold, cfg, units, h, m)
      invariant mismatches == |MismatchesBefore(gold, cfg, n, 0)|
    {
      state, segState := UpdateStates(gold, n, state, segState);
      var more, bad;
      ghost var here;
      more, bad, drawn, here := CutUnits(gold, cfg, n, lastSeen, segState, draws, drawn);
      ghost var before := units;
      SegmentInOrder(gold, cfg, units, places, n, more, here);
      GivesHere(gold, cfg, draws, units, places, n, here);
      units, mismatches, places := units + more, mismatches + bad, places + Placed(n, here);
      forall h, m | 0 <= h < n + 1 && 0 <= m < |gold.segments[h].cast| ensures Covered(gold, cfg, units, h, m) {
        CoveredGrows(gold, cfg, if h < n then before else more, units, h, m);
      }
      lastSeen := UpdateLastSeen(gold, n, lastSeen);
    }
    InOrderGivesEntries(gold, cfg, units, places);
  }

  lemma StartTracks(gold: Gold)
    ensures OnFile(gold, 0, map[]) && LastSeenTracks(gold, 0, map[])
  {}

  lemma GivesHere(gold: Gold, cfg: Config, draws: nat -> bool, units: seq<Unit>, places: seq<(nat, nat)>, n: nat,
                  here: seq<nat>)
    requires n < |gold.segments| && InStoryOrder(gold, cfg, units, places, n)
    requires forall h: nat, m: nat :: h < n && m < |gold.segments[h].cast| ==>
      ((h, m) in places <==> Gives(gold, cfg, draws, h, m))
    requires forall m: nat :: m < |gold.segments[n].cast| ==> (m in here <==> Gives(gold, cfg, draws, n, m))
    ensures forall h: nat, m: nat :: h < n + 1 && m < |gold.segments[h].cast| ==>
      ((h, m) in places + Placed(n, here) <==> Gives(gold, cfg, draws, h, m))
  {
    hide Gives, FromEntry;
    var now := Placed(n, here);
    forall h: nat, m: nat | h < n + 1 && m < |gold.segments[h].cast|
      ensures (h, m) in places + now <==> Gives(gold, cfg, draws, h, m)
    {
      if (h, m) in now { var q :| 0 <= q < |now| && now[q] == (h, m); }
      if m in here && h == n {
        var q :| 0 <= q < |here| && here[q] == m;
        assert now[q] == (n, m);
      }
    }
  }

  lemma NoUnits(gold: Gold, cfg: Config)
    ensures InStoryOrder(gold, cfg, [], [], 0)
  {}

  // ----- the audit -----

  /** The latest segment before the `n`-th that shows `e`, counted from zero. */
  predicate ShownLast(segments: seq<GoldSegment>, e: string, n: nat, p: nat) {
    p < n <= |segments| && InCast(segments[p].cast, e) && forall k :: p < k < n ==> !InCast(segments[k].cast, e)
  }

  /** An entry ticks when it names a segment other than that one. */
  lemma {:induction false} MismatchIff(gold: Gold, cfg: Config, c: Entry, n: nat)
    requires n <= |gold.segments|
    ensures Mismatch(gold, cfg, c, n) <==>
            && c.eid in gold.entities && gold.entities[c.eid].kind in cfg.kinds && c.op != Introduce
            && exists p: nat :: ShownLast(gold.segments, c.eid, n, p)
                                && c.lastSeen.Some? && |c.lastSeen.value| > 0 && SegNum(c.lastSeen.value) != Some(p + 1)
  {
    hide InCast, SegNum;
    var prev := Prev(gold.segments, c.eid, n);
    if prev.Some? { assert ShownLast(gold.segments, c.eid, n, prev.value - 1); }
    forall p: nat | ShownLast(gold.segments, c.eid, n, p) ensures prev == Some(p + 1) {}
  }

  /** The places before another, in document order, whose entries disagree with the pass. */
  ghost function MismatchesBefore(gold: Gold, cfg: Config, n: nat, m: nat): set<(nat, nat)> {
    set h: nat, k: nat | h < |gold.segments| && k < |gold.segments[h].cast|
                         && Mismatch(gold, cfg, gold.segments[h].cast[k], h) && Earlier((h, k), (n, m)) :: (h, k)
  }

  lemma MismatchNext(gold: Gold, cfg: Config, n: nat, m: nat)
    requires n < |gold.segments| && m < |gold.segments[n].cast|
    ensures |MismatchesBefore(gold, cfg, n, m + 1)|
            == |MismatchesBefore(gold, cfg, n, m)| + (if Mismatch(gold, cfg, gold.segments[n].cast[m], n) then 1 else 0)
  {
    hide Mismatch;
    var was, here := MismatchesBefore(gold, cfg, n, m), (n, m);
    assert here !in was;
    assert MismatchesBefore(gold, cfg, n, m + 1)
           == if Mismatch(gold, cfg, gold.segments[n].cast[m], n) then was + {here} else was;
  }

  lemma MismatchesGoOn(gold: Gold, cfg: Config)
    ensures MismatchesBefore(gold, cfg, 0, 0) == {}
    ensures forall n: nat :: n < |gold.segments| ==>
              MismatchesBefore(gold, cfg, n, |gold.segments[n].cast|) == MismatchesBefore(gold, cfg, n + 1, 0)
  {
    hide Mismatch;
  }

  lemma SomeMismatch(gold: Gold, cfg: Config)
    ensures |MismatchesBefore(gold, cfg, |gold.segments|, 0)| > 0
            <==> exists n :: 0 <= n < |gold.segments| && MismatchUpTo(gold, cfg, n, |gold.segments[n].cast|)
  {
    hide Mismatch;
    var all := MismatchesBefore(gold, cfg, |gold.segments|, 0);
    if |all| > 0 {
      var place :| place in all;
      assert MismatchUpTo(gold, cfg, place.0, |gold.segments[place.0].cast|);
    }
    if n :| 0 <= n < |gold.segments| && MismatchUpTo(gold, cfg, n, |gold.segments[n].cast|) {
      var m :| 0 <= m < |gold.segments[n].cast| && Mismatch(gold, cfg, gold.segments[n].cast[m], n);
      assert (n, m) in all;
    }
  }

  // ----- on compiled stories -----

  lemma {:induction false} CompiledIsNumbered(src: Source)
    requires src.Valid() && MemoryRules(src)
    ensures Numbered(GoldOf(src))
  {
    hide CastOf, SegId, SegNum, MemoryRules;
    forall i | 0 <= i < |src.flat|
      ensures SegNum(SegmentOf(src, i).id) == Some(i + 1)
      ensures forall k :: 0 <= k < |CastOf(src, i)| ==> CastOf(src, i)[k].eid in src.entities
    {
      ShotInvertsSegId(i);
      CompiledCast(src, i);
    }
  }

  lemma {:induction false} CastShowsSegment(src: Source, i: nat, e: string)
    requires src.Valid() && MemoryRules(src) && i < |src.flat|
    ensures InCast(CastOf(src, i), e) <==> OnScreen(src.flat[i], e)
  {
    hide CastOf, MemoryRules;
    CompiledCast(src, i);
    if InCast(CastOf(src, i), e) {
      var k :| 0 <= k < |CastOf(src, i)| && CastOf(src, i)[k].eid == e;
      assert src.flat[i].present[k].eid == e;
    }
    if OnScreen(src.flat[i], e) {
      var k :| 0 <= k < |src.flat[i].present| && src.flat[i].present[k].eid == e;
      assert CastOf(src, i)[k].eid == e;
    }
  }

  /** The second pass's map agrees with the compiler's backward search. */
  lemma {:induction false} PrevIsLastSeen(src: Source, segments: seq<GoldSegment>, e: string, n: nat)
    requires src.Valid() && MemoryRules(src) && n <= |src.flat| == |segments|
    requires forall k :: 0 <= k < |segments| ==> segments[k].cast == CastOf(src, k)
    ensures Prev(segments, e, n)
            == match LastSeen(src.flat, e, n, 0) case Some(p) => Some(p + 1) case None => None
  {
    hide CastOf, MemoryRules, OnScreen, InCast;
    if n > 0 {
      SeenOneBack(src.flat, segments, e, n);
      PrevIsLastSeen(src, segments, e, n - 1);
      CastShowsSegment(src, n - 1, e);
    }
  }

  /** Looking back from inside a segment: the segment itself if it already showed `e`. */
  lemma {:induction false} WithinSegment(flat: seq<Segment>, e: string, i: nat, j: nat)
    requires i < |flat| && j <= |flat[i].present|
    ensures LastSeen(flat, e, i, j)
            == if exists k :: 0 <= k < j && flat[i].present[k].eid == e then Some(i) else LastSeen(flat, e, i, 0)
  {
    if j > 0 {
      WithinSegment(flat, e, i, j - 1);
      assert (exists k :: 0 <= k < j && flat[i].present[k].eid == e)
             <==> (exists k :: 0 <= k < j - 1 && flat[i].present[k].eid == e) || flat[i].present[j - 1].eid == e;
    }
  }

  /** Both searches look at segment `n - 1` and else go on from it. */
  lemma SeenOneBack(flat: seq<Segment>, segments: seq<GoldSegment>, e: string, n: nat)
    requires 0 < n <= |flat| == |segments|
    ensures Prev(segments, e, n) == if InCast(segments[n - 1].cast, e) then Some(n) else Prev(segments, e, n - 1)
    ensures LastSeen(flat, e, n, 0) == if OnScreen(flat[n - 1], e) then Some(n - 1) else LastSeen(flat, e, n - 1, 0)
  {
    hide InCast;
    WithinSegment(flat, e, n - 1, |flat[n - 1].present|);
  }

  lemma LabelRecords(src: Source, i: nat, j: nat)
    requires src.Valid() && IsItem(src.flat, i, j)
    ensures match LastSeen(src.flat, src.flat[i].present[j].eid, i, j)
            case Some(p) => Label(src, i, j).gap == Some(i - p - 1) && Label(src, i, j).lastSeen == Some(SegId(p))
            case None => Label(src, i, j).gap.None? && Label(src, i, j).lastSeen.None?
  {
    hide SegId, LastSeen, LatestState, TransformsTo, Tag, InitialState;
  }

  /** The entry's recorded gap and `last_seen` measure back to segment number `prev`. */
  predicate Records(c: Entry, n: nat, prev: Option<nat>) {
    match prev
    case Some(p) => 0 < p && c.gap == Some((n + 1) - p - 1) && c.lastSeen == Some(SegId(p - 1))
    case None => c.gap.None? && c.lastSeen.None?
  }

  /** For every cast entry of a compiled story they measure back to the second pass's own segment. */
  lemma {:induction false} EntryAgrees(src: Source, segments: seq<GoldSegment>, i: nat, c: Entry)
    requires src.Valid() && MemoryRules(src) && DistinctCast(src.flat)
    requires |segments| == |src.flat| && forall k :: 0 <= k < |segments| ==> segments[k].cast == CastOf(src, k)
    requires i < |src.flat| && c in CastOf(src, i)
    ensures Records(c, i, Prev(segments, c.eid, i))
  {
    hide MemoryRules, SegId, CastOf, Label, LastSeen, Prev, DistinctCast;
    var k :| 0 <= k < |CastOf(src, i)| && CastOf(src, i)[k] == c;
    CompiledCast(src, i);
    WithinSegment(src.flat, c.eid, i, k);
    NotRepeated(src.flat, i, k);
    LabelRecords(src, i, k);
    PrevIsLastSeen(src, segments, c.eid, i);
  }

  lemma NotRepeated(flat: seq<Segment>, i: nat, k: nat)
    requires DistinctCast(flat) && IsItem(flat, i, k)
    ensures !exists h :: 0 <= h < k && flat[i].present[h].eid == flat[i].present[k].eid
  {}

  /** An entry that measures back correctly is no mismatch, and its unit's gap is the distance. */
  lemma RecordsGiveUnits(gold: Gold, cfg: Config, n: nat, m: nat)
    requires n < |gold.segments| && m < |gold.segments[n].cast|
    requires Records(gold.segments[n].cast[m], n, Prev(gold.segments, gold.segments[n].cast[m].eid, n))
    requires GapOf(gold.segments[n].cast[m]) >= 0
    ensures !Mismatch(gold, cfg, gold.segments[n].cast[m], n)
    ensures forall u :: FromEntry(gold, cfg, u, n, m) ==> u.gap == u.cur - u.prev - 1 >= 0
  {
    hide SegId, SegNum, Prev, StratumOf, UnitOf, FromEntry;
    var c := gold.segments[n].cast[m];
    var p := Prev(gold.segments, c.eid, n);
    if p.Some? { ShotInvertsSegId(p.value - 1); }
    forall u | FromEntry(gold, cfg, u, n, m) ensures u.gap == u.cur - u.prev - 1 >= 0 {
      UnitSides(gold, cfg, u, n, m);
    }
  }

  lemma UnitSides(gold: Gold, cfg: Config, u: Unit, n: nat, m: nat)
    requires n < |gold.segments| && m < |gold.segments[n].cast| && FromEntry(gold, cfg, u, n, m)
    ensures Prev(gold.segments, gold.segments[n].cast[m].eid, n) == Some(u.prev)
    ensures u.cur == n + 1 && u.gap == GapOf(gold.segments[n].cast[m])
  {
    hide StateAfter, GapBin, StratumOf, Prev;
  }

  lemma CompiledEntry(src: Source, segments: seq<GoldSegment>, n: nat, m: nat)
    requires src.Valid() && MemoryRules(src) && DistinctCast(src.flat)
    requires |segments| == |src.flat| && forall k :: 0 <= k < |segments| ==> segments[k].cast == CastOf(src, k)
    requires n < |segments| && m < |segments[n].cast|
    ensures Records(segments[n].cast[m], n, Prev(segments, segments[n].cast[m].eid, n))
    ensures GapOf(segments[n].cast[m]) >= 0
  {
    hide MemoryRules, CastOf, DistinctCast;
    EntryAgrees(src, segments, n, segments[n].cast[m]);
  }

  lemma UnitsAgree(src: Source, gold: Gold, cfg: Config)
    requires src.Valid() && MemoryRules(src) && DistinctCast(src.flat)
    requires |gold.segments| == |src.flat|
    requires forall k :: 0 <= k < |gold.segments| ==> gold.segments[k].cast == CastOf(src, k)
    ensures forall n :: 0 <= n < |gold.segments| ==>
              !MismatchUpTo(gold, cfg, n, |gold.segments[n].cast|)
              && forall u :: FromEntries(gold, cfg, u, n, |gold.segments[n].cast|) ==>
                   u.gap == u.cur - u.prev - 1 >= 0
  {
    hide MemoryRules, CastOf, Numbered, Mismatch, FromEntry, Records, GapOf, Prev, DistinctCast;
    forall n, m | 0 <= n < |gold.segments| && 0 <= m < |gold.segments[n].cast|
      ensures !Mismatch(gold, cfg, gold.segments[n].cast[m], n)
    {
      CompiledEntry(src, gold.segments, n, m);
      RecordsGiveUnits(gold, cfg, n, m);
    }
    forall n, u | 0 <= n < |gold.segments| && FromEntries(gold, cfg, u, n, |gold.segments[n].cast|)
      ensures u.gap == u.cur - u.prev - 1 >= 0
    {
      var m :| 0 <= m < |gold.segments[n].cast| && FromEntry(gold, cfg, u, n, m);
      CompiledEntry(src, gold.segments, n, m);
      RecordsGiveUnits(gold, cfg, n, m);
    }
  }

  /** On a compiled story the audit never ticks, and each unit's gap is the distance between its sides. */
  lemma {:induction false} UnitsAgreeWithCompiler(src: Source, cfg: Config)
    requires src.Valid() && MemoryRules(src) && DistinctCast(src.flat)
    ensures Numbered(GoldOf(src))
    ensures forall n :: 0 <= n < |src.flat| ==>
              !MismatchUpTo(GoldOf(src), cfg, n, |GoldOf(src).segments[n].cast|)
              && forall u :: FromEntries(GoldOf(src), cfg, u, n, |GoldOf(src).segments[n].cast|) ==>
                   u.gap == u.cur - u.prev - 1 >= 0
  {
    hide MemoryRules, CastOf, Numbered, MismatchUpTo, FromEntries, DistinctCast;
    CompiledIsNumbered(src);
    UnitsAgree(src, GoldOf(src), cfg);
  }
}
