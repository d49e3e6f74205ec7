/** The Track B timeline: the authored source, the memory rules it must meet, and the labels that
    follow from it, each found by searching the flattened timeline backwards. */
module Timeline {
  import opened Basics
  import opened Decimal

  // ----- the authored source -----

  datatype Event =
    | StateChange(eid: string, to: Option<string>)
    | Remove(eid: string, to: Option<string>, shown: bool, reason: string)
    | Other(kind: string)

  datatype Anchor = Anchor(kind: string, resolvesTo: string)

  datatype Extras = Extras(state: Option<string>, confusableWith: Option<string>,
                           count: Option<int>, anchor: Option<Anchor>)

  datatype Item = Item(eid: string, extras: Extras)

  datatype Lookalike = Lookalike(pair: seq<string>, members: seq<string>)

  datatype Segment = Segment(sceneId: string, action: string, present: seq<Item>, cut: bool,
                             events: seq<Event>, lookalike: Option<Lookalike>)

  /** An empty `initialState`, `name` or anchor target stands for an absent one, as the source tests
      these for truth only. */
  datatype Entity = Entity(name: string, kind: string, initialState: string,
                           states: map<string, string>, appearance: string)

  datatype Source = Source(entities: map<string, Entity>, machines: map<string, seq<string>>,
                           pairs: map<seq<string>, map<string, string>>,
                           gapLong: int, avoidWindow: int, flat: seq<Segment>)
  {
    /** A declared state machine has a first state. */
    predicate Valid() { forall e :: e in machines ==> machines[e] != [] }
  }

  // ----- the compiled labels -----

  datatype Op = Introduce | Recall | RecallAfterGap | Transform | Persist

  datatype Probe = StateChangeProbe | LongGap | FirstAppearance | Continuity | PersistState
                 | FalseFriend | CountMemory | TemporalReference | ReferenceIndirect
                 | DeprecationAvoidance | LookalikeDisambiguation

  datatype StateTag = StateTag(name: string, appearance: string, flashback: bool)

  datatype Entry = Entry(eid: string, op: Op, state: Option<StateTag>, gap: Option<int>,
                         lastSeen: Option<string>, confusableWith: Option<string>,
                         count: Option<int>, anchor: Option<Anchor>)

  datatype Forbidden = Forbidden(eid: string, reason: string, groundedBy: string, indirect: bool)

  datatype Twins = Twins(pair: seq<string>, features: map<string, string>, members: seq<string>)

  datatype GoldSegment = GoldSegment(id: string, sceneId: string, cut: bool, action: string,
                                     probes: set<Probe>, cast: seq<Entry>,
                                     forbidden: seq<Forbidden>, twins: Option<Twins>)

  datatype Gold = Gold(entities: map<string, Entity>, segments: seq<GoldSegment>)

  // ----- one segment's own events -----

  /** The last state change of `e` in the segment wins. */
  function StateEvent(events: seq<Event>, e: string): Option<Option<string>> {
    if events == [] then None
    else
      var ev := events[|events| - 1];
      if ev.StateChange? && ev.eid == e then Some(ev.to) else StateEvent(events[..|events| - 1], e)
  }

  /** The last removal of `e` in the segment wins. */
  function RemoveEvent(events: seq<Event>, e: string): (r: Option<Event>)
    ensures r.Some? ==> r.value.Remove? && r.value.eid == e && r.value in events
    ensures r.None? ==> forall ev :: ev in events ==> !(ev.Remove? && ev.eid == e)
  {
    if events == [] then None
    else
      var ev := events[|events| - 1];
      if ev.Remove? && ev.eid == e then Some(ev) else RemoveEvent(events[..|events| - 1], e)
  }

  /** The entities a segment removes, in the order their first removal is listed. */
  function RemovedHere(events: seq<Event>): (r: seq<string>)
    ensures forall e :: e in r <==> RemoveEvent(events, e).Some?
    ensures Distinct(r)
  {
    if events == [] then []
    else
      var ev := events[|events| - 1];
      var before := RemovedHere(events[..|events| - 1]);
      if ev.Remove? then AppendNew(before, ev.eid) else before
  }

  /** Insertion order of a Python dict: a key keeps the place of its first insertion. */
  function AppendNew(s: seq<string>, e: string): (r: seq<string>)
    ensures forall x :: x in r <==> x in s || x == e
    ensures Distinct(s) ==> Distinct(r)
  {
    if e in s then s else s + [e]
  }

  /** The state label an item takes on through this segment's events; a flashback takes none. */
  function TransformsTo(seg: Segment, it: Item): Option<string> {
    if it.extras.state.Some? then None else Announced(seg.events, it.eid)
  }

  function Announced(events: seq<Event>, e: string): Option<string> {
    match StateEvent(events, e)
    case Some(to) => to
    case None =>
      match RemoveEvent(events, e)
      case Some(ev) => if ev.shown then ev.to else None
      case None => None
  }

  // ----- looking back -----

  /** A point of the timeline: before item `j` of segment `i`, or the end. */
  predicate AtItem(flat: seq<Segment>, i: nat, j: nat) {
    if i < |flat| then j <= |flat[i].present| else i == |flat| && j == 0
  }

  /** The segment of the latest appearance of `e` before item `j` of segment `i`. */
  function LastSeen(flat: seq<Segment>, e: string, i: nat, j: nat): (r: Option<nat>)
    requires AtItem(flat, i, j)
    ensures r.Some? ==> r.value <= i && (j == 0 ==> r.value < i)
    decreases i, j
  {
    if j > 0 then
      if flat[i].present[j - 1].eid == e then Some(i) else LastSeen(flat, e, i, j - 1)
    else if i > 0 then LastSeen(flat, e, i - 1, |flat[i - 1].present|)
    else None
  }

  /** The label of the latest transform of `e` before item `j` of segment `i`. */
  function LatestState(flat: seq<Segment>, e: string, i: nat, j: nat): Option<string>
    requires AtItem(flat, i, j)
    decreases i, j
  {
    if j > 0 then
      var it := flat[i].present[j - 1];
      if it.eid == e && TransformsTo(flat[i], it).Some? then TransformsTo(flat[i], it)
      else LatestState(flat, e, i, j - 1)
    else if i > 0 then LatestState(flat, e, i - 1, |flat[i - 1].present|)
    else None
  }

  datatype Removal = Removal(idx: nat, reason: string)

  /** The latest removal of `e` in the first `n` segments. */
  function LatestRemoval(flat: seq<Segment>, e: string, n: nat): (r: Option<Removal>)
    requires n <= |flat|
    ensures r.Some? ==> r.value.idx < n && RemoveEvent(flat[r.value.idx].events, e).Some?
    ensures r.Some? ==> forall k :: r.value.idx < k < n ==> RemoveEvent(flat[k].events, e).None?
    ensures r.None? ==> forall k :: 0 <= k < n ==> RemoveEvent(flat[k].events, e).None?
  {
    if n == 0 then None
    else match RemoveEvent(flat[n - 1].events, e)
      case Some(ev) => Some(Removal(n - 1, ev.reason))
      case None => LatestRemoval(flat, e, n - 1)
  }

  /** Registered entities in the order of their first removal in the first `n` segments. */
  function RemovalOrder(src: Source, n: nat): (r: seq<string>)
    requires n <= |src.flat|
    ensures Distinct(r)
    ensures forall e :: e in r <==> e in src.entities && LatestRemoval(src.flat, e, n).Some?
  {
    if n == 0 then []
    else AppendRegistered(src, RemovalOrder(src, n - 1), RemovedHere(src.flat[n - 1].events))
  }

  function AppendRegistered(src: Source, s: seq<string>, more: seq<string>): (r: seq<string>)
    ensures Distinct(s) ==> Distinct(r)
    ensures forall x :: x in r <==> x in s || (x in more && x in src.entities)
  {
    if more == [] then s
    else
      var e := more[|more| - 1];
      var r := AppendRegistered(src, s, more[..|more| - 1]);
      if e in src.entities then AppendNew(r, e) else r
  }

  // ----- labels -----

  function InitialState(src: Source, e: string): Option<string>
    requires src.Valid()
  {
    if e in src.entities && src.entities[e].initialState != "" then Some(src.entities[e].initialState)
    else if e in src.machines then Some(src.machines[e][0])
    else None
  }

  function AppearanceOf(src: Source, e: string, name: string): string {
    if e !in src.entities then ""
    else
      var ent := src.entities[e];
      if |ent.states| > 0 then (if name in ent.states then ent.states[name] else "")
      else ent.appearance
  }

  function Tag(src: Source, e: string, name: string, flashback: bool): Option<StateTag> {
    Some(StateTag(name, AppearanceOf(src, e, name), flashback))
  }

  /** The label of one cast entry, from what the timeline says happened before it. */
  function Label(src: Source, i: nat, j: nat): Entry
    requires src.Valid() && i < |src.flat| && j < |src.flat[i].present|
  {
    var it := src.flat[i].present[j];
    LabelFrom(src, i, it, TransformsTo(src.flat[i], it),
              LastSeen(src.flat, it.eid, i, j), LatestState(src.flat, it.eid, i, j))
  }

  /** `to`: the state taken on here; `prev`: the latest earlier appearance; `state`: the latest
      earlier transform. */
  function LabelFrom(src: Source, i: nat, it: Item, to: Option<string>, prev: Option<nat>,
                     state: Option<string>): Entry
    requires src.Valid()
  {
    var e, x := it.eid, it.extras;
    var gap := if prev.Some? then Some(i - prev.value - 1) else None;
    var seen := if prev.Some? then Some(SegId(prev.value)) else None;
    var op :=
      if to.Some? then Transform
      else if prev.None? then Introduce
      else if x.state.None? && state.Some? && state != InitialState(src, e) then Persist
      else if gap.value >= src.gapLong then RecallAfterGap
      else Recall;
    var tag :=
      if op.Transform? then Tag(src, e, to.value, false)
      else if op.Introduce? then None
      else if x.state.Some? then Tag(src, e, x.state.value, true)
      else if op.Persist? then Tag(src, e, state.value, false)
      else None;
    Entry(e, op, tag, gap, seen, x.confusableWith, x.count, x.anchor)
  }

  /** A segment's probes follow from its finished labels. */
  function EntryProbes(src: Source, c: Entry): set<Probe> {
    (match c.op
     case Transform => {StateChangeProbe}
     case Introduce => {FirstAppearance}
     case Persist => {PersistState}
     case Recall => {Continuity}
     case RecallAfterGap => {})
    + (if c.gap.Some? && c.gap.value >= src.gapLong then {LongGap} else {})
    + (if c.confusableWith.Some? && c.op.Introduce? then {FalseFriend} else {})
    + (if c.count.Some? && (c.op.Recall? || c.op.RecallAfterGap? || c.op.Persist?) then {CountMemory} else {})
    + (if c.anchor.Some? && c.anchor.value.kind == "temporal" then {TemporalReference} else {})
  }

  /** Labels of the registered entities among the first `j` items of segment `i`. */
  function CastUpTo(src: Source, i: nat, j: nat): (r: seq<Entry>)
    requires src.Valid() && i < |src.flat| && j <= |src.flat[i].present|
    ensures |r| <= j
  {
    if j == 0 then []
    else CastUpTo(src, i, j - 1)
         + (if src.flat[i].present[j - 1].eid in src.entities then [Label(src, i, j - 1)] else [])
  }

  function CastOf(src: Source, i: nat): seq<Entry>
    requires src.Valid() && i < |src.flat|
  {
    CastUpTo(src, i, |src.flat[i].present|)
  }

  function CastProbes(src: Source, cast: seq<Entry>): set<Probe> {
    if cast == [] then {}
    else CastProbes(src, cast[..|cast| - 1]) + EntryProbes(src, cast[|cast| - 1])
  }

  // ----- the forbidden roster -----

  function NameOf(src: Source, e: string): string {
    if e in src.entities then src.entities[e].name else ""
  }

  predicate Mentions(src: Source, e: string, action: string) {
    NameOf(src, e) != "" && Contains(action, NameOf(src, e))
  }

  /** Entities among `order` whose latest removal lies strictly before segment `i`. */
  function RemovedRoster(src: Source, i: nat, order: seq<string>): (r: seq<Forbidden>)
    requires i < |src.flat|
  {
    if order == [] then []
    else
      var e := order[|order| - 1];
      var rest := RemovedRoster(src, i, order[..|order| - 1]);
      match LatestRemoval(src.flat, e, i + 1)
      case Some(r) =>
        if r.idx < i then
          rest + [Forbidden(e, r.reason, SegId(r.idx), Mentions(src, e, src.flat[i].action))]
        else rest
      case None => rest
  }

  function RemovedProbes(src: Source, i: nat, order: seq<string>): set<Probe>
    requires i < |src.flat|
  {
    if order == [] then {}
    else
      var e := order[|order| - 1];
      var rest := RemovedProbes(src, i, order[..|order| - 1]);
      match LatestRemoval(src.flat, e, i + 1)
      case Some(r) =>
        if r.idx >= i then rest
        else if Mentions(src, e, src.flat[i].action) then rest + {ReferenceIndirect, DeprecationAvoidance}
        else if i - r.idx <= src.avoidWindow then rest + {DeprecationAvoidance}
        else rest
      case None => rest
  }

  /** Twins of the declared pair that are not on screen. */
  function AbsentTwins(pair: seq<string>, all: seq<string>, members: seq<string>): seq<Forbidden> {
    if pair == [] then []
    else
      var m := pair[|pair| - 1];
      var rest := AbsentTwins(pair[..|pair| - 1], all, members);
      if m in members then rest
      else rest + [Forbidden(m, "lookalike_absent", "lookalike:" + Join(all), false)]
  }

  /** `'/'.join(pair)`. */
  function Join(parts: seq<string>): string {
    if parts == [] then ""
    else if |parts| == 1 then parts[0]
    else Join(parts[..|parts| - 1]) + "/" + parts[|parts| - 1]
  }

  function TwinsOf(src: Source, i: nat): Option<Twins>
    requires i < |src.flat|
  {
    match src.flat[i].lookalike
    case None => None
    case Some(lp) =>
      Some(Twins(lp.pair, if lp.pair in src.pairs then src.pairs[lp.pair] else map[], lp.members))
  }

  function ForbiddenOf(src: Source, i: nat): seq<Forbidden>
    requires i < |src.flat|
  {
    RemovedRoster(src, i, RemovalOrder(src, i + 1))
    + (match src.flat[i].lookalike
       case None => []
       case Some(lp) => AbsentTwins(lp.pair, lp.pair, lp.members))
  }

  function SegmentOf(src: Source, i: nat): GoldSegment
    requires src.Valid() && i < |src.flat|
  {
    var seg := src.flat[i];
    GoldSegment(SegId(i), seg.sceneId, seg.cut, seg.action,
                CastProbes(src, CastOf(src, i)) + RemovedProbes(src, i, RemovalOrder(src, i + 1))
                + (if seg.lookalike.Some? then {LookalikeDisambiguation} else {}),
                CastOf(src, i), ForbiddenOf(src, i), TwinsOf(src, i))
  }

  function GoldUpTo(src: Source, n: nat): (r: seq<GoldSegment>)
    requires src.Valid() && n <= |src.flat|
    ensures |r| == n && forall i :: 0 <= i < n ==> r[i] == SegmentOf(src, i)
  {
    if n == 0 then [] else GoldUpTo(src, n - 1) + [SegmentOf(src, n - 1)]
  }

  /** A stateful entity keeps its looks per state and names its first one; it has no look of its own. */
  function GoldEntity(src: Source, e: string): Entity
    requires src.Valid() && e in src.entities
  {
    var ent := src.entities[e];
    if |ent.states| == 0 then ent
    else
      var first := InitialState(src, e);
      ent.(appearance := "", initialState := if first.Some? then first.value else "")
  }

  function GoldEntities(src: Source): map<string, Entity>
    requires src.Valid()
  {
    map e | e in src.entities :: GoldEntity(src, e)
  }

  /** What the timeline means: the gold labels, stated without any running state. */
  function GoldOf(src: Source): (g: Gold)
    requires src.Valid()
    ensures |g.segments| == |src.flat|
    ensures forall i :: 0 <= i < |src.flat| ==> g.segments[i] == SegmentOf(src, i)
  {
    Gold(GoldEntities(src), GoldUpTo(src, |src.flat|))
  }

  // ----- the memory rules -----

  predicate InMachine(src: Source, e: string, name: string) {
    e in src.machines ==> name in src.machines[e]
  }

  predicate ItemRules(src: Source, seg: Segment, it: Item) {
    var x := it.extras;
    && it.eid in src.entities
    && (x.state.Some? ==> InMachine(src, it.eid, x.state.value))
    && (TransformsTo(seg, it).Some? ==> InMachine(src, it.eid, TransformsTo(seg, it).value))
    && (x.confusableWith.Some? ==> x.confusableWith.value in src.entities)
    && (x.anchor.Some? && x.anchor.value.kind == "temporal" && x.anchor.value.resolvesTo != ""
        ==> x.anchor.value.resolvesTo in src.entities)
  }

  predicate ItemsRules(src: Source, seg: Segment, n: nat)
    requires n <= |seg.present|
  {
    forall j :: 0 <= j < n ==> ItemRules(src, seg, seg.present[j])
  }

  predicate OnScreen(seg: Segment, e: string) {
    exists j :: 0 <= j < |seg.present| && seg.present[j].eid == e
  }

  predicate RemovalRule(src: Source, seg: Segment, e: string) {
    RemoveEvent(seg.events, e).Some? ==>
      e in src.entities && (RemoveEvent(seg.events, e).value.shown ==> OnScreen(seg, e))
  }

  predicate LookalikeRules(src: Source, seg: Segment) {
    seg.lookalike.Some? ==>
      var lp := seg.lookalike.value;
      lp.pair in src.pairs && forall m :: m in lp.members ==> m in lp.pair
  }

  predicate EventRules(events: seq<Event>) {
    forall ev :: ev in events ==> !ev.Other?
  }

  predicate SegmentRules(src: Source, seg: Segment) {
    && EventRules(seg.events)
    && ItemsRules(src, seg, |seg.present|)
    && (forall e :: e in RemovedHere(seg.events) ==> RemovalRule(src, seg, e))
    && LookalikeRules(src, seg)
  }

  /** No entity is on screen in a segment after one that removes it. */
  predicate NoReentry(flat: seq<Segment>) {
    forall i, j :: 0 <= i < |flat| && 0 <= j < |flat[i].present|
      ==> LatestRemoval(flat, flat[i].present[j].eid, i).None?
  }

  predicate MemoryRules(src: Source) {
    NoReentry(src.flat) && forall i :: 0 <= i < |src.flat| ==> SegmentRules(src, src.flat[i])
  }

  /** Within one segment each entity is listed once. */
  predicate DistinctCast(flat: seq<Segment>) {
    forall i, j, k :: 0 <= i < |flat| && 0 <= j < k < |flat[i].present|
      ==> flat[i].present[j].eid != flat[i].present[k].eid
  }
}
