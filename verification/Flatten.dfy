/** Scenes to the flat timeline: one segment per action, scene defaults filled in, scene events placed. */
module Flatten {
  import opened Basics
  import opened Timeline
  import Compiler
  import Rules

  /** An `actions` item: plain text, or an object that may override what the scene says. */
  datatype Action =
    | Plain(text: string)
    | Detailed(text: string, present: Option<seq<Item>>, events: seq<Event>, lookalike: Option<Option<Lookalike>>)

  datatype Placed = Placed(at: int, event: Event)

  datatype Scene = Scene(id: string, actions: seq<Action>, present: seq<Item>, lookalike: Option<Lookalike>,
                         events: seq<Placed>)

  datatype Problem = NoActions(scene: nat) | OutOfRange(scene: nat, at: int)

  predicate WellFormed(scene: Scene) {
    scene.actions != [] && forall k :: 0 <= k < |scene.events| ==> 0 <= scene.events[k].at < |scene.actions|
  }

  /** A scene has actions, and each of its events happens at one of them. */
  lemma WellFormedIs(scene: Scene)
    ensures WellFormed(scene) <==>
            |scene.actions| > 0 && forall ev :: ev in scene.events ==> ev.at >= 0 && ev.at <= |scene.actions| - 1
  {
    forall k | 0 <= k < |scene.events| ensures scene.events[k] in scene.events {}
  }

  /** The scene events of one local index, in their order. */
  function EventsAt(events: seq<Placed>, local: int): seq<Event> {
    if events == [] then []
    else
      var ev := events[|events| - 1];
      EventsAt(events[..|events| - 1], local) + (if ev.at == local then [ev.event] else [])
  }

  function OwnEvents(a: Action): seq<Event> { if a.Plain? then [] else a.events }

  /** What the segment of one action is. */
  function SegmentAt(scene: Scene, local: nat): Segment
    requires local < |scene.actions|
  {
    var a := scene.actions[local];
    Segment(scene.id, a.text,
            if a.Detailed? && a.present.Some? then a.present.value else scene.present,
            local == 0,
            EventsAt(scene.events, local) + OwnEvents(a),
            if a.Detailed? && a.lookalike.Some? then a.lookalike.value else scene.lookalike)
  }

  ghost function PlacedHere(scene: Scene, local: nat): nat -> bool {
    (p: nat) => p < |scene.events| && scene.events[p].at == local
  }

  /** An action's segment: the scene's id, its own text, cast and look-alikes where it gives them and else the scene's,
      a cut for the first action, and the scene's events placed here, in their order, before its own. */
  ghost predicate SegmentTells(scene: Scene, local: nat, s: Segment, places: seq<nat>)
    requires local < |scene.actions|
  {
    var a := scene.actions[local];
    && s.sceneId == scene.id && s.action == a.text && (s.cut <==> local == 0)
    && (a.Detailed? && a.present.Some? ==> s.present == a.present.value)
    && (a.Plain? || a.present.None? ==> s.present == scene.present)
    && (a.Detailed? && a.lookalike.Some? ==> s.lookalike == a.lookalike.value)
    && (a.Plain? || a.lookalike.None? ==> s.lookalike == scene.lookalike)
    && PlacesOf(places, |scene.events|, PlacedHere(scene, local)) && |places| <= |s.events|
    && (forall k :: 0 <= k < |places| ==> places[k] < |scene.events| && s.events[k] == scene.events[places[k]].event)
    && s.events[|places|..] == if a.Detailed? then a.events else []
  }

  lemma {:induction false} SegmentAtTells(scene: Scene, local: nat) returns (places: seq<nat>)
    requires local < |scene.actions|
    ensures SegmentTells(scene, local, SegmentAt(scene, local), places)
  {
    places := EventPlaces(scene, local, |scene.events|);
    assert scene.events[..|scene.events|] == scene.events;
    hide EventsAt, PlacesOf;
  }

  lemma {:induction false} EventPlaces(scene: Scene, local: nat, n: nat) returns (places: seq<nat>)
    requires n <= |scene.events|
    ensures PlacesOf(places, n, PlacedHere(scene, local)) && |EventsAt(scene.events[..n], local)| == |places|
    ensures forall k :: 0 <= k < |places| ==>
              places[k] < |scene.events| && EventsAt(scene.events[..n], local)[k] == scene.events[places[k]].event
  {
    hide PlacesOf;
    if n == 0 {
      places := [];
      NoPlaces(PlacedHere(scene, local));
    } else {
      assert scene.events[..n][..n - 1] == scene.events[..n - 1];
      places := EventPlaces(scene, local, n - 1);
      PlacesStep(places, n - 1, PlacedHere(scene, local));
      if scene.events[n - 1].at == local { places := places + [n - 1]; }
    }
  }

  function SceneSegments(scene: Scene): (r: seq<Segment>)
    ensures |r| == |scene.actions|
  {
    seq(|scene.actions|, local requires 0 <= local < |scene.actions| => SegmentAt(scene, local))
  }

  function Flat(scenes: seq<Scene>): seq<Segment> {
    if scenes == [] then [] else Flat(scenes[..|scenes| - 1]) + SceneSegments(scenes[|scenes| - 1])
  }

  predicate Faulty(scene: Scene, k: nat, p: Problem) {
    match p
    case NoActions(s) => s == k && scene.actions == []
    case OutOfRange(s, at) =>
      s == k && scene.actions != []
      && exists j :: 0 <= j < |scene.events| && scene.events[j].at == at && !(0 <= at < |scene.actions|)
                     && forall i :: 0 <= i < j ==> 0 <= scene.events[i].at < |scene.actions|
  }

  /** `_flatten`: it succeeds exactly on well-formed scenes, and otherwise names the first fault. */
  method FlattenScenes(scenes: seq<Scene>) returns (r: Result<seq<Segment>, Problem>)
    ensures r.Ok? <==> forall k :: 0 <= k < |scenes| ==> WellFormed(scenes[k])
    ensures r.Ok? ==> r.value == Flat(scenes)
    ensures r.Err? ==> r.error.scene < |scenes| && Faulty(scenes[r.error.scene], r.error.scene, r.error)
                       && forall k :: 0 <= k < r.error.scene ==> WellFormed(scenes[k])
  {
    hide SceneSegments, WellFormed, Faulty;
    var segs: seq<Segment> := [];
    for k := 0 to |scenes|
      invariant segs == Flat(scenes[..k])
      invariant forall i :: 0 <= i < k ==> WellFormed(scenes[i])
    {
      assert scenes[..k + 1][..k] == scenes[..k];
      var one := FlattenScene(scenes[k], k);
      if one.Err? { return Err(one.error); }
      segs := segs + one.value;
    }
    assert scenes[..|scenes|] == scenes;
    return Ok(segs);
  }

  /** `ev_by_local`, or the first place out of range. */
  method PlaceEvents(scene: Scene) returns (r: Result<map<int, seq<Event>>, int>)
    requires scene.actions != []
    ensures r.Ok? <==> WellFormed(scene)
    ensures r.Ok? ==> forall local :: EventsAt(scene.events, local) == AtPlace(r.value, local)
    ensures r.Err? ==> forall k: nat :: Faulty(scene, k, OutOfRange(k, r.error))
  {
    hide EventsAt;
    var byLocal: map<int, seq<Event>> := map[];
    NothingPlaced(scene.events);
    for j := 0 to |scene.events|
      invariant forall i :: 0 <= i < j ==> 0 <= scene.events[i].at < |scene.actions|
      invariant forall local :: EventsAt(scene.events[..j], local) == AtPlace(byLocal, local)
    {
      var ev := scene.events[j];
      if !(0 <= ev.at < |scene.actions|) { return Err(ev.at); }
      PlaceOne(scene.events, j, byLocal);
      byLocal := byLocal[ev.at := AtPlace(byLocal, ev.at) + [ev.event]];
    }
    assert scene.events[..|scene.events|] == scene.events;
    return Ok(byLocal);
  }

  function AtPlace(byLocal: map<int, seq<Event>>, local: int): seq<Event> {
    if local in byLocal then byLocal[local] else []
  }

  lemma NothingPlaced(events: seq<Placed>)
    ensures forall local :: EventsAt(events[..0], local) == AtPlace(map[], local)
  {}

  lemma PlaceOne(events: seq<Placed>, j: nat, byLocal: map<int, seq<Event>>)
    requires j < |events| && forall local :: EventsAt(events[..j], local) == AtPlace(byLocal, local)
    ensures var ev := events[j];
            var next := byLocal[ev.at := AtPlace(byLocal, ev.at) + [ev.event]];
            forall local :: EventsAt(events[..j + 1], local) == AtPlace(next, local)
  {
    assert events[..j + 1][..j] == events[..j];
    var next := byLocal[events[j].at := AtPlace(byLocal, events[j].at) + [events[j].event]];
    forall local ensures EventsAt(events[..j + 1], local) == AtPlace(next, local) {
      assert EventsAt(events[..j], local) == AtPlace(byLocal, local);
    }
  }

  method FlattenScene(scene: Scene, k: nat) returns (r: Result<seq<Segment>, Problem>)
    ensures r.Ok? <==> WellFormed(scene)
    ensures r.Ok? ==> r.value == SceneSegments(scene)
    ensures r.Err? ==> r.error.scene == k && Faulty(scene, k, r.error)
  {
    hide EventsAt, AtPlace;
    if scene.actions == [] { return Err(NoActions(k)); }
    hide WellFormed, Faulty;
    var byLocal := PlaceEvents(scene);
    if byLocal.Err? { return Err(OutOfRange(k, byLocal.error)); }
    var segs: seq<Segment> := [];
    for local := 0 to |scene.actions|
      invariant |segs| == local && forall i :: 0 <= i < local ==> segs[i] == SegmentAt(scene, i)
    {
      var a := scene.actions[local];
      var present, lp := scene.present, scene.lookalike;
      if a.Detailed? {
        if a.present.Some? { present := a.present.value; }
        if a.lookalike.Some? { lp := a.lookalike.value; }
      }
      var events := AtPlace(byLocal.value, local) + OwnEvents(a);
      segs := segs + [Segment(scene.id, a.text, present, local == 0, events, lp)];
    }
    return Ok(segs);
  }

  datatype StoryError = BadScene(problem: Problem) | BrokenRules(errors: seq<Compiler.RuleError>)

  /** `build` from the authored scenes: a story compiles exactly when its scenes are well-formed and its flat
      timeline meets the memory rules, and then to what that timeline means. */
  method BuildStory(scenes: seq<Scene>, src: Source) returns (r: Result<Gold, StoryError>)
    requires src.Valid()
    ensures var story := src.(flat := Flat(scenes));
            && (r.Ok? <==> (forall k :: 0 <= k < |scenes| ==> WellFormed(scenes[k])) && MemoryRules(story))
            && (r.Ok? ==> r.value == GoldOf(story))
            && (r.Ok? <==> (forall k :: 0 <= k < |scenes| ==> WellFormed(scenes[k])) && Rules.WellTold(story))
            && (r.Ok? ==> Rules.Tells(story, r.value))
            && (r.Err? ==> (r.error.BadScene? <==> exists k :: 0 <= k < |scenes| && !WellFormed(scenes[k])))
            && (r.Err? && r.error.BrokenRules? ==> forall x :: x in r.error.errors <==> Compiler.IsBroken(story, x))
  {
    hide WellFormed, MemoryRules, GoldOf, Flat, Rules.WellTold, Rules.Tells, Compiler.IsBroken;
    Rules.CompilesIff(src.(flat := Flat(scenes)));
    var flat := FlattenScenes(scenes);
    if flat.Err? { return Err(BadScene(flat.error)); }
    var gold := Compiler.Build(src.(flat := flat.value));
    if gold.Err? { return Err(BrokenRules(gold.error)); }
    Rules.GoldTells(src.(flat := Flat(scenes)));
    return Ok(gold.value);
  }

  // ----- conservation -----

  function Offset(scenes: seq<Scene>, k: nat): nat
    requires k <= |scenes|
  {
    if k == 0 then 0 else Offset(scenes, k - 1) + |scenes[k - 1].actions|
  }

  lemma {:induction false} OffsetOfPrefix(scenes: seq<Scene>, n: nat, k: nat)
    requires k <= n <= |scenes|
    ensures Offset(scenes[..n], k) == Offset(scenes, k)
  {
    if k > 0 { OffsetOfPrefix(scenes, n, k - 1); }
  }

  /** Every action is one segment, where the actions before it say; it opens a cut exactly when it is the first
      of its scene. */
  lemma {:induction false} OneSegmentPerAction(scenes: seq<Scene>, k: nat, local: nat)
    requires k < |scenes| && local < |scenes[k].actions|
    ensures |Flat(scenes)| == Offset(scenes, |scenes|) && Offset(scenes, k) + local < |Flat(scenes)|
    ensures Flat(scenes)[Offset(scenes, k) + local] == SegmentAt(scenes[k], local)
    ensures Flat(scenes)[Offset(scenes, k) + local].cut <==> local == 0
    decreases |scenes|
  {
    var n := |scenes| - 1;
    FlatLength(scenes);
    FlatLength(scenes[..n]);
    OffsetOfPrefix(scenes, n, n);
    hide Flat, SegmentAt, Offset, SceneSegments;
    FlatSplits(scenes);
    var before, last := Flat(scenes[..n]), SceneSegments(scenes[n]);
    if k < n {
      OffsetOfPrefix(scenes, n, k);
      assert scenes[..n][k] == scenes[k];
      OneSegmentPerAction(scenes[..n], k, local);
    } else {
      assert (before + last)[|before| + local] == last[local];
    }
  }

  lemma FlatSplits(scenes: seq<Scene>)
    requires scenes != []
    ensures Flat(scenes) == Flat(scenes[..|scenes| - 1]) + SceneSegments(scenes[|scenes| - 1])
  {}

  lemma {:induction false} FlatLength(scenes: seq<Scene>)
    ensures |Flat(scenes)| == Offset(scenes, |scenes|)
  {
    hide SceneSegments;
    if scenes != [] {
      FlatLength(scenes[..|scenes| - 1]);
      OffsetOfPrefix(scenes, |scenes| - 1, |scenes| - 1);
    }
  }

  function EventsOf(segs: seq<Segment>): multiset<Event> {
    if segs == [] then multiset{} else EventsOf(segs[..|segs| - 1]) + multiset(segs[|segs| - 1].events)
  }

  function PlacedEvents(events: seq<Placed>): multiset<Event> {
    if events == [] then multiset{} else PlacedEvents(events[..|events| - 1]) + multiset{events[|events| - 1].event}
  }

  function ActionEvents(actions: seq<Action>): multiset<Event> {
    if actions == [] then multiset{}
    else ActionEvents(actions[..|actions| - 1]) + multiset(OwnEvents(actions[|actions| - 1]))
  }

  function AuthoredEvents(scenes: seq<Scene>): multiset<Event> {
    if scenes == [] then multiset{}
    else AuthoredEvents(scenes[..|scenes| - 1])
         + PlacedEvents(scenes[|scenes| - 1].events) + ActionEvents(scenes[|scenes| - 1].actions)
  }

  /** All scene events whose place is below `n`. */
  function EventsBelow(events: seq<Placed>, n: nat): multiset<Event> {
    if events == [] then multiset{}
    else
      var ev := events[|events| - 1];
      EventsBelow(events[..|events| - 1], n) + (if 0 <= ev.at < n then multiset{ev.event} else multiset{})
  }

  lemma {:induction false} NoneBelowZero(events: seq<Placed>)
    ensures EventsBelow(events, 0) == multiset{}
  {
    if events != [] { NoneBelowZero(events[..|events| - 1]); }
  }

  lemma {:induction false} OnePlaceMore(events: seq<Placed>, n: nat)
    ensures EventsBelow(events, n + 1) == EventsBelow(events, n) + multiset(EventsAt(events, n))
  {
    if events != [] { OnePlaceMore(events[..|events| - 1], n); }
  }

  lemma {:induction false} AllBelow(events: seq<Placed>, n: nat)
    requires forall k :: 0 <= k < |events| ==> 0 <= events[k].at < n
    ensures EventsBelow(events, n) == PlacedEvents(events)
  {
    if events != [] { AllBelow(events[..|events| - 1], n); }
  }

  lemma LastOfPrefix<T>(s: seq<T>, n: nat)
    requires 0 < n <= |s|
    ensures s[..n][..n - 1] == s[..n - 1] && s[..n][n - 1] == s[n - 1]
  {}

  lemma {:induction false} SceneEvents(scene: Scene, n: nat)
    requires n <= |scene.actions|
    ensures EventsOf(SceneSegments(scene)[..n]) == EventsBelow(scene.events, n) + ActionEvents(scene.actions[..n])
  {
    hide EventsAt, EventsBelow, OwnEvents;
    if n == 0 {
      NoneBelowZero(scene.events);
    } else {
      SceneEvents(scene, n - 1);
      OnePlaceMore(scene.events, n - 1);
      LastOfPrefix(SceneSegments(scene), n);
      LastOfPrefix(scene.actions, n);
      hide SceneSegments;
    }
  }

  lemma {:induction false} EventsOfBoth(a: seq<Segment>, b: seq<Segment>)
    ensures EventsOf(a + b) == EventsOf(a) + EventsOf(b)
  {
    if b == [] {
      assert a + b == a;
    } else {
      var c, last := b[..|b| - 1], b[|b| - 1];
      EventsOfBoth(a, c);
      hide EventsOf;
      Regroup(a, b);
    }
  }

  lemma Regroup<T>(a: seq<T>, b: seq<T>)
    requires b != []
    ensures b == b[..|b| - 1] + [b[|b| - 1]]
    ensures a + b == (a + b[..|b| - 1]) + [b[|b| - 1]]
  {}

  lemma SceneIsConserved(scene: Scene)
    requires WellFormed(scene)
    ensures EventsOf(SceneSegments(scene)) == PlacedEvents(scene.events) + ActionEvents(scene.actions)
  {
    hide SceneSegments, EventsOf, PlacedEvents, ActionEvents;
    SceneEvents(scene, |scene.actions|);
    assert SceneSegments(scene)[..|scene.actions|] == SceneSegments(scene);
    assert scene.actions[..|scene.actions|] == scene.actions;
    AllBelow(scene.events, |scene.actions|);
  }

  /** No event is lost or doubled on the way to the flat timeline. */
  lemma {:induction false} EventsAreConserved(scenes: seq<Scene>)
    requires forall k :: 0 <= k < |scenes| ==> WellFormed(scenes[k])
    ensures EventsOf(Flat(scenes)) == AuthoredEvents(scenes)
  {
    hide SceneSegments, WellFormed, PlacedEvents, ActionEvents, EventsBelow;
    if scenes != [] {
      var before, scene := scenes[..|scenes| - 1], scenes[|scenes| - 1];
      EventsAreConserved(before);
      EventsOfBoth(Flat(before), SceneSegments(scene));
      assert WellFormed(scene);
      SceneIsConserved(scene);
    }
  }
}
