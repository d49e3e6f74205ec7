/** The `last_seen` control: the gold plan, the selector that follows it, and the causality guard that
    every reference must pass. */
module LastSeenControl {
  import opened Basics
  import opened Decimal
  import opened Sorting
  import opened Timeline

  // ----- the plan -----

  datatype Row = Row(eid: string, gap: int, source: int)

  predicate RowLe(a: Row, b: Row) {
    a.gap > b.gap || (a.gap == b.gap && StringLe(a.eid, b.eid))
  }

  lemma RowLeIsTotal()
    ensures TotalPreorder(RowLe)
  {
    forall a, b ensures RowLe(a, b) || RowLe(b, a) { StringLeTotal(a.eid, b.eid); }
    forall a, b, c | RowLe(a, b) && RowLe(b, c) ensures RowLe(a, c) {
      if a.gap == b.gap == c.gap { StringLeTransitive(a.eid, b.eid, c.eid); }
    }
  }

  /** Entries of characters and props seen before. */
  predicate Wanted(gold: Gold, c: Entry) {
    && !c.op.Introduce? && c.lastSeen.Some? && c.lastSeen.value != ""
    && c.eid in gold.entities && gold.entities[c.eid].kind in {"character", "prop"}
  }

  /** The entry's source shot lies strictly before `shot`. */
  predicate Causal(c: Entry, shot: int) {
    c.lastSeen.Some? && Shot(c.lastSeen.value).Some? && 0 <= Shot(c.lastSeen.value).value < shot
  }

  predicate CausalCast(gold: Gold, cast: seq<Entry>, shot: int) {
    forall c :: c in cast && Wanted(gold, c) ==> Causal(c, shot)
  }

  function RowsOf(gold: Gold, cast: seq<Entry>, shot: int): (rows: seq<Row>)
    requires CausalCast(gold, cast, shot)
  {
    if cast == [] then []
    else
      var c := cast[|cast| - 1];
      var before := cast[..|cast| - 1];
      assert c in cast && forall x :: x in before ==> x in cast;
      RowsOf(gold, before, shot)
      + (if Wanted(gold, c) then
           [Row(c.eid, if c.gap.Some? then c.gap.value else 0, Shot(c.lastSeen.value).value)]
         else [])
  }

  function SourcesOf(rows: seq<Row>): (s: seq<int>)
    ensures |s| == |rows| && forall k :: 0 <= k < |rows| ==> s[k] == rows[k].source
  {
    seq(|rows|, k requires 0 <= k < |rows| => rows[k].source)
  }

  predicate Plannable(gold: Gold, seg: GoldSegment) {
    Shot(seg.id).Some? && CausalCast(gold, seg.cast, Shot(seg.id).value)
  }

  function PlanUpTo(gold: Gold, n: nat): map<int, seq<int>>
    requires n <= |gold.segments| && forall i :: 0 <= i < n ==> Plannable(gold, gold.segments[i])
  {
    if n == 0 then map[]
    else
      var seg := gold.segments[n - 1];
      assert Plannable(gold, seg);
      var shot := Shot(seg.id).value;
      PlanUpTo(gold, n - 1)[shot := SourcesOf(Sort(RowsOf(gold, seg.cast, shot), RowLe))]
  }

  predicate Aligned(gold: Gold, ids: seq<string>) {
    |ids| <= |gold.segments| && forall i :: 0 <= i < |ids| ==> gold.segments[i].id == ids[i]
  }

  method PlanSegment(gold: Gold, seg: GoldSegment) returns (r: Result<(int, seq<int>), string>)
    ensures r.Ok? <==> Plannable(gold, seg)
    ensures r.Ok? ==> r.value.0 == Shot(seg.id).value
                      && r.value.1 == SourcesOf(Sort(RowsOf(gold, seg.cast, r.value.0), RowLe))
  {
    if Shot(seg.id).None? { return Err("not a segment id"); }
    var shot := Shot(seg.id).value;
    var rows := [];
    for k := 0 to |seg.cast|
      invariant CausalCast(gold, seg.cast[..k], shot)
      invariant rows == RowsOf(gold, seg.cast[..k], shot)
    {
      var c := seg.cast[k];
      assert seg.cast[..k + 1][..k] == seg.cast[..k];
      assert seg.cast[..k + 1] == seg.cast[..k] + [c];
      if !c.op.Introduce? && c.lastSeen.Some? && c.lastSeen.value != ""
         && c.eid in gold.entities && gold.entities[c.eid].kind in {"character", "prop"} {
        assert c in seg.cast;
        var source := Shot(c.lastSeen.value);
        if source.None? || !(0 <= source.value < shot) { return Err("non-causal last_seen"); }
        rows := rows + [Row(c.eid, if c.gap.Some? then c.gap.value else 0, source.value)];
      }
    }
    assert seg.cast[..|seg.cast|] == seg.cast;
    return Ok((shot, SourcesOf(Sort(rows, RowLe))));
  }

  /** `build_last_seen_plan` on the segments the prompt stream covers. */
  method BuildPlan(gold: Gold, ids: seq<string>) returns (r: Result<map<int, seq<int>>, string>)
    ensures r.Ok? <==> Aligned(gold, ids) && forall i :: 0 <= i < |ids| ==> Plannable(gold, gold.segments[i])
    ensures r.Ok? ==> |ids| <= |gold.segments| && forall i :: 0 <= i < |ids| ==> ids[i] == gold.segments[i].id
    ensures |ids| > |gold.segments| || (exists i :: 0 <= i < |ids| && ids[i] != gold.segments[i].id) ==> r.Err?
    ensures r.Ok? ==> r.value == PlanUpTo(gold, |ids|)
  {
    hide Plannable, RowsOf, SourcesOf, Shot, Sort;
    if !Aligned(gold, ids) { return Err("gold segments do not align with the prompt stream"); }
    var plan: map<int, seq<int>> := map[];
    for i := 0 to |ids|
      invariant forall k :: 0 <= k < i ==> Plannable(gold, gold.segments[k])
      invariant plan == PlanUpTo(gold, i)
    {
      var row := PlanSegment(gold, gold.segments[i]);
      if row.Err? { return Err(row.error); }
      plan := plan[row.value.0 := row.value.1];
    }
    return Ok(plan);
  }

  // ----- the selector -----

  datatype Ref = Ref(repId: string, image: string)

  /** Middle-frame references are named after their source shot. */
  function RepId(source: nat): string { "c" + Padded(source, 5) + "@mid" }

  /** The files under this run's directory that exist, and the stills that extraction can produce. */
  datatype Disk = Disk(clips: set<string>, stills: map<int, string>)

  /** The clip that the store, or else the resumed progress file, names for `source`. */
  function Named(videos: map<int, string>, past: map<int, string>, source: int): string {
    if source in videos && videos[source] != "" then videos[source]
    else if source in past then past[source]
    else ""
  }

  /** `source` is this run's own and strictly earlier. */
  predicate Own(videos: map<int, string>, past: map<int, string>, disk: Disk, source: int, current: int) {
    0 <= source < current && Named(videos, past, source) != "" && Named(videos, past, source) in disk.clips
  }

  /** The planned sources to keep: own, deduplicated, in plan order. */
  function Keep(videos: map<int, string>, past: map<int, string>, disk: Disk, planned: seq<int>, current: int)
    : (kept: seq<nat>)
    ensures Distinct(kept) && |kept| <= |planned|
    ensures forall s :: s in kept <==> s in planned && Own(videos, past, disk, s, current)
  {
    if planned == [] then []
    else
      var s := planned[|planned| - 1];
      var before := Keep(videos, past, disk, planned[..|planned| - 1], current);
      if s !in before && Own(videos, past, disk, s, current) then before + [s] else before
  }

  lemma KeepStep(videos: map<int, string>, past: map<int, string>, disk: Disk, planned: seq<int>, k: nat, current: int)
    requires k < |planned|
    ensures var before := Keep(videos, past, disk, planned[..k], current);
            Keep(videos, past, disk, planned[..k + 1], current)
            == if planned[k] !in before && Own(videos, past, disk, planned[k], current) then before + [planned[k]] else before
  {
    hide Own;
    assert planned[..k + 1][..k] == planned[..k];
  }

  /** The first `budget` of a list, or all of it. */
  predicate IsCut(p: seq<int>, all: seq<int>, budget: nat) {
    p <= all && |p| == if |all| < budget then |all| else budget
  }

  /** The kept planned shots, then the preceding shot as filler. */
  function Chosen(videos: map<int, string>, past: map<int, string>, disk: Disk, planned: seq<int>,
                  budget: nat, current: int): (r: seq<nat>)
    requires |planned| <= budget
    ensures |r| <= budget && Distinct(r)
    ensures forall s :: s in r ==> Own(videos, past, disk, s, current)
  {
    var kept := Keep(videos, past, disk, planned, current);
    var prev := current - 1;
    if |kept| < budget && prev !in kept && Own(videos, past, disk, prev, current) then kept + [prev] else kept
  }

  /** The references whose middle frame can be extracted. */
  function Stills(disk: Disk, sources: seq<nat>): (refs: seq<Ref>)
    ensures |refs| <= |sources|
  {
    if sources == [] then []
    else
      var s := sources[|sources| - 1];
      Stills(disk, sources[..|sources| - 1])
      + (if s in disk.stills && disk.stills[s] != "" then [Ref(RepId(s), disk.stills[s])] else [])
  }

  /** This run has a clip of its own for an earlier shot: the one the store names, or else the progress file, and it
      is there. */
  ghost predicate HasClip(videos: map<int, string>, past: map<int, string>, disk: Disk, source: int, current: int) {
    0 <= source < current
    && if source in videos && videos[source] != "" then videos[source] in disk.clips
       else source in past && past[source] != "" && past[source] in disk.clips
  }

  ghost function FirstOwn(videos: map<int, string>, past: map<int, string>, disk: Disk, planned: seq<int>, current: int)
    : nat -> bool
  {
    (p: nat) => p < |planned| && HasClip(videos, past, disk, planned[p], current) && planned[p] !in planned[..p]
  }

  lemma {:induction false} KeepPlaces(videos: map<int, string>, past: map<int, string>, disk: Disk, planned: seq<int>,
                                      current: int, n: nat) returns (places: seq<nat>)
    requires n <= |planned|
    ensures PlacesOf(places, n, FirstOwn(videos, past, disk, planned, current))
    ensures var kept := Keep(videos, past, disk, planned[..n], current);
            |kept| == |places| && forall k :: 0 <= k < |places| ==> places[k] < |planned| && kept[k] == planned[places[k]]
  {
    hide PlacesOf;
    if n == 0 {
      places := [];
      NoPlaces(FirstOwn(videos, past, disk, planned, current));
    } else {
      hide Keep, FirstOwn;
      places := KeepPlaces(videos, past, disk, planned, current, n - 1);
      PlacesStep(places, n - 1, FirstOwn(videos, past, disk, planned, current));
      KeepNext(videos, past, disk, planned, n - 1, current);
      if FirstOwn(videos, past, disk, planned, current)(n - 1) { places := places + [n - 1]; }
    }
  }

  lemma KeepNext(videos: map<int, string>, past: map<int, string>, disk: Disk, planned: seq<int>, k: nat, current: int)
    requires k < |planned|
    ensures var before := Keep(videos, past, disk, planned[..k], current);
            var here := FirstOwn(videos, past, disk, planned, current)(k);
            && (here ==> planned[k] >= 0)
            && Keep(videos, past, disk, planned[..k + 1], current) == if here then before + [planned[k]] else before
  {
    KeepStep(videos, past, disk, planned, k, current);
    hide Keep;
  }

  /** The shots taken: the planned ones the run has a clip of, each once and in the order of the plan; after them the
      preceding shot, exactly when there is room, a clip of it, and it is not among them. */
  lemma {:induction false} ChosenMeans(videos: map<int, string>, past: map<int, string>, disk: Disk, planned: seq<int>,
                                       budget: nat, current: int) returns (places: seq<nat>)
    requires |planned| <= budget
    ensures PlacesOf(places, |planned|, FirstOwn(videos, past, disk, planned, current))
    ensures var chosen := Chosen(videos, past, disk, planned, budget, current);
            var filled := |places| < budget && HasClip(videos, past, disk, current - 1, current)
                          && forall k :: 0 <= k < |places| && places[k] < |planned| ==> planned[places[k]] != current - 1;
            && |chosen| == |places| + (if filled then 1 else 0)
            && (forall k :: 0 <= k < |places| ==> places[k] < |planned| && chosen[k] == planned[places[k]])
            && (filled ==> chosen[|places|] == current - 1)
  {
    hide PlacesOf;
    places := KeepPlaces(videos, past, disk, planned, current, |planned|);
    assert planned[..|planned|] == planned;
    hide Keep;
  }

  ghost function HasStill(disk: Disk, sources: seq<nat>): nat -> bool {
    (p: nat) => p < |sources| && sources[p] in disk.stills && disk.stills[sources[p]] != ""
  }

  /** One reference for each source with a still, in order, named after the source. */
  lemma {:induction false} StillsMean(disk: Disk, sources: seq<nat>, n: nat) returns (places: seq<nat>)
    requires n <= |sources|
    ensures PlacesOf(places, n, HasStill(disk, sources))
    ensures var refs := Stills(disk, sources[..n]);
            |refs| == |places| && forall k :: 0 <= k < |places| ==>
              places[k] < |sources| && sources[places[k]] in disk.stills
              && refs[k] == Ref(RepId(sources[places[k]]), disk.stills[sources[places[k]]])
  {
    hide PlacesOf, RepId;
    if n == 0 {
      places := [];
      NoPlaces(HasStill(disk, sources));
    } else {
      assert sources[..n][..n - 1] == sources[..n - 1];
      places := StillsMean(disk, sources, n - 1);
      PlacesStep(places, n - 1, HasStill(disk, sources));
      if HasStill(disk, sources)(n - 1) { places := places + [n - 1]; }
    }
  }

  class Selector {
    const plan: map<int, seq<int>>
    const budget: nat
    var recorded: Option<map<int, string>>  // progress.json as first read

    constructor (plan: map<int, seq<int>>, budget: int)
      ensures this.plan == plan && this.budget == (if budget < 0 then 0 else budget) && recorded.None?
    {
      this.plan := plan;
      this.budget := if budget < 0 then 0 else budget;
      recorded := None;
    }

    /** What the lazily read progress file answers, now or once it is read. */
    function Past(progress: map<int, string>): map<int, string>
      reads this
    {
      if recorded.Some? then recorded.value else progress
    }

    function Planned(segmentId: int): (p: seq<int>)
      ensures |p| <= budget && IsCut(p, if segmentId in plan then plan[segmentId] else [], budget)
    {
      var all := if segmentId in plan then plan[segmentId] else [];
      if |all| <= budget then all else all[..budget]
    }

    method OwnVideo(videos: map<int, string>, progress: map<int, string>, disk: Disk, source: int, current: int)
      returns (video: Option<string>)
      modifies this
      ensures video == if Own(videos, old(Past(progress)), disk, source, current)
                       then Some(Named(videos, old(Past(progress)), source)) else None
      ensures Past(progress) == old(Past(progress)) && (recorded == old(recorded) || recorded == Some(progress))
      ensures old(recorded).Some? ==> recorded == old(recorded)
    {
      if source < 0 || source >= current { return None; }
      var name := "";
      if source in videos && videos[source] != "" {
        name := videos[source];
      } else {
        if recorded.None? { recorded := Some(progress); }
        if source in recorded.value { name := recorded.value[source]; }
      }
      if name == "" || name !in disk.clips { return None; }
      return Some(name);
    }

    method Sources(videos: map<int, string>, progress: map<int, string>, disk: Disk, segmentId: int)
      returns (chosen: seq<nat>)
      modifies this
      ensures chosen == Chosen(videos, old(Past(progress)), disk, Planned(segmentId), budget, segmentId)
      ensures Past(progress) == old(Past(progress)) && (recorded == old(recorded) || recorded == Some(progress))
      ensures old(recorded).Some? ==> recorded == old(recorded)
    {
      hide Own, Named, Keep, Planned;
      chosen := [];
      var planned := Planned(segmentId);
      ghost var past := Past(progress);
      for k := 0 to |planned|
        invariant Past(progress) == past && (recorded == old(recorded) || recorded == Some(progress))
        invariant old(recorded).Some? ==> recorded == old(recorded)
        invariant chosen == Keep(videos, past, disk, planned[..k], segmentId)
      {
        KeepStep(videos, past, disk, planned, k, segmentId);
        if planned[k] !in chosen {
          var video := OwnVideo(videos, progress, disk, planned[k], segmentId);
          if video.Some? {
            OwnIsEarlier(videos, past, disk, planned[k], segmentId);
            chosen := chosen + [planned[k]];
          }
        }
      }
      assert planned[..|planned|] == planned;
      if |chosen| < budget && segmentId - 1 !in chosen {
        var video := OwnVideo(videos, progress, disk, segmentId - 1, segmentId);
        if video.Some? {
          OwnIsEarlier(videos, past, disk, segmentId - 1, segmentId);
          chosen := chosen + [segmentId - 1];
        }
      }
    }

    method Select(videos: map<int, string>, progress: map<int, string>, disk: Disk, segmentId: int)
      returns (refs: seq<Ref>)
      modifies this
      ensures refs == Stills(disk, Chosen(videos, old(Past(progress)), disk, Planned(segmentId), budget, segmentId))
      ensures recorded == old(recorded) || (old(recorded).None? && recorded == Some(progress))
    {
      hide Own, Named, RepId, Keep;
      ghost var past := Past(progress);
      var chosen := Sources(videos, progress, disk, segmentId);
      assert forall s :: s in chosen ==> Own(videos, past, disk, s, segmentId);
      refs := [];
      for k := 0 to |chosen|
        invariant Past(progress) == past && (recorded == old(recorded) || recorded == Some(progress))
        invariant old(recorded).Some? ==> recorded == old(recorded)
        invariant refs == Stills(disk, chosen[..k])
      {
        assert chosen[..k + 1][..k] == chosen[..k];
        assert chosen[k] in chosen;
        var video := OwnVideo(videos, progress, disk, chosen[k], segmentId);
        if video.Some? && chosen[k] in disk.stills && disk.stills[chosen[k]] != "" {
          refs := refs + [Ref(RepId(chosen[k]), disk.stills[chosen[k]])];
        }
      }
      assert chosen[..|chosen|] == chosen;
    }
  }

  lemma OwnIsEarlier(videos: map<int, string>, past: map<int, string>, disk: Disk, source: int, current: int)
    requires Own(videos, past, disk, source, current)
    ensures 0 <= source < current
  {}

  // ----- usable references and the guard -----

  function Images(refs: seq<Ref>): set<string> { set x | x in refs :: x.image }

  /** Existing image stills, first occurrence of each path, in rank order. */
  function Usable(refs: seq<Ref>, images: set<string>): (r: seq<Ref>)
    ensures |r| <= |refs|
  {
    if refs == [] then []
    else
      var x := refs[|refs| - 1];
      var r := Usable(refs[..|refs| - 1], images);
      if x.image != "" && x.image in images && x.image !in Images(r) then r + [x] else r
  }

  lemma ImagesAppend(r: seq<Ref>, x: Ref)
    ensures Images(r + [x]) == Images(r) + {x.image}
  {
    assert forall y :: y in r + [x] <==> y in r || y == x;
  }

  /** Every existing still is kept once, and nothing else is. */
  lemma {:induction false} UsableKeepsEachStillOnce(refs: seq<Ref>, images: set<string>)
    ensures forall x :: x in Usable(refs, images) ==> x in refs
    ensures Images(Usable(refs, images)) == Images(refs) * (images - {""})
    ensures forall i, j :: 0 <= i < j < |Usable(refs, images)| ==>
              Usable(refs, images)[i].image != Usable(refs, images)[j].image
  {
    if refs != [] {
      var x, before := refs[|refs| - 1], refs[..|refs| - 1];
      UsableKeepsEachStillOnce(before, images);
      assert refs == before + [x];
      ImagesAppend(before, x);
      var r := Usable(before, images);
      ImagesAppend(r, x);
      hide Images;
    }
  }

  ghost function FirstStill(refs: seq<Ref>, images: set<string>): nat -> bool {
    (p: nat) => p < |refs| && refs[p].image != "" && refs[p].image in images
                && forall q :: 0 <= q < p ==> refs[q].image != refs[p].image
  }

  /** The references kept are the first with their still, in rank order. */
  lemma {:induction false} UsableMeans(refs: seq<Ref>, images: set<string>, n: nat) returns (places: seq<nat>)
    requires n <= |refs|
    ensures PlacesOf(places, n, FirstStill(refs, images))
    ensures var r := Usable(refs[..n], images);
            |r| == |places| && forall k :: 0 <= k < |places| ==> places[k] < |refs| && r[k] == refs[places[k]]
  {
    hide PlacesOf;
    if n == 0 {
      places := [];
      NoPlaces(FirstStill(refs, images));
    } else {
      hide Usable, FirstStill;
      places := UsableMeans(refs, images, n - 1);
      PlacesStep(places, n - 1, FirstStill(refs, images));
      UsableStep(refs, images, n - 1);
      if FirstStill(refs, images)(n - 1) { places := places + [n - 1]; }
    }
  }

  lemma UsableStep(refs: seq<Ref>, images: set<string>, n: nat)
    requires n < |refs|
    ensures Usable(refs[..n + 1], images)
            == if FirstStill(refs, images)(n) then Usable(refs[..n], images) + [refs[n]] else Usable(refs[..n], images)
  {
    hide Images;
    assert refs[..n + 1][..n] == refs[..n];
    UsableKeepsEachStillOnce(refs[..n], images);
    NotYetUsed(refs, n);
  }

  lemma NotYetUsed(refs: seq<Ref>, n: nat)
    requires n < |refs|
    ensures refs[n].image in Images(refs[..n]) <==> exists q :: 0 <= q < n && refs[q].image == refs[n].image
  {
    if q :| 0 <= q < n && refs[q].image == refs[n].image { assert refs[..n][q] in refs[..n]; }
  }

  method UsableReferences(refs: seq<Ref>, images: set<string>) returns (out: seq<Ref>)
    ensures out == Usable(refs, images)
  {
    var seen: set<string> := {};
    out := [];
    for k := 0 to |refs|
      invariant out == Usable(refs[..k], images)
      invariant seen == Images(out)
    {
      assert refs[..k + 1][..k] == refs[..k];
      var x := refs[k];
      if !(x.image == "" || x.image in seen) && x.image in images {
        seen := seen + {x.image};
        ImagesAppend(out, x);
        out := out + [x];
      }
    }
    assert refs[..|refs|] == refs;
  }

  /** The regular expression `^c(\d{5})@` on a representation id. */
  function SourceOf(repId: string): Option<nat> {
    if |repId| >= 7 && repId[0] == 'c' && AllDigits(repId[1..6]) && repId[6] == '@'
    then Some(Value(repId[1..6])) else None
  }

  /** A name passes that starts with a c, five digits and an at sign; the digits are its source. */
  lemma SourceOfIs(repId: string, n: nat)
    ensures SourceOf(repId) == Some(n) <==>
            exists digits: string, rest: string ::
              repId == "c" + digits + "@" + rest && |digits| == 5 && AllDigits(digits) && Value(digits) == n
  {
    if SourceOf(repId) == Some(n) {
      var digits, rest := repId[1..6], repId[7..];
      assert repId == "c" + digits + "@" + rest;
    }
    if digits: string, rest: string :|
         repId == "c" + digits + "@" + rest && |digits| == 5 && AllDigits(digits) && Value(digits) == n {
      assert repId == ("c" + digits) + ("@" + rest) && |"c" + digits| == 6;
      assert repId[..6] == "c" + digits && repId[6] == '@';
      assert repId[1..6] == repId[..6][1..] == digits;
    }
  }

  predicate Passes(ref: Ref, current: int, ownImages: set<string>) {
    SourceOf(ref.repId).Some? && SourceOf(ref.repId).value < current && ref.image in ownImages
  }

  /** `check_causal`: every reference names a strictly earlier segment and lies in this run's tree. */
  method CheckCausal(refs: seq<Ref>, current: int, ownImages: set<string>)
    returns (r: Result<seq<int>, string>)
    ensures r.Ok? <==> forall x :: x in refs ==> Passes(x, current, ownImages)
    ensures r.Ok? ==> |r.value| == |refs|
    ensures r.Ok? ==> forall k :: 0 <= k < |refs| ==> Some(r.value[k]) == SourceOf(refs[k].repId)
  {
    var sources: seq<int> := [];
    for k := 0 to |refs|
      invariant |sources| == k
      invariant forall i :: 0 <= i < k ==> Passes(refs[i], current, ownImages)
                                           && Some(sources[i]) == SourceOf(refs[i].repId)
    {
      var m := SourceOf(refs[k].repId);
      assert refs[k] in refs;
      if m.None? { return Err("reference without a source segment id"); }
      if !(0 <= m.value < current) { return Err("reference is not strictly earlier"); }
      if refs[k].image !in ownImages { return Err("reference is outside this run"); }
      sources := sources + [m.value];
    }
    return Ok(sources);
  }

  /** The guard can read a reference name back exactly for shots below 100000. */
  lemma {:induction false} RepIdReadsBack(source: nat)
    ensures SourceOf(RepId(source)).Some? <==> source < 100000
    ensures source < 100000 ==> SourceOf(RepId(source)) == Some(source)
  {
    var d := Padded(source, 5);
    DigitCount(source, 5);
    assert Power10(5) == 100000;
    assert RepId(source)[1..|d| + 1] == d;
    assert RepId(source)[|d| + 1] == '@';
    if |d| > 5 {
      assert RepId(source)[6] == d[5];
    }
  }
}
