/** The causal closed loop: select references from the run's own history, realize the segment, observe
    the clip; record failures, stop after three in a row, and resume by replaying the closed prefix. */
module Runner {
  import opened Basics
  import opened Decimal
  import Causality
  import LastSeenControl

  // ----- the prompt stream -----

  /** A row of the prompt file; the prompt is stripped of white space. */
  datatype PromptRow = PromptRow(prompt: string, segmentId: Option<string>, transition: Option<string>)

  datatype Segment = Segment(index: nat, gtId: string, prompt: string, transition: string)

  predicate Numbered(segs: seq<Segment>) { forall i :: 0 <= i < |segs| ==> segs[i].index == i }

  /** What an empty or absent entry is replaced by. */
  function OrElse(given: Option<string>, default: string): string {
    if given.Some? && given.value != "" then given.value else default
  }

  /** `load_prompt_stream`: segments count from zero, go by their given id or by their place, and cut unless they say
      otherwise; an empty prompt is an error that names its segment. */
  method LoadPromptStream(rows: seq<PromptRow>) returns (r: Result<seq<Segment>, nat>)
    ensures r.Ok? ==> |r.value| == |rows| && Numbered(r.value)
                      && forall i :: 0 <= i < |rows| ==>
                           && r.value[i].prompt == rows[i].prompt != ""
                           && r.value[i].gtId == OrElse(rows[i].segmentId, SegId(i))
                           && r.value[i].transition == Lower(OrElse(rows[i].transition, "cut"))
    ensures r.Err? ==> r.error < |rows| && rows[r.error].prompt == ""
                       && forall i :: 0 <= i < r.error ==> rows[i].prompt != ""
  {
    hide SegId, Lower, OrElse;
    var segs: seq<Segment> := [];
    for i := 0 to |rows|
      invariant |segs| == i && Numbered(segs)
      invariant forall k :: 0 <= k < i ==>
        && segs[k].prompt == rows[k].prompt != ""
        && segs[k].gtId == OrElse(rows[k].segmentId, SegId(k))
        && segs[k].transition == Lower(OrElse(rows[k].transition, "cut"))
    {
      if rows[i].prompt == "" { return Err(i); }
      segs := segs + [Segment(i, OrElse(rows[i].segmentId, SegId(i)), rows[i].prompt,
                              Lower(OrElse(rows[i].transition, "cut")))];
    }
    return Ok(segs);
  }

  // ----- the generated-history store -----

  datatype SegmentRecord = SegmentRecord(id: int, prompt: string, start: real, end: real, description: string)

  datatype Memory = Memory(clock: real, videos: map<int, string>, segments: seq<SegmentRecord>)

  const EMPTY := Memory(0.0, map[], [])

  /** `probe_duration` from the total seconds read, if any: two seconds when there are none. */
  function ProbeDuration(reading: Option<real>): (d: real)
    ensures d > 0.0
  {
    if reading.Some? && reading.value > 0.0 then reading.value else 2.0
  }

  type Probe = string -> Option<real>

  function Observed(probe: Probe, m: Memory, id: int, prompt: string, video: string, description: string): Memory {
    var dur := if video != "" then ProbeDuration(probe(video)) else 2.0;
    Memory(m.clock + dur, m.videos[id := video],
           m.segments + [SegmentRecord(id, prompt, m.clock, m.clock + dur,
                                       if description != "" then description else prompt)])
  }

  class Store {
    const probe: Probe
    var clock: real
    var videos: map<int, string>
    var segments: seq<SegmentRecord>

    constructor (probe: Probe)
      ensures this.probe == probe && State() == EMPTY
    {
      this.probe := probe;
      clock, videos, segments := 0.0, map[], [];
    }

    function State(): Memory
      reads this
    {
      Memory(clock, videos, segments)
    }

    method Observe(id: int, prompt: string, video: string, description: string)
      modifies this
      ensures State() == Observed(probe, old(State()), id, prompt, video, description)
    {
      var dur := 2.0;
      if video != "" { dur := ProbeDuration(probe(video)); }
      var start := clock;
      clock := clock + dur;
      videos := videos[id := video];
      segments := segments
        + [SegmentRecord(id, prompt, start, start + dur, if description != "" then description else prompt)];
    }
  }

  /** `video_for` */
  function VideoFor(m: Memory, id: int): Option<string> {
    if id in m.videos && m.videos[id] != "" then Some(m.videos[id]) else None
  }

  /** The spans tile [0, clock): each starts where the one before ended, none is empty. */
  ghost predicate Tiled(m: Memory) {
    && (forall k :: 0 <= k < |m.segments| ==> m.segments[k].start < m.segments[k].end)
    && (forall k :: 0 < k < |m.segments| ==> m.segments[k].start == m.segments[k - 1].end)
    && (if m.segments == [] then m.clock == 0.0
        else m.segments[0].start == 0.0 && m.segments[|m.segments| - 1].end == m.clock)
  }

  lemma ObservedTiles(probe: Probe, m: Memory, id: int, prompt: string, video: string, description: string)
    requires Tiled(m)
    ensures Tiled(Observed(probe, m, id, prompt, video, description))
  {}

  /** The retriever's causal gate: at the clock every observed segment has ended. */
  lemma {:induction false} EndedByTheClock(m: Memory, k: nat)
    requires Tiled(m) && k < |m.segments|
    ensures 0.0 <= m.segments[k].start < m.segments[k].end <= m.clock
    decreases |m.segments| - k
  {
    if k + 1 < |m.segments| {
      EndedByTheClock(m, k + 1);
    }
    StartsAfterZero(m, k);
  }

  lemma {:induction false} StartsAfterZero(m: Memory, k: nat)
    requires Tiled(m) && k < |m.segments|
    ensures 0.0 <= m.segments[k].start
  {
    if k > 0 { StartsAfterZero(m, k - 1); }
  }

  /** Every instant of the run so far lies in exactly one segment's span. */
  lemma {:induction false} EveryInstantHasOneSegment(m: Memory, t: real)
    requires Tiled(m) && 0.0 <= t < m.clock
    ensures exists k :: 0 <= k < |m.segments| && m.segments[k].start <= t < m.segments[k].end
    ensures forall k, l :: 0 <= k < l < |m.segments| && m.segments[k].start <= t < m.segments[k].end ==>
              !(m.segments[l].start <= t < m.segments[l].end)
  {
    var k := |m.segments| - 1;
    while t < m.segments[k].start
      invariant 0 <= k < |m.segments| && t < m.segments[k].end
      decreases k
    {
      k := k - 1;
    }
    forall k: nat, l: nat | k < l < |m.segments| ensures m.segments[k].end <= m.segments[l].start { InOrder(m, k, l); }
  }

  lemma {:induction false} InOrder(m: Memory, k: nat, l: nat)
    requires Tiled(m) && k < l < |m.segments|
    ensures m.segments[k].end <= m.segments[l].start
  {
    if k + 1 < l { InOrder(m, k, l - 1); }
  }

  // ----- one segment -----

  /** `Retrieval` asks a similarity memory; `LastSeen` follows the plan with the clips on disk. */
  datatype Policy =
    | NoMemory
    | Retrieval(retrieve: (Memory, string, real, nat) -> seq<LastSeenControl.Ref>)
    | LastSeen(plan: map<int, seq<int>>, past: map<int, string>, disk: LastSeenControl.Disk)

  datatype Request = Request(id: nat, prompt: string, images: seq<string>, seed: int)

  datatype Clip = Clip(path: string, hasKeyframe: bool, meta: string)

  datatype Env = Env(policy: Policy, budget: nat, images: set<string>, ownImages: set<string>,
                     realize: Request -> Result<Clip, string>, probe: Probe,
                     runDir: string, seed: int, backend: string)

  datatype Row = Row(id: string, source: nat, image: string)

  datatype Status = Succeeded(video: string, keyframe: Option<string>, meta: string) | Failed(error: string)

  datatype Record = Record(id: int, gtId: string, prompt: string, transition: string, references: seq<Row>,
                           seed: int, backend: string, status: Status)

  function VideoPath(runDir: string, id: nat): (p: string)
    ensures p != ""
  {
    runDir + "/review/segments/seg_" + Padded(id, 3) + ".mp4"
  }

  function KeyframePath(runDir: string, id: nat): string {
    runDir + "/review/keyframes/seg_" + Padded(id, 3) + ".png"
  }

  function Planned(plan: map<int, seq<int>>, budget: nat, id: nat): (p: seq<int>)
    ensures |p| <= budget && LastSeenControl.IsCut(p, if id in plan then plan[id] else [], budget)
  {
    var all := if id in plan then plan[id] else [];
    if |all| <= budget then all else all[..budget]
  }

  /** `ReferencePolicy.select` */
  function Selected(env: Env, m: Memory, seg: Segment): seq<LastSeenControl.Ref> {
    match env.policy
    case NoMemory => []
    case Retrieval(retrieve) => if m.segments == [] then [] else retrieve(m, seg.prompt, m.clock, env.budget)
    case LastSeen(plan, past, disk) =>
      LastSeenControl.Stills(disk, LastSeenControl.Chosen(m.videos, past, disk, Planned(plan, env.budget, seg.index),
                                                          env.budget, seg.index))
  }

  function References(env: Env, m: Memory, seg: Segment): seq<LastSeenControl.Ref> {
    LastSeenControl.Usable(Selected(env, m, seg), env.images)
  }

  predicate Causal(env: Env, refs: seq<LastSeenControl.Ref>, current: nat) {
    forall x :: x in refs ==> LastSeenControl.Passes(x, current, env.ownImages)
  }

  function Rows(refs: seq<LastSeenControl.Ref>): (rows: seq<Row>)
    requires forall x :: x in refs ==> LastSeenControl.SourceOf(x.repId).Some?
    ensures |rows| == |refs|
  {
    seq(|refs|, k requires 0 <= k < |refs| =>
      assert refs[k] in refs;
      Row(refs[k].repId, LastSeenControl.SourceOf(refs[k].repId).value, refs[k].image))
  }

  function ImagesOf(rows: seq<Row>): seq<string> {
    seq(|rows|, k requires 0 <= k < |rows| => rows[k].image)
  }

  /** The record of a segment whose realization ended with `result`. */
  function Recorded(env: Env, seg: Segment, rows: seq<Row>, result: Result<Clip, string>): Record {
    var status := match result
      case Ok(clip) => Succeeded(VideoPath(env.runDir, seg.index),
                                 if clip.hasKeyframe then Some(KeyframePath(env.runDir, seg.index)) else None, clip.meta)
      case Err(error) => Failed(error);
    Record(seg.index, seg.gtId, seg.prompt, seg.transition, rows, env.seed, env.backend, status)
  }

  datatype State = State(records: seq<Record>, memory: Memory, failures: nat, consecutive: nat)

  /** How a run ends: all segments done, a reference refused by the guard, or three failures in a row. */
  datatype End = Finished | Acausal | GaveUp(failures: nat)

  datatype Next = Go(state: State) | Halt(state: State, why: End)

  const MAX_CONSECUTIVE_FAILURES := 3

  function Step(env: Env, st: State, seg: Segment): Next {
    var refs := References(env, st.memory, seg);
    if !Causal(env, refs, seg.index) then Halt(st, Acausal)
    else
      var rows := Rows(refs);
      var result := env.realize(Request(seg.index, seg.prompt, ImagesOf(rows), env.seed));
      var records := st.records + [Recorded(env, seg, rows, result)];
      match result
      case Err(_) =>
        var failed := State(records, st.memory, st.failures + 1, st.consecutive + 1);
        if failed.consecutive >= MAX_CONSECUTIVE_FAILURES then Halt(failed, GaveUp(failed.consecutive)) else Go(failed)
      case Ok(_) =>
        var video := VideoPath(env.runDir, seg.index);
        Go(State(records, Observed(env.probe, st.memory, seg.index, seg.prompt, video, seg.prompt), st.failures, 0))
  }

  /** The loop over the segments still to do. */
  function Run(env: Env, st: State, segs: seq<Segment>): (State, End)
    decreases |segs|
  {
    if segs == [] then (st, Finished)
    else
      match Step(env, st, segs[0])
      case Halt(s, why) => (s, why)
      case Go(s) => Run(env, s, segs[1..])
  }

  // ----- resuming -----

  predicate IsClosed(rec: Record, i: nat, files: set<string>) {
    rec.id == i && rec.status.Succeeded? && rec.status.video in files
  }

  /** How many records of a progress file can be replayed. */
  function ClosedCount(records: seq<Record>, files: set<string>, i: nat): (n: nat)
    requires i <= |records|
    ensures i <= n <= |records|
    ensures forall k :: i <= k < n ==> IsClosed(records[k], k, files)
    ensures n < |records| ==> !IsClosed(records[n], n, files)
    decreases |records| - i
  {
    if i < |records| && IsClosed(records[i], i, files) then ClosedCount(records, files, i + 1) else i
  }

  /** The records that can be replayed: those that come after none but successes on record under their own number
      whose clip is still a file, and are so themselves. */
  lemma {:induction false} ClosedIs(records: seq<Record>, files: set<string>, k: nat)
    requires k < |records|
    ensures k < ClosedCount(records, files, 0) <==>
            forall i :: 0 <= i <= k ==> records[i].id == i && records[i].status.Succeeded? && records[i].status.video in files
  {
    var n := ClosedCount(records, files, 0);
    if n <= k { assert !IsClosed(records[n], n, files); }
    assert forall i :: 0 <= i <= k && IsClosed(records[i], i, files) ==> records[i].id == i;
  }

  /** `_closed_prefix`: the longest prefix of numbered successes whose clips are still there. */
  method ClosedPrefix(records: seq<Record>, files: set<string>) returns (closed: seq<Record>)
    ensures closed == records[..ClosedCount(records, files, 0)]
  {
    closed := [];
    var i := 0;
    while i < |records| && IsClosed(records[i], i, files)
      invariant i <= |records| && closed == records[..i]
      invariant ClosedCount(records, files, 0) == ClosedCount(records, files, i)
    {
      closed := closed + [records[i]];
      i := i + 1;
    }
  }

  function ReplayOne(probe: Probe, m: Memory, rec: Record): Memory {
    if rec.status.Succeeded? then Observed(probe, m, rec.id, rec.prompt, rec.status.video, rec.prompt) else m
  }

  /** The store after observing the successful records in order. */
  function Replay(probe: Probe, m: Memory, records: seq<Record>): Memory {
    if records == [] then m
    else ReplayOne(probe, Replay(probe, m, records[..|records| - 1]), records[|records| - 1])
  }

  function Resumed(env: Env, closed: seq<Record>): State {
    State(closed, Replay(env.probe, EMPTY, closed), 0, 0)
  }

  function Remaining(segs: seq<Segment>, done: nat): seq<Segment> {
    if done <= |segs| then segs[done..] else []
  }

  /** `run_story` from the saved progress file (empty without `--resume`): what the run returns and what
      it last wrote to the progress file. */
  method RunStory(env: Env, segs: seq<Segment>, saved: seq<Record>, files: set<string>, store: Store)
    returns (records: seq<Record>, failures: nat, why: End, written: Option<seq<Record>>)
    requires store.probe == env.probe && store.State() == EMPTY
    modifies store
    ensures var closed := saved[..ClosedCount(saved, files, 0)];
            var (last, end) := Run(env, Resumed(env, closed), Remaining(segs, |closed|));
            && records == last.records && failures == last.failures && store.State() == last.memory && why == end
            && (written.Some? ==> written == Some(records))
            && (written.None? ==> why == Acausal && records == closed)
  {
    hide Observed, Recorded, References, Causal, Rows, ImagesOf, IsClosed, ClosedCount, VideoPath;
    records := ClosedPrefix(saved, files);
    ghost var closed := records;
    for k := 0 to |records|
      invariant store.State() == Replay(env.probe, EMPTY, records[..k])
    {
      var rec := records[k];
      assert records[..k + 1][..k] == records[..k];
      if rec.status.Succeeded? { store.Observe(rec.id, rec.prompt, rec.status.video, rec.prompt); }
    }
    assert records[..|records|] == records;
    var todo := Remaining(segs, |records|);
    var consecutive := 0;
    failures := 0;
    written := None;
    var k := 0;
    ghost var begin := Resumed(env, closed);
    while k < |todo|
      invariant k <= |todo|
      invariant Run(env, begin, todo) == Run(env, State(records, store.State(), failures, consecutive), todo[k..])
      invariant written == if k == 0 then None else Some(records)
      invariant k == 0 ==> records == closed
    {
      var seg := todo[k];
      assert todo[k..][1..] == todo[k + 1..];
      var step := Attempt(env, store, seg);
      if step.Err? { return records, failures, Acausal, written; }
      var (rows, result) := step.value;
      records := records + [Recorded(env, seg, rows, result)];
      if result.Err? {
        failures, consecutive := failures + 1, consecutive + 1;
        written := Some(records);
        if consecutive >= MAX_CONSECUTIVE_FAILURES { return records, failures, GaveUp(consecutive), written; }
      } else {
        consecutive := 0;
        store.Observe(seg.index, seg.prompt, VideoPath(env.runDir, seg.index), seg.prompt);
        written := Some(records);
      }
      k := k + 1;
    }
    written := Some(records);
    why := Finished;
  }

  /** Select, guard, realize: an error stands for the guard's exception. */
  method Attempt(env: Env, store: Store, seg: Segment) returns (r: Result<(seq<Row>, Result<Clip, string>), string>)
    ensures r.Ok? <==> Causal(env, References(env, store.State(), seg), seg.index)
    ensures r.Ok? ==> r.value.0 == Rows(References(env, store.State(), seg))
    ensures r.Ok? ==> r.value.1 == env.realize(Request(seg.index, seg.prompt, ImagesOf(r.value.0), env.seed))
  {
    hide LastSeenControl.SourceOf;
    var refs := LastSeenControl.UsableReferences(Selected(env, store.State(), seg), env.images);
    var sources := LastSeenControl.CheckCausal(refs, seg.index, env.ownImages);
    if sources.Err? { return Err(sources.error); }
    var rows := Rows(refs);
    return Ok((rows, env.realize(Request(seg.index, seg.prompt, ImagesOf(rows), env.seed))));
  }

  // ----- resuming is the same run -----

  lemma StepAppends(env: Env, st: State, seg: Segment)
    ensures var next := Step(env, st, seg);
            && (next.Go? ==> |next.state.records| == |st.records| + 1)
            && st.records <= next.state.records
            && |next.state.records| <= |st.records| + 1
  {
    hide Observed, Recorded, References, Causal, Rows, ImagesOf;
  }

  lemma {:induction false} RunAppends(env: Env, st: State, segs: seq<Segment>)
    ensures st.records <= Run(env, st, segs).0.records
    ensures Run(env, st, segs).1.Finished? ==> |Run(env, st, segs).0.records| == |st.records| + |segs|
    decreases |segs|
  {
    hide Step;
    if segs != [] {
      StepAppends(env, st, segs[0]);
      var next := Step(env, st, segs[0]);
      if next.Go? { RunAppends(env, next.state, segs[1..]); StepNeverFinishes(env, st, segs[0]); }
      else { StepNeverFinishes(env, st, segs[0]); }
    }
  }

  lemma StepNeverFinishes(env: Env, st: State, seg: Segment)
    ensures Step(env, st, seg).Halt? ==> !Step(env, st, seg).why.Finished?
  {
    hide Observed, Recorded, References, Causal, Rows, ImagesOf;
  }

  /** A step that recorded a success went on, observed it, and stands with no failure in a row. */
  lemma SuccessGoesOn(env: Env, st: State, seg: Segment)
    requires var next := Step(env, st, seg);
             |next.state.records| > |st.records| && next.state.records[|st.records|].status.Succeeded?
    ensures var next := Step(env, st, seg);
            && next.Go? && next.state.consecutive == 0 && next.state.failures == st.failures
            && next.state.memory == ReplayOne(env.probe, st.memory, next.state.records[|st.records|])
  {
    hide Observed, References, Causal, Rows, ImagesOf, VideoPath;
  }

  /** Take the records of a run, cut off anywhere after a stretch of successes: the state rebuilt by replay is
      the one the run was in, so going on from it gives the same run. */
  lemma {:induction false} Retrace(env: Env, st: State, segs: seq<Segment>, n: nat)
    requires st.consecutive == 0 && st.memory == Replay(env.probe, EMPTY, st.records)
    requires var whole := Run(env, st, segs).0.records;
             |st.records| + n <= |whole|
             && forall k :: |st.records| <= k < |st.records| + n ==> whole[k].status.Succeeded?
    ensures n <= |segs|
    ensures var whole := Run(env, st, segs);
            Run(env, State(whole.0.records[..|st.records| + n],
                           Replay(env.probe, EMPTY, whole.0.records[..|st.records| + n]), st.failures, 0),
                segs[n..]) == whole
    decreases n
  {
    hide Step, Observed, ReplayOne;
    RunAppends(env, st, segs);
    var whole := Run(env, st, segs).0.records;
    if n == 0 {
      assert whole[..|st.records|] == st.records;
      assert segs[0..] == segs;
    } else {
      assert segs != [];
      StepAppends(env, st, segs[0]);
      var next := Step(env, st, segs[0]);
      if next.Go? { RunAppends(env, next.state, segs[1..]); }
      assert next.state.records <= whole;
      assert next.state.records[|st.records|] == whole[|st.records|];
      SuccessGoesOn(env, st, segs[0]);
      assert next.state.records == st.records + [next.state.records[|st.records|]];
      Retrace(env, next.state, segs[1..], n - 1);
      assert segs[1..][n - 1..] == segs[n..];
    }
  }

  /** Resuming from what any moment of a run had saved, successes and failures alike, whatever clips are
      still on disk, ends exactly as the uninterrupted run. */
  lemma {:induction false} ResumingIsTheSameRun(env: Env, segs: seq<Segment>, moment: nat, files: set<string>)
    requires moment <= |Run(env, Resumed(env, []), segs).0.records|
    ensures var whole := Run(env, Resumed(env, []), segs);
            var saved := whole.0.records[..moment];
            var closed := saved[..ClosedCount(saved, files, 0)];
            Run(env, Resumed(env, closed), Remaining(segs, |closed|)) == whole
  {
    hide Run, Observed, ReplayOne;
    var whole := Run(env, Resumed(env, []), segs);
    var saved := whole.0.records[..moment];
    var n := ClosedCount(saved, files, 0);
    forall k | 0 <= k < n ensures whole.0.records[k].status.Succeeded? {
      assert IsClosed(saved[k], k, files);
    }
    Retrace(env, Resumed(env, []), segs, n);
    assert saved[..n] == whole.0.records[..0 + n];
  }

  // ----- what a record tells -----

  /** The references a policy offers for a segment from the history `m`: none, what the retriever answers to the prompt
      as of the clock once something was observed, or the stills of the shots chosen for it. */
  ghost predicate Offered(env: Env, m: Memory, seg: Segment, refs: seq<LastSeenControl.Ref>) {
    match env.policy
    case NoMemory => refs == []
    case Retrieval(retrieve) =>
      if |m.segments| == 0 then refs == [] else refs == retrieve(m, seg.prompt, m.clock, env.budget)
    case LastSeen(plan, past, disk) =>
      exists planned, chosen, of, at ::
        LastSeenControl.IsCut(planned, if seg.index in plan then plan[seg.index] else [], env.budget)
        && ChosenFrom(m.videos, past, disk, planned, env.budget, seg.index, of, chosen)
        && StillsOf(disk, chosen, at, refs)
  }

  ghost predicate StillsOf(disk: LastSeenControl.Disk, chosen: seq<nat>, at: seq<nat>, refs: seq<LastSeenControl.Ref>) {
    && PlacesOf(at, |chosen|, LastSeenControl.HasStill(disk, chosen)) && |refs| == |at|
    && forall k :: 0 <= k < |at| ==>
         at[k] < |chosen| && chosen[at[k]] in disk.stills
         && refs[k] == LastSeenControl.Ref(LastSeenControl.RepId(chosen[at[k]]), disk.stills[chosen[at[k]]])
  }

  ghost predicate ChosenFrom(videos: map<int, string>, past: map<int, string>, disk: LastSeenControl.Disk,
                             planned: seq<int>, budget: nat, current: int, of: seq<nat>, chosen: seq<nat>)
  {
    var filled := |of| < budget && LastSeenControl.HasClip(videos, past, disk, current - 1, current)
                  && forall k :: 0 <= k < |of| && of[k] < |planned| ==> planned[of[k]] != current - 1;
    && PlacesOf(of, |planned|, LastSeenControl.FirstOwn(videos, past, disk, planned, current))
    && |chosen| == |of| + (if filled then 1 else 0)
    && (forall k :: 0 <= k < |of| ==> of[k] < |planned| && chosen[k] == planned[of[k]])
    && (filled ==> chosen[|of|] == current - 1)
  }

  lemma SelectedIsOffered(env: Env, m: Memory, seg: Segment)
    ensures Offered(env, m, seg, Selected(env, m, seg))
  {
    if env.policy.LastSeen? {
      var plan, past, disk := env.policy.plan, env.policy.past, env.policy.disk;
      var planned := Planned(plan, env.budget, seg.index);
      hide PlacesOf, Planned, ChosenFrom, StillsOf, LastSeenControl.Chosen, LastSeenControl.Stills, LastSeenControl.IsCut;
      var of, chosen := ChosenIs(m.videos, past, disk, planned, env.budget, seg.index);
      var at := StillsAre(disk, chosen);
    }
  }

  lemma ChosenIs(videos: map<int, string>, past: map<int, string>, disk: LastSeenControl.Disk, planned: seq<int>,
                 budget: nat, current: int) returns (of: seq<nat>, chosen: seq<nat>)
    requires |planned| <= budget
    ensures chosen == LastSeenControl.Chosen(videos, past, disk, planned, budget, current)
    ensures ChosenFrom(videos, past, disk, planned, budget, current, of, chosen)
  {
    hide PlacesOf, LastSeenControl.Chosen, LastSeenControl.HasClip;
    of := LastSeenControl.ChosenMeans(videos, past, disk, planned, budget, current);
    chosen := LastSeenControl.Chosen(videos, past, disk, planned, budget, current);
  }

  lemma StillsAre(disk: LastSeenControl.Disk, chosen: seq<nat>) returns (at: seq<nat>)
    ensures StillsOf(disk, chosen, at, LastSeenControl.Stills(disk, chosen))
  {
    hide PlacesOf, LastSeenControl.Stills;
    at := LastSeenControl.StillsMean(disk, chosen, |chosen|);
    assert chosen[..|chosen|] == chosen;
  }

  /** The rows of a record list those of the offered references that are the first with their still, in rank order,
      with the source that their names carry. */
  ghost predicate Lists(env: Env, refs: seq<LastSeenControl.Ref>, rows: seq<Row>, places: seq<nat>) {
    && PlacesOf(places, |refs|, LastSeenControl.FirstStill(refs, env.images)) && |rows| == |places|
    && forall k :: 0 <= k < |rows| ==>
         places[k] < |refs| && rows[k].id == refs[places[k]].repId && rows[k].image == refs[places[k]].image
         && LastSeenControl.SourceOf(rows[k].id) == Some(rows[k].source)
  }

  /** The backend was asked for just this segment, with the stills of the rows and nothing else. */
  ghost predicate AsksFor(env: Env, seg: Segment, rows: seq<Row>, request: Request) {
    && request.id == seg.index && request.prompt == seg.prompt && request.seed == env.seed
    && |request.images| == |rows| && forall k :: 0 <= k < |rows| ==> request.images[k] == rows[k].image
  }

  /** The status is the backend's answer. */
  ghost predicate Answered(env: Env, id: nat, answer: Result<Clip, string>, status: Status) {
    match answer
    case Err(error) => status.Failed? && status.error == error
    case Ok(clip) =>
      && status.Succeeded? && status.video == VideoPath(env.runDir, id) && status.meta == clip.meta
      && (status.keyframe.Some? <==> clip.hasKeyframe)
      && (status.keyframe.Some? ==> status.keyframe.value == KeyframePath(env.runDir, id))
  }

  /** A record tells what happened to its segment: the references its policy offered from the history before it, and
      what the backend answered when asked with them. */
  ghost predicate Tells(env: Env, m: Memory, seg: Segment, rec: Record) {
    && rec.id == seg.index && rec.gtId == seg.gtId && rec.prompt == seg.prompt && rec.transition == seg.transition
    && rec.seed == env.seed && rec.backend == env.backend
    && (exists refs, places :: Offered(env, m, seg, refs) && Lists(env, refs, rec.references, places))
    && exists request :: AsksFor(env, seg, rec.references, request)
                         && Answered(env, seg.index, env.realize(request), rec.status)
  }

  lemma RowsList(env: Env, refs: seq<LastSeenControl.Ref>) returns (places: seq<nat>)
    requires forall x :: x in LastSeenControl.Usable(refs, env.images) ==> LastSeenControl.SourceOf(x.repId).Some?
    ensures Lists(env, refs, Rows(LastSeenControl.Usable(refs, env.images)), places)
  {
    hide PlacesOf, LastSeenControl.Usable, LastSeenControl.SourceOf;
    places := LastSeenControl.UsableMeans(refs, env.images, |refs|);
    assert refs[..|refs|] == refs;
  }

  lemma StepTells(env: Env, st: State, seg: Segment)
    ensures var next := Step(env, st, seg);
            |next.state.records| > |st.records| ==> Tells(env, st.memory, seg, next.state.records[|st.records|])
  {
    hide Observed, Selected, LastSeenControl.Usable, LastSeenControl.SourceOf, VideoPath, KeyframePath, Offered, Lists;
    var refs := Selected(env, st.memory, seg);
    if Causal(env, References(env, st.memory, seg), seg.index) {
      SelectedIsOffered(env, st.memory, seg);
      var places := RowsList(env, refs);
      var rows := Rows(References(env, st.memory, seg));
      var request := Request(seg.index, seg.prompt, ImagesOf(rows), env.seed);
      assert AsksFor(env, seg, rows, request);
      assert Answered(env, seg.index, env.realize(request), Recorded(env, seg, rows, env.realize(request)).status);
    }
  }

  /** The guard refuses the segment: among the usable ones of the offered references one has no source, a source that
      is not earlier, or a still that is not this run's own. */
  ghost predicate Refused(env: Env, m: Memory, seg: Segment) {
    exists refs: seq<LastSeenControl.Ref>, places: seq<nat>, k: nat :: Offered(env, m, seg, refs)
      && PlacesOf(places, |refs|, LastSeenControl.FirstStill(refs, env.images))
      && k < |places| && places[k] < |refs| && NotCausal(env, seg.index, refs[places[k]])
  }

  ghost predicate NotCausal(env: Env, current: nat, x: LastSeenControl.Ref) {
    x.image !in env.ownImages || forall n: nat :: LastSeenControl.SourceOf(x.repId) == Some(n) ==> n >= current
  }

  lemma StepRefuses(env: Env, st: State, seg: Segment)
    ensures var next := Step(env, st, seg);
            next.Halt? && next.why.Acausal? ==> next.state == st && Refused(env, st.memory, seg)
  {
    hide Observed, Selected, Recorded, Rows, LastSeenControl.Usable, LastSeenControl.SourceOf, Offered, PlacesOf;
    var refs := Selected(env, st.memory, seg);
    SelectedIsOffered(env, st.memory, seg);
    var places := LastSeenControl.UsableMeans(refs, env.images, |refs|);
    assert refs[..|refs|] == refs;
    var usable := References(env, st.memory, seg);
    if !Causal(env, usable, seg.index) {
      var x :| x in usable && !LastSeenControl.Passes(x, seg.index, env.ownImages);
      var k :| 0 <= k < |usable| && usable[k] == x;
      assert refs[places[k]] == x && NotCausal(env, seg.index, x);
    }
  }

  ghost predicate TellsAt(env: Env, segs: seq<Segment>, records: seq<Record>, k: nat) {
    k < |segs| && k < |records| && Tells(env, Replay(env.probe, EMPTY, records[..k]), segs[k], records[k])
  }

  /** Every record past the replayed ones tells what happened to its segment, from the history of the records before
      it; and a run that the guard ended was refused its next segment. */
  ghost predicate RunTells(env: Env, segs: seq<Segment>, from: nat, last: State, why: End) {
    && (forall k: nat :: from <= k < |last.records| ==> TellsAt(env, segs, last.records, k))
    && (why.Acausal? ==>
          |last.records| < |segs| && Refused(env, Replay(env.probe, EMPTY, last.records), segs[|last.records|]))
  }

  lemma {:induction false} RunIsTold(env: Env, st: State, segs: seq<Segment>, todo: seq<Segment>)
    requires |st.records| <= |segs| && todo == segs[|st.records|..]
    requires st.memory == Replay(env.probe, EMPTY, st.records)
    ensures RunTells(env, segs, |st.records|, Run(env, st, todo).0, Run(env, st, todo).1)
    decreases |todo|
  {
    hide Step, Tells, Refused, ReplayOne;
    RunAppends(env, st, todo);
    if todo != [] {
      var seg, n := todo[0], |st.records|;
      StepTells(env, st, seg);
      StepRefuses(env, st, seg);
      StepCounts(env, st, seg);
      var next := Step(env, st, seg);
      if |next.state.records| > n {
        assert next.state.records[..|next.state.records| - 1] == st.records;
        assert next.state.records[..n] == st.records;
      }
      if next.Go? {
        assert todo[1..] == segs[n + 1..];
        RunIsTold(env, next.state, segs, todo[1..]);
        RunAppends(env, next.state, todo[1..]);
        TellsFromHere(env, segs, n, st, next.state, Run(env, next.state, todo[1..]).0, Run(env, next.state, todo[1..]).1);
      }
    }
  }

  lemma TellsFromHere(env: Env, segs: seq<Segment>, n: nat, st: State, next: State, last: State, why: End)
    requires RunTells(env, segs, n + 1, last, why) && n < |segs|
    requires |st.records| == n && |next.records| == n + 1 && st.records <= next.records <= last.records
    requires Tells(env, Replay(env.probe, EMPTY, st.records), segs[n], next.records[n])
    ensures RunTells(env, segs, n, last, why)
  {
    hide Tells, Refused, Replay;
    assert last.records[..n] == st.records && last.records[n] == next.records[n];
    assert TellsAt(env, segs, last.records, n);
  }

  /** Different segments have different clips. */
  lemma {:induction false} ClipsAreTheirOwn(runDir: string, a: nat, b: nat)
    ensures VideoPath(runDir, a) == VideoPath(runDir, b) <==> a == b
    ensures KeyframePath(runDir, a) == KeyframePath(runDir, b) <==> a == b
  {
    PaddedInMiddle(runDir + "/review/segments/seg_", a, b, ".mp4");
    PaddedInMiddle(runDir + "/review/keyframes/seg_", a, b, ".png");
  }

  lemma PaddedInMiddle(before: string, a: nat, b: nat, after: string)
    ensures before + Padded(a, 3) + after == before + Padded(b, 3) + after <==> a == b
  {
    hide Padded;
    var x, y := before + Padded(a, 3) + after, before + Padded(b, 3) + after;
    if x == y {
      assert |Padded(a, 3)| == |Padded(b, 3)|;
      assert Padded(a, 3) == x[|before|..|before| + |Padded(a, 3)|] == Padded(b, 3);
    }
  }

  // ----- what every run keeps -----

  function FailuresIn(records: seq<Record>): nat {
    if records == [] then 0
    else FailuresIn(records[..|records| - 1]) + (if records[|records| - 1].status.Failed? then 1 else 0)
  }

  /** How many failures the records end with. */
  function FailuresAtEnd(records: seq<Record>): (n: nat)
    ensures n <= |records| && forall k :: |records| - n <= k < |records| ==> records[k].status.Failed?
    ensures n < |records| ==> records[|records| - n - 1].status.Succeeded?
  {
    if records == [] || records[|records| - 1].status.Succeeded? then 0
    else FailuresAtEnd(records[..|records| - 1]) + 1
  }

  ghost predicate ThreeFailed(records: seq<Record>, k: nat) {
    k + 3 <= |records| && records[k].status.Failed? && records[k + 1].status.Failed? && records[k + 2].status.Failed?
  }

  /** A record whose references all come from strictly earlier segments of this run. */
  predicate CausalRecord(env: Env, rec: Record) {
    forall k :: 0 <= k < |rec.references| ==>
      rec.references[k].source < rec.id && rec.references[k].image in env.ownImages
  }

  /** What holds after every step of a run whose first `from` records were replayed. */
  ghost predicate Kept(env: Env, st: State, from: nat) {
    && from <= |st.records|
    && (forall k :: 0 <= k < |st.records| ==> st.records[k].id == k)
    && (forall k :: from <= k < |st.records| ==> CausalRecord(env, st.records[k]))
    && st.memory == Replay(env.probe, EMPTY, st.records)
    && st.failures == FailuresIn(st.records) && st.consecutive == FailuresAtEnd(st.records)
    && (forall k: nat :: k + 3 < |st.records| ==> !ThreeFailed(st.records, k))
  }

  lemma ResumedKeeps(env: Env, records: seq<Record>, files: set<string>)
    ensures var closed := records[..ClosedCount(records, files, 0)]; Kept(env, Resumed(env, closed), |closed|)
  {
    hide Replay, CausalRecord;
    var closed := records[..ClosedCount(records, files, 0)];
    forall k | 0 <= k < |closed| ensures closed[k].id == k && closed[k].status.Succeeded? {
      assert IsClosed(records[k], k, files);
    }
    NoFailures(closed);
  }

  lemma {:induction false} NoFailures(records: seq<Record>)
    requires forall k :: 0 <= k < |records| ==> records[k].status.Succeeded?
    ensures FailuresIn(records) == 0 && FailuresAtEnd(records) == 0
  {
    if records != [] { NoFailures(records[..|records| - 1]); }
  }

  lemma StepIsCausal(env: Env, st: State, seg: Segment)
    ensures var next := Step(env, st, seg);
            |next.state.records| > |st.records| ==>
              var rec := next.state.records[|st.records|];
              rec.id == seg.index && CausalRecord(env, rec)
  {
    hide Observed, References, LastSeenControl.SourceOf, ImagesOf, VideoPath, KeyframePath;
    var refs := References(env, st.memory, seg);
    if Causal(env, refs, seg.index) {
      var rows := Rows(refs);
      forall k | 0 <= k < |rows| ensures rows[k].source < seg.index && rows[k].image in env.ownImages {
        assert refs[k] in refs;
      }
    }
  }

  /** A step as its effect on the records alone. */
  lemma StepCounts(env: Env, st: State, seg: Segment)
    ensures var next := Step(env, st, seg);
            if |next.state.records| == |st.records| then next == Halt(st, Acausal)
            else
              var rec := next.state.records[|st.records|];
              && next.state.records == st.records + [rec]
              && next.state.memory == ReplayOne(env.probe, st.memory, rec)
              && next.state.failures == st.failures + (if rec.status.Failed? then 1 else 0)
              && next.state.consecutive == (if rec.status.Failed? then st.consecutive + 1 else 0)
              && (next.Halt? <==> next.state.consecutive >= 3)
              && (next.Halt? ==> next.why == GaveUp(next.state.consecutive))
  {
    hide Observed, References, Causal, Rows, ImagesOf, VideoPath;
  }

  lemma StepKeeps(env: Env, st: State, seg: Segment, from: nat)
    requires Kept(env, st, from) && st.consecutive < 3 && seg.index == |st.records|
    ensures Kept(env, Step(env, st, seg).state, from)
    ensures Step(env, st, seg).Go? ==> Step(env, st, seg).state.consecutive < 3
    ensures Step(env, st, seg).Halt? && Step(env, st, seg).why.GaveUp? ==> Step(env, st, seg).why.failures == 3
  {
    hide Step, ReplayOne, CausalRecord, ThreeFailed, FailuresAtEnd, FailuresIn, Replay, Kept;
    StepCounts(env, st, seg);
    StepIsCausal(env, st, seg);
    var next := Step(env, st, seg);
    if |next.state.records| > |st.records| {
      KeptWithOneMore(env, st, next.state.records[|st.records|], next.state, from);
    }
  }

  /** One record more, with its effect on the store and the counters. */
  lemma KeptWithOneMore(env: Env, st: State, rec: Record, next: State, from: nat)
    requires Kept(env, st, from) && st.consecutive < 3
    requires next.records == st.records + [rec] && rec.id == |st.records| && CausalRecord(env, rec)
    requires next.memory == ReplayOne(env.probe, st.memory, rec)
    requires next.failures == st.failures + (if rec.status.Failed? then 1 else 0)
    requires next.consecutive == (if rec.status.Failed? then st.consecutive + 1 else 0)
    ensures Kept(env, next, from)
  {
    hide ReplayOne, CausalRecord, ThreeFailed;
    assert next.records[..|next.records| - 1] == st.records;
    NoEarlierThree(st.records, next.records);
  }

  lemma NoEarlierThree(before: seq<Record>, records: seq<Record>)
    requires |records| == |before| + 1 && records[..|before|] == before && FailuresAtEnd(before) < 3
    requires forall k: nat :: k + 3 < |before| ==> !ThreeFailed(before, k)
    ensures forall k: nat :: k + 3 < |records| ==> !ThreeFailed(records, k)
  {
    forall k: nat | k + 3 < |records| ensures !ThreeFailed(records, k) {
      if k + 3 == |before| { LastOfThree(before, k); }
      assert ThreeFailed(records, k) ==> ThreeFailed(before, k);
    }
  }

  lemma {:induction false} RunKeeps(env: Env, st: State, segs: seq<Segment>, from: nat)
    requires Kept(env, st, from) && st.consecutive < 3
    requires forall k :: 0 <= k < |segs| ==> segs[k].index == |st.records| + k
    ensures Kept(env, Run(env, st, segs).0, from)
    ensures Run(env, st, segs).1.Finished? ==> Run(env, st, segs).0.consecutive < 3
    ensures Run(env, st, segs).1.GaveUp? ==> Run(env, st, segs).0.consecutive == 3
    decreases |segs|
  {
    hide Step, Kept;
    if segs != [] {
      StepKeeps(env, st, segs[0], from);
      StepCounts(env, st, segs[0]);
      StepAppends(env, st, segs[0]);
      var next := Step(env, st, segs[0]);
      if next.Go? {
        assert |next.state.records| == |st.records| + 1;
        forall k | 0 <= k < |segs[1..]| ensures segs[1..][k].index == |next.state.records| + k {
          assert segs[1..][k] == segs[k + 1];
        }
        RunKeeps(env, next.state, segs[1..], from);
      }
    }
  }

  /** Every run of a numbered stream, fresh or resumed: records are numbered from zero, their references are
      causal, the store is the replay of the successes, and three failures in a row happen only at the end of
      a run that gave up. A finished run accounts for every requested segment, unless it was resumed with
      more closed segments than requested. */
  lemma {:induction false} EveryRun(env: Env, segs: seq<Segment>, saved: seq<Record>, files: set<string>)
    requires Numbered(segs)
    ensures var closed := saved[..ClosedCount(saved, files, 0)];
            var (last, why) := Run(env, Resumed(env, closed), Remaining(segs, |closed|));
            && Kept(env, last, |closed|)
            && (why.Finished? ==> forall k: nat :: !ThreeFailed(last.records, k))
            && (why.GaveUp? ==> |last.records| >= 3 && ThreeFailed(last.records, |last.records| - 3))
            && (why.Finished? ==> Successes(last.records) + last.failures
                                  == if |closed| <= |segs| then |segs| else |closed|)
            && Tiled(last.memory)
            && RunTells(env, segs, |closed|, last, why)
  {
    hide Run, ClosedCount, Replay, CausalRecord, Tiled, Successes, Tells, Refused;
    var closed := saved[..ClosedCount(saved, files, 0)];
    var todo := Remaining(segs, |closed|);
    ResumedKeeps(env, saved, files);
    RunKeeps(env, Resumed(env, closed), todo, |closed|);
    RunAppends(env, Resumed(env, closed), todo);
    var (last, why) := Run(env, Resumed(env, closed), todo);
    CountsAddUp(last.records);
    if |closed| <= |segs| { RunIsTold(env, Resumed(env, closed), segs, todo); } else { NothingToDo(env, closed); }
    EmptyTiles();
    ReplayTiles(env.probe, EMPTY, last.records);
    if why.Finished? {
      forall k: nat ensures !ThreeFailed(last.records, k) {
        if k + 3 == |last.records| { LastOfThree(last.records, k); }
      }
    }
  }

  lemma LastOfThree(records: seq<Record>, k: nat)
    requires k + 3 == |records| && FailuresAtEnd(records) < 3
    ensures !ThreeFailed(records, k)
  {}

  function Successes(records: seq<Record>): nat {
    if records == [] then 0
    else Successes(records[..|records| - 1]) + (if records[|records| - 1].status.Succeeded? then 1 else 0)
  }

  lemma {:induction false} CountsAddUp(records: seq<Record>)
    ensures Successes(records) + FailuresIn(records) == |records|
  {
    if records != [] { CountsAddUp(records[..|records| - 1]); }
  }

  lemma NothingToDo(env: Env, closed: seq<Record>)
    ensures Run(env, Resumed(env, closed), []) == (Resumed(env, closed), Finished)
  {}

  lemma EmptyTiles()
    ensures Tiled(EMPTY)
  {}

  lemma {:induction false} ReplayTiles(probe: Probe, m: Memory, records: seq<Record>)
    requires Tiled(m)
    ensures Tiled(Replay(probe, m, records))
  {
    hide Tiled, Observed;
    if records != [] {
      var before, rec := records[..|records| - 1], records[|records| - 1];
      ReplayTiles(probe, m, before);
      if rec.status.Succeeded? {
        ObservedTiles(probe, Replay(probe, m, before), rec.id, rec.prompt, rec.status.video, rec.prompt);
      }
    }
  }

  /** The store's clips are those of the successful records. */
  lemma {:induction false} VideosOfSuccesses(probe: Probe, records: seq<Record>, id: int)
    requires forall k :: 0 <= k < |records| ==> records[k].id == k
    ensures VideoFor(Replay(probe, EMPTY, records), id)
            == if 0 <= id < |records| && records[id].status.Succeeded? && records[id].status.video != ""
               then Some(records[id].status.video) else None
  {
    if records != [] { VideosOfSuccesses(probe, records[..|records| - 1], id); }
  }

  /** The span that a success adds to the store: its own prompt, and as long as its clip, two seconds where no length
      can be read. */
  ghost predicate Spans(probe: Probe, rec: Record, s: SegmentRecord) {
    rec.status.Succeeded? && s.id == rec.id && s.prompt == rec.prompt && s.description == rec.prompt
    && s.end - s.start == if rec.status.video != "" && probe(rec.status.video).Some? && probe(rec.status.video).value > 0.0
                          then probe(rec.status.video).value else 2.0
  }

  ghost function IsSuccess(records: seq<Record>): nat -> bool {
    (p: nat) => p < |records| && records[p].status.Succeeded?
  }

  /** The store has one span for each success, in their order. */
  lemma {:induction false} SpansOfSuccesses(probe: Probe, records: seq<Record>, n: nat) returns (places: seq<nat>)
    requires n <= |records|
    ensures PlacesOf(places, n, IsSuccess(records))
    ensures var m := Replay(probe, EMPTY, records[..n]);
            |m.segments| == |places| && forall k :: 0 <= k < |places| ==>
              places[k] < |records| && Spans(probe, records[places[k]], m.segments[k])
  {
    hide PlacesOf;
    if n == 0 {
      places := [];
      NoPlaces(IsSuccess(records));
    } else {
      assert records[..n][..n - 1] == records[..n - 1];
      places := SpansOfSuccesses(probe, records, n - 1);
      PlacesStep(places, n - 1, IsSuccess(records));
      if records[n - 1].status.Succeeded? { places := places + [n - 1]; }
    }
  }

  // ----- the last-seen control is never stopped by the guard -----

  /** With at most 100000 segments and stills under the run's own directory, a run of the last-seen control
      never ends on the guard's exception. */
  lemma {:induction false} LastSeenRunsAreCausal(env: Env, st: State, segs: seq<Segment>)
    requires env.policy.LastSeen? && forall s :: s in env.policy.disk.stills ==> env.policy.disk.stills[s] in env.ownImages
    requires forall k :: 0 <= k < |segs| ==> segs[k].index <= 100000
    ensures !Run(env, st, segs).1.Acausal?
    decreases |segs|
  {
    hide Step;
    if segs != [] {
      LastSeenPasses(env, st.memory, segs[0]);
      StepPasses(env, st, segs[0]);
      var next := Step(env, st, segs[0]);
      if next.Go? { LastSeenRunsAreCausal(env, next.state, segs[1..]); }
    }
  }

  lemma StepPasses(env: Env, st: State, seg: Segment)
    requires Causal(env, References(env, st.memory, seg), seg.index)
    ensures Step(env, st, seg).Halt? ==> !Step(env, st, seg).why.Acausal?
  {
    hide Observed, Recorded, References, Causal, Rows, ImagesOf;
  }

  lemma LastSeenPasses(env: Env, m: Memory, seg: Segment)
    requires env.policy.LastSeen? && forall s :: s in env.policy.disk.stills ==> env.policy.disk.stills[s] in env.ownImages
    requires seg.index <= 100000
    ensures Causal(env, References(env, m, seg), seg.index)
  {
    hide LastSeenControl.Stills, LastSeenControl.Chosen, LastSeenControl.Usable, LastSeenControl.Passes;
    Causality.SelectedRefsPass(m.videos, env.policy.past, env.policy.disk, Planned(env.policy.plan, env.budget, seg.index),
                               env.budget, seg.index, env.images, env.ownImages);
  }
}
