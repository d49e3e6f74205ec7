/** The segment score through the judge cache: whatever the interleaving of the callers and the order in which
    they come back, it is the serial uncached score. */
module CachedScore {
  import opened Basics
  import opened Sorting
  import opened JudgeCache
  import opened VisualScore

  /** No call of the judge fails on the way. */
  predicate CallsGoThrough(events: seq<Event>) { forall e :: e in events ==> !e.step.DoFail? }

  /** What a caller of a key gets: the labels on record when the run begins, provided they still follow from the
      recorded response, and otherwise what an uncached call gives. */
  function Expected(g: Setting, judge: CacheKey -> string, before: map<CacheKey, Record>, k: CacheKey)
    : Option<seq<string>>
  {
    if k in before then (if Intact(g, k, before[k]) then Some(before[k].labels) else None)
    else Uncached(g, judge, k)
  }

  /** The record on file is what its response says. */
  ghost predicate Holds(g: Setting, k: CacheKey, r: Record) {
    var p := g.decode(r.raw);
    InForm(p, g.allowed(k)) && multiset(r.labels) == multiset(p.fields["entity_ids"].items) && SortedBy(r.labels, StringLe)
  }

  /** There is nothing to expect exactly where the record does not hold, or the response is out of form. */
  lemma MissingIs(g: Setting, judge: CacheKey -> string, before: map<CacheKey, Record>, k: CacheKey)
    ensures Expected(g, judge, before, k).None? <==>
            if k in before then !Holds(g, k, before[k]) else !InForm(g.decode(judge(k)), g.allowed(k))
  {
    hide Parse, InForm;
    if k in before {
      ParseIs(g.decode(before[k].raw), g.allowed(k), before[k].labels);
    } else {
      ParseIs(g.decode(judge(k)), g.allowed(k), []);
    }
  }

  function ResultOf(pc: Pc): Option<seq<string>> { if pc.Returned? then Some(pc.labels) else None }

  /** A caller raises only where nothing is to be expected. */
  ghost predicate RaisedRightly(g: Setting, judge: CacheKey -> string, s: State, before: map<CacheKey, Record>) {
    forall t :: t in s.pc && s.pc[t].Raised? ==> Expected(g, judge, before, g.keyOf(t)).None?
  }

  lemma HitIsRight(g: Setting, judge: CacheKey -> string, s: State, before: map<CacheKey, Record>, k: CacheKey)
    requires Counted(g, s, before) && FromJudge(g, judge, s, before) && k in s.store && !Intact(g, k, s.store[k])
    ensures Expected(g, judge, before, k).None?
  {
    hide Parse;
  }

  lemma CalledWhenAbsent(g: Setting, s: State, t: Thread, before: map<CacheKey, Record>)
    requires Absent(g, s) && Counted(g, s, before) && t in s.pc && s.pc[t].Calling?
    ensures g.keyOf(t) !in before
  {}

  lemma RaisedKept(g: Setting, judge: CacheKey -> string, s: State, e: Event, s': State, before: map<CacheKey, Record>)
    requires Inv(g, s, before) && FromJudge(g, judge, s, before) && RaisedRightly(g, judge, s, before)
    requires NextBy(g, s, e.t, e.step, s') && Answers(g, judge, e) && !e.step.DoFail?
    ensures RaisedRightly(g, judge, s', before)
  {
    hide Parse, Intact, Locked, Agreed, FromJudge, Absent, Counted;
    var k := g.keyOf(e.t);
    if (e.step.DoRead? || e.step.DoReRead?) && k in s.store && !Intact(g, k, s.store[k]) {
      HitIsRight(g, judge, s, before, k);
    }
    if e.step.DoRespond? { CalledWhenAbsent(g, s, e.t, before); }
    assert s'.pc == s.pc[e.t := s'.pc[e.t]];
    hide NextBy;
  }

  lemma {:induction false} RaisesAreRight(g: Setting, judge: CacheKey -> string, states: seq<State>,
                                          events: seq<Event>, i: nat)
    requires Run(g, states, events) && i < |states| && CallsGoThrough(events)
    requires forall e :: e in events ==> Answers(g, judge, e)
    ensures RaisedRightly(g, judge, states[i], states[0].store)
  {
    hide NextBy, Answers, Inv, FromJudge, Expected;
    if i > 0 {
      RaisesAreRight(g, judge, states, events, i - 1);
      InvHolds(g, states, events, i - 1);
      StoreIsTheJudge(g, judge, states, events, i - 1);
      assert events[i - 1] in events;
      RaisedKept(g, judge, states[i - 1], events[i - 1], states[i], states[0].store);
    }
  }

  /** Whoever returns, returns what was to be expected: the record, or the uncached answer. */
  lemma {:induction false} ReturnedIsExpected(g: Setting, judge: CacheKey -> string, states: seq<State>,
                                              events: seq<Event>, i: nat, t: Thread)
    requires Run(g, states, events) && i < |states|
    requires forall e :: e in events ==> Answers(g, judge, e)
    requires t in states[i].pc && states[i].pc[t].Returned?
    ensures Expected(g, judge, states[0].store, g.keyOf(t)) == Some(states[i].pc[t].labels)
  {
    hide Run, Answers, Parse;
    InvHolds(g, states, events, i);
    if g.keyOf(t) !in states[0].store { CachedEqualsUncached(g, judge, states, events, i, t); }
  }

  /** Where no call fails, every caller that is done got exactly what was to be expected: an exception only where
      there is neither a valid record nor a valid answer. */
  lemma {:induction false} CallersGetTheExpected(g: Setting, judge: CacheKey -> string, states: seq<State>,
                                                 events: seq<Event>, i: nat, t: Thread)
    requires Run(g, states, events) && i < |states| && CallsGoThrough(events)
    requires forall e :: e in events ==> Answers(g, judge, e)
    requires t in states[i].pc && Finished(states[i].pc[t])
    ensures ResultOf(states[i].pc[t]) == Expected(g, judge, states[0].store, g.keyOf(t))
  {
    hide Run, Answers, Expected;
    if states[i].pc[t].Returned? {
      ReturnedIsExpected(g, judge, states, events, i, t);
    } else {
      RaisesAreRight(g, judge, states, events, i);
    }
  }

  /** The callers of a segment: caller `t` asks about reference `t`. */
  ghost predicate CallersOf(g: Setting, refs: seq<string>, key: string -> CacheKey, s: State) {
    forall t: nat :: t < |refs| ==> t in s.pc && g.keyOf(t) == key(refs[t])
  }

  /** The callers are done. With one worker, who calls for one reference after the other, one that never started
      after an earlier one raised is done too. */
  ghost predicate Done(s: State, n: nat, workers: int)
    requires forall t: nat :: t < n ==> t in s.pc
  {
    forall t: nat :: t < n ==>
      Finished(s.pc[t]) || (workers <= 1 && s.pc[t].Start? && exists r: nat :: r < t && s.pc[r].Raised?)
  }

  function ResultsOf(s: State, n: nat): seq<Option<seq<string>>>
    requires forall t: nat :: t < n ==> t in s.pc
  {
    seq(n, t requires 0 <= t < n => ResultOf(s.pc[t]))
  }

  function ExpectedResults(g: Setting, judge: CacheKey -> string, before: map<CacheKey, Record>, refs: seq<string>,
                           key: string -> CacheKey): seq<Option<seq<string>>>
  {
    seq(|refs|, t requires 0 <= t < |refs| => Expected(g, judge, before, key(refs[t])))
  }

  /** Serial, uncached: each reference judged on its own. */
  function Alone(g: Setting, judge: CacheKey -> string, key: string -> CacheKey): string -> seq<string> {
    ref => var labels := Uncached(g, judge, key(ref)); if labels.Some? then labels.value else []
  }

  /** The score of a segment whose callers have run through the cache, in whatever interleaving, or one after the
      other up to the first that raised. It is raised
      exactly when a caller raised; else it depends on the references, the judge and the records there were before,
      and on nothing else, and on fresh keys it is the serial uncached score. When no call fails, it is raised
      exactly when some reference's record or answer is not valid. */
  method ScoreThroughCache(ghost g: Setting, ghost judge: CacheKey -> string, ghost states: seq<State>,
                           ghost events: seq<Event>, ghost i: nat, refs: seq<string>, ghost key: string -> CacheKey,
                           s: State, present: seq<string>, continuity: seq<string>, workers: int, finish: seq<nat>)
    returns (score: Option<Score>)
    requires Run(g, states, events) && i < |states| && s == states[i]
    requires forall e :: e in events ==> Answers(g, judge, e)
    requires CallersOf(g, refs, key, s) && Done(s, |refs|, workers)
    requires |finish| == |refs| && multiset(finish) == multiset(seq(|refs|, i => i))
    ensures score.None? <==> exists t: nat :: t < |refs| && s.pc[t].Raised?
    ensures CallsGoThrough(events) ==>
              (score.None? <==> exists r :: r in refs && Expected(g, judge, states[0].store, key(r)).None?)
    ensures CallsGoThrough(events)
            && (forall r :: r in refs && key(r) in states[0].store ==> Holds(g, key(r), states[0].store[key(r)])) ==>
              (score.None? <==> exists r :: r in refs && key(r) !in states[0].store
                                            && !InForm(g.decode(judge(key(r))), g.allowed(key(r))))
    ensures score.Some? ==>
              var expected := ExpectedResults(g, judge, states[0].store, refs, key);
              AllAnswered(expected)
              && score.value == ScoreOf(Values(expected), set e | e in present, set e | e in continuity)
    ensures score.Some? && (forall r :: r in refs ==> key(r) !in states[0].store) ==>
              score.value == ScoreOf(Serial(refs, Alone(g, judge, key)), set e | e in present, set e | e in continuity)
  {
    hide ScoreOf, Run, Answers, Uncached, Expected, AllAnswered, Done, ResultOf, CallsGoThrough, Holds, InForm;
    var results := ResultsOf(s, |refs|);
    score := ScoreSegment(results, present, continuity, false, workers, finish);
    SomeRaised(s, |refs|, workers);
    if CallsGoThrough(events) {
      RaisedForMissing(g, judge, states, events, i, refs, key, workers);
      forall r ensures Expected(g, judge, states[0].store, key(r)).None? <==>
                       if key(r) in states[0].store then !Holds(g, key(r), states[0].store[key(r)])
                       else !InForm(g.decode(judge(key(r))), g.allowed(key(r))) {
        MissingIs(g, judge, states[0].store, key(r));
      }
    }
    if score.Some? {
      ReturnedResults(g, judge, states, events, i, refs, key);
      if forall r :: r in refs ==> key(r) !in states[0].store { FreshResults(g, judge, states[0].store, refs, key); }
    }
  }

  lemma SomeRaised(s: State, n: nat, workers: int)
    requires (forall t: nat :: t < n ==> t in s.pc) && Done(s, n, workers)
    ensures !AllAnswered(ResultsOf(s, n)) <==> exists t: nat :: t < n && s.pc[t].Raised?
  {
    var results := ResultsOf(s, n);
    if t: nat :| t < n && s.pc[t].Raised? { assert results[t].None?; }
  }

  /** Where no call fails, some caller raises exactly when some reference has nothing to be expected. */
  lemma RaisedForMissing(g: Setting, judge: CacheKey -> string, states: seq<State>, events: seq<Event>, i: nat,
                         refs: seq<string>, key: string -> CacheKey, workers: int)
    requires Run(g, states, events) && i < |states| && CallsGoThrough(events)
    requires forall e :: e in events ==> Answers(g, judge, e)
    requires CallersOf(g, refs, key, states[i]) && Done(states[i], |refs|, workers)
    ensures (exists t: nat :: t < |refs| && states[i].pc[t].Raised?) <==>
            exists r :: r in refs && Expected(g, judge, states[0].store, key(r)).None?
  {
    hide Run, Answers, Expected;
    var s := states[i];
    if t: nat :| t < |refs| && s.pc[t].Raised? {
      CallersGetTheExpected(g, judge, states, events, i, t);
      assert refs[t] in refs;
    }
    if r :| r in refs && Expected(g, judge, states[0].store, key(r)).None? {
      var t :| 0 <= t < |refs| && refs[t] == r;
      if Finished(s.pc[t]) { CallersGetTheExpected(g, judge, states, events, i, t); }
    }
  }

  lemma ReturnedResults(g: Setting, judge: CacheKey -> string, states: seq<State>, events: seq<Event>, i: nat,
                        refs: seq<string>, key: string -> CacheKey)
    requires Run(g, states, events) && i < |states|
    requires forall e :: e in events ==> Answers(g, judge, e)
    requires CallersOf(g, refs, key, states[i]) && AllAnswered(ResultsOf(states[i], |refs|))
    ensures ResultsOf(states[i], |refs|) == ExpectedResults(g, judge, states[0].store, refs, key)
  {
    hide Run, Answers, Expected;
    forall t: nat | t < |refs|
      ensures ResultOf(states[i].pc[t]) == Expected(g, judge, states[0].store, key(refs[t]))
    {
      assert ResultsOf(states[i], |refs|)[t].Some?;
      ReturnedIsExpected(g, judge, states, events, i, t);
    }
  }

  lemma FreshResults(g: Setting, judge: CacheKey -> string, before: map<CacheKey, Record>, refs: seq<string>,
                     key: string -> CacheKey)
    requires AllAnswered(ExpectedResults(g, judge, before, refs, key)) && forall r :: r in refs ==> key(r) !in before
    ensures Values(ExpectedResults(g, judge, before, refs, key)) == Serial(refs, Alone(g, judge, key))
  {
    hide Uncached;
    var results := ExpectedResults(g, judge, before, refs, key);
    forall t | 0 <= t < |refs| ensures results[t] == Some(Alone(g, judge, key)(refs[t])) { assert refs[t] in refs; }
    assert Values(results) == Serial(refs, Alone(g, judge, key));
  }
}
