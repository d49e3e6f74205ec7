/** The single-flight judge cache: any number of threads read a record unlocked, take the key's lock, read
    again, call the judge and publish. Every interleaving of these steps is a run. */
module JudgeCache {
  import opened Basics
  import opened Sorting

  // ----- responses -----

  /** A judge response after JSON decoding. */
  datatype Value = Strings(items: seq<string>) | OtherValue

  datatype Payload = Malformed | NotAnObject | Object(fields: map<string, Value>)

  /** `_parse_v3_reference`: exactly the field entity_ids, a list of distinct allowed ids; sorted. */
  function Parse(p: Payload, allowed: set<string>): Option<seq<string>> {
    match p
    case Object(fields) =>
      if fields.Keys != {"entity_ids"} then None
      else
        var v := fields["entity_ids"];
        if v.Strings? && Distinct(v.items) && forall e :: e in v.items ==> e in allowed
        then Some(Sort(v.items, StringLe))
        else None
    case _ => None
  }

  lemma StringOrder()
    ensures TotalPreorder(StringLe)
  {
    forall a, b ensures StringLe(a, b) || StringLe(b, a) { StringLeTotal(a, b); }
    forall a, b, c | StringLe(a, b) && StringLe(b, c) ensures StringLe(a, c) { StringLeTransitive(a, b, c); }
  }

  /** A parsed response lists the response's own ids, allowed, distinct and in order. */
  lemma {:induction false} ParsedLabels(p: Payload, allowed: set<string>)
    requires Parse(p, allowed).Some?
    ensures var labels := Parse(p, allowed).value;
            && p.Object? && p.fields.Keys == {"entity_ids"} && p.fields["entity_ids"].Strings?
            && multiset(labels) == multiset(p.fields["entity_ids"].items)
            && SortedBy(labels, StringLe) && Distinct(labels) && forall e :: e in labels ==> e in allowed
  {
    var items := p.fields["entity_ids"].items;
    StringOrder();
    SortSorts(items, StringLe);
    SameElements(items, Sort(items, StringLe));
    DistinctPermutes(items, Sort(items, StringLe));
  }

  /** A response in the form that was asked for: one field, entity_ids, with allowed ids, none of them twice. An
      empty list is one. */
  ghost predicate InForm(p: Payload, allowed: set<string>) {
    && p.Object? && (forall name :: name in p.fields <==> name == "entity_ids") && p.fields["entity_ids"].Strings?
    && var items := p.fields["entity_ids"].items;
       && (forall i :: 0 <= i < |items| ==> items[i] in allowed)
       && (forall i, j :: 0 <= i < j < |items| ==> items[i] != items[j])
  }

  /** Exactly the responses in that form are accepted, and the labels are their ids in order. */
  lemma {:induction false} ParseIs(p: Payload, allowed: set<string>, labels: seq<string>)
    ensures Parse(p, allowed).Some? <==> InForm(p, allowed)
    ensures Parse(p, allowed) == Some(labels) <==>
            InForm(p, allowed) && multiset(labels) == multiset(p.fields["entity_ids"].items) && SortedBy(labels, StringLe)
  {
    if p.Object? { assert p.fields.Keys == {"entity_ids"} <==> forall name :: name in p.fields <==> name == "entity_ids"; }
    if Parse(p, allowed).Some? {
      ParsedLabels(p, allowed);
      if multiset(labels) == multiset(p.fields["entity_ids"].items) && SortedBy(labels, StringLe) {
        SortedIsUnique(labels, Parse(p, allowed).value);
      }
    }
  }

  // ----- threads -----

  type Thread = nat

  type CacheKey = string

  datatype Record = Record(labels: seq<string>, raw: string)

  /** What is fixed: each thread's key, each key's roster (part of the key), and the JSON decoder. */
  datatype Setting = Setting(keyOf: Thread -> CacheKey, allowed: CacheKey -> set<string>, decode: string -> Payload)

  datatype Pc =
    | Start
    | Waiting
    | Holding
    | Calling
    | Validated(labels: seq<string>, raw: string)
    | Returned(labels: seq<string>, called: bool)
    | Raised

  datatype State = State(pc: map<Thread, Pc>, owner: map<CacheKey, Thread>, store: map<CacheKey, Record>,
                         obtained: map<CacheKey, nat>)

  /** `get`: a record whose labels no longer follow from its raw response makes the reader raise. */
  predicate Intact(g: Setting, k: CacheKey, r: Record) {
    Parse(g.decode(r.raw), g.allowed(k)) == Some(r.labels)
  }

  function Release(owner: map<CacheKey, Thread>, k: CacheKey): map<CacheKey, Thread> { owner - {k} }

  /** What a read of the store does to a thread that found the key. */
  function AfterHit(g: Setting, k: CacheKey, r: Record): Pc {
    if Intact(g, k, r) then Returned(r.labels, false) else Raised
  }

  predicate ReadUnlocked(g: Setting, s: State, t: Thread, s': State) {
    var k := g.keyOf(t);
    t in s.pc && s.pc[t].Start?
    && s' == s.(pc := s.pc[t := if k in s.store then AfterHit(g, k, s.store[k]) else Waiting])
  }

  predicate Acquire(g: Setting, s: State, t: Thread, s': State) {
    t in s.pc && s.pc[t].Waiting? && g.keyOf(t) !in s.owner
    && s' == s.(pc := s.pc[t := Holding], owner := s.owner[g.keyOf(t) := t])
  }

  predicate ReRead(g: Setting, s: State, t: Thread, s': State) {
    var k := g.keyOf(t);
    t in s.pc && s.pc[t].Holding?
    && s' == if k in s.store
             then s.(pc := s.pc[t := AfterHit(g, k, s.store[k])], owner := Release(s.owner, k))
             else s.(pc := s.pc[t := Calling])
  }

  /** The judge answers anything; only a response that parses is kept. */
  predicate Respond(g: Setting, s: State, t: Thread, raw: string, s': State) {
    var k := g.keyOf(t);
    t in s.pc && s.pc[t].Calling?
    && s' == match Parse(g.decode(raw), g.allowed(k))
             case Some(labels) =>
               s.(pc := s.pc[t := Validated(labels, raw)],
                  obtained := s.obtained[k := (if k in s.obtained then s.obtained[k] else 0) + 1])
             case None => s.(pc := s.pc[t := Raised], owner := Release(s.owner, k))
  }

  predicate CallFails(g: Setting, s: State, t: Thread, s': State) {
    t in s.pc && s.pc[t].Calling?
    && s' == s.(pc := s.pc[t := Raised], owner := Release(s.owner, g.keyOf(t)))
  }

  /** `put` keeps a record that is already there; the lock is released afterwards. */
  predicate Publish(g: Setting, s: State, t: Thread, s': State) {
    var k := g.keyOf(t);
    t in s.pc && s.pc[t].Validated?
    && s' == s.(pc := s.pc[t := Returned(s.pc[t].labels, true)],
                store := if k in s.store then s.store else s.store[k := Record(s.pc[t].labels, s.pc[t].raw)],
                owner := Release(s.owner, k))
  }

  datatype Step = DoRead | DoAcquire | DoReRead | DoRespond(raw: string) | DoFail | DoPublish

  predicate NextBy(g: Setting, s: State, t: Thread, step: Step, s': State) {
    match step
    case DoRead => ReadUnlocked(g, s, t, s')
    case DoAcquire => Acquire(g, s, t, s')
    case DoReRead => ReRead(g, s, t, s')
    case DoRespond(raw) => Respond(g, s, t, raw, s')
    case DoFail => CallFails(g, s, t, s')
    case DoPublish => Publish(g, s, t, s')
  }

  predicate Init(s: State) {
    s.owner == map[] && s.obtained == map[] && forall t :: t in s.pc ==> s.pc[t].Start?
  }

  datatype Event = Event(t: Thread, step: Step)

  /** `states[0]` is initial and each event leads from one state to the next. */
  ghost predicate Run(g: Setting, states: seq<State>, events: seq<Event>) {
    && |states| == |events| + 1 && Init(states[0])
    && forall i :: 0 <= i < |events| ==> NextBy(g, states[i], events[i].t, events[i].step, states[i + 1])
  }

  // ----- what every step keeps -----

  predicate HasLock(pc: Pc) { pc.Holding? || pc.Calling? || pc.Validated? }

  function Obtained(s: State, k: CacheKey): nat { if k in s.obtained then s.obtained[k] else 0 }

  /** The locks: a key's owner is the one thread of that key between acquiring and releasing. */
  ghost predicate Locked(g: Setting, s: State) {
    && (forall t :: t in s.pc && HasLock(s.pc[t]) ==> g.keyOf(t) in s.owner && s.owner[g.keyOf(t)] == t)
    && (forall k :: k in s.owner ==> s.owner[k] in s.pc && HasLock(s.pc[s.owner[k]]) && g.keyOf(s.owner[k]) == k)
  }

  /** Past the second read nobody else can have published: the key is absent until its owner publishes. */
  ghost predicate Absent(g: Setting, s: State) {
    forall t :: t in s.pc && (s.pc[t].Calling? || s.pc[t].Validated?) ==> g.keyOf(t) !in s.store
  }

  /** Labels held or returned are those of a valid response; returned ones are on record. */
  ghost predicate Agreed(g: Setting, s: State) {
    && (forall t :: t in s.pc && s.pc[t].Validated? ==>
          Parse(g.decode(s.pc[t].raw), g.allowed(g.keyOf(t))) == Some(s.pc[t].labels))
    && (forall t :: t in s.pc && s.pc[t].Returned? ==>
          g.keyOf(t) in s.store && s.store[g.keyOf(t)].labels == s.pc[t].labels
          && Intact(g, g.keyOf(t), s.store[g.keyOf(t)]))
  }

  /** Valid responses so far: none before, one from validation on, none for keys that were on record. */
  ghost predicate Counted(g: Setting, s: State, before: map<CacheKey, Record>) {
    && before.Keys <= s.store.Keys && (forall k :: k in before ==> s.store[k] == before[k])
    && (forall k :: Obtained(s, k) <= 1)
    && (forall k :: k in before ==> Obtained(s, k) == 0)
    && (forall t :: t in s.pc && (s.pc[t].Holding? || s.pc[t].Calling?) && g.keyOf(t) !in s.store
          ==> Obtained(s, g.keyOf(t)) == 0)
    && (forall k :: k !in s.store && k !in s.owner ==> Obtained(s, k) == 0)
  }

  ghost predicate Inv(g: Setting, s: State, before: map<CacheKey, Record>) {
    Locked(g, s) && Absent(g, s) && Agreed(g, s) && Counted(g, s, before)
  }

  lemma LockedKept(g: Setting, s: State, t: Thread, step: Step, s': State)
    requires Locked(g, s) && NextBy(g, s, t, step, s')
    ensures Locked(g, s')
  {
    hide Locked, ReadUnlocked, Acquire, ReRead, Respond, CallFails, Publish;
    if step.DoAcquire? {
      AcquireLocked(g, s, t, s');
    } else if step.DoRead? {
      ReadLocked(g, s, t, s');
    } else {
      HolderLocked(g, s, t, step, s');
    }
  }

  lemma AcquireLocked(g: Setting, s: State, t: Thread, s': State)
    requires Locked(g, s) && Acquire(g, s, t, s')
    ensures Locked(g, s')
  {}

  lemma ReadLocked(g: Setting, s: State, t: Thread, s': State)
    requires Locked(g, s) && ReadUnlocked(g, s, t, s')
    ensures Locked(g, s')
  {
    hide Parse, Intact;
  }

  /** A thread that has the lock keeps it or gives it up. */
  lemma HolderLocked(g: Setting, s: State, t: Thread, step: Step, s': State)
    requires Locked(g, s) && NextBy(g, s, t, step, s') && !step.DoAcquire? && !step.DoRead?
    ensures Locked(g, s')
  {
    hide Parse, Intact;
    var k := g.keyOf(t);
    assert HasLock(s.pc[t]) && s.owner[k] == t;
    assert (s'.owner == s.owner && HasLock(s'.pc[t])) || (s'.owner == Release(s.owner, k) && !HasLock(s'.pc[t]));
    assert s'.pc == s.pc[t := s'.pc[t]];
    hide NextBy;
  }

  lemma AbsentKept(g: Setting, s: State, t: Thread, step: Step, s': State)
    requires Locked(g, s) && Absent(g, s) && NextBy(g, s, t, step, s')
    ensures Absent(g, s')
  {
    hide Parse, Intact;
  }

  lemma AgreedKept(g: Setting, s: State, t: Thread, step: Step, s': State)
    requires Locked(g, s) && Absent(g, s) && Agreed(g, s) && NextBy(g, s, t, step, s')
    ensures Agreed(g, s')
  {
    hide Agreed, ReadUnlocked, Acquire, ReRead, Respond, CallFails, Publish;
    match step
    case DoRead => ReadAgreed(g, s, t, s');
    case DoReRead => ReReadAgreed(g, s, t, s');
    case DoRespond(raw) => RespondAgreed(g, s, t, raw, s');
    case DoPublish => PublishAgreed(g, s, t, s');
    case DoAcquire => assert Agreed(g, s') by { PlainAgreed(g, s, t, s'); }
    case DoFail => assert Agreed(g, s') by { PlainAgreed(g, s, t, s'); }
  }

  lemma ReadAgreed(g: Setting, s: State, t: Thread, s': State)
    requires Agreed(g, s) && ReadUnlocked(g, s, t, s')
    ensures Agreed(g, s')
  {
    hide Parse;
  }

  lemma ReReadAgreed(g: Setting, s: State, t: Thread, s': State)
    requires Agreed(g, s) && ReRead(g, s, t, s')
    ensures Agreed(g, s')
  {
    hide Parse;
  }

  lemma RespondAgreed(g: Setting, s: State, t: Thread, raw: string, s': State)
    requires Agreed(g, s) && Respond(g, s, t, raw, s')
    ensures Agreed(g, s')
  {
    hide Parse;
  }

  lemma PublishAgreed(g: Setting, s: State, t: Thread, s': State)
    requires Absent(g, s) && Agreed(g, s) && Publish(g, s, t, s')
    ensures Agreed(g, s')
  {
    hide Parse;
  }

  lemma PlainAgreed(g: Setting, s: State, t: Thread, s': State)
    requires Agreed(g, s) && (Acquire(g, s, t, s') || CallFails(g, s, t, s'))
    ensures Agreed(g, s')
  {
    hide Parse;
  }

  lemma RespondOutcome(g: Setting, s: State, t: Thread, raw: string, s': State)
    requires Respond(g, s, t, raw, s')
    ensures t in s.pc && s.pc[t].Calling? && s'.store == s.store && s'.pc == s.pc[t := s'.pc[t]]
    ensures s'.pc[t].Validated? || s'.pc[t].Raised?
    ensures s'.owner == if s'.pc[t].Validated? then s.owner else Release(s.owner, g.keyOf(t))
    ensures forall h :: Obtained(s', h) == Obtained(s, h) + (if s'.pc[t].Validated? && h == g.keyOf(t) then 1 else 0)
  {
    hide Parse;
  }

  lemma CalledOnce(g: Setting, s: State, t: Thread, before: map<CacheKey, Record>)
    requires Absent(g, s) && Counted(g, s, before) && t in s.pc && s.pc[t].Calling?
    ensures g.keyOf(t) !in s.store && Obtained(s, g.keyOf(t)) == 0
  {}

  lemma CountedRespond(g: Setting, s: State, t: Thread, raw: string, s': State, before: map<CacheKey, Record>)
    requires Inv(g, s, before) && Respond(g, s, t, raw, s')
    ensures Counted(g, s', before)
  {
    hide Respond, Parse, Agreed, Obtained;
    RespondOutcome(g, s, t, raw, s');
    CalledOnce(g, s, t, before);
  }

  lemma CountedOther(g: Setting, s: State, t: Thread, step: Step, s': State, before: map<CacheKey, Record>)
    requires Inv(g, s, before) && NextBy(g, s, t, step, s') && !step.DoRespond?
    ensures Counted(g, s', before)
  {
    hide Parse, Intact, Agreed;
    forall h ensures Obtained(s', h) == Obtained(s, h) {}
  }

  lemma CountedKept(g: Setting, s: State, t: Thread, step: Step, s': State, before: map<CacheKey, Record>)
    requires Inv(g, s, before) && NextBy(g, s, t, step, s')
    ensures Counted(g, s', before)
  {
    hide Inv, Counted, ReadUnlocked, Acquire, ReRead, Respond, CallFails, Publish;
    if step.DoRespond? { CountedRespond(g, s, t, step.raw, s', before); } else { CountedOther(g, s, t, step, s', before); }
  }

  lemma {:induction false} InvHolds(g: Setting, states: seq<State>, events: seq<Event>, i: nat)
    requires Run(g, states, events) && i < |states|
    ensures Inv(g, states[i], states[0].store)
  {
    if i > 0 {
      InvHolds(g, states, events, i - 1);
      var s, e, s' := states[i - 1], events[i - 1], states[i];
      assert NextBy(g, s, e.t, e.step, s');
      hide NextBy, Locked, Absent, Agreed, Counted;
      LockedKept(g, s, e.t, e.step, s');
      AbsentKept(g, s, e.t, e.step, s');
      AgreedKept(g, s, e.t, e.step, s');
      CountedKept(g, s, e.t, e.step, s', states[0].store);
    }
  }

  // ----- the guarantees -----

  /** In every run: at most one valid response per key, none for a key on record, and all callers of a key
      return the same labels. */
  lemma {:induction false} SingleFlight(g: Setting, states: seq<State>, events: seq<Event>, i: nat)
    requires Run(g, states, events) && i < |states|
    ensures forall k :: Obtained(states[i], k) <= 1
    ensures forall k :: k in states[0].store ==> Obtained(states[i], k) == 0
    ensures forall t, u :: t in states[i].pc && u in states[i].pc && states[i].pc[t].Returned?
              && states[i].pc[u].Returned? && g.keyOf(t) == g.keyOf(u)
              ==> states[i].pc[t].labels == states[i].pc[u].labels
  {
    InvHolds(g, states, events, i);
  }

  /** A stored record is never replaced or lost. */
  lemma {:induction false} RecordsAreKept(g: Setting, states: seq<State>, events: seq<Event>, i: nat, j: nat)
    requires Run(g, states, events) && i <= j < |states|
    ensures forall k :: k in states[i].store ==> k in states[j].store && states[j].store[k] == states[i].store[k]
    decreases j - i
  {
    if i < j {
      RecordsAreKept(g, states, events, i, j - 1);
      assert NextBy(g, states[j - 1], events[j - 1].t, events[j - 1].step, states[j]);
      hide Parse, Intact;
    }
  }

  /** Between taking and giving back a lock a thread is alone with its key. */
  lemma {:induction false} MutualExclusion(g: Setting, states: seq<State>, events: seq<Event>, i: nat, t: Thread, u: Thread)
    requires Run(g, states, events) && i < |states|
    requires t in states[i].pc && u in states[i].pc && HasLock(states[i].pc[t]) && HasLock(states[i].pc[u])
    requires g.keyOf(t) == g.keyOf(u)
    ensures t == u
  {
    InvHolds(g, states, events, i);
  }

  predicate Finished(pc: Pc) { pc.Returned? || pc.Raised? }

  /** While some thread is unfinished some thread can step. */
  lemma {:induction false} NoDeadlock(g: Setting, states: seq<State>, events: seq<Event>, i: nat, t: Thread)
    requires Run(g, states, events) && i < |states|
    requires t in states[i].pc && !Finished(states[i].pc[t])
    ensures exists u, step, s' :: NextBy(g, states[i], u, step, s')
  {
    InvHolds(g, states, events, i);
    var s := states[i];
    var u := if s.pc[t].Waiting? && g.keyOf(t) in s.owner then s.owner[g.keyOf(t)] else t;
    var step, s' := EnabledStep(g, s, u);
    assert NextBy(g, s, u, step, s');
  }

  lemma EnabledStep(g: Setting, s: State, u: Thread) returns (step: Step, s': State)
    requires u in s.pc && !Finished(s.pc[u]) && (s.pc[u].Waiting? ==> g.keyOf(u) !in s.owner)
    ensures NextBy(g, s, u, step, s')
  {
    hide Parse, Intact;
    var k := g.keyOf(u);
    match s.pc[u]
    case Start =>
      step, s' := DoRead, s.(pc := s.pc[u := if k in s.store then AfterHit(g, k, s.store[k]) else Waiting]);
    case Waiting =>
      step, s' := DoAcquire, s.(pc := s.pc[u := Holding], owner := s.owner[k := u]);
    case Holding =>
      step := DoReRead;
      s' := if k in s.store then s.(pc := s.pc[u := AfterHit(g, k, s.store[k])], owner := Release(s.owner, k))
            else s.(pc := s.pc[u := Calling]);
    case Calling =>
      step, s' := DoFail, s.(pc := s.pc[u := Raised], owner := Release(s.owner, k));
    case Validated(labels, raw) =>
      step := DoPublish;
      s' := s.(pc := s.pc[u := Returned(labels, true)],
               store := if k in s.store then s.store else s.store[k := Record(labels, raw)],
               owner := Release(s.owner, k));
  }

  // ----- a judge that answers each key in one way -----

  /** Every response is the judge's answer for the thread's key. */
  predicate Answers(g: Setting, judge: CacheKey -> string, e: Event) {
    e.step.DoRespond? ==> e.step.raw == judge(g.keyOf(e.t))
  }

  function Uncached(g: Setting, judge: CacheKey -> string, k: CacheKey): Option<seq<string>> {
    Parse(g.decode(judge(k)), g.allowed(k))
  }

  ghost predicate FromJudge(g: Setting, judge: CacheKey -> string, s: State, before: map<CacheKey, Record>) {
    && (forall t :: t in s.pc && s.pc[t].Validated? ==> s.pc[t].raw == judge(g.keyOf(t)))
    && (forall k :: k in s.store && k !in before ==>
          s.store[k].raw == judge(k) && Uncached(g, judge, k) == Some(s.store[k].labels))
  }

  lemma FromJudgeRespond(g: Setting, judge: CacheKey -> string, s: State, t: Thread, raw: string, s': State,
                         before: map<CacheKey, Record>)
    requires FromJudge(g, judge, s, before) && raw == judge(g.keyOf(t)) && Respond(g, s, t, raw, s')
    ensures FromJudge(g, judge, s', before)
  {
    hide Parse;
  }

  lemma FromJudgePublish(g: Setting, judge: CacheKey -> string, s: State, t: Thread, s': State,
                         before: map<CacheKey, Record>)
    requires Agreed(g, s) && FromJudge(g, judge, s, before) && Publish(g, s, t, s')
    ensures FromJudge(g, judge, s', before)
  {
    hide Parse, Intact;
  }

  lemma FromJudgeOther(g: Setting, judge: CacheKey -> string, s: State, t: Thread, step: Step, s': State,
                       before: map<CacheKey, Record>)
    requires FromJudge(g, judge, s, before) && NextBy(g, s, t, step, s') && !step.DoRespond? && !step.DoPublish?
    ensures FromJudge(g, judge, s', before)
  {
    hide Parse, Intact, Uncached;
  }

  lemma FromJudgeKept(g: Setting, judge: CacheKey -> string, s: State, e: Event, s': State,
                      before: map<CacheKey, Record>)
    requires Agreed(g, s) && FromJudge(g, judge, s, before) && Answers(g, judge, e) && NextBy(g, s, e.t, e.step, s')
    ensures FromJudge(g, judge, s', before)
  {
    hide Agreed, FromJudge, ReadUnlocked, Acquire, ReRead, Respond, CallFails, Publish;
    match e.step
    case DoRespond(raw) => FromJudgeRespond(g, judge, s, e.t, raw, s', before);
    case DoPublish => FromJudgePublish(g, judge, s, e.t, s', before);
    case _ => FromJudgeOther(g, judge, s, e.t, e.step, s', before);
  }

  lemma {:induction false} StoreIsTheJudge(g: Setting, judge: CacheKey -> string, states: seq<State>,
                                           events: seq<Event>, i: nat)
    requires Run(g, states, events) && i < |states| && forall e :: e in events ==> Answers(g, judge, e)
    ensures FromJudge(g, judge, states[i], states[0].store)
  {
    hide NextBy, Parse, Locked, Absent, Counted, Agreed, Answers;
    if i > 0 {
      StoreIsTheJudge(g, judge, states, events, i - 1);
      InvHolds(g, states, events, i - 1);
      assert events[i - 1] in events;
      FromJudgeKept(g, judge, states[i - 1], events[i - 1], states[i], states[0].store);
    }
  }

  /** With such a judge every caller of a fresh key gets what an uncached call would give. */
  lemma {:induction false} CachedEqualsUncached(g: Setting, judge: CacheKey -> string, states: seq<State>,
                                                events: seq<Event>, i: nat, t: Thread)
    requires Run(g, states, events) && i < |states| && forall e :: e in events ==> Answers(g, judge, e)
    requires t in states[i].pc && states[i].pc[t].Returned? && g.keyOf(t) !in states[0].store
    ensures Uncached(g, judge, g.keyOf(t)) == Some(states[i].pc[t].labels)
  {
    InvHolds(g, states, events, i);
    StoreIsTheJudge(g, judge, states, events, i);
  }
}
