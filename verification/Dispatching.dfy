/** The multi-node dispatcher: a queue worked off in place over a pool of GPU slots, with per-node launch
    stagger, services that come up late, and a watchdog. */
module Dispatching {
  import opened Basics
  import ReturnCodes

  datatype Job = Job(name: string, iamflow: bool)

  datatype Slot = Slot(cluster: string, node: int, gpu: int)

  datatype Info = Info(slot: Slot, job: Job, start: real)

  /** A launch, for the record. */
  datatype Launch = Launch(job: Job, node: int, at: real)

  /** What a look at a job's log tells: nothing there yet, no sentinel yet, or the exit code. */
  datatype Log = Missing | Pending | Exited(rc: int)

  function SlotsOf(running: seq<Info>): multiset<Slot> {
    if running == [] then multiset{} else SlotsOf(running[..|running| - 1]) + multiset{running[|running| - 1].slot}
  }

  function NamesOf(jobs: seq<Job>): set<string> { set j | j in jobs :: j.name }

  function RunningNames(running: seq<Info>): set<string> { set r | r in running :: r.job.name }

  predicate NoServices(jobs: seq<Job>) { forall j :: j in jobs ==> !j.iamflow }

  predicate UniqueNames(jobs: seq<Job>) {
    forall i, j :: 0 <= i < j < |jobs| ==> jobs[i].name != jobs[j].name
  }

  /** Slots are neither lost nor made. */
  ghost predicate Conserved(free: seq<Slot>, running: seq<Info>, slots: seq<Slot>) {
    multiset(free) + SlotsOf(running) == multiset(slots)
  }

  /** The queue is a rearrangement of the jobs; its first `qi` are exactly the running and the done. */
  ghost predicate Ledger(jobs: seq<Job>, queue: seq<Job>, qi: nat, running: seq<Info>, done: map<string, int>) {
    && multiset(queue) == multiset(jobs) && UniqueNames(queue) && qi <= |queue|
    && (forall i, j :: 0 <= i < j < |running| ==> running[i].job.name != running[j].job.name)
    && RunningNames(running) !! done.Keys
    && RunningNames(running) + done.Keys == NamesOf(queue[..qi])
  }

  /** Launches on one node lie at least `stagger` apart, and the running map of last launches knows them. */
  ghost predicate Spaced(launches: seq<Launch>, last: map<int, real>, now: real, stagger: real) {
    && (forall i :: 0 <= i < |launches| ==>
          launches[i].node in last && launches[i].at <= last[launches[i].node])
    && (forall n :: n in last ==> last[n] <= now)
    && (forall i, j :: 0 <= i < j < |launches| && launches[i].node == launches[j].node
          ==> launches[j].at - launches[i].at >= stagger)
  }

  /** What runs was started by now, and not before it was launched. */
  ghost predicate Started(running: seq<Info>, launches: seq<Launch>, now: real) {
    forall r :: r in running ==> r.start <= now && WasLaunched(launches, r.job, r.start)
  }

  ghost predicate WasLaunched(launches: seq<Launch>, job: Job, start: real) {
    exists l :: l in launches && l.job == job && l.at <= start
  }

  lemma StartedAtLaunch(running: seq<Info>, launches: seq<Launch>, l: Launch, info: Info, now: real, later: real)
    requires Started(running, launches, now) && now <= later && info.start <= later
    requires info.job == l.job && l.at <= info.start
    ensures Started(running + [info], launches + [l], later)
  {
    assert l in launches + [l];
    forall r | r in running ensures WasLaunched(launches + [l], r.job, r.start) {
      var was :| was in launches && was.job == r.job && was.at <= r.start;
      assert was in launches + [l];
    }
  }

  /** Jobs were launched in queue order, each once. */
  ghost predicate Launched(launches: seq<Launch>, queue: seq<Job>, qi: nat) {
    qi <= |queue| && |launches| == qi && forall i :: 0 <= i < qi ==> launches[i].job == queue[i]
  }

  function LastOn(last: map<int, real>, node: int): real { if node in last then last[node] else 0.0 }

  /** Whether the services of a node answer at a time. */
  type Services = (int, real) -> bool

  /** At time `at` the slot's node is in its cooldown, or the job needs services that have not answered. */
  predicate RefusedAt(job: Job, slot: Slot, last: map<int, real>, stagger: real, services: Services, ready: set<int>,
                      at: real)
  {
    at - LastOn(last, slot.node) < stagger
    || (job.iamflow && slot.node !in ready && !services(slot.node, at))
  }

  ghost predicate Refused(job: Job, slot: Slot, last: map<int, real>, stagger: real, services: Services,
                          ready: set<int>, t: real, now: real)
  {
    exists at :: t <= at <= now && RefusedAt(job, slot, last, stagger, services, ready, at)
  }

  /** A pass from `t` to `now` that began with `ready` refused every one of the jobs every one of the slots. */
  ghost predicate AllRefused(jobs: seq<Job>, slots: seq<Slot>, last: map<int, real>, stagger: real, services: Services,
                             ready: set<int>, t: real, now: real)
  {
    forall j, s :: j in jobs && s in slots ==> Refused(j, s, last, stagger, services, ready, t, now)
  }

  /** No slot's node is in its cooldown at `t`, so none is later. */
  ghost predicate Rested(slots: seq<Slot>, last: map<int, real>, stagger: real, t: real) {
    forall s :: s in slots ==> t - LastOn(last, s.node) >= stagger
  }

  /** Launches went to nodes of the slots, and those that need services to nodes whose services had answered. */
  ghost predicate Served(launches: seq<Launch>, slots: seq<Slot>, ready: set<int>) {
    forall l :: l in launches ==> (l.job.iamflow ==> l.node in ready) && exists s :: s in slots && s.node == l.node
  }

  /** Every node counted as ready answered at some time from the start up to now. */
  ghost predicate Answered(services: Services, ready: set<int>, began: real, now: real) {
    forall n :: n in ready ==> exists at :: began <= at <= now && services(n, at)
  }

  // ----- steps of the books -----

  /** The in-place swap: job `k` moves to `qi` and the skipped one to `k`. */
  function Swap(queue: seq<Job>, qi: nat, k: nat): (r: seq<Job>)
    requires qi <= k < |queue|
    ensures |r| == |queue|
  {
    queue[qi := queue[k]][k := queue[qi]]
  }

  lemma SwapPermutes(queue: seq<Job>, qi: nat, k: nat)
    requires qi <= k < |queue|
    ensures multiset(Swap(queue, qi, k)) == multiset(queue)
    ensures UniqueNames(queue) ==> UniqueNames(Swap(queue, qi, k))
    ensures Swap(queue, qi, k)[..qi + 1] == queue[..qi] + [queue[k]]
  {}

  /** Job `a` comes before job `b`. */
  ghost predicate InOrder(queue: seq<Job>, a: Job, b: Job) {
    exists i, j :: 0 <= i < j < |queue| && queue[i] == a && queue[j] == b
  }

  /** The swap that launches job `k` leaves the other waiting jobs in their order. */
  ghost predicate KeepsOrder(queue: seq<Job>, qi: nat, k: nat)
    requires qi <= k < |queue|
  {
    forall i, j :: qi <= i < j < |queue| && i != k && j != k ==> InOrder(Swap(queue, qi, k), queue[i], queue[j])
  }

  /** The swap keeps the order of the skipped jobs exactly when it skips at most one. */
  lemma {:induction false} SwapKeepsOrderIff(queue: seq<Job>, qi: nat, k: nat)
    requires UniqueNames(queue) && qi <= k < |queue|
    ensures KeepsOrder(queue, qi, k) <==> k <= qi + 1
  {
    var after := Swap(queue, qi, k);
    if k <= qi + 1 {
      forall i, j | qi <= i < j < |queue| && i != k && j != k ensures InOrder(after, queue[i], queue[j]) {
        var p := if i == qi then k else i;
        assert after[p] == queue[i] && after[j] == queue[j];
      }
    } else {
      Reversed(queue, qi, k);
      assert !InOrder(after, queue[qi], queue[qi + 1]);
    }
  }

  /** A longer skip puts the head of the queue behind the job that followed it. */
  lemma Reversed(queue: seq<Job>, qi: nat, k: nat)
    requires UniqueNames(queue) && qi + 1 < k < |queue|
    ensures !InOrder(Swap(queue, qi, k), queue[qi], queue[qi + 1])
    ensures InOrder(Swap(queue, qi, k), queue[qi + 1], queue[qi])
  {
    var after := Swap(queue, qi, k);
    assert after[k] == queue[qi] && after[qi + 1] == queue[qi + 1];
    forall i, j | 0 <= i < j < |after| && after[j] == queue[qi + 1] ensures after[i] != queue[qi] {
      assert j == qi + 1 by { OnePlace(queue, qi, k, j, qi + 1); }
      assert i < k && after[i] == queue[if i == qi then k else i];
    }
  }

  lemma OnePlace(queue: seq<Job>, qi: nat, k: nat, i: nat, j: nat)
    requires UniqueNames(queue) && qi <= k < |queue| && i < |queue| && j < |queue|
    requires Swap(queue, qi, k)[i] == Swap(queue, qi, k)[j]
    ensures i == j
  {
    SwapPermutes(queue, qi, k);
  }

  /** Three waiting jobs of which the third is launched: the first is then behind the second. */
  lemma {:induction false} SkippedJobsChangeOrder()
    ensures var queue := [Job("iamflow__a", true), Job("iamflow__b", true), Job("memflow__a", false)];
            && UniqueNames(queue) && Swap(queue, 0, 2)[1..] == [queue[1], queue[0]]
            && !InOrder(Swap(queue, 0, 2), queue[0], queue[1])
  {
    var queue := [Job("iamflow__a", true), Job("iamflow__b", true), Job("memflow__a", false)];
    assert queue[0].name[9] == 'a' && queue[1].name[9] == 'b' && queue[2].name[0] == 'm';
    assert queue[0].name[0] == 'i' && queue[1].name[0] == 'i';
    Reversed(queue, 0, 2);
  }

  lemma NamesAppend(jobs: seq<Job>, job: Job)
    ensures NamesOf(jobs + [job]) == NamesOf(jobs) + {job.name}
  {
    assert forall x :: x in jobs + [job] <==> x in jobs || x == job;
  }

  lemma RunningAppend(running: seq<Info>, info: Info)
    ensures RunningNames(running + [info]) == RunningNames(running) + {info.job.name}
  {
    assert forall x :: x in running + [info] <==> x in running || x == info;
  }

  lemma NotYetNamed(queue: seq<Job>, qi: nat, k: nat)
    requires UniqueNames(queue) && qi <= k < |queue|
    ensures queue[k].name !in NamesOf(queue[..qi])
  {}

  lemma Named(running: seq<Info>)
    ensures forall i :: 0 <= i < |running| ==> running[i].job.name in RunningNames(running)
  {}

  lemma LedgerAtLaunch(jobs: seq<Job>, queue: seq<Job>, qi: nat, running: seq<Info>, done: map<string, int>,
                       k: nat, info: Info)
    requires Ledger(jobs, queue, qi, running, done) && qi <= k < |queue| && info.job == queue[k]
    ensures Ledger(jobs, Swap(queue, qi, k), qi + 1, running + [info], done)
  {
    hide NamesOf, RunningNames, Swap, UniqueNames;
    SwapPermutes(queue, qi, k);
    NamesAppend(queue[..qi], queue[k]);
    RunningAppend(running, info);
    NotYetNamed(queue, qi, k);
    Named(running);
    assert |Swap(queue, qi, k)| == |queue| by { assert |multiset(Swap(queue, qi, k))| == |multiset(queue)|; }
  }

  lemma LaunchedAtLaunch(launches: seq<Launch>, queue: seq<Job>, qi: nat, k: nat, l: Launch)
    requires Launched(launches, queue, qi) && qi <= k < |queue| && l.job == queue[k]
    ensures Launched(launches + [l], Swap(queue, qi, k), qi + 1)
  {}

  lemma SpacedAtLaunch(launches: seq<Launch>, last: map<int, real>, now: real, stagger: real, l: Launch, later: real)
    requires Spaced(launches, last, now, stagger) && now <= l.at <= later && stagger >= 0.0
    requires now - LastOn(last, l.node) >= stagger
    ensures Spaced(launches + [l], last[l.node := l.at], later, stagger)
  {}

  lemma SpacedLater(launches: seq<Launch>, last: map<int, real>, now: real, stagger: real, later: real)
    requires Spaced(launches, last, now, stagger) && now <= later
    ensures Spaced(launches, last, later, stagger)
  {}

  lemma ConservedAtLaunch(free: seq<Slot>, running: seq<Info>, slots: seq<Slot>, si: nat, info: Info)
    requires Conserved(free, running, slots) && si < |free| && info.slot == free[si]
    ensures Conserved(free[..si] + free[si + 1..], running + [info], slots)
  {
    assert free == free[..si] + [free[si]] + free[si + 1..];
    assert (running + [info])[..|running|] == running;
  }

  lemma SlotsWithout(running: seq<Info>, i: nat)
    requires i < |running|
    ensures SlotsOf(running) == SlotsOf(running[..i] + running[i + 1..]) + multiset{running[i].slot}
  {
    hide SlotsOf;
    var left, x, right := running[..i], running[i], running[i + 1..];
    SlotsOfBoth(left, right);
    SlotsAppend(left, x);
    SlotsOfBoth(left + [x], right);
    assert running == left + [x] + right;
  }

  lemma {:induction false} SlotsOfBoth(a: seq<Info>, b: seq<Info>)
    ensures SlotsOf(a + b) == SlotsOf(a) + SlotsOf(b)
  {
    if b == [] {
      assert a + b == a;
    } else {
      hide SlotsOf;
      var c, last := b[..|b| - 1], b[|b| - 1];
      assert b == c + [last];
      SlotsOfBoth(a, c);
      SlotsOneMore(a, c, last);
    }
  }

  lemma SlotsOneMore(a: seq<Info>, c: seq<Info>, last: Info)
    requires SlotsOf(a + c) == SlotsOf(a) + SlotsOf(c)
    ensures SlotsOf(a + (c + [last])) == SlotsOf(a) + SlotsOf(c + [last])
  {
    hide SlotsOf;
    assert a + (c + [last]) == (a + c) + [last];
    SlotsAppend(a + c, last);
    SlotsAppend(c, last);
  }

  lemma SlotsAppend(running: seq<Info>, info: Info)
    ensures SlotsOf(running + [info]) == SlotsOf(running) + multiset{info.slot}
  {
    assert (running + [info])[..|running|] == running;
  }

  function Without(running: seq<Info>, i: nat): seq<Info>
    requires i < |running|
  {
    running[..i] + running[i + 1..]
  }

  lemma WithoutIsSmaller(running: seq<Info>, i: nat)
    requires i < |running|
    ensures |Without(running, i)| == |running| - 1
    ensures forall r :: r in Without(running, i) ==> r in running
  {}

  /** Where a running job is listed; the source keys its running jobs by name. */
  function IndexOf(running: seq<Info>, name: string): (i: nat)
    requires name in RunningNames(running)
    ensures i < |running| && running[i].job.name == name
  {
    if running[|running| - 1].job.name == name then |running| - 1
    else
      assert name in RunningNames(running[..|running| - 1]);
      IndexOf(running[..|running| - 1], name)
  }

  /** The names to retire are running and listed once. */
  ghost predicate Retiring(running: seq<Info>, finished: seq<(string, int)>) {
    && (forall f :: f in finished ==> f.0 in RunningNames(running))
    && (forall i, j :: 0 <= i < j < |finished| ==> finished[i].0 != finished[j].0)
  }

  lemma RetireNext(running: seq<Info>, finished: seq<(string, int)>, i: nat, rc: int)
    requires forall a, b :: 0 <= a < b < |running| ==> running[a].job.name != running[b].job.name
    requires i < |running| && Retiring(running[..i], finished)
    ensures Retiring(running[..i + 1], finished)
    ensures Retiring(running[..i + 1], finished + [(running[i].job.name, rc)])
  {
    assert running[..i + 1] == running[..i] + [running[i]];
    RunningAppend(running[..i], running[i]);
    assert running[i].job.name !in RunningNames(running[..i]);
    assert forall k :: 0 <= k < |finished| ==> finished[k] in finished;
  }

  lemma RetireOne(jobs: seq<Job>, queue: seq<Job>, qi: nat, running: seq<Info>, done: map<string, int>,
                  finished: seq<(string, int)>, i: nat)
    requires Ledger(jobs, queue, qi, running, done) && i < |running| && Retiring(running, finished)
    requires finished != [] && finished[0].0 == running[i].job.name
    ensures Retiring(Without(running, i), finished[1..])
  {
    hide RunningNames, Without, UniqueNames, NamesOf;
    NamesWithout(running, i);
    forall f | f in finished[1..] ensures f.0 in RunningNames(Without(running, i)) {
      var k :| 0 <= k < |finished| - 1 && finished[1..][k] == f;
      assert finished[k + 1] == f && f in finished;
    }
  }

  lemma FloorDrops(was: real, now: real)
    requires was >= 0.0 && now <= was - 1.0
    ensures (if now < 0.0 then 0 else now.Floor + 1) < was.Floor + 1
  {}

  /** With nothing running the done jobs are the first `qi` of the queue. */
  lemma BooksClosed(jobs: seq<Job>, queue: seq<Job>, qi: nat, done: map<string, int>)
    requires Ledger(jobs, queue, qi, [], done)
    ensures done.Keys <= NamesOf(jobs) && |queue| == |jobs|
    ensures qi == |jobs| <==> done.Keys == NamesOf(jobs)
  {
    PermutedNames(jobs, queue);
    assert RunningNames([]) == {};
    assert queue[..|queue|] == queue;
    assert queue == queue[..qi] + queue[qi..];
    assert forall j :: j in queue[..qi] ==> j in queue;
    NamesCount(queue[..qi]);
  }

  lemma NamesWithout(running: seq<Info>, i: nat)
    requires i < |running|
    requires forall a, b :: 0 <= a < b < |running| ==> running[a].job.name != running[b].job.name
    ensures RunningNames(Without(running, i)) == RunningNames(running) - {running[i].job.name}
    ensures forall a, b :: 0 <= a < b < |Without(running, i)| ==>
              Without(running, i)[a].job.name != Without(running, i)[b].job.name
  {
    hide Without;
    forall r ensures r in Without(running, i) <==> r in running && r.job.name != running[i].job.name {
      StillRunning(running, i, r);
    }
    PlacesWithout(running, i);
  }

  lemma PlacesWithout(running: seq<Info>, i: nat)
    requires i < |running|
    ensures |Without(running, i)| == |running| - 1
    ensures forall k :: 0 <= k < |running| - 1 ==> Without(running, i)[k] == running[if k < i then k else k + 1]
  {}

  lemma StillRunning(running: seq<Info>, i: nat, r: Info)
    requires i < |running|
    requires forall a, b :: 0 <= a < b < |running| ==> running[a].job.name != running[b].job.name
    ensures r in Without(running, i) <==> r in running && r.job.name != running[i].job.name
  {
    hide Without;
    PlacesWithout(running, i);
    if k :| 0 <= k < |running| && running[k] == r && k != i {
      assert Without(running, i)[if k < i then k else k - 1] == r;
    }
  }

  lemma ConservedAtFinish(free: seq<Slot>, running: seq<Info>, slots: seq<Slot>, i: nat)
    requires Conserved(free, running, slots) && i < |running|
    ensures Conserved(free + [running[i].slot], Without(running, i), slots)
  {
    SlotsWithout(running, i);
  }

  lemma LedgerAtFinish(jobs: seq<Job>, queue: seq<Job>, qi: nat, running: seq<Info>, done: map<string, int>,
                       i: nat, rc: int)
    requires Ledger(jobs, queue, qi, running, done) && i < |running|
    ensures Ledger(jobs, queue, qi, Without(running, i), done[running[i].job.name := rc])
    ensures running[i].job.name !in done
  {
    hide NamesOf, UniqueNames, Without, RunningNames;
    NamesWithout(running, i);
    Named(running);
    var name := running[i].job.name;
    assert done[name := rc].Keys == done.Keys + {name};
  }

  // ----- the exit code -----

  function OkNames(done: map<string, int>): set<string> { set n | n in done && done[n] == 0 }

  lemma {:induction false} NamesCount(jobs: seq<Job>)
    requires UniqueNames(jobs)
    ensures |NamesOf(jobs)| == |jobs|
  {
    if jobs != [] {
      var before, last := jobs[..|jobs| - 1], jobs[|jobs| - 1];
      NamesCount(before);
      assert jobs == before + [last];
      NamesAppend(before, last);
      NotYetNamed(jobs, |jobs| - 1, |jobs| - 1);
    }
  }

  lemma {:induction false} SubsetOfSameSize(small: set<string>, big: set<string>)
    requires small <= big && |small| >= |big|
    ensures small == big
  {
    if x :| x in big && x !in small {
      SubsetCount(small, big - {x});
    }
  }

  /** As many zero codes as jobs means that every job is done, with code zero. */
  lemma {:induction false} AllOk(jobs: seq<Job>, done: map<string, int>)
    requires UniqueNames(jobs) && done.Keys <= NamesOf(jobs)
    ensures |OkNames(done)| == |jobs| <==>
            done.Keys == NamesOf(jobs) && forall n :: n in done ==> done[n] == 0
  {
    NamesCount(jobs);
    if |OkNames(done)| == |jobs| {
      SubsetOfSameSize(OkNames(done), NamesOf(jobs));
      assert forall n :: n in done ==> n in OkNames(done);
    }
    if done.Keys == NamesOf(jobs) && forall n :: n in done ==> done[n] == 0 {
      assert OkNames(done) == done.Keys;
    }
  }

  /** A job's code: the watchdog's, or what the job's shell makes of its streams' codes. */
  predicate FromStreams(name: string, rc: int, streams: string -> seq<int>) {
    rc == 124 || rc == ReturnCodes.ShellRc(Some(ReturnCodes.FirstFailure(streams(name))))
  }

  predicate RealCodes(codes: seq<int>) { forall i :: 0 <= i < |codes| ==> -127 <= codes[i] <= 255 }

  predicate AllZero(codes: seq<int>) { forall i :: 0 <= i < |codes| ==> codes[i] == 0 }

  /** All jobs at zero means that every stream of every job returned zero and no job has code 124. */
  lemma {:induction false} ZeroMeansEveryStreamRan(jobs: seq<Job>, done: map<string, int>, streams: string -> seq<int>)
    requires forall n :: n in done ==> FromStreams(n, done[n], streams) && RealCodes(streams(n))
    ensures (done.Keys == NamesOf(jobs) && forall n :: n in done ==> done[n] == 0) <==>
            (done.Keys == NamesOf(jobs)
             && forall j :: j in jobs ==> AllZero(streams(j.name)) && j.name in done && done[j.name] != 124)
  {
    hide ReturnCodes.ShellRc, ReturnCodes.FirstFailure, AllZero;
    forall n | n in done ensures done[n] == 0 <==> AllZero(streams(n)) && done[n] != 124 {
      ZeroOfStreams(n, done[n], streams);
    }
    if done.Keys == NamesOf(jobs) {
      assert forall j :: j in jobs ==> j.name in done;
      forall n | n in done ensures exists j :: j in jobs && j.name == n { assert n in NamesOf(jobs); }
    }
  }

  lemma ZeroOfStreams(n: string, rc: int, streams: string -> seq<int>)
    requires FromStreams(n, rc, streams) && RealCodes(streams(n))
    ensures rc == 0 <==> AllZero(streams(n)) && rc != 124
  {
    ReturnCodes.ShellSeesEveryFailure(streams(n));
  }

  lemma PermutedNames(jobs: seq<Job>, queue: seq<Job>)
    requires multiset(jobs) == multiset(queue)
    ensures NamesOf(jobs) == NamesOf(queue) && |jobs| == |queue|
    ensures UniqueNames(queue) ==> |NamesOf(jobs)| == |jobs|
  {
    forall j ensures j in jobs <==> j in queue {
      assert j in jobs <==> j in multiset(jobs);
      assert j in queue <==> j in multiset(queue);
    }
    assert |multiset(jobs)| == |multiset(queue)|;
    if UniqueNames(queue) { NamesCount(queue); }
  }

  lemma ClosedCode(jobs: seq<Job>, queue: seq<Job>, qi: nat, done: map<string, int>)
    requires Ledger(jobs, queue, qi, [], done)
    ensures |OkNames(done)| == |queue| <==>
            done.Keys == NamesOf(jobs) && forall n :: n in done ==> done[n] == 0
    ensures qi == |jobs| <==> done.Keys == NamesOf(jobs)
  {
    hide NamesOf, OkNames;
    BooksClosed(jobs, queue, qi, done);
    PermutedNames(jobs, queue);
    AllOk(queue, done);
  }

  /** A recorded code is what the job's log said in some round, or 124 for a job that showed none and was launched more
      than `maxJob` ago. */
  ghost predicate Explained(logs: nat -> string -> Log, launches: seq<Launch>, maxJob: real, now: real, name: string,
                            rc: int)
  {
    exists round: nat :: ExplainedAt(logs(round), launches, maxJob, now, name, rc)
  }

  ghost predicate ExplainedAt(logs: string -> Log, launches: seq<Launch>, maxJob: real, now: real, name: string, rc: int) {
    match logs(name)
    case Missing => false
    case Exited(code) => rc == code
    case Pending => rc == 124 && exists l :: l in launches && l.job.name == name && now - l.at > maxJob
  }

  lemma ExplainedNow(logs: nat -> string -> Log, round: nat, launches: seq<Launch>, maxJob: real, now: real, n: string,
                     rc: int)
    requires ExplainedAt(logs(round), launches, maxJob, now, n, rc)
    ensures Explained(logs, launches, maxJob, now, n, rc)
  {}

  lemma ExplainedLater(logs: nat -> string -> Log, was: seq<Launch>, launches: seq<Launch>, maxJob: real, since: real,
                       now: real, name: string, rc: int)
    requires Explained(logs, was, maxJob, since, name, rc) && was <= launches && since <= now
    ensures Explained(logs, launches, maxJob, now, name, rc)
  {
    var round: nat :| ExplainedAt(logs(round), was, maxJob, since, name, rc);
    if l :| l in was && l.job.name == name && since - l.at > maxJob { assert l in launches; }
    assert ExplainedAt(logs(round), launches, maxJob, now, name, rc);
  }

  // ----- the clock -----

  /** The reading number `upTo`, when reading number `from` showed `t`: no reading is earlier than the one before. */
  function Reading(wait: nat -> real, t: real, from: nat, upTo: nat): (r: real)
    requires from <= upTo
    ensures r >= t
    decreases upTo
  {
    if from == upTo then t
    else Reading(wait, t, from, upTo - 1) + (if wait(upTo - 1) > 0.0 then wait(upTo - 1) else 0.0)
  }

  lemma ReadingStart(wait: nat -> real, t: real, from: nat)
    ensures Reading(wait, t, from, from) == t
  {}

  lemma {:induction false} ReadingOn(wait: nat -> real, t: real, a: nat, b: nat, c: nat)
    requires a <= b <= c
    ensures Reading(wait, Reading(wait, t, a, b), b, c) == Reading(wait, t, a, c)
    decreases c
  {
    if b < c { ReadingOn(wait, t, a, b, c - 1); }
  }

  lemma {:induction false} ReadingGrows(wait: nat -> real, t: real, a: nat, b: nat, c: nat)
    requires a <= b <= c
    ensures Reading(wait, t, a, b) <= Reading(wait, t, a, c)
    decreases c
  {
    if b < c { ReadingGrows(wait, t, a, b, c - 1); }
  }

  lemma {:induction false} ReadingStands(wait: nat -> real, t: real, a: nat, b: nat)
    requires a <= b && forall i :: wait(i) <= 0.0
    ensures Reading(wait, t, a, b) == t
    decreases b
  {
    if a < b { ReadingStands(wait, t, a, b - 1); }
  }

  // ----- passes and their refusals -----

  /** One job was refused the first `n` slots in turn, each at its own reading of the clock. */
  ghost predicate SlotsInTurn(job: Job, free: seq<Slot>, n: nat, last: map<int, real>, stagger: real, services: Services,
                              up: set<int>, wait: nat -> real, t: real, ticks: nat)
  {
    forall i: nat :: i < n && i < |free| ==>
      RefusedAt(job, free[i], last, stagger, services, up, Reading(wait, t, ticks, ticks + i + 1))
  }

  /** The jobs of a pass that began at reading `ticks` were refused every free slot in turn. */
  ghost predicate JobsInTurn(jobs: seq<Job>, free: seq<Slot>, last: map<int, real>, stagger: real, services: Services,
                             up: set<int>, wait: nat -> real, t: real, ticks: nat)
  {
    forall h: nat, i: nat :: h < |jobs| && i < |free| ==>
      RefusedAt(jobs[h], free[i], last, stagger, services, up,
                Reading(wait, t, ticks, ticks + Times(h, |free|) + i + 1))
  }

  function Times(h: nat, n: nat): nat { if h == 0 then 0 else Times(h - 1, n) + n }

  lemma NoTimes(n: nat)
    ensures Times(0, n) == 0
  {}

  lemma TimesNext(h: nat, n: nat)
    ensures Times(h + 1, n) == Times(h, n) + n
  {}

  lemma SwapOfHead(queue: seq<Job>, qi: nat)
    requires qi < |queue|
    ensures Swap(queue, qi, qi) == queue
  {}

  lemma OneJobMoreInTurn(queue: seq<Job>, qi: nat, k: nat, free: seq<Slot>, last: map<int, real>, stagger: real,
                         services: Services, up: set<int>, later: set<int>, wait: nat -> real, t: real, ticks: nat,
                         read: real, at: nat)
    requires qi <= k < |queue| && up <= later && at == ticks + Times(k - qi, |free|) && read == Reading(wait, t, ticks, at)
    requires JobsInTurn(queue[qi..k], free, last, stagger, services, up, wait, t, ticks)
    requires SlotsInTurn(queue[k], free, |free|, last, stagger, services, later, wait, read, at)
    ensures JobsInTurn(queue[qi..k + 1], free, last, stagger, services, up, wait, t, ticks)
  {
    hide Times, Reading, RefusedAt;
    var jobs := queue[qi..k + 1];
    assert jobs == queue[qi..k] + [queue[k]];
    forall h: nat, i: nat | h < |jobs| && i < |free|
      ensures RefusedAt(jobs[h], free[i], last, stagger, services, up,
                        Reading(wait, t, ticks, ticks + Times(h, |free|) + i + 1))
    {
      if h == k - qi {
        ReadingOn(wait, t, ticks, at, at + i + 1);
        assert RefusedAt(queue[k], free[i], last, stagger, services, later, Reading(wait, read, at, at + i + 1));
        RefusedWithLess(queue[k], free[i], last, stagger, services, up, later, Reading(wait, read, at, at + i + 1));
      } else {
        assert jobs[h] == queue[qi..k][h];
      }
    }
  }

  lemma RefusedWithLess(job: Job, slot: Slot, last: map<int, real>, stagger: real, services: Services, up: set<int>,
                        later: set<int>, at: real)
    requires up <= later && RefusedAt(job, slot, last, stagger, services, later, at)
    ensures RefusedAt(job, slot, last, stagger, services, up, at)
  {}

  lemma SlotsInTurnMoved(job: Job, free: seq<Slot>, n: nat, last: map<int, real>, stagger: real, services: Services,
                         up: set<int>, later: set<int>, wait: nat -> real, t: real, ticks: nat, read: real, at: nat)
    requires up <= later && ticks <= at && read == Reading(wait, t, ticks, at)
    requires SlotsInTurn(job, free, n, last, stagger, services, later, wait, read, at)
    ensures forall i: nat :: i < n && i < |free| ==>
              RefusedAt(job, free[i], last, stagger, services, up, Reading(wait, t, ticks, at + i + 1))
  {
    hide Reading, RefusedAt;
    forall i: nat | i < n && i < |free|
      ensures RefusedAt(job, free[i], last, stagger, services, up, Reading(wait, t, ticks, at + i + 1))
    {
      ReadingOn(wait, t, ticks, at, at + i + 1);
      RefusedWithLess(job, free[i], last, stagger, services, up, later, Reading(wait, read, at, at + i + 1));
    }
  }

  /** The launch a pass makes: of job `k`, on free slot `si`. Every waiting job ahead of it was refused every free
      slot in turn, and it every slot listed before the one it got, which it could use at the reading that found it;
      the launch is stamped at the next one. */
  ghost predicate FirstThatFits(queue: seq<Job>, qi: nat, k: nat, free: seq<Slot>, si: nat, last: map<int, real>,
                                stagger: real, services: Services, up: set<int>, ready: set<int>, wait: nat -> real,
                                t: real, ticks: nat, l: Launch)
  {
    && qi <= k < |queue| && si < |free|
    && JobsInTurn(queue[qi..k], free, last, stagger, services, up, wait, t, ticks)
    && var at := ticks + Times(k - qi, |free|);
       && (forall i: nat :: i < si ==>
             RefusedAt(queue[k], free[i], last, stagger, services, up, Reading(wait, t, ticks, at + i + 1)))
       && Reading(wait, t, ticks, at + si + 1) - LastOn(last, free[si].node) >= stagger
       && (queue[k].iamflow ==> free[si].node in ready)
       && l == Launch(queue[k], free[si].node, Reading(wait, t, ticks, at + si + 2))
  }

  lemma Fits(queue: seq<Job>, qi: nat, k: nat, free: seq<Slot>, si: nat, last: map<int, real>, stagger: real,
             services: Services, up: set<int>, later: set<int>, ready: set<int>, wait: nat -> real, t: real, ticks: nat,
             read: real, at: nat, l: Launch)
    requires qi <= k < |queue| && si < |free| && up <= later
    requires at == ticks + Times(k - qi, |free|) && read == Reading(wait, t, ticks, at)
    requires JobsInTurn(queue[qi..k], free, last, stagger, services, up, wait, t, ticks)
    requires SlotsInTurn(queue[k], free, si, last, stagger, services, later, wait, read, at)
    requires Reading(wait, t, ticks, at + si + 1) - LastOn(last, free[si].node) >= stagger
    requires queue[k].iamflow ==> free[si].node in ready
    requires l == Launch(queue[k], free[si].node, Reading(wait, t, ticks, at + si + 2))
    ensures FirstThatFits(queue, qi, k, free, si, last, stagger, services, up, ready, wait, t, ticks, l)
  {
    hide Reading, RefusedAt, JobsInTurn, SlotsInTurn, LastOn;
    SlotsInTurnMoved(queue[k], free, si, last, stagger, services, up, later, wait, t, ticks, read, at);
  }

  /** Without services to wait for and on a clock that stands still during the pass, it is the head of the queue. */
  lemma HeadFits(queue: seq<Job>, qi: nat, k: nat, free: seq<Slot>, si: nat, last: map<int, real>, stagger: real,
                 services: Services, up: set<int>, ready: set<int>, wait: nat -> real, t: real, ticks: nat, l: Launch)
    requires FirstThatFits(queue, qi, k, free, si, last, stagger, services, up, ready, wait, t, ticks, l)
    requires !queue[qi].iamflow && forall i :: wait(i) <= 0.0
    ensures k == qi
  {
    hide Reading;
    if k > qi {
      assert queue[qi..k][0] == queue[qi];
      assert RefusedAt(queue[qi..k][0], free[si], last, stagger, services, up,
                       Reading(wait, t, ticks, ticks + Times(0, |free|) + si + 1));
      ReadingStands(wait, t, ticks, ticks + Times(0, |free|) + si + 1);
      ReadingStands(wait, t, ticks, ticks + Times(k - qi, |free|) + si + 1);
    }
  }

  /** So it is on any clock where nodes need no cooldown. */
  lemma HeadFitsAtOnce(queue: seq<Job>, qi: nat, k: nat, free: seq<Slot>, si: nat, last: map<int, real>, stagger: real,
                       services: Services, up: set<int>, ready: set<int>, wait: nat -> real, t: real, ticks: nat, l: Launch)
    requires FirstThatFits(queue, qi, k, free, si, last, stagger, services, up, ready, wait, t, ticks, l)
    requires !queue[qi].iamflow && t >= 0.0 && stagger == 0.0 && forall n :: n in last ==> last[n] <= t
    ensures k == qi
  {
    if k > qi { HeadWasRefused(queue, qi, k, free, si, last, stagger, services, up, ready, wait, t, ticks, l); }
  }

  lemma HeadWasRefused(queue: seq<Job>, qi: nat, k: nat, free: seq<Slot>, si: nat, last: map<int, real>, stagger: real,
                       services: Services, up: set<int>, ready: set<int>, wait: nat -> real, t: real, ticks: nat, l: Launch)
    requires FirstThatFits(queue, qi, k, free, si, last, stagger, services, up, ready, wait, t, ticks, l) && k > qi
    ensures exists at :: at >= t && RefusedAt(queue[qi], free[si], last, stagger, services, up, at)
  {
    hide Reading;
    assert queue[qi..k][0] == queue[qi];
    var tick := ticks + Times(0, |free|) + si + 1;
    assert RefusedAt(queue[qi..k][0], free[si], last, stagger, services, up, Reading(wait, t, ticks, tick));
    ReadingStart(wait, t, ticks);
    ReadingGrows(wait, t, ticks, ticks, tick);
  }

  ghost predicate StandsStill(wait: nat -> real) { forall i :: wait(i) <= 0.0 }

  /** The clock stands still, or nodes need no cooldown. */
  ghost predicate Steady(wait: nat -> real, stagger: real, began: real) {
    StandsStill(wait) || (stagger == 0.0 && began >= 0.0)
  }

  lemma HeadGoesFirst(queue: seq<Job>, qi: nat, k: nat, free: seq<Slot>, si: nat, launches: seq<Launch>,
                      last: map<int, real>, stagger: real, services: Services, up: set<int>, ready: set<int>,
                      wait: nat -> real, began: real, t: real, ticks: nat, l: Launch)
    requires FirstThatFits(queue, qi, k, free, si, last, stagger, services, up, ready, wait, t, ticks, l)
    requires NoServices(queue) && Steady(wait, stagger, began) && began <= t && Spaced(launches, last, t, stagger)
    ensures Swap(queue, qi, k) == queue
  {
    assert !queue[qi].iamflow;
    hide FirstThatFits, Swap;
    if StandsStill(wait) {
      HeadFits(queue, qi, k, free, si, last, stagger, services, up, ready, wait, t, ticks, l);
    } else {
      HeadFitsAtOnce(queue, qi, k, free, si, last, stagger, services, up, ready, wait, t, ticks, l);
    }
    SwapOfHead(queue, qi);
  }

  lemma NobodyInTurn(free: seq<Slot>, last: map<int, real>, stagger: real, services: Services, up: set<int>,
                     wait: nat -> real, t: real, ticks: nat)
    ensures JobsInTurn([], free, last, stagger, services, up, wait, t, ticks)
  {}

  lemma StillAnswered(services: Services, up: set<int>, ready: set<int>, slots: seq<Slot>, launches: seq<Launch>,
                      began: real, read: real, now: real)
    requires began <= read && Served(launches, slots, up) && Answered(services, up, began, read) && read <= now && up <= ready
    requires forall n :: n in ready ==> n in up || services(n, now)
    ensures Served(launches, slots, ready) && Answered(services, ready, began, now)
  {
    AnsweredLater(services, up, began, read, now);
    assert forall n :: n in ready && n !in up ==> began <= now <= now && services(n, now);
  }

  lemma AnsweredLater(services: Services, ready: set<int>, began: real, read: real, now: real)
    requires Answered(services, ready, began, read) && read <= now
    ensures Answered(services, ready, began, now)
  {
    forall n | n in ready ensures exists at :: began <= at <= now && services(n, at) {
      var at :| began <= at <= read && services(n, at);
    }
  }

  lemma RefusedLater(job: Job, free: seq<Slot>, si: nat, last: map<int, real>, stagger: real, services: Services,
                     up: set<int>, t: real, read: real, now: real)
    requires si <= |free| && read <= now
    requires forall i :: 0 <= i < si ==> Refused(job, free[i], last, stagger, services, up, t, read)
    ensures forall i :: 0 <= i < si ==> Refused(job, free[i], last, stagger, services, up, t, now)
  {
    forall i | 0 <= i < si ensures Refused(job, free[i], last, stagger, services, up, t, now) {
      assert Refused(job, free[i], last, stagger, services, up, t, read);
      var at :| t <= at <= read && RefusedAt(job, free[i], last, stagger, services, up, at);
    }
  }

  lemma RefusedNow(job: Job, slot: Slot, last: map<int, real>, stagger: real, services: Services, up: set<int>,
                   t: real, now: real)
    requires t <= now && RefusedAt(job, slot, last, stagger, services, up, now)
    ensures Refused(job, slot, last, stagger, services, up, t, now)
  {}

  lemma NoneRefused(free: seq<Slot>, last: map<int, real>, stagger: real, services: Services, up: set<int>,
                    t: real, now: real)
    ensures AllRefused([], free, last, stagger, services, up, t, now)
  {}

  lemma RestedLater(free: seq<Slot>, last: map<int, real>, stagger: real, t: real, now: real)
    requires t <= now
    ensures Rested(free, last, stagger, t) ==> Rested(free, last, stagger, now)
  {}

  lemma OneJobMore(queue: seq<Job>, qi: nat, k: nat, free: seq<Slot>, last: map<int, real>, stagger: real,
                   services: Services, up: set<int>, later: set<int>, t: real, read: real, now: real)
    requires qi <= k < |queue| && t <= read <= now && up <= later
    requires AllRefused(queue[qi..k], free, last, stagger, services, up, t, read)
    requires AllRefused([queue[k]], free, last, stagger, services, later, read, now)
    ensures AllRefused(queue[qi..k + 1], free, last, stagger, services, up, t, now)
  {
    forall j, s | j in queue[qi..k + 1] && s in free ensures Refused(j, s, last, stagger, services, up, t, now) {
      assert queue[qi..k + 1] == queue[qi..k] + [queue[k]];
      if j in queue[qi..k] {
        assert Refused(j, s, last, stagger, services, up, t, read);
        var at :| t <= at <= read && RefusedAt(j, s, last, stagger, services, up, at);
      } else {
        assert j in [queue[k]];
        assert Refused(j, s, last, stagger, services, later, read, now);
        var at :| read <= at <= now && RefusedAt(j, s, last, stagger, services, later, at);
        assert RefusedAt(j, s, last, stagger, services, up, at);
      }
    }
  }

  lemma ServedAtLaunch(launches: seq<Launch>, free: seq<Slot>, running: seq<Info>, slots: seq<Slot>, ready: set<int>,
                       si: nat, job: Job, at: real)
    requires Served(launches, slots, ready) && Conserved(free, running, slots) && si < |free|
    requires job.iamflow ==> free[si].node in ready
    ensures Served(launches + [Launch(job, free[si].node, at)], slots, ready)
  {
    assert free[si] in multiset(free);
    assert free[si] in multiset(slots);
    assert free[si] in slots;
  }

  // ----- launches over time -----

  /** Between two moments the launches grew, and only new launches, made in between, moved a node's last one. */
  ghost predicate LaunchedBetween(before: seq<Launch>, launches: seq<Launch>, was: map<int, real>, last: map<int, real>,
                                  from: real, to: real)
  {
    && before <= launches && (forall i :: |before| <= i < |launches| ==> from <= launches[i].at <= to)
    && (forall n :: n in last ==> (n in was && last[n] == was[n]) || from <= last[n] <= to)
  }

  lemma NothingLaunched(launches: seq<Launch>, last: map<int, real>, now: real)
    ensures LaunchedBetween(launches, launches, last, last, now, now)
  {}

  lemma JustLaunched(before: seq<Launch>, launches: seq<Launch>, was: map<int, real>, last: map<int, real>,
                     from: real, found: real, to: real)
    requires |launches| == |before| + 1 && launches[..|before|] == before
    requires from <= found <= launches[|before|].at <= to
    requires last == was[launches[|before|].node := launches[|before|].at]
    ensures LaunchedBetween(before, launches, was, last, from, to)
  {}

  /** Two stretches of time, the second perhaps without a launch. */
  lemma LaunchedOn(first: seq<Launch>, before: seq<Launch>, launches: seq<Launch>, was: map<int, real>,
                   known: map<int, real>, last: map<int, real>, from: real, read: real, to: real, progressed: bool)
    requires LaunchedBetween(first, before, was, known, from, read) && from <= read <= to
    requires if progressed then LaunchedBetween(before, launches, known, last, read, to)
             else launches == before && last == known
    ensures LaunchedBetween(first, launches, was, last, from, to)
  {
    forall i | |first| <= i < |launches| ensures from <= launches[i].at <= to {
      if i < |before| { assert launches[i] == before[i]; }
    }
  }

  /** Every launch since the last-launch map was `initial` lies at least `poll` back. */
  ghost predicate Cooled(last: map<int, real>, initial: map<int, real>, poll: real, now: real) {
    forall n :: n in last ==> (n in initial && last[n] == initial[n]) || last[n] + poll <= now
  }

  lemma CooledAfterPoll(before: seq<Launch>, launches: seq<Launch>, known: map<int, real>, last: map<int, real>,
                        initial: map<int, real>, poll: real, head: real, read: real, now: real)
    requires Cooled(known, initial, poll, head) && LaunchedBetween(before, launches, known, last, head, read)
    requires head <= read && read + poll <= now && poll >= 0.0
    ensures Cooled(last, initial, poll, now)
  {}

  /** Every log shows an exit code in every round. */
  ghost predicate Prompt(logs: nat -> string -> Log) { forall round, name :: logs(round)(name).Exited? }

  /** From launch `from` on, each comes at most `poll` after the one before. */
  predicate Unbroken(launches: seq<Launch>, from: nat, poll: real) {
    forall i :: from <= i < |launches| - 1 ==> launches[i + 1].at <= launches[i].at + poll
  }

  predicate Paced(launches: seq<Launch>, from: nat, poll: real, now: real) {
    Unbroken(launches, from, poll) && (from < |launches| ==> now <= launches[|launches| - 1].at + poll)
  }

  lemma PacedOn(before: seq<Launch>, launches: seq<Launch>, was: map<int, real>, last: map<int, real>, from: nat,
                poll: real, now: real)
    requires Paced(before, from, poll, now) && from <= |before| && poll >= 0.0
    requires LaunchedBetween(before, launches, was, last, now, now) && |before| < |launches|
    ensures Paced(launches, from, poll, now + poll) && Unbroken(launches, from, poll)
  {
    forall i | from <= i < |launches| - 1 ensures launches[i + 1].at <= launches[i].at + poll {
      if i + 1 < |before| { assert launches[i] == before[i] && launches[i + 1] == before[i + 1]; }
      else if i + 1 == |before| { assert launches[i] == before[i]; }
    }
  }

  lemma NothingPaced(launches: seq<Launch>, poll: real, now: real)
    ensures Paced(launches, |launches|, poll, now) && Unbroken(launches, |launches|, poll)
  {}

  lemma CooledAtStart(last: map<int, real>, poll: real, now: real)
    ensures Cooled(last, last, poll, now)
  {}

  lemma GrownLaunches(before: seq<Launch>, launches: seq<Launch>, was: map<int, real>, last: map<int, real>,
                      from: real, to: real)
    requires LaunchedBetween(before, launches, was, last, from, to)
    ensures |before| <= |launches| && before <= launches
  {}

  lemma LaunchesCount(queue: seq<Job>, qi: nat, launches: seq<Launch>)
    requires Launched(launches, queue, qi)
    ensures |launches| == qi
  {}

  lemma PromptRound(logs: nat -> string -> Log, round: nat)
    ensures Prompt(logs) ==> forall n :: logs(round)(n).Exited?
  {}

  // ----- giving up -----

  /** How the loop may end with jobs waiting and all slots free: a last pass, from `t` on and with `up` known at
      its start, refused every one of them every slot, `poll` or more after every launch since `initial`. */
  ghost predicate GaveUp(waiting: seq<Job>, slots: seq<Slot>, last: map<int, real>, initial: map<int, real>,
                         stagger: real, poll: real, services: Services, ready: set<int>, up: set<int>,
                         began: real, t: real, now: real)
  {
    && began <= t <= now && up <= ready
    && AllRefused(waiting, slots, last, stagger, services, up, t, now)
    && Cooled(last, initial, poll, t)
    && (Rested(slots, last, stagger, t) ==> ready == up)
  }

  lemma LeftOver(waiting: seq<Job>, free: seq<Slot>, slots: seq<Slot>, last: map<int, real>, initial: map<int, real>,
                 stagger: real, poll: real, services: Services, ready: set<int>, up: set<int>,
                 began: real, head: real, t: real, now: real)
    requires Conserved(free, [], slots) && Cooled(last, initial, poll, head) && began <= head <= t <= now && up <= ready
    requires AllRefused(waiting, free, last, stagger, services, up, t, now)
    requires Rested(free, last, stagger, t) ==> ready == up
    ensures GaveUp(waiting, slots, last, initial, stagger, poll, services, ready, up, began, t, now)
  {
    SameSlots(free, slots);
    hide Refused, LastOn;
  }

  lemma SameSlots(free: seq<Slot>, slots: seq<Slot>)
    requires Conserved(free, [], slots)
    ensures multiset(free) == multiset(slots) && (free == [] ==> slots == [])
    ensures forall s :: s in free <==> s in slots
  {
    assert SlotsOf([]) == multiset{};
    assert multiset(free) == multiset(slots);
    forall s ensures s in free <==> s in slots {
      assert s in free <==> s in multiset(free);
      assert s in slots <==> s in multiset(slots);
    }
    assert |free| == |multiset(free)| && |slots| == |multiset(slots)|;
  }

  ghost predicate OnlyServices(jobs: seq<Job>, slots: seq<Slot>, services: Services, at: real) {
    (forall j :: j in jobs ==> j.iamflow) && forall s :: s in slots ==> !services(s.node, at)
  }

  /** With the cooldown no longer than a poll, what is left over is decided by the services alone: jobs stay
      behind exactly when some job needs services and no slot's node was ever found ready; all of them need
      services then. So nothing stays behind where some slot's services answer all along, and something does
      where jobs need services that never answer. */
  ghost predicate ServicesDecide(jobs: seq<Job>, queue: seq<Job>, qi: nat, slots: seq<Slot>, services: Services,
                                 ready: set<int>, start: real)
  {
    && qi <= |queue|
    && (qi < |queue| <==> (exists j :: j in jobs && j.iamflow) && forall s :: s in slots ==> s.node !in ready)
    && (forall j :: j in queue[qi..] ==> j.iamflow)
    && ((exists s :: s in slots && forall at :: at >= start ==> services(s.node, at)) ==> qi == |queue|)
    && ((exists j :: j in jobs && j.iamflow) && (forall s, at :: s in slots ==> !services(s.node, at)) ==> qi < |queue|)
  }

  /** Giving up at least a cooldown after every launch means that the services did not answer. */
  lemma GivingUpIsForServices(waiting: seq<Job>, slots: seq<Slot>, last: map<int, real>, stagger: real, poll: real,
                              services: Services, ready: set<int>, up: set<int>, start: real, t: real, now: real)
    requires GaveUp(waiting, slots, last, map[], stagger, poll, services, ready, up, start, t, now)
    requires stagger <= poll && stagger <= start
    ensures forall j, s :: j in waiting && s in slots ==>
              j.iamflow && s.node !in ready && exists at :: start <= at <= now && !services(s.node, at)
  {
    assert Rested(slots, last, stagger, t);
    forall j, s | j in waiting && s in slots
      ensures j.iamflow && s.node !in ready && exists at :: start <= at <= now && !services(s.node, at)
    {
      assert Refused(j, s, last, stagger, services, up, t, now);
      var at :| t <= at <= now && RefusedAt(j, s, last, stagger, services, up, at);
      assert at - LastOn(last, s.node) >= t - LastOn(last, s.node);
    }
  }

  /** Once all jobs were launched, one that needs services found some. */
  lemma LaunchedIsServed(jobs: seq<Job>, queue: seq<Job>, launches: seq<Launch>, slots: seq<Slot>, ready: set<int>, j: Job)
    requires multiset(queue) == multiset(jobs) && Launched(launches, queue, |queue|) && Served(launches, slots, ready)
    requires j in jobs && j.iamflow
    ensures exists s :: s in slots && s.node in ready
  {
    assert j in multiset(jobs);
    assert j in multiset(queue);
    var i :| 0 <= i < |queue| && queue[i] == j;
    assert launches[i] in launches;
    var s :| s in slots && s.node == launches[i].node;
  }

  lemma Leftovers(jobs: seq<Job>, queue: seq<Job>, qi: nat, done: map<string, int>, launches: seq<Launch>,
                  slots: seq<Slot>, last: map<int, real>, stagger: real, poll: real, services: Services,
                  ready: set<int>, up: set<int>, began: real, start: real, t: real, now: real)
    requires Ledger(jobs, queue, qi, [], done) && Launched(launches, queue, qi) && Served(launches, slots, ready)
    requires Answered(services, ready, began, now) && slots != [] && stagger <= poll && stagger <= start
    requires qi < |queue| ==>
               GaveUp(queue[qi..], slots, last, map[], stagger, poll, services, ready, up, start, t, now)
    ensures ServicesDecide(jobs, queue, qi, slots, services, ready, start)
  {
    hide GaveUp, Launched, Served;
    var s0 := slots[0];
    if qi < |queue| {
      GivingUpIsForServices(queue[qi..], slots, last, stagger, poll, services, ready, up, start, t, now);
      var j := queue[qi];
      assert j in queue[qi..] && s0 in slots;
      assert j.iamflow;
      assert j in multiset(queue);
      assert j in multiset(jobs);
      assert forall k :: k in queue[qi..] ==> k.iamflow;
    } else {
      forall j | j in jobs && j.iamflow ensures exists s :: s in slots && s.node in ready {
        LaunchedIsServed(jobs, queue, launches, slots, ready, j);
      }
    }
  }

  lemma SomeLaunchServed(jobs: seq<Job>, queue: seq<Job>, qi: nat, done: map<string, int>, launches: seq<Launch>,
                         slots: seq<Slot>, ready: set<int>)
    requires Ledger(jobs, queue, qi, [], done) && Launched(launches, queue, qi) && Served(launches, slots, ready)
    requires forall j :: j in jobs ==> j.iamflow
    ensures |queue| == |jobs| && (launches != [] ==> exists s :: s in slots && s.node in ready)
  {
    hide UniqueNames, NamesOf, RunningNames;
    assert |queue| == |multiset(queue)| && |jobs| == |multiset(jobs)|;
    if launches != [] {
      assert launches[0] in launches && queue[0] in multiset(queue);
      assert queue[0] in multiset(jobs);
    }
  }

  /** The run of jobs that all need services, where time stands still until the first launch: something is left over
      exactly when no slot's services answer at the start. */
  ghost predicate StartDecides(jobs: seq<Job>, queue: seq<Job>, qi: nat, slots: seq<Slot>, services: Services,
                               start: real)
  {
    (forall j :: j in jobs ==> j.iamflow) ==>
      (qi < |queue| <==> jobs != [] && forall s :: s in slots ==> !services(s.node, start))
  }

  lemma DecidedAtStart(jobs: seq<Job>, queue: seq<Job>, qi: nat, done: map<string, int>, launches: seq<Launch>,
                       slots: seq<Slot>, last: map<int, real>, stagger: real, poll: real, services: Services,
                       ready: set<int>, up: set<int>, start: real, t: real, now: real)
    requires Ledger(jobs, queue, qi, [], done) && Launched(launches, queue, qi) && Served(launches, slots, ready)
    requires launches == [] ==> now == start
    requires OnlyServices(jobs, slots, services, start) ==> launches == []
    requires stagger <= poll && stagger <= start
    requires qi < |queue| ==> GaveUp(queue[qi..], slots, last, map[], stagger, poll, services, ready, up, start, t, now)
    ensures StartDecides(jobs, queue, qi, slots, services, start)
  {
    hide GaveUp, Served, UniqueNames, NamesOf, RunningNames;
    if forall j :: j in jobs ==> j.iamflow {
      SomeLaunchServed(jobs, queue, qi, done, launches, slots, ready);
      if qi < |queue| {
        assert queue[qi] in queue[qi..];
        GivingUpIsForServices(queue[qi..], slots, last, stagger, poll, services, ready, up, start, t, now);
      }
    }
  }

  /** Where no services answer, nothing that needs them was launched. */
  lemma NothingToServe(jobs: seq<Job>, queue: seq<Job>, qi: nat, running: seq<Info>, done: map<string, int>,
                       launches: seq<Launch>, slots: seq<Slot>, services: Services, ready: set<int>, at: real)
    requires Ledger(jobs, queue, qi, running, done) && Launched(launches, queue, qi) && Served(launches, slots, ready)
    requires Answered(services, ready, at, at) && OnlyServices(jobs, slots, services, at)
    ensures launches == [] && qi == 0
  {
    if launches != [] { FirstWasServed(jobs, queue, qi, launches, slots, services, ready, at); }
  }

  lemma FirstWasServed(jobs: seq<Job>, queue: seq<Job>, qi: nat, launches: seq<Launch>, slots: seq<Slot>,
                       services: Services, ready: set<int>, at: real)
    requires multiset(queue) == multiset(jobs) && Launched(launches, queue, qi) && Served(launches, slots, ready)
    requires Answered(services, ready, at, at) && launches != [] && forall j :: j in jobs ==> j.iamflow
    ensures exists s :: s in slots && services(s.node, at)
  {
    var l := launches[0];
    assert l in launches && l.job == queue[0];
    assert queue[0] in multiset(queue);
    assert queue[0] in multiset(jobs);
    var s :| s in slots && s.node == l.node;
    var when :| at <= when <= at && services(l.node, when);
  }

  // ----- one sweep over the running jobs -----

  /** The jobs running when a sweep begins, their logs, and the clock: it shows `t` after `ticks` readings. */
  datatype Sweep = Sweep(was: seq<Info>, logs: string -> Log, maxJob: real, wait: nat -> real, t: real, ticks: nat)
  {
    predicate Unique() { forall i, j :: 0 <= i < j < |was| ==> was[i].job.name != was[j].job.name }

    /** The clock is read for each job whose log shows no sentinel: how often before it is the `i`-th job's turn. */
    ghost function Looks(i: nat): nat
      requires i <= |was|
    {
      if i == 0 then 0 else Looks(i - 1) + (if logs(was[i - 1].job.name).Pending? then 1 else 0)
    }

    /** The code that the `i`-th job gets: the one in its log, or 124 if it has run too long by the clock read for it. */
    ghost function Due(i: nat): Option<int>
      requires i < |was|
    {
      match logs(was[i].job.name)
      case Missing => None
      case Exited(rc) => Some(rc)
      case Pending =>
        if Reading(wait, t, ticks, ticks + Looks(i) + 1) - was[i].start > maxJob then Some(124) else None
    }

    ghost function Goes(): nat -> bool { (i: nat) => i < |was| && Due(i).Some? }

    ghost function Stays(): nat -> bool { (i: nat) => i < |was| && Due(i).None? }

    /** The jobs that go, in the order they are listed, with their codes. */
    ghost predicate Codes(gone: seq<nat>, n: nat, finished: seq<(string, int)>) {
      && PlacesOf(gone, n, Goes()) && |finished| == |gone|
      && forall k :: 0 <= k < |gone| ==>
           gone[k] < |was| && finished[k].0 == was[gone[k]].job.name && Due(gone[k]) == Some(finished[k].1)
    }

    /** Those that stay are still listed, in their order. */
    ghost predicate Listed(running: seq<Info>, stay: seq<nat>) {
      |running| == |stay| && forall k :: 0 <= k < |stay| ==> stay[k] < |was| && running[k] == was[stay[k]]
    }

    /** The slots of those that went are free again, in their order, after the others. */
    ghost predicate Freed(free0: seq<Slot>, free: seq<Slot>, gone: seq<nat>) {
      && |free| == |free0| + |gone| && free[..|free0|] == free0
      && forall k :: 0 <= k < |gone| ==> gone[k] < |was| && free[|free0| + k] == was[gone[k]].slot
    }

    /** Those that went have their codes on record, and else nothing has changed there. */
    ghost predicate Recorded(done0: map<string, int>, done: map<string, int>, gone: seq<nat>) {
      && (forall n :: n in done0 ==> n in done && done[n] == done0[n])
      && (forall k :: 0 <= k < |gone| ==>
            gone[k] < |was| && was[gone[k]].job.name in done && Due(gone[k]) == Some(done[was[gone[k]].job.name]))
      && (forall n :: n in done && n !in done0 ==> Among(n, gone))
    }

    ghost predicate Among(n: string, gone: seq<nat>) {
      exists k :: 0 <= k < |gone| && gone[k] < |was| && was[gone[k]].job.name == n
    }

    /** A code on record is the log's own, or the watchdog's for a job that has run longer than it may. */
    ghost predicate Told(n: string, rc: int, now: real) {
      match logs(n)
      case Missing => false
      case Exited(code) => rc == code
      case Pending => rc == 124 && exists r :: r in was && r.job.name == n && now - r.start > maxJob
    }

    /** The first `f` of those that go have left. */
    ghost predicate Halfway(gone: seq<nat>, f: nat, stay: seq<nat>, running: seq<Info>, free0: seq<Slot>, free: seq<Slot>,
                            done0: map<string, int>, done: map<string, int>)
      requires f <= |gone|
    {
      && PlacesOf(stay, |was|, Outside(gone[..f])) && Listed(running, stay)
      && Freed(free0, free, gone[..f]) && Recorded(done0, done, gone[..f])
    }

    /** What a sweep does to the books: the jobs at `gone` went, those at `stay` stayed. */
    ghost predicate Done(gone: seq<nat>, stay: seq<nat>, running: seq<Info>, free0: seq<Slot>, free: seq<Slot>,
                         done0: map<string, int>, done: map<string, int>)
    {
      && PlacesOf(gone, |was|, Goes()) && PlacesOf(stay, |was|, Stays())
      && Listed(running, stay) && Freed(free0, free, gone) && Recorded(done0, done, gone)
    }

    ghost predicate Over(running: seq<Info>, free0: seq<Slot>, free: seq<Slot>, done0: map<string, int>,
                         done: map<string, int>)
    {
      exists gone, stay :: Done(gone, stay, running, free0, free, done0, done)
    }
  }

  ghost function Outside(gone: seq<nat>): nat -> bool { (i: nat) => i !in gone }

  lemma NoneRetired(running: seq<Info>)
    ensures Retiring(running[..0], [])
  {}

  lemma NextRetired(s: Sweep, finished: seq<(string, int)>, i: nat, rc: int)
    requires s.Unique() && i < |s.was| && Retiring(s.was[..i], finished)
    ensures Retiring(s.was[..i + 1], finished)
    ensures Retiring(s.was[..i + 1], finished + [(s.was[i].job.name, rc)])
  {
    RetireNext(s.was, finished, i, rc);
  }

  lemma CodesNext(s: Sweep, gone: seq<nat>, i: nat, finished: seq<(string, int)>)
    requires i < |s.was| && s.Codes(gone, i, finished)
    ensures s.Due(i).None? ==> s.Codes(gone, i + 1, finished)
    ensures s.Due(i).Some? ==> s.Codes(gone + [i], i + 1, finished + [(s.was[i].job.name, s.Due(i).value)])
  {
    hide PlacesOf, s.Due;
    PlacesStep(gone, i, s.Goes());
  }

  lemma NobodyGone(s: Sweep)
    ensures s.Codes([], 0, [])
  {
    NoPlaces(s.Goes());
  }

  lemma {:induction false} AllStay(n: nat) returns (stay: seq<nat>)
    ensures |stay| == n && PlacesOf(stay, n, Outside([])) && forall k :: 0 <= k < n ==> stay[k] == k
  {
    stay := [];
    NoPlaces(Outside([]));
    if n > 0 {
      stay := AllStay(n - 1);
      PlacesStep(stay, n - 1, Outside([]));
      stay := stay + [n - 1];
    }
  }

  /** One more goes, found by its name. */
  lemma OneMoreGone(s: Sweep, running: seq<Info>, stay: seq<nat>, gone: seq<nat>, f: nat, i: nat)
    requires s.Unique() && s.Listed(running, stay) && f < |gone| && PlacesOf(stay, |s.was|, Outside(gone[..f]))
    requires gone[f] < |s.was| && i < |running| && running[i].job.name == s.was[gone[f]].job.name
    ensures i < |stay| && running[i] == s.was[gone[f]]
    ensures s.Listed(Without(running, i), stay[..i] + stay[i + 1..])
    ensures PlacesOf(stay[..i] + stay[i + 1..], |s.was|, Outside(gone[..f + 1]))
  {
    var g := gone[f];
    assert stay[i] == g;
    var rest := stay[..i] + stay[i + 1..];
    assert gone[..f + 1] == gone[..f] + [g];
    forall k: nat ensures k in rest <==> k < |s.was| && Outside(gone[..f + 1])(k) {
      RestHas(stay, i, k);
      assert k in stay <==> k < |s.was| && Outside(gone[..f])(k);
    }
  }

  lemma RestHas(stay: seq<nat>, i: nat, k: nat)
    requires i < |stay| && forall a, b :: 0 <= a < b < |stay| ==> stay[a] < stay[b]
    ensures k in stay[..i] + stay[i + 1..] <==> k in stay && k != stay[i]
  {
    var rest := stay[..i] + stay[i + 1..];
    if k in stay && k != stay[i] {
      var a :| 0 <= a < |stay| && stay[a] == k;
      assert rest[if a < i then a else a - 1] == k;
    }
    if k in rest {
      var a :| 0 <= a < |rest| && rest[a] == k;
      assert k == stay[if a < i then a else a + 1];
    }
  }

  lemma OneMoreFreed(s: Sweep, free0: seq<Slot>, free: seq<Slot>, gone: seq<nat>, f: nat)
    requires f < |gone| && s.Freed(free0, free, gone[..f]) && gone[f] < |s.was|
    ensures s.Freed(free0, free + [s.was[gone[f]].slot], gone[..f + 1])
  {}

  lemma OneMoreRecorded(s: Sweep, done0: map<string, int>, done: map<string, int>, gone: seq<nat>, f: nat, rc: int)
    requires s.Unique() && f < |gone| && s.Recorded(done0, done, gone[..f]) && gone[f] < |s.was| && s.Due(gone[f]) == Some(rc)
    requires s.was[gone[f]].job.name !in done
    ensures s.Recorded(done0, done[s.was[gone[f]].job.name := rc], gone[..f + 1])
  {
    hide s.Due;
    var name, was, now := s.was[gone[f]].job.name, gone[..f], gone[..f + 1];
    assert now == was + [gone[f]];
    forall n | n in done[name := rc] && n !in done0 ensures s.Among(n, now) {
      if n == name {
        assert now[f] == gone[f];
      } else {
        var k :| 0 <= k < |was| && was[k] < |s.was| && s.was[was[k]].job.name == n;
        assert now[k] == was[k];
      }
    }
  }

  lemma SweepBegins(s: Sweep, free: seq<Slot>, done: map<string, int>, gone: seq<nat>) returns (stay: seq<nat>)
    ensures s.Halfway(gone, 0, stay, s.was, free, free, done, done)
  {
    stay := AllStay(|s.was|);
    assert gone[..0] == [];
    hide PlacesOf;
  }

  lemma SameLength(s: Sweep, gone: seq<nat>, finished: seq<(string, int)>)
    requires s.Codes(gone, |s.was|, finished)
    ensures |gone| == |finished|
  {
    hide PlacesOf;
  }

  lemma CodeAt(s: Sweep, gone: seq<nat>, finished: seq<(string, int)>, f: nat)
    requires s.Codes(gone, |s.was|, finished) && f < |finished|
    ensures f < |gone| && gone[f] < |s.was| && finished[f].0 == s.was[gone[f]].job.name
    ensures s.Due(gone[f]) == Some(finished[f].1)
  {
    hide s.Due, PlacesOf;
  }

  /** Retiring the next one found by its name. */
  lemma SweepOn(s: Sweep, gone: seq<nat>, finished: seq<(string, int)>, f: nat, stay: seq<nat>, running: seq<Info>, i: nat,
                free0: seq<Slot>, free: seq<Slot>, done0: map<string, int>, done: map<string, int>)
    returns (stay': seq<nat>)
    requires s.Unique() && s.Codes(gone, |s.was|, finished) && f < |finished| && |finished| == |gone|
    requires s.Halfway(gone, f, stay, running, free0, free, done0, done)
    requires i < |running| && running[i].job.name == finished[f].0 && finished[f].0 !in done
    ensures s.Halfway(gone, f + 1, stay', Without(running, i), free0, free + [running[i].slot], done0,
                      done[finished[f].0 := finished[f].1])
  {
    hide s.Codes, s.Due, s.Listed, s.Freed, s.Recorded, s.Unique, PlacesOf, Without;
    CodeAt(s, gone, finished, f);
    OneMoreGone(s, running, stay, gone, f, i);
    OneMoreFreed(s, free0, free, gone, f);
    OneMoreRecorded(s, done0, done, gone, f, finished[f].1);
    stay' := stay[..i] + stay[i + 1..];
  }

  lemma SweepEnds(s: Sweep, gone: seq<nat>, stay: seq<nat>, finished: seq<(string, int)>, running: seq<Info>,
                  free0: seq<Slot>, free: seq<Slot>, done0: map<string, int>, done: map<string, int>, now: real)
    requires s.Codes(gone, |s.was|, finished) && |finished| == |gone|
    requires s.Halfway(gone, |finished|, stay, running, free0, free, done0, done)
    requires now == Reading(s.wait, s.t, s.ticks, s.ticks + s.Looks(|s.was|))
    ensures s.Done(gone, stay, running, free0, free, done0, done)
    ensures forall n :: n in done0 ==> n in done && done[n] == done0[n]
    ensures forall n :: n in done && n !in done0 ==> s.Told(n, done[n], now)
  {
    hide s.Due, s.Looks, s.Listed, s.Freed, PlacesOf, Reading, s.Told;
    assert gone[..|finished|] == gone;
    StaysAre(s, gone, stay);
    forall n | n in done && n !in done0 ensures s.Told(n, done[n], now) { ToldAtSweep(s, gone, done0, done, now, n); }
  }

  lemma StaysAre(s: Sweep, gone: seq<nat>, stay: seq<nat>)
    requires PlacesOf(gone, |s.was|, s.Goes()) && PlacesOf(stay, |s.was|, Outside(gone))
    ensures PlacesOf(stay, |s.was|, s.Stays())
  {
    hide s.Due;
    forall i: nat ensures i in stay <==> i < |s.was| && s.Stays()(i) {
      assert i in gone <==> i < |s.was| && s.Goes()(i);
      assert i in stay <==> i < |s.was| && Outside(gone)(i);
    }
  }

  /** A job that the watchdog retired had run longer than it may. */
  lemma ToldAtSweep(s: Sweep, gone: seq<nat>, done0: map<string, int>, done: map<string, int>, now: real, n: string)
    requires s.Recorded(done0, done, gone) && n in done && n !in done0
    requires now == Reading(s.wait, s.t, s.ticks, s.ticks + s.Looks(|s.was|))
    ensures s.Told(n, done[n], now)
  {
    hide Reading;
    var k :| 0 <= k < |gone| && gone[k] < |s.was| && s.was[gone[k]].job.name == n;
    var i := gone[k];
    if s.logs(n).Pending? {
      assert s.Looks(i + 1) == s.Looks(i) + 1;
      LooksGrow(s, i + 1, |s.was|);
      ReadingGrows(s.wait, s.t, s.ticks, s.ticks + s.Looks(i) + 1, s.ticks + s.Looks(|s.was|));
      assert s.was[i] in s.was;
    }
  }

  lemma {:induction false} LooksGrow(s: Sweep, i: nat, j: nat)
    requires i <= j <= |s.was|
    ensures s.Looks(i) <= s.Looks(j)
    decreases j
  {
    if i < j { LooksGrow(s, i, j - 1); }
  }

  /** What a sweep told of a job that was launched before it started. */
  lemma ToldIsExplained(s: Sweep, launches: seq<Launch>, began: real, now: real, n: string, rc: int)
    requires s.Told(n, rc, now) && Started(s.was, launches, began)
    ensures ExplainedAt(s.logs, launches, s.maxJob, now, n, rc)
  {
    if s.logs(n).Pending? {
      var r :| r in s.was && r.job.name == n && now - r.start > s.maxJob;
      var l :| l in launches && l.job == r.job && l.at <= r.start;
      assert l.job.name == n && now - l.at > s.maxJob;
    }
  }

  // ----- the dispatcher -----

  class Dispatcher {
    const jobs: seq<Job>
    const slots: seq<Slot>
    const stagger: real
    const maxJob: real
    const poll: real
    const wait: nat -> real  // how much later than the last reading the next one is
    const services: Services
    var queue: seq<Job>
    var qi: nat
    var free: seq<Slot>
    var running: seq<Info>
    var done: map<string, int>
    var last: map<int, real>
    var ready: set<int>
    var now: real  // the latest clock reading
    var ticks: nat
    ghost const began: real
    ghost var launches: seq<Launch>

    ghost predicate Valid()
      reads this
    {
      && stagger >= 0.0 && qi <= |queue|
      && Ledger(jobs, queue, qi, running, done)
      && Conserved(free, running, slots)
      && Launched(launches, queue, qi)
      && Spaced(launches, last, now, stagger)
      && Served(launches, slots, ready)
      && began <= now && Answered(services, ready, began, now)
      && Started(running, launches, now)
    }

    /** A clock that only sleeping moves. */
    ghost predicate Frozen() { StandsStill(wait) }

    constructor (jobs: seq<Job>, slots: seq<Slot>, stagger: real, maxJob: real, poll: real, now: real,
                 wait: nat -> real, services: Services)
      requires UniqueNames(jobs) && stagger >= 0.0
      ensures Valid() && queue == jobs && qi == 0 && running == [] && done == map[] && launches == []
      ensures last == map[] && ready == {} && this.now == now == began && free == slots && ticks == 0
      ensures this.jobs == jobs && this.slots == slots && this.stagger == stagger && this.maxJob == maxJob
              && this.poll == poll && this.wait == wait && this.services == services
    {
      this.jobs, this.slots, this.stagger, this.maxJob, this.poll := jobs, slots, stagger, maxJob, poll;
      this.wait, this.services := wait, services;
      queue, qi, free, running, done, last, ready := jobs, 0, slots, [], map[], map[], {};
      this.now, ticks := now, 0;
      began, launches := now, [];
    }

    /** The clock never runs backwards. */
    method ReadClock()
      modifies this`now, this`ticks
      ensures now == old(now) + (if wait(old(ticks)) > 0.0 then wait(old(ticks)) else 0.0)
      ensures ticks == old(ticks) + 1 && now == Reading(wait, old(now), old(ticks), ticks)
    {
      if wait(ticks) > 0.0 { now := now + wait(ticks); }
      ticks := ticks + 1;
    }

    /** Services that answered once are not asked again. */
    method CanDispatch(job: Job, slot: Slot) returns (ok: bool)
      modifies this`ready
      ensures ok <==> !job.iamflow || slot.node in old(ready) || services(slot.node, now)
      ensures ready == if ok && job.iamflow then old(ready) + {slot.node} else old(ready)
    {
      if !job.iamflow || slot.node in ready {
        assert slot.node in ready ==> ready + {slot.node} == ready;
        return true;
      }
      if services(slot.node, now) {
        ready := ready + {slot.node};
        return true;
      }
      return false;
    }

    method FindSlot(job: Job) returns (found: Option<nat>)
      requires Valid()
      modifies this`now, this`ticks, this`ready
      ensures Valid() && now >= old(now) && old(ready) <= ready && (Frozen() ==> now == old(now))
      ensures found.Some? ==> found.value < |free| && now - LastOn(last, free[found.value].node) >= stagger
                              && (job.iamflow ==> free[found.value].node in ready)
      ensures found.None? ==> AllRefused([job], free, last, stagger, services, old(ready), old(now), now)
      ensures found.None? && Rested(free, last, stagger, old(now)) ==> ready == old(ready)
      ensures ticks == old(ticks) + (if found.Some? then found.value + 1 else |free|)
      ensures old(ticks) <= ticks && now == Reading(wait, old(now), old(ticks), ticks)
      ensures SlotsInTurn(job, free, if found.Some? then found.value else |free|, last, stagger, services, old(ready),
                          wait, old(now), old(ticks))
    {
      hide Ledger, Conserved, Launched, Spaced, Served, Answered, Refused, Reading;
      found := None;
      assert now == Reading(wait, now, ticks, ticks) by { ReadingStart(wait, now, ticks); }
      for si := 0 to |free|
        invariant ticks == old(ticks) + si && now == Reading(wait, old(now), old(ticks), ticks)
        invariant SlotsInTurn(job, free, si, last, stagger, services, old(ready), wait, old(now), old(ticks))
        invariant Valid() && now >= old(now) && old(ready) <= ready && (Frozen() ==> now == old(now))
        invariant forall i :: 0 <= i < si ==> Refused(job, free[i], last, stagger, services, old(ready), old(now), now)
        invariant Rested(free, last, stagger, old(now)) ==> ready == old(ready)
      {
        ghost var read, up, tick := now, ready, ticks;
        ReadClock();
        ReadingOn(wait, old(now), old(ticks), tick, ticks);
        SpacedLater(launches, last, read, stagger, now);
        var cooling := now - LastOn(last, free[si].node) < stagger;
        var can := CanDispatch(job, free[si]);
        StillAnswered(services, up, ready, slots, launches, began, read, now);
        if can && !cooling { return Some(si); }
        RefusedLater(job, free, si, last, stagger, services, old(ready), old(now), read, now);
        RefusedNow(job, free[si], last, stagger, services, old(ready), old(now), now);
        assert free[si] in free;
      }
    }

    /** Brings job `k` to the head of what waits and takes the slot out of the free ones. */
    method Take(k: nat, si: nat) returns (job: Job, slot: Slot)
      requires qi <= k < |queue| && si < |free|
      modifies this`queue, this`free
      ensures queue == Swap(old(queue), qi, k) && |queue| == |old(queue)|
      ensures free == old(free)[..si] + old(free)[si + 1..]
      ensures job == old(queue)[k] && slot == old(free)[si]
    {
      if k != qi { queue := queue[qi := queue[k]][k := queue[qi]]; }
      job, slot := queue[qi], free[si];
      free := free[..si] + free[si + 1..];
    }

    method LaunchJob(k: nat, si: nat)
      requires Valid() && qi <= k < |queue| && si < |free|
      requires now - LastOn(last, free[si].node) >= stagger
      requires queue[k].iamflow ==> free[si].node in ready
      modifies this`queue, this`qi, this`free, this`running, this`last, this`now, this`ticks, this`launches
      ensures Valid() && now >= old(now) && (Frozen() ==> now == old(now))
      ensures queue == Swap(old(queue), old(qi), k) && qi == old(qi) + 1
      ensures free == old(free)[..si] + old(free)[si + 1..]
      ensures |running| == |old(running)| + 1 && running[..|old(running)|] == old(running)
      ensures running[|old(running)|].job == old(queue)[k] && running[|old(running)|].slot == old(free)[si]
      ensures |launches| == |old(launches)| + 1 && launches[..|old(launches)|] == old(launches)
      ensures old(now) <= launches[|old(launches)|].at <= now
      ensures last == old(last)[launches[|old(launches)|].node := launches[|old(launches)|].at]
      ensures ticks == old(ticks) + 2 && now == Reading(wait, old(now), old(ticks), ticks)
      ensures launches[|old(launches)|] == Launch(old(queue)[k], old(free)[si].node,
                                                  Reading(wait, old(now), old(ticks), old(ticks) + 1))
    {
      hide Ledger, Conserved, Launched, Spaced, Served, Answered, Started, LastOn, Swap, Reading;
      ghost var free0, running0, read := free, running, now;
      var job, slot := Take(k, si);
      ReadClock();
      var l := Launch(job, slot.node, now);
      last, launches := last[slot.node := now], launches + [l];
      ReadClock();
      ReadingOn(wait, read, old(ticks), old(ticks) + 1, ticks);
      var info := Info(slot, job, now);
      running := running + [info];
      ServedAtLaunch(old(launches), free0, running0, slots, ready, si, job, l.at);
      LedgerAtLaunch(jobs, old(queue), qi, running0, done, k, info);
      ConservedAtLaunch(free0, running0, slots, si, info);
      LaunchedAtLaunch(old(launches), old(queue), qi, k, l);
      SpacedAtLaunch(old(launches), old(last), read, stagger, l, now);
      AnsweredLater(services, ready, began, read, now);
      StartedAtLaunch(running0, old(launches), l, info, read, now);
      qi := qi + 1;
    }

    lemma SpacedNow()
      requires Valid()
      ensures began <= now && Spaced(launches, last, now, stagger)
    {
      hide Ledger, Conserved, Launched, Spaced, Served, Answered, Started;
    }

    /** One pass over the waiting jobs: launches the first that has a slot. */
    method LaunchNext() returns (progressed: bool, ghost k: nat, ghost si: nat)
      requires Valid() && free != [] && qi < |queue|
      modifies this`queue, this`qi, this`free, this`running, this`last, this`now, this`ticks, this`launches, this`ready
      ensures Valid() && now >= old(now) && old(ready) <= ready && (Frozen() ==> now == old(now))
      ensures |queue| == |old(queue)|
      ensures progressed ==> qi == old(qi) + 1 && |running| == |old(running)| + 1 && old(running) <= running
      ensures progressed ==> LaunchedBetween(old(launches), launches, old(last), last, old(now), now)
      ensures progressed ==>
                && |launches| == |old(launches)| + 1
                && FirstThatFits(old(queue), old(qi), k, old(free), si, old(last), stagger, services, old(ready), ready,
                                 wait, old(now), old(ticks), launches[|old(launches)|])
                && queue == Swap(old(queue), old(qi), k) && free == old(free)[..si] + old(free)[si + 1..]
                && ticks == old(ticks) + Times(k - old(qi), |old(free)|) + si + 3
                && last == old(last)[launches[|old(launches)|].node := launches[|old(launches)|].at]
      ensures Steady(wait, stagger, began) && NoServices(old(queue)) ==> queue == old(queue)
      ensures !progressed ==> JobsInTurn(queue[qi..], free, last, stagger, services, old(ready), wait, old(now), old(ticks))
                              && ticks == old(ticks) + Times(|queue| - qi, |free|)
      ensures old(ticks) <= ticks && now == Reading(wait, old(now), old(ticks), ticks)
      ensures !progressed ==> qi == old(qi) && running == old(running) && free == old(free) && last == old(last)
                              && queue == old(queue) && launches == old(launches)
                              && AllRefused(queue[qi..], free, last, stagger, services, old(ready), old(now), now)
                              && (Rested(free, last, stagger, old(now)) ==> ready == old(ready))
    {
      hide Ledger, Conserved, Launched, Spaced, Served, Answered, AllRefused, Rested, LaunchedBetween;
      hide Reading, JobsInTurn, SlotsInTurn, FirstThatFits, Times, Swap, Steady, Valid, StandsStill, LastOn;
      SpacedNow();
      var j := qi;
      k, si := qi, 0;
      NoneRefused(free, last, stagger, services, ready, now, now);
      NobodyInTurn(free, last, stagger, services, ready, wait, now, ticks);
      ReadingStart(wait, now, ticks);
      NoTimes(|free|);
      assert queue[qi..qi] == [];
      while j < |queue|
        invariant qi <= j <= |queue| && Valid() && now >= old(now) && old(ready) <= ready
        invariant Frozen() ==> now == old(now)
        invariant qi == old(qi) && running == old(running) && free == old(free) && last == old(last)
                  && queue == old(queue) && launches == old(launches)
        invariant ticks == old(ticks) + Times(j - qi, |free|) && now == Reading(wait, old(now), old(ticks), ticks)
        invariant JobsInTurn(queue[qi..j], free, last, stagger, services, old(ready), wait, old(now), old(ticks))
        invariant AllRefused(queue[qi..j], free, last, stagger, services, old(ready), old(now), now)
        invariant Rested(free, last, stagger, old(now)) ==> ready == old(ready)
      {
        ghost var read, up, tick := now, ready, ticks;
        var at := FindSlot(queue[j]);
        ReadingOn(wait, old(now), old(ticks), tick, ticks);
        TimesNext(j - qi, |free|);
        if at.Some? {
          ghost var found, seen := now, ticks;
          LaunchJob(j, at.value);
          JustLaunched(old(launches), launches, old(last), last, old(now), found, now);
          ReadingOn(wait, old(now), old(ticks), seen, seen + 1);
          ReadingOn(wait, old(now), old(ticks), seen, ticks);
          Fits(old(queue), old(qi), j, old(free), at.value, old(last), stagger, services, old(ready), up, ready, wait,
               old(now), old(ticks), read, tick, launches[|old(launches)|]);
          if Steady(wait, stagger, began) && NoServices(old(queue)) {
            HeadGoesFirst(old(queue), old(qi), j, old(free), at.value, old(launches), old(last), stagger, services,
                          old(ready), ready, wait, began, old(now), old(ticks), launches[|old(launches)|]);
          }
          k, si := j, at.value;
          return true, k, si;
        }
        RestedLater(free, last, stagger, old(now), read);
        OneJobMore(queue, qi, j, free, last, stagger, services, old(ready), up, old(now), read, now);
        OneJobMoreInTurn(queue, qi, j, free, last, stagger, services, old(ready), up, wait, old(now), old(ticks), read, tick);
        j := j + 1;
      }
      assert queue[qi..j] == queue[qi..];
      return false, k, si;
    }

    /** Fills free slots until a whole pass launches nothing: then that pass, from `t` on and with `up` known at
        its start, refused every waiting job every free slot. */
    method Fill() returns (ghost t: real, ghost up: set<int>)
      requires Valid()
      modifies this`queue, this`qi, this`free, this`running, this`last, this`now, this`ticks, this`launches, this`ready
      ensures Valid() && now >= old(now) && old(qi) <= qi && |queue| == |old(queue)| && (Frozen() ==> now == old(now))
      ensures qi == old(qi) ==> running == old(running) && last == old(last) && launches == old(launches)
      ensures |running| == |old(running)| + (qi - old(qi)) && old(running) <= running
      ensures LaunchedBetween(old(launches), launches, old(last), last, old(now), now)
      ensures Steady(wait, stagger, began) && NoServices(old(queue)) ==> queue == old(queue)
      ensures qi == |queue| || free == [] || (old(now) <= t <= now && old(ready) <= up <= ready
                && AllRefused(queue[qi..], free, last, stagger, services, up, t, now)
                && (Rested(free, last, stagger, t) ==> ready == up))
    {
      hide Ledger, Conserved, Launched, Spaced, Served, Answered, AllRefused, Rested, LaunchedBetween;
      ghost var len := |queue|;
      var progressed := true;
      t, up := now, ready;
      NothingLaunched(launches, last, now);
      while progressed && free != [] && qi < |queue|
        invariant Valid() && now >= old(now) && old(qi) <= qi && (Frozen() ==> now == old(now))
        invariant qi == old(qi) ==> running == old(running) && last == old(last) && launches == old(launches)
        invariant |running| == |old(running)| + (qi - old(qi)) && old(running) <= running
        invariant LaunchedBetween(old(launches), launches, old(last), last, old(now), now)
        invariant Steady(wait, stagger, began) && NoServices(old(queue)) ==> queue == old(queue)
        invariant |queue| == len && old(now) <= t <= now && old(ready) <= up <= ready
        invariant !progressed ==> AllRefused(queue[qi..], free, last, stagger, services, up, t, now)
                                  && (Rested(free, last, stagger, t) ==> ready == up)
        decreases |queue| - qi, progressed
      {
        t, up := now, ready;
        ghost var before, known, read := launches, last, now;
        ghost var k, si;
        progressed, k, si := LaunchNext();
        LaunchedOn(old(launches), before, launches, old(last), known, last, old(now), read, now, progressed);
      }
    }

    /** What a look at one job's log decides, with the clock read for a job that shows no sentinel. */
    method Verdict(info: Info, log: Log) returns (rc: Option<int>)
      requires Valid()
      modifies this`now, this`ticks
      ensures Valid() && now >= old(now) && (Frozen() ==> now == old(now))
      ensures log.Exited? ==> rc == Some(log.rc)
      ensures log.Missing? ==> rc.None?
      ensures log.Pending? ==> rc == if now - info.start > maxJob then Some(124) else None
      ensures ticks == old(ticks) + (if log.Pending? then 1 else 0) && now == Reading(wait, old(now), old(ticks), ticks)
    {
      hide Ledger, Conserved, Launched, Spaced, Served, Answered;
      rc := None;
      ReadingStart(wait, now, ticks);
      match log
      case Missing =>
      case Exited(code) => rc := Some(code);
      case Pending =>
        ghost var read := now;
        ReadClock();
        SpacedLater(launches, last, read, stagger, now);
        AnsweredLater(services, ready, began, read, now);
        if now - info.start > maxJob { rc := Some(124); }
    }

    /** First half of the reap: the jobs to retire, with their codes. */
    method Finished(logs: string -> Log) returns (finished: seq<(string, int)>, ghost gone: seq<nat>)
      requires Valid()
      modifies this`now, this`ticks
      ensures Valid() && now >= old(now) && (Frozen() ==> now == old(now))
      ensures Retiring(running, finished)
      ensures finished == [] ==> forall r :: r in running ==>
                logs(r.job.name).Missing? || (logs(r.job.name).Pending? && old(now) - r.start <= maxJob)
      ensures (forall n :: logs(n).Exited?) ==> |finished| == |running|
      ensures var s := Sweep(running, logs, maxJob, wait, old(now), old(ticks));
              s.Codes(gone, |running|, finished) && ticks == old(ticks) + s.Looks(|running|)
              && now == Reading(wait, old(now), old(ticks), ticks)
    {
      hide Valid, Reading, Retiring, Sweep.Codes, Sweep.Unique, StandsStill;
      finished, gone := [], [];
      ghost var s := Sweep(running, logs, maxJob, wait, now, ticks);
      NamesDifferNow(s);
      assert Retiring(running[..0], finished) by { NoneRetired(running); }
      NobodyGone(s);
      ReadingStart(wait, now, ticks);
      for i := 0 to |running|
        invariant s.Codes(gone, i, finished) && ticks == old(ticks) + s.Looks(i)
        invariant now == Reading(wait, old(now), old(ticks), ticks)
        invariant Valid() && now >= old(now) && (Frozen() ==> now == old(now))
        invariant Retiring(running[..i], finished)
        invariant finished == [] ==> forall k :: 0 <= k < i ==>
          var log := logs(running[k].job.name);
          log.Missing? || (log.Pending? && old(now) - running[k].start <= maxJob)
        invariant (forall n :: logs(n).Exited?) ==> |finished| == i
      {
        ghost var tick := ticks;
        var rc := Verdict(running[i], logs(running[i].job.name));
        ReadingOn(wait, old(now), old(ticks), tick, ticks);
        CodesNext(s, gone, i, finished);
        NextRetired(s, finished, i, if rc.Some? then rc.value else 0);
        if rc.Some? { finished, gone := finished + [(running[i].job.name, rc.value)], gone + [i]; }
      }
      assert running[..|running|] == running;
    }

    /** A finished job gives its slot back and leaves its code. */
    method Retire(name: string, rc: int, ghost finished: seq<(string, int)>)
      requires Valid() && Retiring(running, finished) && finished != [] && finished[0] == (name, rc)
      modifies this`free, this`running, this`done
      ensures Valid() && |running| == |old(running)| - 1 && Retiring(running, finished[1..])
      ensures name !in old(done) && done == old(done)[name := rc]
      ensures exists i: nat :: i < |old(running)| && old(running)[i].job.name == name
                && running == Without(old(running), i) && free == old(free) + [old(running)[i].slot]
    {
      hide Ledger, Conserved, Launched, Spaced, Served, Answered;
      assert finished[0] in finished;
      var i := IndexOf(running, name);
      LedgerAtFinish(jobs, queue, qi, running, done, i, rc);
      ConservedAtFinish(free, running, slots, i);
      WithoutIsSmaller(running, i);
      RetireOne(jobs, queue, qi, running, done, finished, i);
      assert running[i].job.name == name;
      free := free + [running[i].slot];
      running := Without(running, i);
      done := done[name := rc];
    }

    /** One sweep over the running jobs: sentinels and timeouts free their slots. */
    method Reap(logs: string -> Log) returns (ghost gone: seq<nat>, ghost stay: seq<nat>)
      requires Valid()
      modifies this`now, this`ticks, this`free, this`running, this`done
      ensures Valid() && now >= old(now) && (Frozen() ==> now == old(now))
      ensures |running| < |old(running)|
              || (running == old(running)
                  && forall r :: r in running ==> logs(r.job.name).Missing?
                                                  || (logs(r.job.name).Pending? && old(now) - r.start <= maxJob))
      ensures (forall n :: logs(n).Exited?) ==> running == []
      ensures var s := Sweep(old(running), logs, maxJob, wait, old(now), old(ticks));
              && s.Done(gone, stay, running, old(free), free, old(done), done)
              && ticks == old(ticks) + s.Looks(|s.was|) && now == Reading(wait, old(now), old(ticks), ticks)
              && forall n :: n in done && n !in old(done) ==> s.Told(n, done[n], now)
      ensures forall n :: n in old(done) ==> n in done && done[n] == old(done)[n]
    {
      hide Valid, Retiring, Reading, Sweep.Codes, Sweep.Done, Sweep.Halfway, Sweep.Looks, Sweep.Unique, Sweep.Told;
      ghost var s := Sweep(running, logs, maxJob, wait, now, ticks);
      NamesDifferNow(s);
      var finished;
      finished, gone := Finished(logs);
      SameLength(s, gone, finished);
      stay := SweepBegins(s, free, done, gone);
      ghost var read, tick := now, ticks;
      for f := 0 to |finished|
        invariant Valid() && now == read && ticks == tick && |running| == |old(running)| - f
        invariant Retiring(running, finished[f..])
        invariant f == 0 ==> running == old(running)
        invariant s.Halfway(gone, f, stay, running, old(free), free, old(done), done)
      {
        stay := RetireNextOf(finished, f, s, gone, stay, old(free), old(done));
      }
      SweepEnds(s, gone, stay, finished, running, old(free), free, old(done), done, now);
    }

    lemma NamesDifferNow(s: Sweep)
      requires Valid() && s.was == running
      ensures s.Unique()
    {
      hide Conserved, Launched, Spaced, Served, Answered, Started;
    }

    method RetireNextOf(finished: seq<(string, int)>, f: nat, ghost s: Sweep, ghost gone: seq<nat>, ghost stay: seq<nat>,
                        ghost free0: seq<Slot>, ghost done0: map<string, int>)
      returns (ghost stay': seq<nat>)
      requires Valid() && f < |finished| && Retiring(running, finished[f..])
      requires s.Unique() && s.Codes(gone, |s.was|, finished) && |finished| == |gone|
      requires s.Halfway(gone, f, stay, running, free0, free, done0, done)
      modifies this`free, this`running, this`done
      ensures Valid() && |running| == |old(running)| - 1 && Retiring(running, finished[f + 1..])
      ensures s.Halfway(gone, f + 1, stay', running, free0, free, done0, done)
    {
      hide Valid, Retiring, Sweep.Codes, Sweep.Halfway, Sweep.Unique, Without;
      ghost var held, kept, known := running, free, done;
      assert finished[f..][0] == finished[f] && finished[f..][1..] == finished[f + 1..];
      Retire(finished[f].0, finished[f].1, finished[f..]);
      ghost var i: nat :| i < |held| && held[i].job.name == finished[f].0
                          && running == Without(held, i) && free == kept + [held[i].slot];
      stay' := SweepOn(s, gone, finished, f, stay, held, i, free0, kept, done0, known);
    }

    /** Time the watchdog leaves the longest-listed running job, in whole seconds. */
    ghost function TimeLeft(): nat
      reads this
    {
      if running == [] then 0
      else
        var left := maxJob - (now - running[0].start);
        if left < 0.0 then 0 else left.Floor + 1
    }

    /** Only jobs that need services, no node whose services answer yet, and a clock that only sleeping moves. */
    ghost predicate Hopeless(start: real) {
      Frozen() && start == began && OnlyServices(jobs, slots, services, start)
    }

    /** While the clock stands where no services answer, nothing is launched. */
    lemma StillHopeless(start: real)
      requires Valid() && Hopeless(start) && Answered(services, ready, start, start)
      ensures launches == [] && qi == 0
    {
      hide Conserved, Spaced, Launched, Served, Answered;
      NothingToServe(jobs, queue, qi, running, done, launches, slots, services, ready, start);
    }

    lemma StartedNow()
      requires Valid()
      ensures Started(running, launches, now)
    {
      hide Ledger, Conserved, Launched, Spaced, Served, Answered, Started;
    }

    /** One turn of the loop: fill the slots and, unless nothing runs then, sleep until `pause` plus the poll and
        reap. Without a job running the turn is the last: it launched nothing, and its last pass refused every
        waiting job every slot. */
    method Round(logs: string -> Log)
      returns (again: bool, ghost pause: real, ghost t: real, ghost up: set<int>, ghost mid: seq<Info>,
               ghost spare: seq<Slot>, ghost tick: nat)
      requires Valid() && poll >= 1.0 && (qi < |queue| || running != []) && forall n :: !logs(n).Missing?
      modifies this
      ensures Valid() && old(now) <= pause <= now && (again ==> pause + poll <= now)
      ensures Frozen() ==> pause == old(now) && now == if again then pause + poll else pause
      ensures LaunchedBetween(old(launches), launches, old(last), last, old(now), pause)
      ensures |launches| == qi && |old(launches)| == old(qi) && |queue| == |old(queue)|
      ensures Steady(wait, stagger, began) && NoServices(old(queue)) ==> queue == old(queue)
      ensures !again ==> running == [] && qi == old(qi) && last == old(last) && launches == old(launches)
                         && done == old(done)
      ensures old(running) == [] && Hopeless(old(now)) ==> !again
      ensures !again && qi < |queue| && slots != [] ==>
                old(now) <= t && up <= ready && AllRefused(queue[qi..], free, last, stagger, services, up, t, now)
                && t <= now && (Rested(free, last, stagger, t) ==> ready == up)
      ensures again && old(running) == [] ==> qi > old(qi)
      ensures again ==> qi > old(qi) || (qi == old(qi) && (|running| < |old(running)|
                          || (|running| == |old(running)| && TimeLeft() < old(TimeLeft()))))
      ensures again && (forall n :: logs(n).Exited?) ==> running == []
      ensures old(running) <= mid && |mid| == |old(running)| + (qi - old(qi)) && old(launches) <= launches
      ensures again <==> mid != []
      ensures again ==>
                Sweep(mid, logs, maxJob, wait, pause + poll, tick).Over(running, spare, free, old(done), done)
      ensures forall n :: n in old(done) ==> n in done && done[n] == old(done)[n]
      ensures forall n :: n in done && n !in old(done) ==> ExplainedAt(logs, launches, maxJob, now, n, done[n])
    {
      hide Ledger, Conserved, Spaced, Served, Answered, AllRefused, Rested, LaunchedBetween, Steady, StandsStill, Reading;
      hide Sweep.Done, Sweep.Looks, Sweep.Told, ExplainedAt;
      ghost var head, was, first := now, running, qi;
      LaunchesCount(queue, qi, launches);
      t, up := Fill();
      LaunchesCount(queue, qi, launches);
      pause, mid, spare, tick := now, running, free, ticks;
      StartedNow();
      hide Started;
      assert old(launches) <= launches by { GrownLaunches(old(launches), launches, old(last), last, head, now); }
      if Hopeless(head) { StillHopeless(head); }
      if running == [] {
        SameSlots(free, slots);
        return false, pause, t, up, mid, spare, tick;
      }
      now := now + poll;
      SpacedLater(launches, last, pause, stagger, now);
      AnsweredLater(services, ready, began, pause, now);
      hide Launched;
      ghost var s := Sweep(mid, logs, maxJob, wait, now, tick);
      ghost var gone, stay := Reap(logs);
      forall n | n in done && n !in old(done) ensures ExplainedAt(logs, launches, maxJob, now, n, done[n]) {
        ToldIsExplained(s, launches, pause, now, n, done[n]);
      }
      again := true;
      if qi == first && |running| == |was| {
        assert running == was && was[0] in running;
        FloorDrops(maxJob - (head - was[0].start), maxJob - (now - was[0].start));
      }
    }

    method Loop(logs: nat -> string -> Log) returns (ghost t: real, ghost up: set<int>)
      requires Valid() && poll >= 1.0 && forall round, name :: !logs(round)(name).Missing?
      modifies this
      ensures Valid() && running == []
      ensures forall n :: n in done && n !in old(done) ==> Explained(logs, launches, maxJob, now, n, done[n])
      ensures qi < |queue| && slots != [] ==>
                GaveUp(queue[qi..], slots, last, old(last), stagger, poll, services, ready, up, old(now), t, now)
      ensures old(launches) == [] && old(running) == [] && Hopeless(old(now)) ==> launches == [] && now == old(now)
      ensures old(running) == [] && Frozen() && launches == [] ==> now == old(now)
      ensures Steady(wait, stagger, began) && NoServices(old(queue)) ==> queue == old(queue)
      ensures Frozen() && Prompt(logs) && old(running) == [] ==> Unbroken(launches, |old(launches)|, poll)
    {
      hide Ledger, Conserved, Launched, Spaced, Served, Answered, AllRefused, Rested, LaunchedBetween, Unbroken, Prompt;
      hide Cooled, Paced, GaveUp, Explained, ExplainedAt, Steady, StandsStill, Sweep.Over;
      var round := 0;
      t, up := now, ready;
      NothingPaced(launches, poll, now);
      CooledAtStart(last, poll, now);
      ghost var hopeless := old(launches) == [] && old(running) == [] && Hopeless(old(now));
      ghost var smooth := Frozen() && Prompt(logs) && old(running) == [];
      ghost var still := Frozen() && old(running) == [];
      while qi < |queue| || running != []
        invariant Valid() && now >= old(now)
        invariant forall n :: n in done && n !in old(done) ==> Explained(logs, launches, maxJob, now, n, done[n])
        invariant Cooled(last, old(last), poll, now) && |old(launches)| <= |launches|
        invariant smooth ==> running == [] && Paced(launches, |old(launches)|, poll, now)
                             && Unbroken(launches, |old(launches)|, poll)
        invariant hopeless ==> launches == [] && running == [] && now == old(now)
        invariant still && launches == [] ==> running == [] && now == old(now)
        invariant Steady(wait, stagger, began) && NoServices(old(queue)) ==> queue == old(queue)
        decreases |queue| - qi, |running|, TimeLeft()
      {
        ghost var head, before, known, kept := now, launches, last, done;
        ghost var pause: real;
        var again: bool;
        ghost var mid, spare, tick;
        again, pause, t, up, mid, spare, tick := Round(logs(round));
        forall n | n in kept && n !in old(done) ensures Explained(logs, launches, maxJob, now, n, done[n]) {
          ExplainedLater(logs, before, launches, maxJob, head, now, n, done[n]);
        }
        if !again {
          if qi < |queue| && slots != [] {
            LeftOver(queue[qi..], free, slots, last, old(last), stagger, poll, services, ready, up, old(now), head, t, now);
          }
          break;
        }
        CooledAfterPoll(before, launches, known, last, old(last), poll, head, pause, now);
        GrownLaunches(before, launches, known, last, head, pause);
        if smooth {
          PacedOn(before, launches, known, last, |old(launches)|, poll, head);
          PromptRound(logs, round);
        }
        forall n | n in done && n !in kept ensures Explained(logs, launches, maxJob, now, n, done[n]) {
          ExplainedNow(logs, round, launches, maxJob, now, n, done[n]);
        }
        round := round + 1;
      }
    }

    method ExitCode() returns (code: int)
      requires Valid() && running == []
      ensures code == 0 || code == 1
      ensures code == 0 <==> done.Keys == NamesOf(jobs) && forall n :: n in done ==> done[n] == 0
      ensures qi == |jobs| <==> done.Keys == NamesOf(jobs)
      ensures multiset(free) == multiset(slots)
    {
      hide NamesOf, OkNames;
      ClosedCode(jobs, queue, qi, done);
      code := if |OkNames(done)| == |queue| then 0 else 1;
    }

    lemma BooksNow()
      requires Valid()
      ensures Ledger(jobs, queue, qi, running, done) && Launched(launches, queue, qi) && Served(launches, slots, ready)
      ensures Answered(services, ready, began, now) && qi <= |queue|
    {
      hide Ledger, Conserved, Launched, Spaced, Served, Answered, Started;
    }

    /** The dispatch loop. With readable logs and polling of at least a second it ends; the code is zero
        exactly when every job is done with code zero. Jobs are left over only when a last pass, from `t` on,
        refused every one of them every slot, at least `poll` after every launch of this run. */
    method Run(logs: nat -> string -> Log) returns (code: int, ghost t: real, ghost up: set<int>)
      requires Valid() && poll >= 1.0 && forall round, name :: !logs(round)(name).Missing?
      modifies this
      ensures Valid() && running == [] && multiset(free) == multiset(slots)
      ensures code == 0 || code == 1
      ensures code == 0 <==> done.Keys == NamesOf(jobs) && forall n :: n in done ==> done[n] == 0
      ensures qi == |jobs| <==> done.Keys == NamesOf(jobs)
      ensures forall n :: n in done && n !in old(done) ==> Explained(logs, launches, maxJob, now, n, done[n])
      ensures qi < |queue| && slots != [] ==>
                GaveUp(queue[qi..], slots, last, old(last), stagger, poll, services, ready, up, old(now), t, now)
      ensures old(launches) == [] && old(last) == map[] && slots != [] && stagger <= poll && stagger <= old(now) ==>
                ServicesDecide(jobs, queue, qi, slots, services, ready, old(now))
      ensures old(launches) == [] && old(running) == [] && Hopeless(old(now)) ==> qi == 0 && now == old(now)
      ensures old(launches) == [] && old(running) == [] && old(last) == map[] && old(now) == began
              && slots != [] && stagger <= poll && stagger <= old(now) && Frozen() ==>
                StartDecides(jobs, queue, qi, slots, services, old(now))
      ensures Frozen() && Prompt(logs) && old(running) == [] ==> Unbroken(launches, |old(launches)|, poll)
      ensures Steady(wait, stagger, began) && NoServices(jobs) && old(queue) == jobs ==>
                |launches| == qi <= |jobs| && forall i :: 0 <= i < qi ==> launches[i].job == jobs[i]
    {
      hide Ledger, Conserved, Spaced, Served, Answered, AllRefused, Rested, LaunchedBetween, Unbroken, Prompt;
      hide Cooled, Paced, GaveUp, ServicesDecide, StartDecides, OnlyServices, Steady, StandsStill, Explained, Valid;
      assert Frozen() && now == began && OnlyServices(jobs, slots, services, now) ==> Hopeless(now);
      hide Hopeless;
      t, up := Loop(logs);
      BooksNow();
      if old(launches) == [] && old(last) == map[] && slots != [] && stagger <= poll && stagger <= old(now) {
        Leftovers(jobs, queue, qi, done, launches, slots, last, stagger, poll, services, ready, up, began, old(now), t, now);
      }
      if old(launches) == [] && old(running) == [] && Hopeless(old(now)) { LaunchesCount(queue, qi, launches); }
      if old(launches) == [] && old(running) == [] && old(last) == map[] && old(now) == began
         && slots != [] && stagger <= poll && stagger <= old(now) && Frozen() {
        DecidedAtStart(jobs, queue, qi, done, launches, slots, last, stagger, poll, services, ready, up, old(now), t, now);
      }
      code := ExitCode();
    }

    /** A run whose logs carry the shells' codes: exit code zero means that every stream of every job returned
        zero. */
    method RunStreams(logs: nat -> string -> Log, ghost streams: string -> seq<int>) returns (code: int)
      requires Valid() && poll >= 1.0 && done == map[] && forall round, name :: !logs(round)(name).Missing?
      requires forall round, name :: logs(round)(name).Exited? ==> FromStreams(name, logs(round)(name).rc, streams)
      requires forall name :: RealCodes(streams(name))
      modifies this
      ensures code == 0 || code == 1
      ensures code == 0 <==>
              (done.Keys == NamesOf(jobs)
               && forall j :: j in jobs ==> AllZero(streams(j.name)) && j.name in done && done[j.name] != 124)
    {
      hide Valid, FromStreams, RealCodes, AllZero, NamesOf;
      ghost var t, up;
      code, t, up := Run(logs);
      forall n | n in done ensures FromStreams(n, done[n], streams) {
        ExplainedFromStreams(logs, launches, maxJob, now, n, done[n], streams);
      }
      ZeroMeansEveryStreamRan(jobs, done, streams);
    }
  }

  lemma ExplainedFromStreams(logs: nat -> string -> Log, launches: seq<Launch>, maxJob: real, now: real, n: string,
                             rc: int, streams: string -> seq<int>)
    requires Explained(logs, launches, maxJob, now, n, rc)
    requires forall round, name :: logs(round)(name).Exited? ==> FromStreams(name, logs(round)(name).rc, streams)
    ensures FromStreams(n, rc, streams)
  {
    hide ReturnCodes.ShellRc, ReturnCodes.FirstFailure;
    var round: nat :| ExplainedAt(logs(round), launches, maxJob, now, n, rc);
    if logs(round)(n) == Exited(rc) { assert logs(round)(n).Exited?; }
  }

  // ----- inputs that leave jobs over -----

  /** One job that needs services, which come up four minutes in, the defaults otherwise: the dispatcher leaves at
      once, although nothing failed. The warm-up time on the command line is never waited for. */
  method WarmUpIsNotWaitedFor() returns (left: nat, code: int)
    ensures left == 1 && code == 1
  {
    hide Dispatcher.Valid;
    var services := (node: int, at: real) => at >= 1240.0;
    var d := new Dispatcher([Job("iamflow__a", true)], [Slot("c", 0, 0)], 8.0, 18000.0, 20.0, 1000.0, _ => 0.0, services);
    ghost var t, up;
    code, t, up := d.Run(_ => _ => Exited(0));
    LeftInQueue(d);
    left := |d.queue| - d.qi;
  }

  /** A cooldown longer than a poll: the second job finds the one node cooling and nothing running. */
  method CooldownIsNotWaitedFor() returns (left: nat, code: int)
    ensures left >= 1 && code == 1
  {
    hide Dispatcher.Valid;
    var jobs := [Job("memflow__a", false), Job("memflow__b", false)];
    var d := new Dispatcher(jobs, [Slot("c", 0, 0)], 8.0, 18000.0, 5.0, 1000.0, _ => 0.0, (_, _) => true);
    ghost var t, up;
    code, t, up := d.Run(_ => _ => Exited(0));
    LeftInQueue(d);
    if d.qi == |d.queue| { OneNodeCools(d); }
    left := |d.queue| - d.qi;
  }

  /** On a clock that three seconds pass on between two readings: of three jobs without services, on two slots of one
      node, the last is launched second. The one ahead of it finds the node cooling, and it itself no longer does. */
  method HeadIsOvertaken() returns (second: Job)
    ensures second == Job("memflow__c", false)
  {
    hide Dispatcher.Valid, JobsInTurn, FirstThatFits, Reading, Times;
    var a, b, c := Job("memflow__a", false), Job("memflow__b", false), Job("memflow__c", false);
    var jobs, wait := [a, b, c], _ => 3.0;
    NamesDiffer(jobs);
    var d := new Dispatcher(jobs, [Slot("c", 0, 0), Slot("c", 0, 1)], 8.0, 18000.0, 20.0, 1000.0, wait, (_, _) => true);
    ghost var k, si;
    var first, again;
    first, k, si := d.LaunchNext();
    FirstOfThree(jobs, d.slots, wait, d.services, d.ready, k, si, first, d.launches);
    SecondReading(wait);
    NoTimes(2);
    assert d.queue == jobs && d.free == [Slot("c", 0, 1)];
    assert d.ticks == 3 && d.now == 1009.0;
    assert d.last == map[0 := 1006.0];
    ghost var up := d.ready;
    again, k, si := d.LaunchNext();
    SecondOfThree(jobs, [Slot("c", 0, 1)], wait, d.services, k, si, again, d.launches, d.ready, up);
    second := d.queue[1];
  }

  lemma NamesDiffer(jobs: seq<Job>)
    requires jobs == [Job("memflow__a", false), Job("memflow__b", false), Job("memflow__c", false)]
    ensures UniqueNames(jobs)
  {
    assert jobs[0].name[9] == 'a' && jobs[1].name[9] == 'b' && jobs[2].name[9] == 'c';
  }

  lemma SecondReading(wait: nat -> real)
    requires forall i :: wait(i) == 3.0
    ensures Reading(wait, 1000.0, 0, 3) == 1009.0
  {
    assert Reading(wait, 1000.0, 0, 2) == 1006.0 by { assert Reading(wait, 1000.0, 0, 1) == 1003.0; }
  }

  lemma FirstOfThree(jobs: seq<Job>, slots: seq<Slot>, wait: nat -> real, services: Services, ready: set<int>, k: nat,
                     si: nat, progressed: bool, launches: seq<Launch>)
    requires |jobs| == 3 && NoServices(jobs) && |slots| == 2 && slots[0].node == slots[1].node == 0
    requires forall i :: wait(i) == 3.0
    requires progressed ==>
               |launches| == 1
               && FirstThatFits(jobs, 0, k, slots, si, map[], 8.0, services, {}, ready, wait, 1000.0, 0, launches[0])
    requires !progressed ==> JobsInTurn(jobs[0..], slots, map[], 8.0, services, {}, wait, 1000.0, 0)
    ensures progressed && k == 0 && si == 0 && launches[0] == Launch(jobs[0], 0, 1006.0)
  {
    hide Reading, JobsInTurn;
    NoTimes(|slots|);
    ReadAt(wait, 1000.0, 0);
    NeverRefused(jobs[0], slots[0], services, wait);
    NotFirstInTurn(jobs[0..], slots, map[], 8.0, services, {}, wait, 1000.0, 0);
    if progressed { NotFirstInTurn(jobs[0..k], slots, map[], 8.0, services, {}, wait, 1000.0, 0); }
  }

  lemma NotFirstInTurn(jobs: seq<Job>, free: seq<Slot>, last: map<int, real>, stagger: real, services: Services,
                       up: set<int>, wait: nat -> real, t: real, ticks: nat)
    requires free != []
    ensures jobs != [] && JobsInTurn(jobs, free, last, stagger, services, up, wait, t, ticks) ==>
              RefusedAt(jobs[0], free[0], last, stagger, services, up, Reading(wait, t, ticks, ticks + 1))
  {
    hide Reading, RefusedAt;
    NoTimes(|free|);
    assert ticks + Times(0, |free|) + 0 + 1 == ticks + 1;
  }

  lemma ReadAt(wait: nat -> real, t: real, ticks: nat)
    requires forall i :: wait(i) == 3.0
    ensures Reading(wait, t, ticks, ticks + 1) == t + 3.0 && Reading(wait, t, ticks, ticks + 2) == t + 6.0
  {
    assert Reading(wait, t, ticks, ticks) == t;
  }

  lemma NeverRefused(job: Job, slot: Slot, services: Services, wait: nat -> real)
    requires !job.iamflow
    ensures !RefusedAt(job, slot, map[], 8.0, services, {}, Reading(wait, 1000.0, 0, 1))
  {
    hide Reading;
  }

  lemma LastInTurn(jobs: seq<Job>, free: seq<Slot>, last: map<int, real>, stagger: real, services: Services,
                   up: set<int>, wait: nat -> real, t: real, ticks: nat)
    requires |jobs| == 2 && |free| == 1
    ensures JobsInTurn(jobs, free, last, stagger, services, up, wait, t, ticks) ==>
              RefusedAt(jobs[1], free[0], last, stagger, services, up, Reading(wait, t, ticks, ticks + 2))
  {
    hide Reading, RefusedAt;
    assert Times(1, 1) == 1;
    assert ticks + Times(1, |free|) + 0 + 1 == ticks + 2;
  }

  lemma SecondOfThree(jobs: seq<Job>, slots: seq<Slot>, wait: nat -> real, services: Services, k: nat, si: nat,
                      progressed: bool, launches: seq<Launch>, ready: set<int>, up: set<int>)
    requires |jobs| == 3 && NoServices(jobs) && |slots| == 1 && slots[0].node == 0 && forall i :: wait(i) == 3.0
    requires progressed ==>
               |launches| == 2
               && FirstThatFits(jobs, 1, k, slots, si, map[0 := 1006.0], 8.0, services, up, ready, wait, 1009.0, 3, launches[1])
    requires !progressed ==> JobsInTurn(jobs[1..], slots, map[0 := 1006.0], 8.0, services, up, wait, 1009.0, 3)
    ensures progressed && k == 2
  {
    hide Reading, JobsInTurn;
    assert Times(0, 1) == 0;
    assert Times(1, 1) == 1;
    ReadAt(wait, 1009.0, 3);
    LastInTurn(jobs[1..], slots, map[0 := 1006.0], 8.0, services, up, wait, 1009.0, 3);
    assert jobs[1..][1] == jobs[2];
  }

  lemma LeftInQueue(d: Dispatcher)
    requires d.Valid()
    ensures |d.queue| == |d.jobs| && d.qi <= |d.queue|
  {
    hide UniqueNames, NamesOf, RunningNames, Launched, Spaced, Served, Answered, Conserved;
    assert |d.queue| == |multiset(d.queue)| && |d.jobs| == |multiset(d.jobs)|;
  }

  lemma OneNodeCools(d: Dispatcher)
    requires d.Valid() && |d.slots| == 1 && |d.queue| == 2 == d.qi && Unbroken(d.launches, 0, d.poll)
    ensures d.stagger <= d.poll
  {
    hide Ledger, Conserved, Answered;
    var a, b := d.launches[0], d.launches[1];
    assert a in d.launches && b in d.launches;
    assert a.node == d.slots[0].node == b.node;
  }
}
