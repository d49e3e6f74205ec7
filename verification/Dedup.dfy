/** Attribute-diverse selection: the best crop of every attribute bucket first, then crops far enough from all
    kept so far, best quality first. */
module Dedup {
  import opened Basics
  import opened Sorting

  predicate IsKnown(part: string) { part != "" && part != "unknown" }

  function KnownParts(key: seq<string>): nat {
    if key == [] then 0
    else KnownParts(key[..|key| - 1]) + (if IsKnown(key[|key| - 1]) then 1 else 0)
  }

  ghost function KnownPlaces(key: seq<string>): set<nat> {
    set i: nat | i < |key| && |key[i]| > 0 && key[i] != "unknown"
  }

  lemma {:induction false} KnownPartsAre(key: seq<string>)
    ensures KnownParts(key) == |KnownPlaces(key)|
  {
    if key == [] {
      assert KnownPlaces(key) == {};
    } else {
      var n := |key| - 1;
      KnownPartsAre(key[..n]);
      assert KnownPlaces(key) == KnownPlaces(key[..n]) + (if IsKnown(key[n]) then {n} else {});
    }
  }

  /** The arguments of one selection. */
  datatype Pool<!V> = Pool(keys: seq<seq<string>>, vectors: Option<seq<V>>, quality: Option<seq<real>>,
                          maxKeep: int, minDistance: real, distance: (V, V) -> real)
  {
    function Quality(i: nat): real {
      if quality.Some? && i < |quality.value| then quality.value[i] else 0.0
    }

    function Known(i: nat): nat { if i < |keys| then KnownParts(keys[i]) else 0 }

    /** More known labels, then better quality, then the lower index. */
    predicate Beats(i: nat, j: nat) {
      Known(i) > Known(j)
      || (Known(i) == Known(j) && (Quality(i) > Quality(j) || (Quality(i) == Quality(j) && i < j)))
    }

    /** Better quality, then the lower index. */
    predicate Ranks(i: nat, j: nat) { Quality(i) > Quality(j) || (Quality(i) == Quality(j) && i < j) }

    /** The best of its bucket among the first `n`. */
    predicate Wins(i: nat, n: nat)
      requires n <= |keys|
    {
      i < n && forall j :: 0 <= j < n && keys[j] == keys[i] && j != i ==> Beats(i, j)
    }

    ghost function Winners(): set<nat> { set i: nat | i < |keys| && Wins(i, |keys|) }

    function Cap(): nat { if maxKeep <= 0 then 0 else maxKeep }

    function Distance(i: nat, j: nat): real
      requires vectors.Some? && i < |vectors.value| && j < |vectors.value|
    {
      distance(vectors.value[i], vectors.value[j])
    }

    /** `j` was kept by the time `i` is looked at. */
    ghost predicate Before(j: nat, i: nat) { j in Winners() || Ranks(j, i) }

    predicate Aligned() {
      (quality.Some? ==> |quality.value| == |keys|) && (vectors.Some? ==> |vectors.value| == |keys|)
    }

    /** What the selection promises of the set it keeps. */
    ghost predicate Diverse(kept: set<nat>)
      requires Aligned()
    {
      && (forall i :: i in kept ==> i < |keys|) && |kept| <= Cap()
      && (if |Winners()| >= Cap() then TopWinners(kept)
          else Winners() <= kept && if vectors.None? then kept == Winners() else Filled(kept))
    }

    /** Not all buckets fit: the best winners are kept, and no dropped one outranks a kept one. */
    ghost predicate TopWinners(kept: set<nat>) {
      kept <= Winners() && |kept| == Cap() && forall i, j :: i in kept && j in Winners() - kept ==> Beats(i, j)
    }

    /** The other slots: every filled index is far from all kept before it, and an index is left out only for
        being close to one of those or because the slots ran out before its turn. */
    ghost predicate Filled(kept: set<nat>)
      requires Aligned() && vectors.Some? && forall i :: i in kept ==> i < |keys|
    {
      && (forall f, j :: f in kept && f !in Winners() && j in kept && j != f && Before(j, f) ==>
            Distance(f, j) >= minDistance)
      && (forall i: nat :: i < |keys| && i !in kept ==> LeftOut(kept, i))
    }

    ghost predicate LeftOut(kept: set<nat>, i: nat)
      requires Aligned() && vectors.Some? && i < |keys| && forall j :: j in kept ==> j < |keys|
    {
      (exists j :: j in kept && Before(j, i) && Distance(i, j) < minDistance)
      || (|kept| == Cap() && forall f :: f in kept && f !in Winners() ==> Ranks(f, i))
    }
  }

  // ----- bucket winners -----

  /** `best_for_bucket` */
  method BestForBucket<V>(p: Pool<V>) returns (best: map<seq<string>, nat>)
    ensures forall i :: 0 <= i < |p.keys| ==> p.keys[i] in best
    ensures forall k :: k in best ==> p.Wins(best[k], |p.keys|) && p.keys[best[k]] == k
  {
    hide KnownParts;
    best := map[];
    for index := 0 to |p.keys|
      invariant forall i :: 0 <= i < index ==> p.keys[i] in best
      invariant forall k :: k in best ==> p.Wins(best[k], index) && p.keys[best[k]] == k
    {
      var key := p.keys[index];
      var prev := Get(best, key);
      if prev.None? {
        best := best[key := index];
      } else if p.Beats(index, prev.value) {
        best := best[key := index];
      }
    }
  }

  /** `sorted(best_for_bucket.values())` by rank */
  method BucketWinners<V>(p: Pool<V>) returns (ranked: seq<nat>)
    ensures Distinct(ranked) && forall i :: i in ranked <==> i in p.Winners()
    ensures forall k, l :: 0 <= k < l < |ranked| ==> p.Beats(ranked[k], ranked[l])
  {
    hide KnownParts, Sort, SortedBy;
    var best := BestForBucket(p);
    var values: seq<nat> := [];
    for i := 0 to |p.keys|
      invariant Distinct(values) && forall k :: 0 <= k < |values| ==> values[k] < i
      invariant forall x: nat :: x < i ==> (x in values <==> best[p.keys[x]] == x)
    {
      if best[p.keys[i]] == i { values := values + [i]; }
    }
    forall i: nat ensures i in values <==> i in p.Winners() {}
    ranked := Sort(values, (x: nat, y: nat) => x == y || p.Beats(x, y));
    RankedWinners(p, values);
  }

  lemma RankedWinners<V>(p: Pool<V>, values: seq<nat>)
    requires Distinct(values)
    ensures var ranked := Sort(values, (x: nat, y: nat) => x == y || p.Beats(x, y));
            && Distinct(ranked) && (forall i :: i in ranked <==> i in values)
            && forall k, l :: 0 <= k < l < |ranked| ==> p.Beats(ranked[k], ranked[l])
  {
    hide Sort, KnownParts;
    var le := (x: nat, y: nat) => x == y || p.Beats(x, y);
    SortSorts(values, le);
    SameElements(values, Sort(values, le));
    DistinctPermutes(values, Sort(values, le));
    forall k, l | 0 <= k < l < |Sort(values, le)| ensures p.Beats(Sort(values, le)[k], Sort(values, le)[l]) {
      assert le(Sort(values, le)[k], Sort(values, le)[l]);
    }
  }

  function Elements(s: seq<nat>): set<nat> { set x | x in s }

  lemma {:induction false} ElementsCount(s: seq<nat>)
    requires Distinct(s)
    ensures |Elements(s)| == |s|
  {
    if s != [] {
      var before := s[..|s| - 1];
      ElementsCount(before);
      assert s == before + [s[|s| - 1]];
      assert Elements(s) == Elements(before) + {s[|s| - 1]};
    }
  }

  /** The winner of a bucket has its best quality, and is the first that has. */
  lemma {:induction false} WinnerIsBest<V>(p: Pool<V>, i: nat)
    requires p.Aligned() && i in p.Winners()
    ensures forall j: nat :: j < |p.keys| && p.keys[j] == p.keys[i] && p.quality.Some? ==>
              p.quality.value[j] < p.quality.value[i] || (p.quality.value[j] == p.quality.value[i] && i <= j)
    ensures forall j: nat :: j < |p.keys| && p.keys[j] == p.keys[i] && p.quality.None? ==> i <= j
  {
    hide KnownParts;
  }

  /** When not all buckets fit, no bucket with fewer known labels is kept while one with more is dropped, and among
      those with as many the better quality decides. */
  lemma {:induction false} KnownBucketsFirst<V>(p: Pool<V>, kept: set<nat>, i: nat, j: nat)
    requires p.Aligned() && p.Diverse(kept) && |p.Winners()| >= p.Cap()
    requires i in kept && j in p.Winners() && j !in kept && i < |p.keys| && j < |p.keys|
    ensures |KnownPlaces(p.keys[i])| >= |KnownPlaces(p.keys[j])|
    ensures |KnownPlaces(p.keys[i])| == |KnownPlaces(p.keys[j])| && p.quality.Some? ==>
              p.quality.value[i] >= p.quality.value[j]
  {
    hide KnownParts, KnownPlaces;
    KnownPartsAre(p.keys[i]);
    KnownPartsAre(p.keys[j]);
    assert p.Beats(i, j);
  }

  // ----- filling the other slots -----

  /** What is left, best quality first. */
  method Remaining<V>(p: Pool<V>, kept: seq<nat>) returns (rest: seq<nat>)
    ensures Distinct(rest) && forall i: nat :: i in rest <==> i < |p.keys| && i !in kept
    ensures forall k, l :: 0 <= k < l < |rest| ==> p.Ranks(rest[k], rest[l])
  {
    hide Sort, SortedBy;
    var listed: seq<nat> := [];
    for i := 0 to |p.keys|
      invariant Distinct(listed) && forall x: nat :: x in listed <==> x < i && x !in kept
    {
      if i !in kept { listed := listed + [i]; }
    }
    rest := Sort(listed, (x: nat, y: nat) => x == y || p.Ranks(x, y));
    RankedRest(p, listed);
  }

  lemma RankedRest<V>(p: Pool<V>, listed: seq<nat>)
    requires Distinct(listed)
    ensures var rest := Sort(listed, (x: nat, y: nat) => x == y || p.Ranks(x, y));
            && Distinct(rest) && (forall i :: i in rest <==> i in listed)
            && forall k, l :: 0 <= k < l < |rest| ==> p.Ranks(rest[k], rest[l])
  {
    hide Sort;
    var le := (x: nat, y: nat) => x == y || p.Ranks(x, y);
    SortSorts(listed, le);
    SameElements(listed, Sort(listed, le));
    DistinctPermutes(listed, Sort(listed, le));
    forall k, l | 0 <= k < l < |Sort(listed, le)| ensures p.Ranks(Sort(listed, le)[k], Sort(listed, le)[l]) {
      assert le(Sort(listed, le)[k], Sort(listed, le)[l]);
    }
  }

  /** `min` over the kept ones; there always is one. */
  method Nearest<V>(p: Pool<V>, kept: seq<nat>, index: nat) returns (nearest: real)
    requires kept != [] && p.Aligned() && p.vectors.Some? && index < |p.keys|
    requires forall k :: 0 <= k < |kept| ==> kept[k] < |p.keys|
    ensures exists j :: j in kept && j < |p.keys| && nearest == p.Distance(index, j)
    ensures forall k :: 0 <= k < |kept| ==> nearest <= p.Distance(index, kept[k])
  {
    nearest := p.Distance(index, kept[0]);
    ghost var at := 0;
    for k := 1 to |kept|
      invariant at < |kept| && nearest == p.Distance(index, kept[at])
      invariant forall l :: 0 <= l < k ==> nearest <= p.Distance(index, kept[l])
    {
      var d := p.Distance(index, kept[k]);
      if d < nearest { nearest, at := d, k; }
    }
    assert kept[at] in kept;
  }

  /** How far the filling has come: the first `n` of `rest` have been looked at, with room left. */
  ghost predicate Filling<V>(p: Pool<V>, rest: seq<nat>, kept: set<nat>, n: nat)
    requires p.Aligned() && p.vectors.Some? && n <= |rest| && forall k :: 0 <= k < |rest| ==> rest[k] < |p.keys|
  {
    && (forall i :: i in kept ==> i < |p.keys|) && p.Winners() <= kept
    && (forall f :: f in kept && f !in p.Winners() ==> f in rest[..n])
    && (forall f, j :: f in kept && f !in p.Winners() && j in kept && j != f && p.Before(j, f) ==>
          p.Distance(f, j) >= p.minDistance)
    && (forall k :: 0 <= k < n && rest[k] !in kept ==> TooClose(p, kept, rest[k]))
  }

  ghost predicate TooClose<V>(p: Pool<V>, kept: set<nat>, i: nat)
    requires p.Aligned() && p.vectors.Some? && i < |p.keys| && forall j :: j in kept ==> j < |p.keys|
  {
    exists j :: j in kept && p.Before(j, i) && p.Distance(i, j) < p.minDistance
  }

  /** The list of what is left once the winners are kept. */
  ghost predicate IsRest<V>(p: Pool<V>, rest: seq<nat>) {
    && (forall i: nat :: i in rest <==> i < |p.keys| && i !in p.Winners())
    && (forall k, l :: 0 <= k < l < |rest| ==> p.Ranks(rest[k], rest[l]))
    && (forall k :: 0 <= k < |rest| ==> rest[k] < |p.keys|)
  }

  method Fill<V>(p: Pool<V>, winners: seq<nat>) returns (kept: seq<nat>)
    requires p.Aligned() && p.vectors.Some? && winners != [] && |winners| < p.maxKeep && Distinct(winners)
    requires forall i :: i in winners <==> i in p.Winners()
    ensures Distinct(kept) && p.Diverse(Elements(kept))
  {
    hide Filling, IsRest, Sort;
    kept := winners;
    var rest := Remaining(p, kept);
    RestIs(p, winners, rest);
    FillingStarts(p, winners, rest);
    var n := 0;
    while n < |rest| && |kept| < p.maxKeep
      invariant n <= |rest| && kept != [] && Distinct(kept) && |kept| <= p.maxKeep
      invariant forall k :: 0 <= k < |kept| ==> kept[k] < |p.keys|
      invariant Filling(p, rest, Elements(kept), n)
    {
      var index := rest[n];
      NotKeptYet(p, rest, kept, n);
      var nearest := Nearest(p, kept, index);
      if nearest >= p.minDistance {
        FillNext(p, rest, kept, n);
        kept := kept + [index];
      } else {
        SkipNext(p, rest, kept, n);
      }
      n := n + 1;
    }
    FillingEnds(p, winners, rest, kept, n);
  }

  lemma RestIs<V>(p: Pool<V>, winners: seq<nat>, rest: seq<nat>)
    requires forall i :: i in winners <==> i in p.Winners()
    requires forall i: nat :: i in rest <==> i < |p.keys| && i !in winners
    requires forall k, l :: 0 <= k < l < |rest| ==> p.Ranks(rest[k], rest[l])
    ensures IsRest(p, rest) && forall k :: 0 <= k < |rest| ==> rest[k] < |p.keys|
    ensures forall k :: 0 <= k < |winners| ==> winners[k] < |p.keys|
  {
    forall k | 0 <= k < |rest| ensures rest[k] < |p.keys| { assert rest[k] in rest; }
    forall k | 0 <= k < |winners| ensures winners[k] < |p.keys| { assert winners[k] in winners; }
  }

  lemma FillingStarts<V>(p: Pool<V>, winners: seq<nat>, rest: seq<nat>)
    requires p.Aligned() && p.vectors.Some? && IsRest(p, rest) && forall k :: 0 <= k < |rest| ==> rest[k] < |p.keys|
    requires forall i :: i in winners <==> i in p.Winners()
    ensures Filling(p, rest, Elements(winners), 0)
  {}

  lemma NotKeptYet<V>(p: Pool<V>, rest: seq<nat>, kept: seq<nat>, n: nat)
    requires p.Aligned() && p.vectors.Some? && IsRest(p, rest) && n < |rest|
    requires forall k :: 0 <= k < |rest| ==> rest[k] < |p.keys|
    requires Filling(p, rest, Elements(kept), n)
    ensures rest[n] !in kept && rest[n] !in p.Winners()
    ensures forall j :: j in kept ==> j in p.Winners() || (p.Ranks(j, rest[n]) && !p.Ranks(rest[n], j))
  {
    hide TooClose;
    assert rest[n] in rest;
    forall j | j in kept && j !in p.Winners() ensures p.Ranks(j, rest[n]) && j != rest[n] {
      assert j in Elements(kept);
      var k :| 0 <= k < n && rest[..n][k] == j;
      assert p.Ranks(rest[k], rest[n]);
    }
  }

  lemma FillNext<V>(p: Pool<V>, rest: seq<nat>, kept: seq<nat>, n: nat)
    requires p.Aligned() && p.vectors.Some? && IsRest(p, rest) && n < |rest|
    requires forall k :: 0 <= k < |rest| ==> rest[k] < |p.keys|
    requires forall k :: 0 <= k < |kept| ==> kept[k] < |p.keys|
    requires Filling(p, rest, Elements(kept), n)
    requires forall k :: 0 <= k < |kept| ==> p.minDistance <= p.Distance(rest[n], kept[k])
    ensures Filling(p, rest, Elements(kept + [rest[n]]), n + 1)
    ensures Distinct(kept) ==> Distinct(kept + [rest[n]])
  {
    var index, more := rest[n], Elements(kept + [rest[n]]);
    NotKeptYet(p, rest, kept, n);
    assert more == Elements(kept) + {index};
    assert rest[..n + 1] == rest[..n] + [index];
    forall f, j | f in more && f !in p.Winners() && j in more && j != f && p.Before(j, f)
      ensures p.Distance(f, j) >= p.minDistance
    {
      if f == index { assert j in kept; }
    }
    forall k | 0 <= k < n + 1 && rest[k] !in more ensures TooClose(p, more, rest[k]) {
      assert TooClose(p, Elements(kept), rest[k]);
    }
  }

  lemma SkipNext<V>(p: Pool<V>, rest: seq<nat>, kept: seq<nat>, n: nat)
    requires p.Aligned() && p.vectors.Some? && IsRest(p, rest) && n < |rest|
    requires forall k :: 0 <= k < |rest| ==> rest[k] < |p.keys|
    requires forall k :: 0 <= k < |kept| ==> kept[k] < |p.keys|
    requires Filling(p, rest, Elements(kept), n)
    requires exists j :: j in kept && j < |p.keys| && p.Distance(rest[n], j) < p.minDistance
    ensures Filling(p, rest, Elements(kept), n + 1)
  {
    hide Filling;
    NotKeptYet(p, rest, kept, n);
    var j :| j in kept && j < |p.keys| && p.Distance(rest[n], j) < p.minDistance;
    assert j in Elements(kept) && p.Before(j, rest[n]);
    hide IsRest;
    SkipTooClose(p, rest, Elements(kept), n);
  }

  lemma SkipTooClose<V>(p: Pool<V>, rest: seq<nat>, kept: set<nat>, n: nat)
    requires p.Aligned() && p.vectors.Some? && n < |rest|
    requires forall k :: 0 <= k < |rest| ==> rest[k] < |p.keys|
    requires forall j :: j in kept ==> j < |p.keys|
    requires Filling(p, rest, kept, n) && TooClose(p, kept, rest[n])
    ensures Filling(p, rest, kept, n + 1)
  {
    hide TooClose;
    assert rest[..n + 1] == rest[..n] + [rest[n]];
  }

  lemma FillingEnds<V>(p: Pool<V>, winners: seq<nat>, rest: seq<nat>, kept: seq<nat>, n: nat)
    requires p.Aligned() && p.vectors.Some? && IsRest(p, rest) && n <= |rest|
    requires forall k :: 0 <= k < |rest| ==> rest[k] < |p.keys|
    requires Filling(p, rest, Elements(kept), n) && Distinct(kept) && |kept| <= p.maxKeep
    requires n == |rest| || |kept| >= p.maxKeep
    requires Distinct(winners) && |winners| < p.maxKeep && forall i :: i in winners <==> i in p.Winners()
    ensures p.Diverse(Elements(kept))
  {
    var all := Elements(kept);
    ElementsCount(kept);
    ElementsCount(winners);
    assert Elements(winners) == p.Winners();
    forall i: nat | i < |p.keys| && i !in all ensures p.LeftOut(all, i) {
      assert i in rest;
      var k :| 0 <= k < |rest| && rest[k] == i;
      if k < n {
        assert TooClose(p, all, rest[k]);
      } else {
        forall f | f in all && f !in p.Winners() ensures p.Ranks(f, i) {
          var l :| 0 <= l < n && rest[..n][l] == f;
          assert p.Ranks(rest[l], rest[k]);
        }
      }
    }
  }

  // ----- the selection -----

  datatype Misaligned = QualityMisaligned | VectorsMisaligned

  predicate Increasing(s: seq<nat>) { forall i, j :: 0 <= i < j < |s| ==> s[i] < s[j] }

  function Sorted(kept: seq<nat>): seq<nat> { Sort(kept, (x: nat, y: nat) => x <= y) }

  lemma SortedIncreases(kept: seq<nat>)
    requires Distinct(kept)
    ensures Increasing(Sorted(kept)) && Elements(Sorted(kept)) == Elements(kept)
  {
    hide Sort;
    var le := (x: nat, y: nat) => x <= y;
    assert TotalPreorder(le);
    SortSorts(kept, le);
    SameElements(kept, Sort(kept, le));
    DistinctPermutes(kept, Sort(kept, le));
    forall i, j | 0 <= i < j < |Sorted(kept)| ensures Sorted(kept)[i] < Sorted(kept)[j] {
      assert le(Sorted(kept)[i], Sorted(kept)[j]);
    }
  }

  lemma TopAreDiverse<V>(p: Pool<V>, ranked: seq<nat>, kept: seq<nat>)
    requires p.Aligned() && Distinct(ranked) && forall i :: i in ranked <==> i in p.Winners()
    requires forall k, l :: 0 <= k < l < |ranked| ==> p.Beats(ranked[k], ranked[l])
    requires kept == ranked[..if |ranked| < p.Cap() then |ranked| else p.Cap()]
    requires |ranked| >= p.Cap() || p.vectors.None?
    ensures Distinct(kept) && p.Diverse(Elements(kept))
  {
    hide KnownParts;
    ElementsCount(ranked);
    ElementsCount(kept);
    assert Elements(ranked) == p.Winners();
    forall i, j | i in kept && j in p.Winners() - Elements(kept) ensures p.Beats(i, j) {
      var k :| 0 <= k < |kept| && kept[k] == i;
    }
    if |ranked| < p.Cap() {
      assert kept == ranked;
    } else {
      assert forall i :: i in kept ==> i in ranked;
      assert Elements(kept) <= p.Winners();
    }
  }

  /** `select_attribute_diverse` */
  method SelectAttributeDiverse<V>(p: Pool<V>) returns (r: Result<seq<nat>, Misaligned>)
    ensures p.keys == [] ==> r == Ok([])
    ensures r.Err? <==> p.keys != [] && !p.Aligned()
    ensures r.Err? ==> (r.error.QualityMisaligned? <==> p.quality.Some? && |p.quality.value| != |p.keys|)
    ensures r.Ok? && p.keys != [] ==> Increasing(r.value) && p.Diverse(Elements(r.value))
  {
    hide Sort, Sorted, KnownParts;
    if p.keys == [] { return Ok([]); }
    if p.quality.Some? && |p.quality.value| != |p.keys| { return Err(QualityMisaligned); }
    if p.vectors.Some? && |p.vectors.value| != |p.keys| { return Err(VectorsMisaligned); }
    if p.maxKeep <= 0 {
      return Ok([]);
    }
    var ranked := BucketWinners(p);
    var kept: seq<nat> := [];
    var k := 0;
    while k < |ranked| && |kept| < p.maxKeep
      invariant k <= |ranked| && kept == ranked[..k] && k <= p.maxKeep
    {
      kept := kept + [ranked[k]];
      k := k + 1;
    }
    if |kept| >= p.maxKeep || p.vectors.None? {
      TopAreDiverse(p, ranked, kept);
      SortedIncreases(kept);
      return Ok(Sorted(kept));
    }
    SomeoneWins(p);
    assert kept == ranked;
    kept := Fill(p, kept);
    SortedIncreases(kept);
    return Ok(Sorted(kept));
  }

  /** The first bucket has a winner, so `min` is never asked for the least of nothing. */
  lemma {:induction false} SomeoneWins<V>(p: Pool<V>)
    requires p.keys != []
    ensures p.Winners() != {}
  {
    hide KnownParts;
    var best := 0;
    for i := 1 to |p.keys|
      invariant best < i && p.Wins(best, i)
    {
      if p.keys[i] == p.keys[best] && p.Beats(i, best) { best := i; }
    }
    assert best in p.Winners();
  }

  // ----- the promise determines the selection -----

  lemma Difference(a: set<nat>, b: set<nat>, i: nat)
    requires |a| == |b| && i in a && i !in b
    ensures exists j :: j in b && j !in a
  {
    if forall j :: j in b ==> j in a {
      assert b <= a - {i};
      SubsetCount(b, a - {i});
    }
  }

  lemma OneBeats<V>(p: Pool<V>, i: nat, j: nat)
    ensures !(p.Beats(i, j) && p.Beats(j, i))
  {
    hide KnownParts;
  }

  lemma TopWinnersAreOne<V>(p: Pool<V>, a: set<nat>, b: set<nat>)
    requires p.TopWinners(a) && p.TopWinners(b)
    ensures a <= b
  {
    hide KnownParts;
    forall i | i in a ensures i in b {
      if i !in b {
        Difference(a, b, i);
        var j :| j in b && j !in a;
        OneBeats(p, i, j);
      }
    }
  }

  ghost function Ahead<V>(p: Pool<V>, i: nat): set<nat> { set j: nat | j < |p.keys| && p.Ranks(j, i) }

  lemma AheadShrinks<V>(p: Pool<V>, j: nat, i: nat)
    requires j < |p.keys| && p.Ranks(j, i)
    ensures |Ahead(p, j)| < |Ahead(p, i)|
  {
    assert Ahead(p, j) <= Ahead(p, i) - {j};
    SubsetCount(Ahead(p, j), Ahead(p, i) - {j});
  }

  /** Two fillings agree on every index, taken in the order of rank. */
  lemma {:induction false} FillingsAgree<V>(p: Pool<V>, a: set<nat>, b: set<nat>, i: nat)
    requires p.Aligned() && p.vectors.Some? && i < |p.keys|
    requires p.Diverse(a) && p.Diverse(b) && |p.Winners()| < p.Cap()
    ensures i in a <==> i in b
    decreases |Ahead(p, i)|
  {
    hide KnownParts;
    forall j: nat | j < |p.keys| && p.Ranks(j, i) ensures j in a <==> j in b {
      AheadShrinks(p, j, i);
      FillingsAgree(p, a, b, j);
    }
    if i in a && i !in b { NotOnlyInOne(p, a, b, i); }
    if i in b && i !in a { NotOnlyInOne(p, b, a, i); }
  }

  lemma NotOnlyInOne<V>(p: Pool<V>, a: set<nat>, b: set<nat>, i: nat)
    requires p.Aligned() && p.vectors.Some? && i < |p.keys|
    requires p.Diverse(a) && p.Diverse(b) && |p.Winners()| < p.Cap()
    requires forall j: nat :: j < |p.keys| && p.Ranks(j, i) ==> (j in a <==> j in b)
    requires i !in b
    ensures i !in a
  {
    hide KnownParts;
    assert p.LeftOut(b, i);
    if i in a {
      if |b| == p.Cap() && forall f :: f in b && f !in p.Winners() ==> p.Ranks(f, i) {
        assert b <= a - {i};
        SubsetCount(b, a - {i});
      }
    }
  }

  /** Whatever keeps the promise keeps the same indices. */
  lemma {:induction false} SelectionIsDetermined<V>(p: Pool<V>, a: set<nat>, b: set<nat>)
    requires p.Aligned() && p.Diverse(a) && p.Diverse(b)
    ensures a == b
  {
    hide KnownParts;
    if |p.Winners()| >= p.Cap() {
      TopWinnersAreOne(p, a, b);
      TopWinnersAreOne(p, b, a);
    } else if p.vectors.Some? {
      forall i: nat ensures i in a <==> i in b {
        if i < |p.keys| { FillingsAgree(p, a, b, i); }
      }
    }
  }

  /** With a symmetric distance, filled indices are far from every other kept one. */
  lemma FilledAreFarApart<V>(p: Pool<V>, kept: set<nat>, f: nat, j: nat)
    requires p.Aligned() && p.vectors.Some? && p.Diverse(kept) && |p.Winners()| < p.Cap()
    requires forall x, y :: p.distance(x, y) == p.distance(y, x)
    requires f in kept && j in kept && f != j && f !in p.Winners()
    ensures p.Distance(f, j) >= p.minDistance
  {
    hide KnownParts;
    assert p.Before(j, f) || p.Before(f, j);
  }
}
