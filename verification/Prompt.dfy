/** `render_segment`: appearance texts spliced into the authored action, each behind the name of the
    entity it reveals. */
module Prompt {
  import opened Basics
  import opened Sorting
  import opened Timeline

  datatype Reveal = Reveal(name: string, eid: string, desc: string)

  datatype Insertion = Insertion(pos: nat, text: string)

  // ----- finding names -----

  predicate Overlap(s: nat, e: nat, s': nat, e': nat) { s < e' && s' < e }

  /** Where each of the first `k` looks was placed. */
  type Places = seq<Option<nat>>

  /** A span [i, end) touches none of the names placed so far. */
  predicate Free(looks: seq<Reveal>, at: Places, i: nat, end: nat)
    requires |at| <= |looks|
  {
    forall k :: 0 <= k < |at| && at[k].Some? ==>
      !Overlap(at[k].value, at[k].value + |looks[k].name|, i, end)
  }

  /** A spot for the next reveal's name: an occurrence that is clear of every earlier one. */
  predicate Spot(action: string, looks: seq<Reveal>, at: Places, name: string, i: int)
    requires |at| <= |looks|
  {
    0 <= i && OccursAt(action, name, i) && Free(looks, at, i, i + |name|)
  }

  /** The `p`-th character is one of the `n` from `i` on. */
  predicate Inside(p: int, i: int, n: nat) { i <= p < i + n }

  /** A spot is where the name reads in the action, on characters none of which belongs to a name placed before. */
  lemma {:induction false} SpotIs(action: string, looks: seq<Reveal>, at: Places, name: string, i: int)
    requires |at| <= |looks| && |name| > 0 && forall k :: 0 <= k < |looks| ==> |looks[k].name| > 0
    ensures Spot(action, looks, at, name, i) <==>
            && 0 <= i && i + |name| <= |action| && action[i..i + |name|] == name
            && forall k, p: int :: 0 <= k < |at| && at[k].Some? && Inside(p, at[k].value, |looks[k].name|) ==>
                 !Inside(p, i, |name|)
  {
    OccursMeans(action, name, i);
    if 0 <= i && i + |name| <= |action| {
      forall k | 0 <= k < |at| && at[k].Some?
        ensures Overlap(at[k].value, at[k].value + |looks[k].name|, i, i + |name|)
                <==> exists p: int :: Inside(p, at[k].value, |looks[k].name|) && Inside(p, i, |name|)
      {
        SharedCharacter(at[k].value, |looks[k].name|, i, |name|);
      }
    }
  }

  lemma OccursMeans(action: string, name: string, i: int)
    ensures OccursAt(action, name, i) <==> 0 <= i && i + |name| <= |action| && action[i..i + |name|] == name
  {
    if 0 <= i && i + |name| <= |action| { assert action[i..][..|name|] == action[i..i + |name|]; }
    if OccursAt(action, name, i) { assert name == action[i..][..|name|]; }
  }

  lemma SharedCharacter(s: nat, m: nat, i: nat, n: nat)
    requires m > 0 && n > 0
    ensures Overlap(s, s + m, i, i + n) <==> exists p: int :: Inside(p, s, m) && Inside(p, i, n)
  {
    if Overlap(s, s + m, i, i + n) {
      var p := if s < i then i else s;
      assert Inside(p, s, m) && Inside(p, i, n);
    }
  }

  /** Every reveal sits on the leftmost spot that the earlier ones left, or there is none. */
  ghost predicate Leftmost(action: string, looks: seq<Reveal>, at: Places)
    requires |at| <= |looks|
  {
    forall k :: 0 <= k < |at| ==>
      match at[k]
      case Some(i) => Spot(action, looks, at[..k], looks[k].name, i)
                      && forall h :: 0 <= h < i ==> !Spot(action, looks, at[..k], looks[k].name, h)
      case None => forall h: int :: !Spot(action, looks, at[..k], looks[k].name, h)
  }

  /** `action.find(name, start)`. */
  function Find(action: string, name: string, start: nat): (r: Option<nat>)
    ensures r.Some? ==> r.value >= start && OccursAt(action, name, r.value)
    ensures r.Some? ==> forall h :: start <= h < r.value ==> !OccursAt(action, name, h)
    ensures r.None? ==> forall h :: start <= h ==> !OccursAt(action, name, h)
    decreases |action| - start
  {
    if start > |action| then None
    else if OccursAt(action, name, start) then Some(start)
    else Find(action, name, start + 1)
  }

  method Place(action: string, looks: seq<Reveal>, at: Places, name: string) returns (r: Option<nat>)
    requires |at| <= |looks|
    ensures r.Some? ==> Spot(action, looks, at, name, r.value)
                        && forall h :: 0 <= h < r.value ==> !Spot(action, looks, at, name, h)
    ensures r.None? ==> forall h: int :: !Spot(action, looks, at, name, h)
  {
    var start := 0;
    while true
      invariant start <= |action| + 1
      invariant forall h :: 0 <= h < start ==> !Spot(action, looks, at, name, h)
      decreases |action| + 1 - start
    {
      var idx := Find(action, name, start);
      if idx.None? { return None; }
      if Free(looks, at, idx.value, idx.value + |name|) { return idx; }
      start := idx.value + 1;
    }
  }

  predicate LongerFirst(a: Reveal, b: Reveal) { |a.name| >= |b.name| }

  method PlaceAll(action: string, looks: seq<Reveal>) returns (at: Places)
    ensures |at| == |looks| && Leftmost(action, looks, at)
  {
    at := [];
    for k := 0 to |looks|
      invariant |at| == k && Leftmost(action, looks, at)
    {
      var r := Place(action, looks, at, looks[k].name);
      forall h | 0 <= h < k ensures (at + [r])[..h] == at[..h] {}
      assert (at + [r])[..k] == at;
      at := at + [r];
    }
  }

  /** Placed names never share a character. */
  lemma {:induction false} PlacedNamesAreDisjoint(action: string, looks: seq<Reveal>, at: Places, j: nat, k: nat)
    requires |at| <= |looks| && Leftmost(action, looks, at)
    requires j < k < |at| && at[j].Some? && at[k].Some?
    ensures !Overlap(at[j].value, at[j].value + |looks[j].name|, at[k].value, at[k].value + |looks[k].name|)
    ensures at[j].value + |looks[j].name| <= |action|
  {
    assert at[..k][j] == at[j];
    assert Spot(action, looks, at[..j], looks[j].name, at[j].value);
    assert Spot(action, looks, at[..k], looks[k].name, at[k].value);
  }

  /** The leftmost rule leaves no choice. */
  lemma {:induction false} LeftmostIsUnique(action: string, looks: seq<Reveal>, at: Places, bt: Places)
    requires |at| == |bt| <= |looks| && Leftmost(action, looks, at) && Leftmost(action, looks, bt)
    ensures at == bt
  {
    if at != [] {
      var n := |at| - 1;
      forall k | 0 <= k < n ensures at[..n][..k] == at[..k] && bt[..n][..k] == bt[..k] {}
      LeftmostIsUnique(action, looks, at[..n], bt[..n]);
      assert at[..n] == bt[..n];
      var name := looks[n].name;
      if at[n].Some? { assert Spot(action, looks, at[..n], name, at[n].value); }
      if bt[n].Some? { assert Spot(action, looks, at[..n], name, bt[n].value); }
      assert at[n] == bt[n];
      assert at == at[..n] + [at[n]] && bt == bt[..n] + [bt[n]];
    }
  }

  // ----- splicing -----

  function InsertionsUpTo(looks: seq<Reveal>, at: Places, k: nat): (r: seq<Insertion>)
    requires |at| == |looks| && k <= |at|
    ensures forall x :: x in r <==>
              exists j :: 0 <= j < k && at[j].Some? && x == InsertionOf(looks[j], at[j].value)
  {
    if k == 0 then []
    else InsertionsUpTo(looks, at, k - 1)
         + (if at[k - 1].Some? then [InsertionOf(looks[k - 1], at[k - 1].value)] else [])
  }

  /** The text goes behind the name, in brackets. */
  function InsertionOf(r: Reveal, i: nat): Insertion {
    Insertion(i + |r.name|, ['\U{FF08}'] + r.desc + ['\U{FF09}'])
  }

  predicate LaterFirst(a: Insertion, b: Insertion) { a.pos >= b.pos }

  predicate Within(action: string, ins: seq<Insertion>) { forall x :: x in ins ==> x.pos <= |action| }

  predicate Ascending(from: nat, ins: seq<Insertion>) {
    && (forall k :: 0 <= k < |ins| ==> from <= ins[k].pos)
    && (forall j, k :: 0 <= j < k < |ins| ==> ins[j].pos <= ins[k].pos)
  }

  /** The action cut at the insertion points, with the texts in the gaps. */
  function Weave(action: string, from: nat, ins: seq<Insertion>): string
    requires from <= |action| && Within(action, ins) && Ascending(from, ins)
    decreases |ins|
  {
    if ins == [] then action[from..]
    else
      assert ins[0] in ins;
      action[from..ins[0].pos] + ins[0].text + Weave(action, ins[0].pos, ins[1..])
  }

  /** Takes the inserted texts out again. */
  function Unweave(prompt: string, from: nat, ins: seq<Insertion>): string
    requires Ascending(from, ins)
    decreases |ins|
  {
    if ins == [] then prompt
    else
      var cut := ins[0].pos - from;
      if cut + |ins[0].text| > |prompt| then prompt
      else prompt[..cut] + Unweave(prompt[cut + |ins[0].text|..], ins[0].pos, ins[1..])
  }

  /** The first insertion lies ahead of the rest. */
  lemma HeadAndTail(action: string, from: nat, ins: seq<Insertion>)
    requires from <= |action| && Within(action, ins) && Ascending(from, ins) && ins != []
    ensures from <= ins[0].pos <= |action| && Within(action, ins[1..]) && Ascending(ins[0].pos, ins[1..])
  {
    assert ins[0] in ins;
    assert forall x :: x in ins[1..] ==> x in ins;
  }

  lemma CutOut(before: string, text: string, rest: string)
    ensures var all := before + text + rest;
            all[..|before|] == before && all[|before| + |text|..] == rest
  {}

  lemma SplitAt(action: string, a: nat, b: nat)
    requires a <= b <= |action|
    ensures action[a..] == action[a..b] + action[b..]
  {}

  lemma {:induction false} UnweaveRestores(action: string, from: nat, ins: seq<Insertion>)
    requires from <= |action| && Within(action, ins) && Ascending(from, ins)
    ensures Unweave(Weave(action, from, ins), from, ins) == action[from..]
    decreases |ins|
  {
    hide Within, Ascending;
    if ins != [] {
      var x := ins[0];
      HeadAndTail(action, from, ins);
      UnweaveRestores(action, x.pos, ins[1..]);
      CutOut(action[from..x.pos], x.text, Weave(action, x.pos, ins[1..]));
      SplitAt(action, from, x.pos);
    }
  }

  lemma WeaveHead(action: string, from: nat, ins: seq<Insertion>)
    requires from <= |action| && Within(action, ins) && Ascending(from, ins) && ins != []
    requires from <= ins[0].pos <= |action| && Within(action, ins[1..]) && Ascending(ins[0].pos, ins[1..])
    ensures Weave(action, from, ins) == action[from..ins[0].pos] + ins[0].text + Weave(action, ins[0].pos, ins[1..])
  {
    hide Within, Ascending;
  }

  lemma Regroup(action: string, from: nat, to: nat, p: nat, text: string, rest: string)
    requires from <= to <= p <= |action|
    ensures action[from..p] + text + rest == action[from..to] + (action[to..p] + text + rest)
  {}

  lemma {:induction false} WeaveFrom(action: string, from: nat, to: nat, ins: seq<Insertion>)
    requires from <= to <= |action| && Within(action, ins) && Ascending(to, ins)
    ensures Ascending(from, ins)
    ensures Weave(action, from, ins) == action[from..to] + Weave(action, to, ins)
  {
    AscendingFrom(from, to, ins);
    hide Within, Ascending;
    if ins == [] {
      SplitAt(action, from, to);
    } else {
      HeadAndTail(action, from, ins);
      HeadAndTail(action, to, ins);
      WeaveHead(action, from, ins);
      WeaveHead(action, to, ins);
      hide Weave;
      Regroup(action, from, to, ins[0].pos, ins[0].text, Weave(action, ins[0].pos, ins[1..]));
    }
  }

  lemma AscendingFrom(from: nat, to: nat, ins: seq<Insertion>)
    requires from <= to && Ascending(to, ins)
    ensures Ascending(from, ins)
  {}

  function Reverse<T>(s: seq<T>): (r: seq<T>)
    ensures |r| == |s| && forall k :: 0 <= k < |s| ==> r[k] == s[|s| - 1 - k]
  {
    if s == [] then [] else [s[|s| - 1]] + Reverse(s[..|s| - 1])
  }

  lemma ReversedAscends(action: string, ins: seq<Insertion>, k: nat)
    requires Within(action, ins) && SortedBy(ins, LaterFirst) && k <= |ins|
    ensures Within(action, Reverse(ins[..k]))
    ensures Ascending(if k == 0 then |action| else ins[k - 1].pos, Reverse(ins[..k]))
  {
    var r := Reverse(ins[..k]);
    forall x | x in r ensures x in ins {
      var j :| 0 <= j < |r| && r[j] == x;
      assert r[j] == ins[k - 1 - j];
    }
    forall i, j | 0 <= i < j < |r| ensures r[i].pos <= r[j].pos {
      assert LaterFirst(ins[k - 1 - j], ins[k - 1 - i]);
    }
    forall j | 0 <= j < |r| ensures ins[k - 1].pos <= r[j].pos {
      assert j > 0 ==> LaterFirst(ins[k - 1 - j], ins[k - 1]);
    }
  }

  /** Right-to-left insertion gives the action cut at the insertion points. */
  method Splice(action: string, ins: seq<Insertion>) returns (prompt: string)
    requires Within(action, ins) && SortedBy(ins, LaterFirst)
    ensures Within(action, Reverse(ins)) && Ascending(0, Reverse(ins))
    ensures prompt == Weave(action, 0, Reverse(ins))
  {
    hide Reverse, Within, Ascending, SortedBy;
    prompt := action;
    ghost var at := |action|;
    ReversedAscends(action, ins, 0);
    assert prompt == action[..at] + Weave(action, at, Reverse(ins[..0])) by { EmptyReverse(ins[..0]); }
    for k := 0 to |ins|
      invariant at == if k == 0 then |action| else ins[k - 1].pos
      invariant at <= |action|
      invariant Within(action, Reverse(ins[..k])) && Ascending(at, Reverse(ins[..k]))
      invariant prompt == action[..at] + Weave(action, at, Reverse(ins[..k]))
    {
      var x := ins[k];
      SpliceStep(action, ins, k, at);
      prompt := prompt[..x.pos] + x.text + prompt[x.pos..];
      at := x.pos;
    }
    assert ins[..|ins|] == ins;
    WeaveFrom(action, 0, at, Reverse(ins));
  }

  lemma EmptyReverse(s: seq<Insertion>)
    requires s == []
    ensures Reverse(s) == []
  {}

  lemma WeavePrepend(action: string, x: Insertion, rest: seq<Insertion>)
    requires x.pos <= |action| && Within(action, rest) && Ascending(x.pos, rest)
    requires Within(action, [x] + rest) && Ascending(x.pos, [x] + rest)
    ensures Weave(action, x.pos, [x] + rest) == x.text + Weave(action, x.pos, rest)
  {
    hide Within, Ascending;
    assert ([x] + rest)[1..] == rest;
    assert action[x.pos..x.pos] == "";
  }

  lemma SpliceStep(action: string, ins: seq<Insertion>, k: nat, at: nat)
    requires Within(action, ins) && SortedBy(ins, LaterFirst) && k < |ins|
    requires at == if k == 0 then |action| else ins[k - 1].pos
    requires at <= |action| && Within(action, Reverse(ins[..k])) && Ascending(at, Reverse(ins[..k]))
    ensures var x := ins[k];
            var was := action[..at] + Weave(action, at, Reverse(ins[..k]));
            && x.pos <= at
            && Within(action, Reverse(ins[..k + 1])) && Ascending(x.pos, Reverse(ins[..k + 1]))
            && was[..x.pos] + x.text + was[x.pos..] == action[..x.pos] + Weave(action, x.pos, Reverse(ins[..k + 1]))
  {
    hide Weave, Ascending, SortedBy, Within;
    var x := ins[k];
    WithinAt(action, ins, k);
    SortedPair(ins, k);
    ReversedAscends(action, ins, k + 1);
    var rest := Reverse(ins[..k]);
    ReverseTakesNext(ins, k);
    WeaveFrom(action, x.pos, at, rest);
    WeavePrepend(action, x, rest);
    JoinThenInsert(action, x.pos, at, Weave(action, at, rest), x.text);
  }

  lemma WithinAt(action: string, ins: seq<Insertion>, k: nat)
    requires Within(action, ins) && k < |ins|
    ensures ins[k].pos <= |action|
  {}

  lemma ReverseTakesNext(ins: seq<Insertion>, k: nat)
    requires k < |ins|
    ensures Reverse(ins[..k + 1]) == [ins[k]] + Reverse(ins[..k])
  {
    assert ins[..k + 1][..k] == ins[..k];
  }

  lemma JoinThenInsert(action: string, p: nat, at: nat, tail: string, text: string)
    requires p <= at <= |action|
    ensures var was := action[..at] + tail;
            was[..p] + text + was[p..] == action[..p] + (text + (action[p..at] + tail))
  {
    var was := action[..at] + tail;
    assert was[..p] == action[..p];
    assert was[p..] == action[p..at] + tail;
  }

  lemma SortedPair(ins: seq<Insertion>, k: nat)
    requires SortedBy(ins, LaterFirst) && k < |ins|
    ensures k > 0 ==> ins[k].pos <= ins[k - 1].pos
  {
    assert k > 0 ==> LaterFirst(ins[k - 1], ins[k]);
  }

  lemma LaterFirstIsTotal()
    ensures TotalPreorder(LaterFirst)
  {}

  // ----- a segment's prompt -----

  /** Cast members that introduce or transform and are not forbidden. */
  function RevealsOf(seg: GoldSegment, gold: Gold, desc: Entry -> string, k: nat): seq<Reveal>
    requires k <= |seg.cast|
  {
    if k == 0 then []
    else
      var c := seg.cast[k - 1];
      RevealsOf(seg, gold, desc, k - 1)
      + (if (forall f :: f in seg.forbidden ==> f.eid != c.eid) && (c.op.Introduce? || c.op.Transform?)
            && c.eid in gold.entities
         then [Reveal(gold.entities[c.eid].name, c.eid, desc(c))] else [])
  }

  ghost function Revealing(seg: GoldSegment, gold: Gold): nat -> bool {
    (p: nat) => p < |seg.cast| && (seg.cast[p].op == Introduce || seg.cast[p].op == Transform)
                && seg.cast[p].eid in gold.entities && forall f :: f in seg.forbidden ==> f.eid != seg.cast[p].eid
  }

  /** One reveal for each cast entry that introduces or transforms a registered entity that is not forbidden. */
  lemma {:induction false} RevealsMean(seg: GoldSegment, gold: Gold, desc: Entry -> string, n: nat)
    returns (places: seq<nat>)
    requires n <= |seg.cast|
    ensures PlacesOf(places, n, Revealing(seg, gold))
    ensures var shown := RevealsOf(seg, gold, desc, n);
            |shown| == |places| && forall k :: 0 <= k < |places| ==>
              places[k] < |seg.cast| && seg.cast[places[k]].eid in gold.entities
              && var c := seg.cast[places[k]]; shown[k] == Reveal(gold.entities[c.eid].name, c.eid, desc(c))
  {
    hide PlacesOf;
    if n == 0 {
      places := [];
      NoPlaces(Revealing(seg, gold));
    } else {
      places := RevealsMean(seg, gold, desc, n - 1);
      PlacesStep(places, n - 1, Revealing(seg, gold));
      if Revealing(seg, gold)(n - 1) { places := places + [n - 1]; }
    }
  }

  /** The longest names come first, and names of one length in the order of the cast. */
  lemma {:induction false} LongestFirst(shown: seq<Reveal>, n: nat)
    ensures var looks := Sort(shown, LongerFirst);
            && multiset(looks) == multiset(shown)
            && (forall a, b :: 0 <= a < b < |looks| ==> |looks[a].name| >= |looks[b].name|)
            && Filter(looks, (x: Reveal) => |x.name| == n) == Filter(shown, (x: Reveal) => |x.name| == n)
  {
    assert TotalPreorder(LongerFirst);
    SortSorts(shown, LongerFirst);
    SortIsStable(shown, LongerFirst, (x: Reveal) => |x.name| == n);
    var looks := Sort(shown, LongerFirst);
    forall a, b | 0 <= a < b < |looks| ensures |looks[a].name| >= |looks[b].name| {
      assert LongerFirst(looks[a], looks[b]);
    }
  }

  // ----- where the texts stand -----

  /** How much is inserted ahead of insertion `k`. */
  function Ahead(ins: seq<Insertion>, k: nat): nat
    requires k <= |ins|
  {
    if k == 0 then 0 else Ahead(ins, k - 1) + |ins[k - 1].text|
  }

  lemma {:induction false} AheadOfRest(ins: seq<Insertion>, k: nat)
    requires 0 < k <= |ins|
    ensures Ahead(ins, k) == |ins[0].text| + Ahead(ins[1..], k - 1)
  {
    if k > 1 { AheadOfRest(ins, k - 1); }
  }

  predicate StandsAt(text: string, prompt: string, at: nat) {
    at + |text| <= |prompt| && prompt[at..at + |text|] == text
  }

  /** Each text stands at its own place, moved by what is inserted ahead of it. */
  lemma {:induction false} WovenAt(action: string, from: nat, ins: seq<Insertion>, k: nat)
    requires from <= |action| && Within(action, ins) && Ascending(from, ins) && k < |ins|
    ensures ins[k].pos >= from
    ensures StandsAt(ins[k].text, Weave(action, from, ins), ins[k].pos - from + Ahead(ins, k))
    decreases |ins|
  {
    hide Within, Ascending, StandsAt;
    HeadAndTail(action, from, ins);
    var x, rest := ins[0], Weave(action, ins[0].pos, ins[1..]);
    if k == 0 {
      StandsHere(x.text, action[from..x.pos], rest);
    } else {
      WovenAt(action, x.pos, ins[1..], k - 1);
      AheadOfRest(ins, k);
      StandsLater(ins[k].text, action[from..x.pos] + x.text, rest, ins[k].pos - x.pos + Ahead(ins[1..], k - 1));
    }
  }

  lemma StandsHere(text: string, before: string, rest: string)
    ensures StandsAt(text, before + text + rest, |before|)
  {}

  lemma StandsLater(text: string, before: string, rest: string, at: nat)
    requires StandsAt(text, rest, at)
    ensures StandsAt(text, before + rest, |before| + at)
  {
    assert (before + rest)[|before| + at..|before| + at + |text|] == rest[at..at + |text|];
  }

  /** The appearance of a name that was placed stands in brackets where that name ends, moved by what is inserted ahead. */
  lemma {:induction false} AppearanceStands(action: string, looks: seq<Reveal>, at: Places, ins: seq<Insertion>, j: nat)
    returns (k: nat)
    requires |at| == |looks| && Leftmost(action, looks, at) && j < |at| && at[j].Some?
    requires multiset(ins) == multiset(InsertionsUpTo(looks, at, |at|)) && Within(action, ins) && Ascending(0, ins)
    ensures k < |ins| && ins[k].pos == at[j].value + |looks[j].name|
    ensures StandsAt(['\U{FF08}'] + looks[j].desc + ['\U{FF09}'], Weave(action, 0, ins),
                     at[j].value + |looks[j].name| + Ahead(ins, k))
  {
    hide Leftmost, Weave, Within, Ascending;
    var x := InsertionOf(looks[j], at[j].value);
    assert x in InsertionsUpTo(looks, at, |at|);
    assert x in multiset(ins);
    k :| 0 <= k < |ins| && ins[k] == x;
    WovenAt(action, 0, ins, k);
  }

  method RenderSegment(seg: GoldSegment, gold: Gold, desc: Entry -> string)
    returns (prompt: string, looks: seq<Reveal>, at: Places, ins: seq<Insertion>)
    ensures looks == Sort(RevealsOf(seg, gold, desc, |seg.cast|), LongerFirst)
    ensures |at| == |looks| && Leftmost(seg.action, looks, at)
    ensures multiset(ins) == multiset(InsertionsUpTo(looks, at, |at|))
    ensures Within(seg.action, ins) && Ascending(0, ins)
    ensures prompt == Weave(seg.action, 0, ins)
    ensures Unweave(prompt, 0, ins) == seg.action
  {
    looks := [];
    for k := 0 to |seg.cast|
      invariant looks == RevealsOf(seg, gold, desc, k)
    {
      var c := seg.cast[k];
      if (forall f :: f in seg.forbidden ==> f.eid != c.eid) && (c.op.Introduce? || c.op.Transform?)
         && c.eid in gold.entities {
        looks := looks + [Reveal(gold.entities[c.eid].name, c.eid, desc(c))];
      }
    }
    looks := Sort(looks, LongerFirst);
    at := PlaceAll(seg.action, looks);
    prompt, ins := SplicePlaced(seg.action, looks, at);
  }

  method SplicePlaced(action: string, looks: seq<Reveal>, at: Places)
    returns (prompt: string, ins: seq<Insertion>)
    requires |at| == |looks| && Leftmost(action, looks, at)
    ensures multiset(ins) == multiset(InsertionsUpTo(looks, at, |at|))
    ensures Within(action, ins) && Ascending(0, ins)
    ensures prompt == Weave(action, 0, ins)
    ensures Unweave(prompt, 0, ins) == action
  {
    hide Weave, Unweave, Leftmost, Ascending, InsertionsUpTo;
    var unsorted := InsertionsUpTo(looks, at, |at|);
    InsertionsWithin(action, looks, at);
    var sorted := Sort(unsorted, LaterFirst);
    SameElements(unsorted, sorted);
    LaterFirstIsTotal();
    SortSorts(unsorted, LaterFirst);
    prompt := Splice(action, sorted);
    ins := Reverse(sorted);
    ReverseIsPermutation(sorted);
    UnweaveRestores(action, 0, ins);
  }

  lemma InsertionsWithin(action: string, looks: seq<Reveal>, at: Places)
    requires |at| == |looks| && Leftmost(action, looks, at)
    ensures Within(action, InsertionsUpTo(looks, at, |at|))
  {
    forall x | x in InsertionsUpTo(looks, at, |at|) ensures x.pos <= |action| {
      var j :| 0 <= j < |at| && at[j].Some? && x == InsertionOf(looks[j], at[j].value);
      assert Spot(action, looks, at[..j], looks[j].name, at[j].value);
    }
  }

  lemma {:induction false} ReverseIsPermutation<T>(s: seq<T>)
    ensures multiset(Reverse(s)) == multiset(s)
  {
    if s != [] {
      ReverseIsPermutation(s[..|s| - 1]);
      assert s == s[..|s| - 1] + [s[|s| - 1]];
    }
  }
}
