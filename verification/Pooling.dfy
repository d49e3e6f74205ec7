/** Pooled identity tallies: judged units counted into cells per story, then summed over any resample of
    the stories. */
module Pooling {
  import opened Basics
  import opened Units
  import opened Rounding

  datatype Verdict = Yes | No | Unsure | Unasked

  datatype Answer = Answer(visibleA: Verdict, visibleB: Verdict, same: Verdict)

  datatype Judged = Judged(story: string, kind: string, gapBin: string, stratum: Stratum, answer: Option<Answer>)

  /** A table cell; the pooled cells use the word "all" where others have a kind. */
  datatype Cell = Cell(stratum: Stratum, kind: string, gapBin: Option<string>)

  datatype Tally = Tally(n: nat, visA: nat, visB: nat, both: nat, same: nat, consistent: nat,
                         unsureB: nat, unsureSame: nat, parse: nat)

  const ZERO := Tally(0, 0, 0, 0, 0, 0, 0, 0, 0)

  function Add(a: Tally, b: Tally): Tally {
    Tally(a.n + b.n, a.visA + b.visA, a.visB + b.visB, a.both + b.both, a.same + b.same,
          a.consistent + b.consistent, a.unsureB + b.unsureB, a.unsureSame + b.unsureSame, a.parse + b.parse)
  }

  lemma AddZero(a: Tally)
    ensures Add(a, ZERO) == a && Add(ZERO, a) == a
  {}

  lemma AddSwaps(a: Tally, b: Tally, c: Tally, d: Tally)
    ensures Add(Add(a, b), Add(c, d)) == Add(Add(a, c), Add(b, d))
    ensures Add(Add(a, b), c) == Add(a, Add(b, c))
  {}

  function Bit(b: bool): nat { if b then 1 else 0 }

  /** `tally` of one judgment. */
  function TallyOf(answer: Option<Answer>): Tally {
    match answer
    case None => ZERO.(n := 1, parse := 1)
    case Some(a) =>
      var va, vb, same := a.visibleA.Yes?, a.visibleB.Yes?, a.same.Yes?;
      Tally(1, Bit(va), Bit(vb), Bit(va && vb), Bit(va && vb && same), Bit(vb && same),
            Bit(a.visibleB.Unsure?), Bit(va && vb && a.same.Unsure?), 0)
  }

  /** One judgment counts once; each counter says whether the judge said so, and none does when no answer was read. */
  lemma TallyTells(answer: Option<Answer>)
    ensures var t := TallyOf(answer);
            && t.n == 1 && (t.parse == 1 <==> answer.None?) && t.parse <= 1
            && t.visA <= 1 && t.visB <= 1 && t.both <= 1 && t.same <= 1 && t.consistent <= 1
            && t.unsureB <= 1 && t.unsureSame <= 1
            && (t.visA == 1 <==> answer.Some? && answer.value.visibleA.Yes?)
            && (t.visB == 1 <==> answer.Some? && answer.value.visibleB.Yes?)
            && (t.both == 1 <==> answer.Some? && answer.value.visibleA.Yes? && answer.value.visibleB.Yes?)
            && (t.same == 1 <==> t.both == 1 && answer.value.same.Yes?)
            && (t.consistent == 1 <==> t.visB == 1 && answer.value.same.Yes?)
            && (t.unsureB == 1 <==> answer.Some? && answer.value.visibleB.Unsure?)
            && (t.unsureSame == 1 <==> t.both == 1 && answer.value.same.Unsure?)
  {}

  /** `cells`: where one unit is counted. */
  function Cells(j: Judged): seq<Cell> {
    [Cell(j.stratum, "all", None), Cell(j.stratum, j.kind, Some(j.gapBin)), Cell(j.stratum, j.kind, None)]
    + (if j.stratum.Main? then [Cell(Main, "all", Some(j.gapBin))] else [])
  }

  function Count(cells: seq<Cell>, c: Cell): nat {
    if cells == [] then 0 else Count(cells[..|cells| - 1], c) + (if cells[|cells| - 1] == c then 1 else 0)
  }

  function Times(k: nat, t: Tally): Tally {
    if k == 0 then ZERO else Add(Times(k - 1, t), t)
  }

  /** Tally of one cell and story: each unit once per mention of the cell. */
  function CellTally(js: seq<Judged>, c: Cell, story: string): Tally {
    if js == [] then ZERO
    else
      var j := js[|js| - 1];
      var before := CellTally(js[..|js| - 1], c, story);
      if j.story == story then Add(before, Times(Count(Cells(j), c), TallyOf(j.answer))) else before
  }

  function At(per: map<(Cell, string), Tally>, c: Cell, story: string): Tally {
    if (c, story) in per then per[(c, story)] else ZERO
  }

  /** `add` into each of one unit's cells. */
  method CountUnit(j: Judged, per: map<(Cell, string), Tally>) returns (per': map<(Cell, string), Tally>)
    ensures forall c :: At(per', c, j.story) == Add(At(per, c, j.story), Times(Count(Cells(j), c), TallyOf(j.answer)))
    ensures forall c, story :: story != j.story ==> At(per', c, story) == At(per, c, story)
  {
    hide Add, Cells, TallyOf;
    per' := per;
    var cells := Cells(j);
    var t := TallyOf(j.answer);
    forall c ensures At(per', c, j.story) == Add(At(per, c, j.story), Times(Count(cells[..0], c), t)) {
      AddZero(At(per, c, j.story));
    }
    for k := 0 to |cells|
      invariant forall c :: At(per', c, j.story) == Add(At(per, c, j.story), Times(Count(cells[..k], c), t))
      invariant forall c, story :: story != j.story ==> At(per', c, story) == At(per, c, story)
    {
      ghost var before := per';
      assert cells[..k + 1][..k] == cells[..k];
      per' := per'[(cells[k], j.story) := Add(At(per', cells[k], j.story), t)];
      forall c ensures At(per', c, j.story) == Add(At(per, c, j.story), Times(Count(cells[..k + 1], c), t)) {
        var was := Count(cells[..k], c);
        assert At(before, c, j.story) == Add(At(per, c, j.story), Times(was, t));
        AddSwaps(At(per, c, j.story), Times(was, t), t, ZERO);
        assert Count(cells[..k + 1], c) == was + (if cells[k] == c then 1 else 0);
      }
      forall c, story | story != j.story ensures At(per', c, story) == At(per, c, story) {
        assert At(before, c, story) == At(per, c, story);
      }
    }
    assert cells[..|cells|] == cells;
  }

  method Aggregate(js: seq<Judged>) returns (per: map<(Cell, string), Tally>)
    ensures forall c, story :: At(per, c, story) == CellTally(js, c, story)
  {
    hide Add, Cells, TallyOf;
    per := map[];
    for i := 0 to |js|
      invariant forall c, story :: At(per, c, story) == CellTally(js[..i], c, story)
    {
      ghost var was := per;
      per := CountUnit(js[i], per);
      assert js[..i + 1][..i] == js[..i];
      forall c, story ensures At(per, c, story) == CellTally(js[..i + 1], c, story) {
        assert At(was, c, story) == CellTally(js[..i], c, story);
      }
    }
    assert js[..|js|] == js;
  }

  /** Pooled over a list of stories; a bootstrap draw may repeat some. */
  function Pool(js: seq<Judged>, c: Cell, stories: seq<string>): Tally {
    if stories == [] then ZERO
    else Add(Pool(js, c, stories[..|stories| - 1]), CellTally(js, c, stories[|stories| - 1]))
  }

  method Pooled(js: seq<Judged>, per: map<(Cell, string), Tally>, c: Cell, stories: seq<string>)
    returns (t: Tally)
    requires forall c, story :: At(per, c, story) == CellTally(js, c, story)
    ensures t == Pool(js, c, stories)
  {
    t := ZERO;
    for i := 0 to |stories|
      invariant t == Pool(js, c, stories[..i])
    {
      assert stories[..i + 1][..i] == stories[..i];
      assert At(per, c, stories[i]) == CellTally(js, c, stories[i]);
      t := Add(t, At(per, c, stories[i]));
    }
    assert stories[..|stories|] == stories;
  }

  // ----- conservation -----

  function CountAll(cells: seq<Cell>, cs: seq<Cell>): nat {
    if cs == [] then 0 else CountAll(cells, cs[..|cs| - 1]) + Count(cells, cs[|cs| - 1])
  }

  function PoolAll(js: seq<Judged>, cs: seq<Cell>, stories: seq<string>): Tally {
    if cs == [] then ZERO
    else Add(PoolAll(js, cs[..|cs| - 1], stories), Pool(js, cs[|cs| - 1], stories))
  }

  function CellTallyAll(js: seq<Judged>, cs: seq<Cell>, story: string): Tally {
    if cs == [] then ZERO
    else Add(CellTallyAll(js, cs[..|cs| - 1], story), CellTally(js, cs[|cs| - 1], story))
  }

  /** Every unit is counted in `c` as often as in the cells `cs` together. */
  predicate Splits(js: seq<Judged>, c: Cell, cs: seq<Cell>) {
    forall j :: j in js ==> Count(Cells(j), c) == CountAll(Cells(j), cs)
  }

  lemma {:induction false} TimesAdds(a: nat, b: nat, t: Tally)
    ensures Times(a + b, t) == Add(Times(a, t), Times(b, t))
  {
    hide Add;
    AddZero(Times(a, t));
    if b > 0 {
      TimesAdds(a, b - 1, t);
      AddSwaps(Times(a, t), Times(b - 1, t), t, ZERO);
    }
  }

  /** What one more unit adds to a list of cells. */
  lemma {:induction false} OneMoreUnit(js: seq<Judged>, cs: seq<Cell>, story: string)
    requires js != []
    ensures var j := js[|js| - 1];
            CellTallyAll(js, cs, story)
            == if j.story == story
               then Add(CellTallyAll(js[..|js| - 1], cs, story), Times(CountAll(Cells(j), cs), TallyOf(j.answer)))
               else CellTallyAll(js[..|js| - 1], cs, story)
  {
    hide Cells, TallyOf, Add, Times;
    var j, before := js[|js| - 1], js[..|js| - 1];
    if cs == [] {
      NoTimes(TallyOf(j.answer));
      AddZero(ZERO);
    } else {
      var c, rest := cs[|cs| - 1], cs[..|cs| - 1];
      OneMoreUnit(js, rest, story);
      var k, m, t := CountAll(Cells(j), rest), Count(Cells(j), c), TallyOf(j.answer);
      TimesAdds(k, m, t);
      AddSwaps(CellTallyAll(before, rest, story), Times(k, t), CellTally(before, c, story), Times(m, t));
    }
  }

  lemma NoTimes(t: Tally)
    ensures Times(0, t) == ZERO
  {}

  lemma {:induction false} StoryConserves(js: seq<Judged>, c: Cell, cs: seq<Cell>, story: string)
    requires Splits(js, c, cs)
    ensures CellTally(js, c, story) == CellTallyAll(js, cs, story)
  {
    if js == [] {
      NothingCounted(cs, story);
    } else {
      assert js[|js| - 1] in js && forall j :: j in js[..|js| - 1] ==> j in js;
      StoryConserves(js[..|js| - 1], c, cs, story);
      OneMoreUnit(js, cs, story);
    }
  }

  lemma {:induction false} NothingCounted(cs: seq<Cell>, story: string)
    ensures CellTallyAll([], cs, story) == ZERO
  {
    hide Add;
    AddZero(ZERO);
    if cs != [] { NothingCounted(cs[..|cs| - 1], story); }
  }

  /** One more story in the draw. */
  lemma {:induction false} OneMoreStory(js: seq<Judged>, cs: seq<Cell>, stories: seq<string>)
    requires stories != []
    ensures PoolAll(js, cs, stories)
            == Add(PoolAll(js, cs, stories[..|stories| - 1]), CellTallyAll(js, cs, stories[|stories| - 1]))
  {
    hide Add, CellTally;
    var before, story := stories[..|stories| - 1], stories[|stories| - 1];
    AddZero(ZERO);
    if cs != [] {
      var c, rest := cs[|cs| - 1], cs[..|cs| - 1];
      OneMoreStory(js, rest, stories);
      AddSwaps(PoolAll(js, rest, before), CellTallyAll(js, rest, story), Pool(js, c, before), CellTally(js, c, story));
    }
  }

  /** For any draw of stories, with repeats, a cell pools to the sum of the cells that split it. */
  lemma {:induction false} PoolConserves(js: seq<Judged>, c: Cell, cs: seq<Cell>, stories: seq<string>)
    requires Splits(js, c, cs)
    ensures Pool(js, c, stories) == PoolAll(js, cs, stories)
  {
    if stories == [] {
      NoStories(js, cs);
    } else {
      PoolConserves(js, c, cs, stories[..|stories| - 1]);
      StoryConserves(js, c, cs, stories[|stories| - 1]);
      OneMoreStory(js, cs, stories);
    }
  }

  lemma {:induction false} NoStories(js: seq<Judged>, cs: seq<Cell>)
    ensures PoolAll(js, cs, []) == ZERO
  {
    hide Add;
    AddZero(ZERO);
    if cs != [] { NoStories(js, cs[..|cs| - 1]); }
  }

  // ----- which cells split which -----

  function KindCells(s: Stratum, kinds: seq<string>): seq<Cell> {
    seq(|kinds|, i requires 0 <= i < |kinds| => Cell(s, kinds[i], None))
  }

  function KindGapCells(s: Stratum, pairs: seq<(string, string)>): seq<Cell> {
    seq(|pairs|, i requires 0 <= i < |pairs| => Cell(s, pairs[i].0, Some(pairs[i].1)))
  }

  function GapCells(bins: seq<string>): seq<Cell> {
    seq(|bins|, i requires 0 <= i < |bins| => Cell(Main, "all", Some(bins[i])))
  }

  lemma {:induction false} CountOf(j: Judged, c: Cell)
    ensures Count(Cells(j), c)
            == Bit(c == Cell(j.stratum, "all", None)) + Bit(c == Cell(j.stratum, j.kind, Some(j.gapBin)))
               + Bit(c == Cell(j.stratum, j.kind, None))
               + Bit(j.stratum.Main? && c == Cell(Main, "all", Some(j.gapBin)))
  {
    var three := [Cell(j.stratum, "all", None), Cell(j.stratum, j.kind, Some(j.gapBin)), Cell(j.stratum, j.kind, None)];
    var four := three + [Cell(Main, "all", Some(j.gapBin))];
    CountThree(three, c);
    assert four[..3] == three;
    assert Cells(j) == if j.stratum.Main? then four else three;
  }

  lemma CountThree(s: seq<Cell>, c: Cell)
    requires |s| == 3
    ensures Count(s, c) == Bit(c == s[0]) + Bit(c == s[1]) + Bit(c == s[2])
  {
    assert s[..2][..1] == s[..1] && s[..1][..0] == [];
    assert Count(s[..1], c) == Bit(c == s[0]);
  }

  /** The cells of a unit of a kind not called "all": the pooled cell of its stratum, its kind and its kind and gap,
      and in the main stratum its gap as well; it counts once in each. */
  lemma {:induction false} CellsAre(j: Judged, c: Cell)
    requires j.kind != "all"
    ensures Count(Cells(j), c) <= 1
    ensures Count(Cells(j), c) == 1 <==>
            c.stratum == j.stratum
            && (match c.gapBin
                case None => c.kind == "all" || c.kind == j.kind
                case Some(bin) => bin == j.gapBin && (c.kind == j.kind || (c.kind == "all" && c.stratum == Main)))
  {
    hide Cells, Count;
    CountOf(j, c);
  }

  /** A cell of a story tallies its units one by one, in any order of adding them up. */
  lemma {:induction false} UnitsAddUp(a: seq<Judged>, b: seq<Judged>, c: Cell, story: string)
    ensures CellTally(a + b, c, story) == Add(CellTally(a, c, story), CellTally(b, c, story))
  {
    hide Add, Cells, TallyOf;
    if b == [] {
      assert a + b == a;
      AddZero(CellTally(a, c, story));
    } else {
      var front, j := b[..|b| - 1], b[|b| - 1];
      UnitsAddUp(a, front, c, story);
      assert (a + b)[..|a + b| - 1] == a + front;
      AddSwaps(CellTally(a, c, story), CellTally(front, c, story), Times(Count(Cells(j), c), TallyOf(j.answer)), ZERO);
    }
  }

  /** ... where one unit adds its own tally to each cell that holds it, in its own story alone. */
  lemma {:induction false} OneUnitTallies(j: Judged, c: Cell, story: string)
    requires Count(Cells(j), c) <= 1
    ensures CellTally([j], c, story) == if j.story == story && Count(Cells(j), c) == 1 then TallyOf(j.answer) else ZERO
  {
    hide Add, Cells, TallyOf, Count;
    var t := TallyOf(j.answer);
    AddZero(ZERO);
    AddZero(t);
    assert [j][..0] == [];
    assert Times(1, t) == Add(Times(0, t), t) && Times(0, t) == ZERO;
  }

  /** Pooling adds story by story: a story drawn twice counts twice. */
  lemma {:induction false} DrawsAddUp(js: seq<Judged>, c: Cell, a: seq<string>, b: seq<string>)
    ensures Pool(js, c, a + b) == Add(Pool(js, c, a), Pool(js, c, b))
    ensures |b| == 1 ==> Pool(js, c, b) == CellTally(js, c, b[0])
  {
    hide Add, CellTally;
    AddZero(Pool(js, c, a));
    if b == [] {
      assert a + b == a;
    } else {
      var front, story := b[..|b| - 1], b[|b| - 1];
      DrawsAddUp(js, c, a, front);
      assert (a + b)[..|a + b| - 1] == a + front;
      AddSwaps(Pool(js, c, a), Pool(js, c, front), CellTally(js, c, story), ZERO);
      AddZero(CellTally(js, c, story));
    }
  }

  /** Over distinct cells that each hold the unit at most once, the count says whether one of them does. */
  lemma {:induction false} CountOnce(j: Judged, cs: seq<Cell>)
    requires Distinct(cs)
    requires forall c :: c in cs ==> Count(Cells(j), c) <= 1
    requires forall a, b :: a in cs && b in cs && Count(Cells(j), a) == 1 && Count(Cells(j), b) == 1 ==> a == b
    ensures CountAll(Cells(j), cs) == Bit(exists c :: c in cs && Count(Cells(j), c) == 1)
  {
    hide Cells;
    if cs != [] {
      var c, rest := cs[|cs| - 1], cs[..|cs| - 1];
      assert cs == rest + [c];
      assert c !in rest;
      assert forall x :: x in cs <==> x in rest || x == c;
      CountOnce(j, rest);
      if x :| x in rest && Count(Cells(j), x) == 1 {
        assert x in cs && c in cs;
      }
    }
  }

  /** `s|all` splits into the kinds, provided no kind is itself called "all". */
  lemma {:induction false} AllSplitsByKind(js: seq<Judged>, s: Stratum, kinds: seq<string>)
    requires Distinct(kinds) && "all" !in kinds && forall j :: j in js ==> j.kind in kinds
    ensures Splits(js, Cell(s, "all", None), KindCells(s, kinds))
  {
    hide Cells;
    forall j | j in js
      ensures Count(Cells(j), Cell(s, "all", None)) == CountAll(Cells(j), KindCells(s, kinds))
    {
      var cs := KindCells(s, kinds);
      CountOf(j, Cell(s, "all", None));
      forall c | c in cs
        ensures Count(Cells(j), c) == Bit(j.stratum == s && c == Cell(s, j.kind, None))
      {
        CountOf(j, c);
      }
      CountOnce(j, cs);
      var i :| 0 <= i < |kinds| && kinds[i] == j.kind;
      assert cs[i] in cs;
    }
  }

  /** `s|all` splits into the kind-by-gap cells as well. */
  lemma {:induction false} AllSplitsByKindAndGap(js: seq<Judged>, s: Stratum, pairs: seq<(string, string)>)
    requires Distinct(pairs) && forall p :: p in pairs ==> p.0 != "all"
    requires forall j :: j in js ==> (j.kind, j.gapBin) in pairs
    ensures Splits(js, Cell(s, "all", None), KindGapCells(s, pairs))
  {
    hide Cells;
    forall j | j in js
      ensures Count(Cells(j), Cell(s, "all", None)) == CountAll(Cells(j), KindGapCells(s, pairs))
    {
      var cs := KindGapCells(s, pairs);
      assert j.kind != "all" by { assert (j.kind, j.gapBin) in pairs; }
      CountOf(j, Cell(s, "all", None));
      forall c | c in cs
        ensures Count(Cells(j), c) == Bit(j.stratum == s && c == Cell(s, j.kind, Some(j.gapBin)))
      {
        var i :| 0 <= i < |cs| && cs[i] == c;
        assert pairs[i] in pairs;
        CountOf(j, c);
      }
      CountOnce(j, cs);
      var i :| 0 <= i < |pairs| && pairs[i] == (j.kind, j.gapBin);
      assert cs[i] in cs;
    }
  }

  /** `main|all` splits into its gap cells. */
  lemma {:induction false} MainSplitsByGap(js: seq<Judged>, bins: seq<string>)
    requires Distinct(bins) && forall j :: j in js ==> j.gapBin in bins && j.kind != "all"
    ensures Splits(js, Cell(Main, "all", None), GapCells(bins))
  {
    hide Cells;
    forall j | j in js
      ensures Count(Cells(j), Cell(Main, "all", None)) == CountAll(Cells(j), GapCells(bins))
    {
      var cs := GapCells(bins);
      CountOf(j, Cell(Main, "all", None));
      forall c | c in cs
        ensures Count(Cells(j), c) == Bit(j.stratum.Main? && c == Cell(Main, "all", Some(j.gapBin)))
      {
        CountOf(j, c);
      }
      CountOnce(j, cs);
      var i :| 0 <= i < |bins| && bins[i] == j.gapBin;
      assert cs[i] in cs;
    }
  }

  /** A kind called "all" is counted twice in the pooled cell, so the split holds exactly without one. */
  lemma {:induction false} SplitNeedsNoKindAll(js: seq<Judged>, s: Stratum)
    ensures (forall j :: j in js && j.stratum == s ==> Count(Cells(j), Cell(s, "all", None)) == 1)
            <==> forall j :: j in js && j.stratum == s ==> j.kind != "all"
  {
    hide Cells;
    forall j | j in js && j.stratum == s
      ensures Count(Cells(j), Cell(s, "all", None)) == 1 <==> j.kind != "all"
    {
      CountOf(j, Cell(s, "all", None));
    }
  }

  // ----- bounds -----

  /** How the counters of a tally are ordered. */
  predicate Bounded(t: Tally) {
    && t.same <= t.both <= t.visA <= t.n
    && t.same <= t.consistent <= t.visB <= t.n && t.both <= t.visB
    && t.unsureB + t.visB <= t.n && t.unsureSame + t.same <= t.both
    && t.parse <= t.n
  }

  lemma {:induction false} PooledTalliesAreBounded(js: seq<Judged>, c: Cell, stories: seq<string>)
    ensures Bounded(Pool(js, c, stories))
  {
    if stories != [] {
      PooledTalliesAreBounded(js, c, stories[..|stories| - 1]);
      CellTallyBounded(js, c, stories[|stories| - 1]);
    }
  }

  lemma {:induction false} CellTallyBounded(js: seq<Judged>, c: Cell, story: string)
    ensures Bounded(CellTally(js, c, story))
  {
    hide Cells;
    if js != [] {
      CellTallyBounded(js[..|js| - 1], c, story);
      TimesBounded(Count(Cells(js[|js| - 1]), c), TallyOf(js[|js| - 1].answer));
    }
  }

  lemma {:induction false} TimesBounded(k: nat, t: Tally)
    requires Bounded(t)
    ensures Bounded(Times(k, t))
  {
    if k > 0 { TimesBounded(k - 1, t); }
  }

  // ----- rates -----

  function Rate(a: nat, b: nat): Option<real> { if b != 0 then Some(Round4(a as real / b as real)) else None }

  /** `metrics`. */
  datatype Metrics = Metrics(consistent: Option<real>, identityGivenBoth: Option<real>, visibleB: Option<real>,
                             visibleA: Option<real>, bothVisible: Option<real>, unsureVisibleB: Option<real>,
                             unsureSameGivenBoth: Option<real>)

  function MetricsOf(t: Tally): Metrics {
    Metrics(Rate(t.consistent, t.n), Rate(t.same, t.both), Rate(t.visB, t.n), Rate(t.visA, t.n), Rate(t.both, t.n),
            Rate(t.unsureB, t.n), Rate(t.unsureSame, t.both))
  }

  /** What share `part` is of `all`, to four digits; reported exactly when there is something to share. */
  predicate IsShare(rate: Option<real>, part: nat, all: nat) {
    && (rate.None? <==> all == 0)
    && (rate.Some? ==> && 0.0 <= rate.value <= 1.0 && OnGrid(rate.value, 10000.0)
                       && -0.00005 <= rate.value - part as real / all as real <= 0.00005)
  }

  predicate AtMost(a: Option<real>, b: Option<real>) { a.Some? && b.Some? ==> a.value <= b.value }

  lemma RatesGrow(a: nat, b: nat, n: nat)
    requires a <= b <= n
    ensures IsShare(Rate(a, n), a, n) && IsShare(Rate(b, n), b, n) && AtMost(Rate(a, n), Rate(b, n))
  {
    if n > 0 {
      var x, y := a as real / n as real, b as real / n as real;
      assert 0.0 <= x <= y <= 1.0 by { Quotients(a as real, b as real, n as real); }
      hide Round4;
      Round4Monotone(x, y);
      Round4KeepsUnit(x);
      Round4KeepsUnit(y);
      RoundsToDigits(x);
      RoundsToDigits(y);
    }
  }

  lemma Quotients(a: real, b: real, n: real)
    requires 0.0 <= a <= b <= n && n > 0.0
    ensures 0.0 <= a / n <= b / n <= 1.0
  {}

  /** Every rate reported of a pooled cell is a share, none at all exactly where its denominator is zero; and
      rounding keeps the order of those that share a denominator. */
  lemma {:induction false} PooledRatesAreShares(js: seq<Judged>, c: Cell, stories: seq<string>)
    ensures var t := Pool(js, c, stories);
            var m := MetricsOf(t);
            && IsShare(m.consistent, t.consistent, t.n) && IsShare(m.visibleB, t.visB, t.n)
            && IsShare(m.visibleA, t.visA, t.n) && IsShare(m.bothVisible, t.both, t.n)
            && IsShare(m.unsureVisibleB, t.unsureB, t.n) && IsShare(m.identityGivenBoth, t.same, t.both)
            && IsShare(m.unsureSameGivenBoth, t.unsureSame, t.both)
            && AtMost(m.consistent, m.visibleB) && AtMost(m.bothVisible, m.visibleB)
            && AtMost(m.bothVisible, m.visibleA)
  {
    hide Pool, Rate, IsShare, AtMost;
    PooledTalliesAreBounded(js, c, stories);
    var t := Pool(js, c, stories);
    RatesGrow(t.consistent, t.visB, t.n);
    RatesGrow(t.both, t.visA, t.n);
    RatesGrow(t.both, t.visB, t.n);
    RatesGrow(t.unsureB, t.n, t.n);
    RatesGrow(t.same, t.both, t.both);
    RatesGrow(t.unsureSame, t.both, t.both);
  }
}
