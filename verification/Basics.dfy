/** What every other module needs: optional results, outcomes, dict lookups and small facts about collections. */
module Basics {
  datatype Option<+T> = None | Some(value: T)

  datatype Result<+T, +E> = Ok(value: T) | Err(error: E)

  function Get<K, V>(m: map<K, V>, k: K): (r: Option<V>) {
    if k in m then Some(m[k]) else None
  }

  lemma GetAfterPut<K(!new), V>(m: map<K, V>, k: K, v: V)
    ensures forall x :: Get(m[k := v], x) == if x == k then Some(v) else Get(m, x)
  {
    forall x ensures Get(m[k := v], x) == if x == k then Some(v) else Get(m, x) {}
  }

  function LowerChar(c: char): (r: char)
    ensures if 'A' <= c <= 'Z' then r as int - 'a' as int == c as int - 'A' as int else r == c
  {
    if 'A' <= c <= 'Z' then (c as int + 32) as char else c
  }

  /** `str.lower` on ASCII letters. */
  function Lower(s: string): (r: string)
    ensures |r| == |s| && forall i :: 0 <= i < |s| ==> r[i] == LowerChar(s[i])
  {
    seq(|s|, i requires 0 <= i < |s| => LowerChar(s[i]))
  }

  predicate Distinct<T(==)>(s: seq<T>) {
    forall i, j :: 0 <= i < j < |s| ==> s[i] != s[j]
  }

  /** The places below `n` where `p` holds, in ascending order. */
  ghost predicate PlacesOf(places: seq<nat>, n: nat, p: nat -> bool) {
    && (forall a, b :: 0 <= a < b < |places| ==> places[a] < places[b])
    && (forall i: nat :: i in places <==> i < n && p(i))
  }

  lemma NoPlaces(p: nat -> bool)
    ensures PlacesOf([], 0, p)
  {}

  lemma PlacesStep(places: seq<nat>, n: nat, p: nat -> bool)
    requires PlacesOf(places, n, p)
    ensures PlacesOf(if p(n) then places + [n] else places, n + 1, p)
  {
    forall a | 0 <= a < |places| ensures places[a] < n { assert places[a] in places; }
  }

  predicate OccursAt(hay: string, needle: string, i: int) {
    0 <= i <= |hay| && needle <= hay[i..]
  }

  /** Python's `needle in hay` on strings. */
  predicate Contains(hay: string, needle: string) {
    exists i :: 0 <= i <= |hay| && OccursAt(hay, needle, i)
  }

  lemma {:induction false} SubsetCount<T>(a: set<T>, b: set<T>)
    requires a <= b
    ensures |a| <= |b|
  {
    if a != {} {
      var x :| x in a;
      SubsetCount(a - {x}, b - {x});
    }
  }
}
