/**
 * The records a map is made of. Only the members that Map.cs reads are kept:
 * a planet's id and neighbour list, a link's two endpoint ids, the planet ids
 * of a planetary system, a starting position's planet and colour ids, and a
 * colour's id and packed value.
 */
module Entities {
  import opened Wrappers

  /** The C# `uint` in which a colour value is packed. */
  newtype uint32 = x: int | 0 <= x < 0x1_0000_0000

  /**
   * A planet. Its neighbours are kept as planet ids: every neighbour the map
   * stores was found by id with a first-match lookup, so comparing neighbour
   * objects by identity is the same as comparing their ids.
   */
  datatype Planet = Planet(id: int, neighbours: seq<int>)

  /** An undirected edge, stored as one directed pair of planet ids. */
  datatype PlanetLink = PlanetLink(source: int, target: int)

  /** A grouping of planets, by id. */
  datatype PlanetarySystem = PlanetarySystem(planets: seq<int>)

  /** One player slot: its home planet and its colour. */
  datatype StartingData = StartingData(planetId: int, colorId: int)

  /** An entry of the colour table. */
  datatype PlayerColor = PlayerColor(colorId: int, value: uint32)

  /** The exception `Enumerable.First` raises when no element matches. */
  datatype Error = NoMatchingElement

  /**
   * The index of the first element of `s` that satisfies `p`, or None when no
   * element does: the search behind `First`, `Find` and `FirstOrDefault`.
   */
  function FirstIndex<T>(s: seq<T>, p: T -> bool): (r: Option<nat>)
    ensures r.Some? ==> r.value < |s| && p(s[r.value])
    ensures r.Some? ==> forall j :: 0 <= j < r.value ==> !p(s[j])
    ensures r.None? <==> forall j :: 0 <= j < |s| ==> !p(s[j])
  {
    if s == [] then None
    else if p(s[0]) then Some(0)
    else match FirstIndex(s[1..], p)
      case None => None
      case Some(k) => Some(k + 1)
  }

  /** Two searches whose predicates agree element by element find the same index. */
  lemma FirstIndexAgrees<T, U>(a: seq<T>, p: T -> bool, b: seq<U>, q: U -> bool)
    requires |a| == |b|
    requires forall j :: 0 <= j < |a| ==> p(a[j]) == q(b[j])
    ensures FirstIndex(a, p) == FirstIndex(b, q)
  {
  }

  /** Searching a sequence extended at the end finds the old match, if there was one. */
  lemma {:induction false} FirstIndexSnoc<T>(s: seq<T>, x: T, p: T -> bool)
    ensures FirstIndex(s + [x], p) ==
      if FirstIndex(s, p).Some? then FirstIndex(s, p)
      else if p(x) then Some(|s|)
      else None
  decreases |s|
  {
    if s != [] {
      assert (s + [x])[1..] == s[1..] + [x];
      FirstIndexSnoc(s[1..], x, p);
    }
  }

  /** A prefix one longer is the shorter prefix and the next element. */
  lemma PrefixSnoc<T>(s: seq<T>, i: nat)
    requires i < |s|
    ensures s[..i + 1] == s[..i] + [s[i]]
  {
  }

  /** The ids of the planets. */
  function Ids(ps: seq<Planet>): set<int> {
    set n | 0 <= n < |ps| :: ps[n].id
  }

  /** The index of the first planet with the given id (`Planets.First(p => p.Id == id)`). */
  function PlanetIndex(ps: seq<Planet>, id: int): (r: Option<nat>)
    ensures r.Some? ==> r.value < |ps| && ps[r.value].id == id
    ensures r.Some? ==> forall j :: 0 <= j < r.value ==> ps[j].id != id
    ensures r.None? <==> forall j :: 0 <= j < |ps| ==> ps[j].id != id
    ensures r.Some? <==> id in Ids(ps)
  {
    FirstIndex(ps, (q: Planet) => q.id == id)
  }

  /** Planet lookup by id depends on the planets' ids only, not on their neighbour lists. */
  lemma PlanetIndexByIds(a: seq<Planet>, b: seq<Planet>, id: int)
    requires |a| == |b|
    requires forall j :: 0 <= j < |a| ==> a[j].id == b[j].id
    ensures PlanetIndex(a, id) == PlanetIndex(b, id)
    ensures Ids(a) == Ids(b)
  {
    FirstIndexAgrees(a, (q: Planet) => q.id == id, b, (q: Planet) => q.id == id);
  }
}
