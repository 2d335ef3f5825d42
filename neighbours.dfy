/**
 * What `Map.LoadNeighbours` computes, stated on values.
 *
 * The first loop of LoadNeighbours folds the link list into a dictionary from
 * planet id to an ordered neighbour list (`Adjacency`); the second loop hands
 * each entry to the first planet with that id (`Assign`). The lemmas below
 * characterise the result without reference to the fold: which planets get a
 * list, which ids are in it, that it has no duplicates and that it is ordered
 * by the first link that connects each neighbour.
 */
module Neighbours {
  import opened Wrappers
  import opened Entities

  // ---------------------------------------------------------------------
  // The dictionary of the first loop
  // ---------------------------------------------------------------------

  /** The list stored under `k`, or the empty list the loop creates on first sight of `k`. */
  function Get(m: map<int, seq<int>>, k: int): seq<int> {
    if k in m then m[k] else []
  }

  /** `if (!list.Contains(x)) list.Add(x)`. */
  function AddNew(xs: seq<int>, x: int): seq<int> {
    if x in xs then xs else xs + [x]
  }

  /** One iteration of the first loop: the target joins the source's list, then the source joins the target's. */
  function Step(m: map<int, seq<int>>, l: PlanetLink): map<int, seq<int>> {
    var m1 := m[l.source := AddNew(Get(m, l.source), l.target)];
    m1[l.target := AddNew(Get(m1, l.target), l.source)]
  }

  /** The dictionary after the first loop has scanned `links` in order, starting from an empty one. */
  function Adjacency(links: seq<PlanetLink>): map<int, seq<int>>
    decreases |links|
  {
    if links == [] then map[]
    else Step(Adjacency(links[..|links| - 1]), links[|links| - 1])
  }

  /** Scanning one more link applies one more step. */
  lemma AdjacencySnoc(links: seq<PlanetLink>, l: PlanetLink)
    ensures Adjacency(links + [l]) == Step(Adjacency(links), l)
  {
    assert (links + [l])[..|links|] == links;
  }

  // ---------------------------------------------------------------------
  // Reference notions, defined on the link list alone
  // ---------------------------------------------------------------------

  /** `k` is one of the link's endpoints. */
  predicate HasEndpoint(l: PlanetLink, k: int) {
    l.source == k || l.target == k
  }

  /** The endpoint of `l` opposite to `k` (for a self-loop, `k` itself). */
  function Other(l: PlanetLink, k: int): int {
    if l.source == k then l.target else l.source
  }

  /** The link joins `k` and `x`, in either direction. */
  predicate IsLinkBetween(l: PlanetLink, k: int, x: int) {
    (l.source == k && l.target == x) || (l.target == k && l.source == x)
  }

  /** The test `IsLinkBetween(_, k, x)` as a function value. */
  function LinkBetween(k: int, x: int): PlanetLink -> bool {
    (l: PlanetLink) => IsLinkBetween(l, k, x)
  }

  /** Some link of the list has `k` as an endpoint. */
  predicate Incident(links: seq<PlanetLink>, k: int) {
    exists i :: 0 <= i < |links| && HasEndpoint(links[i], k)
  }

  /** Some link of the list joins `k` and `x`. */
  predicate Linked(links: seq<PlanetLink>, k: int, x: int) {
    exists i :: 0 <= i < |links| && IsLinkBetween(links[i], k, x)
  }

  /** The position of the first link that joins `k` and `x`. */
  function FirstLink(links: seq<PlanetLink>, k: int, x: int): (r: nat)
    requires Linked(links, k, x)
    ensures r < |links| && IsLinkBetween(links[r], k, x)
    ensures forall j :: 0 <= j < r ==> !IsLinkBetween(links[j], k, x)
  {
    var i :| 0 <= i < |links| && IsLinkBetween(links[i], k, x);
    assert LinkBetween(k, x)(links[i]);
    FirstIndex(links, LinkBetween(k, x)).value
  }

  /** No element occurs twice. */
  predicate NoDuplicates(xs: seq<int>) {
    forall i, j :: 0 <= i < j < |xs| ==> xs[i] != xs[j]
  }

  // ---------------------------------------------------------------------
  // The dictionary, characterised
  // ---------------------------------------------------------------------

  /** What one link does to the entry of `k`. */
  lemma StepAt(m: map<int, seq<int>>, l: PlanetLink, k: int)
    ensures k in Step(m, l) <==> k in m || HasEndpoint(l, k)
    ensures Get(Step(m, l), k) ==
      if HasEndpoint(l, k) then AddNew(Get(m, k), Other(l, k)) else Get(m, k)
  {
  }

  /** Extending the link list at the end does not move the first link between two planets already linked. */
  lemma FirstLinkSnoc(p: seq<PlanetLink>, l: PlanetLink, k: int, x: int)
    ensures Linked(p + [l], k, x) <==> Linked(p, k, x) || IsLinkBetween(l, k, x)
    ensures Linked(p, k, x) ==> FirstLink(p + [l], k, x) == FirstLink(p, k, x)
    ensures !Linked(p, k, x) && IsLinkBetween(l, k, x) ==> FirstLink(p + [l], k, x) == |p|
  {
    var q := p + [l];
    assert q[|p|] == l;
    assert forall i :: 0 <= i < |p| ==> q[i] == p[i];
    if Linked(q, k, x) {
      var i :| 0 <= i < |q| && IsLinkBetween(q[i], k, x);
      if i < |p| { assert IsLinkBetween(p[i], k, x); }
    }
    FirstIndexSnoc(p, l, LinkBetween(k, x));
  }

  /** A link list extended at the end touches `k` when the prefix or the new link does. */
  lemma IncidentSnoc(p: seq<PlanetLink>, l: PlanetLink, k: int)
    ensures Incident(p + [l], k) <==> Incident(p, k) || HasEndpoint(l, k)
  {
    var q := p + [l];
    assert q[|p|] == l;
    assert forall i :: 0 <= i < |p| ==> q[i] == p[i];
  }

  /** One more link keeps the entry exactly the set of ids linked to `k`. */
  lemma MembersStep(p: seq<PlanetLink>, l: PlanetLink, k: int, before: seq<int>, after: seq<int>)
    requires after == if HasEndpoint(l, k) then AddNew(before, Other(l, k)) else before
    requires forall x :: x in before <==> Linked(p, k, x)
    ensures forall x :: x in after <==> Linked(p + [l], k, x)
  {
    forall x ensures Linked(p + [l], k, x) <==> Linked(p, k, x) || IsLinkBetween(l, k, x) {
      FirstLinkSnoc(p, l, k, x);
    }
  }

  /** One more link keeps the entry free of duplicates. */
  lemma NoDuplicatesStep(l: PlanetLink, k: int, before: seq<int>, after: seq<int>)
    requires after == if HasEndpoint(l, k) then AddNew(before, Other(l, k)) else before
    requires NoDuplicates(before)
    ensures NoDuplicates(after)
  {
  }

  /** One more link keeps the entry in first-link order: a new neighbour's first link is the new one. */
  lemma OrderStep(p: seq<PlanetLink>, l: PlanetLink, k: int, before: seq<int>, after: seq<int>)
    requires after == if HasEndpoint(l, k) then AddNew(before, Other(l, k)) else before
    requires forall x :: x in before <==> Linked(p, k, x)
    requires forall i, j :: 0 <= i < j < |before| ==> FirstLink(p, k, before[i]) < FirstLink(p, k, before[j])
    requires forall x :: x in after <==> Linked(p + [l], k, x)
    ensures forall i, j :: 0 <= i < j < |after| ==>
      FirstLink(p + [l], k, after[i]) < FirstLink(p + [l], k, after[j])
  {
    forall x | x in before ensures FirstLink(p + [l], k, x) == FirstLink(p, k, x) {
      FirstLinkSnoc(p, l, k, x);
    }
    if HasEndpoint(l, k) && Other(l, k) !in before {
      FirstLinkSnoc(p, l, k, Other(l, k));
      assert after == before + [Other(l, k)];
      forall i | 0 <= i < |before| ensures FirstLink(p + [l], k, after[i]) < |p| {
        assert after[i] == before[i];
      }
    }
  }

  /**
   * The entry of `k` after scanning `links`: present exactly when `k` is an
   * endpoint of some link; its elements are exactly the planets joined to `k`
   * by some link; none occurs twice; and they stand in the order of the first
   * link that joins each of them to `k`.
   */
  lemma {:induction false} AdjacencyAt(links: seq<PlanetLink>, k: int)
    ensures k in Adjacency(links) <==> Incident(links, k)
    ensures forall x :: x in Get(Adjacency(links), k) <==> Linked(links, k, x)
    ensures NoDuplicates(Get(Adjacency(links), k))
    ensures var ns := Get(Adjacency(links), k);
      forall i, j :: 0 <= i < j < |ns| ==> FirstLink(links, k, ns[i]) < FirstLink(links, k, ns[j])
    decreases |links|
  {
    if links != [] {
      var p, l := links[..|links| - 1], links[|links| - 1];
      assert links == p + [l];
      AdjacencyAt(p, k);
      AdjacencySnoc(p, l);
      StepAt(Adjacency(p), l, k);
      IncidentSnoc(p, l, k);
      var before, after := Get(Adjacency(p), k), Get(Adjacency(links), k);
      MembersStep(p, l, k, before, after);
      NoDuplicatesStep(l, k, before, after);
      OrderStep(p, l, k, before, after);
    }
  }

  // ---------------------------------------------------------------------
  // Handing the lists to the planets
  // ---------------------------------------------------------------------

  /** Both endpoints of the link name some planet: otherwise `First` throws for it. */
  predicate Resolves(ps: seq<Planet>, l: PlanetLink) {
    l.source in Ids(ps) && l.target in Ids(ps)
  }

  /** Every link resolves, so the first loop of LoadNeighbours runs to its end. */
  predicate AllResolve(ps: seq<Planet>, links: seq<PlanetLink>) {
    forall i :: 0 <= i < |links| ==> Resolves(ps, links[i])
  }
  /** Resolution of a list of links extended by one link. */
  lemma AllResolveSnoc(ps: seq<Planet>, links: seq<PlanetLink>, l: PlanetLink)
    ensures AllResolve(ps, links + [l]) <==> AllResolve(ps, links) && Resolves(ps, l)
  {
    assert forall i :: 0 <= i < |links| ==> (links + [l])[i] == links[i];
    assert (links + [l])[|links|] == l;
  }


  /** One link with an endpoint that names no planet makes the whole list fail. */
  lemma NotAllResolve(ps: seq<Planet>, links: seq<PlanetLink>, i: nat)
    requires i < |links|
    requires PlanetIndex(ps, links[i].source).None? || PlanetIndex(ps, links[i].target).None?
    ensures !AllResolve(ps, links)
  {
  }

  /** Planet `n` receives a list: its id has an entry and it is the first planet with that id. */
  predicate Touched(ps: seq<Planet>, adj: map<int, seq<int>>, n: nat)
    requires n < |ps|
  {
    ps[n].id in adj && PlanetIndex(ps, ps[n].id) == Some(n)
  }

  /** The second loop: every entry goes to the first planet with its id; every other planet is left alone. */
  function Assign(ps: seq<Planet>, adj: map<int, seq<int>>): seq<Planet> {
    seq(|ps|, n requires 0 <= n < |ps| =>
      if Touched(ps, adj, n) then ps[n].(neighbours := adj[ps[n].id]) else ps[n])
  }

  /** The planets after a LoadNeighbours call that does not throw. */
  function Loaded(ps: seq<Planet>, links: seq<PlanetLink>): seq<Planet> {
    Assign(ps, Adjacency(links))
  }

  /** When every endpoint resolves, every dictionary key names a planet, so the second loop never throws. */
  lemma KeysResolve(ps: seq<Planet>, links: seq<PlanetLink>, k: int)
    requires AllResolve(ps, links)
    requires k in Adjacency(links)
    ensures PlanetIndex(ps, k).Some?
  {
    AdjacencyAt(links, k);
    var i :| 0 <= i < |links| && HasEndpoint(links[i], k);
  }

  /**
   * Which planets change: planet `n` gets a new list exactly when it is the
   * first planet with its id and that id is an endpoint of some link; every
   * other planet, and every planet's id, stays as it was.
   */
  lemma LoadedPlanet(ps: seq<Planet>, links: seq<PlanetLink>, n: nat)
    requires n < |ps|
    ensures |Loaded(ps, links)| == |ps| && Loaded(ps, links)[n].id == ps[n].id
    ensures Touched(ps, Adjacency(links), n) <==>
      PlanetIndex(ps, ps[n].id) == Some(n) && Incident(links, ps[n].id)
    ensures !Touched(ps, Adjacency(links), n) ==> Loaded(ps, links)[n] == ps[n]
  {
    AdjacencyAt(links, ps[n].id);
  }

  /**
   * The list a planet receives: an id is in it exactly when some link joins
   * the planet to that id (soundness and completeness), no id occurs twice,
   * and the ids stand in the order of the first link that joins each of them.
   */
  lemma LoadedNeighbours(ps: seq<Planet>, links: seq<PlanetLink>, n: nat)
    requires n < |ps| && Touched(ps, Adjacency(links), n)
    ensures var ns := Loaded(ps, links)[n].neighbours;
      && (forall x :: x in ns <==> Linked(links, ps[n].id, x))
      && NoDuplicates(ns)
      && (forall i, j :: 0 <= i < j < |ns| ==>
            FirstLink(links, ps[n].id, ns[i]) < FirstLink(links, ps[n].id, ns[j]))
  {
    AdjacencyAt(links, ps[n].id);
  }

  /** Symmetry: each link puts each endpoint into the other endpoint's list. */
  lemma Symmetric(ps: seq<Planet>, links: seq<PlanetLink>, i: nat)
    requires AllResolve(ps, links) && i < |links|
    ensures var a := PlanetIndex(ps, links[i].source).value;
            var b := PlanetIndex(ps, links[i].target).value;
      && links[i].target in Loaded(ps, links)[a].neighbours
      && links[i].source in Loaded(ps, links)[b].neighbours
  {
    var l := links[i];
    var a, b := PlanetIndex(ps, l.source).value, PlanetIndex(ps, l.target).value;
    AdjacencyAt(links, l.source);
    AdjacencyAt(links, l.target);
    assert HasEndpoint(links[i], l.source) && HasEndpoint(links[i], l.target);
    assert IsLinkBetween(links[i], l.source, l.target) && IsLinkBetween(links[i], l.target, l.source);
    assert Touched(ps, Adjacency(links), a) && Touched(ps, Adjacency(links), b);
  }

  /** An id that occurs in a duplicate-free list occurs exactly once. */
  lemma {:induction false} OccursOnce(xs: seq<int>, x: int)
    requires NoDuplicates(xs) && x in xs
    ensures multiset(xs)[x] == 1
  {
    assert xs == [xs[0]] + xs[1..];
    if xs[0] == x {
      assert forall j :: 0 <= j < |xs[1..]| ==> xs[1..][j] == xs[j + 1] != x;
      assert multiset(xs[1..])[x] == 0;
    } else {
      assert NoDuplicates(xs[1..]) by {
        forall i, j | 0 <= i < j < |xs[1..]| ensures xs[1..][i] != xs[1..][j] {
          assert xs[1..][i] == xs[i + 1] && xs[1..][j] == xs[j + 1];
        }
      }
      OccursOnce(xs[1..], x);
    }
  }

  /** A self-loop makes its planet its own neighbour, exactly once. */
  lemma SelfLoop(ps: seq<Planet>, links: seq<PlanetLink>, i: nat)
    requires AllResolve(ps, links) && i < |links| && links[i].source == links[i].target
    ensures var a := PlanetIndex(ps, links[i].source).value;
      multiset(Loaded(ps, links)[a].neighbours)[links[i].source] == 1
  {
    var k := links[i].source;
    var a := PlanetIndex(ps, k).value;
    Symmetric(ps, links, i);
    assert Touched(ps, Adjacency(links), a) by { AdjacencyAt(links, k); }
    LoadedNeighbours(ps, links, a);
    OccursOnce(Loaded(ps, links)[a].neighbours, k);
  }

  /**
   * Idempotence: loading the neighbours of already loaded planets changes
   * nothing, and whether every endpoint resolves does not change either.
   */
  lemma LoadIdempotent(ps: seq<Planet>, links: seq<PlanetLink>)
    ensures AllResolve(Loaded(ps, links), links) <==> AllResolve(ps, links)
    ensures Loaded(Loaded(ps, links), links) == Loaded(ps, links)
  {
    var once := Loaded(ps, links);
    var adj := Adjacency(links);
    forall id ensures PlanetIndex(once, id) == PlanetIndex(ps, id) {
      PlanetIndexByIds(once, ps, id);
    }
    assert Ids(once) == Ids(ps) by { PlanetIndexByIds(once, ps, 0); }
    var twice := Loaded(once, links);
    forall n | 0 <= n < |ps| ensures twice[n] == once[n] {
      assert Touched(once, adj, n) <==> Touched(ps, adj, n);
    }
  }
}
