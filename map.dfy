/**
 * The map aggregate of the game client: its entity lists, the neighbour
 * computation that runs after links are loaded or after deserialisation,
 * the derived starting positions and the id lookups.
 */
module ClientModel {
  import opened Wrappers
  import opened Entities
  import opened Neighbours

  class Map {
    var points: int
    var name: Option<string>
    var planets: seq<Planet>
    var links: seq<PlanetLink>
    var planetarySystems: seq<PlanetarySystem>
    var playerStartingData: seq<StartingData>
    var colors: seq<PlayerColor>

    /** The parameterless constructor: every entity list starts empty; points and name keep their defaults. */
    constructor ()
      ensures points == 0 && name == None
      ensures planets == [] && links == [] && planetarySystems == []
      ensures playerStartingData == [] && colors == []
    {
      points, name := 0, None;
      planets, links, planetarySystems := [], [], [];
      playerStartingData, colors := [], [];
    }

    /**
     * Rebuilds, from the links, the neighbour list of each planet that some
     * link touches (the first planet with each endpoint id); every other
     * planet keeps its list. Throws (Fail) exactly when some endpoint id
     * names no planet, and then no planet has changed; otherwise the planets become `Loaded(old(planets), links)`.
     * Nothing but the planets' neighbour lists changes.
     */
    method LoadNeighbours() returns (outcome: Outcome<Error>)
      modifies this
      ensures links == old(links) && planetarySystems == old(planetarySystems)
      ensures playerStartingData == old(playerStartingData) && colors == old(colors)
      ensures points == old(points) && name == old(name)
      ensures outcome == if AllResolve(old(planets), links) then Pass else Fail(NoMatchingElement)
      ensures planets == if outcome.Pass? then Loaded(old(planets), links) else old(planets)
    {
      var collected, neighbours, keys := CollectNeighbours(planets, links);
      if collected.Fail? {
        return collected;
      }
      forall k | k in neighbours ensures PlanetIndex(planets, k).Some? {
        KeysResolve(planets, links, k);
      }
      var delivered, updated := AssignNeighbours(planets, neighbours, keys);
      planets := updated;
      return delivered;
    }

    /**
     * The first loop of LoadNeighbours: scans the links in order, resolving
     * both endpoints with a first-match lookup, and records each endpoint in
     * the other's list unless it is there already. Fails at the first link
     * with an endpoint that names no planet; otherwise the dictionary is
     * `Adjacency(links)`. `keys` lists the dictionary's keys, the
     * order in which the second loop enumerates them; .NET does not document
     * that order, and only the keys' membership is stated.
     */
    static method CollectNeighbours(ps: seq<Planet>, ls: seq<PlanetLink>)
      returns (outcome: Outcome<Error>, neighbours: map<int, seq<int>>, keys: seq<int>)
      ensures outcome == if AllResolve(ps, ls) then Pass else Fail(NoMatchingElement)
      ensures outcome.Pass? ==> neighbours == Adjacency(ls)
      ensures forall k :: k in neighbours <==> k in keys
    {
      neighbours, keys := map[], [];
      var i := 0;
      while i < |ls|
        invariant 0 <= i <= |ls|
        invariant AllResolve(ps, ls[..i])
        invariant neighbours == Adjacency(ls[..i])
        invariant forall k :: k in neighbours <==> k in keys
      {
        var linked;
        linked, neighbours, keys := ConfigureLink(ps, ls[i], neighbours, keys);
        if linked.Fail? {
          NotAllResolve(ps, ls, i);
          return linked, neighbours, keys;
        }
        PrefixSnoc(ls, i);
        AllResolveSnoc(ps, ls[..i], ls[i]);
        AdjacencySnoc(ls[..i], ls[i]);
        i := i + 1;
      }
      assert ls[..i] == ls;
      outcome := Pass;
    }

    /**
     * The body of the first loop, for one link: resolve both endpoints with a
     * first-match lookup (failing if either names no planet), then record
     * the target in the source's list and the source in the target's.
     */
    static method ConfigureLink(ps: seq<Planet>, link: PlanetLink, neighbours: map<int, seq<int>>, keys: seq<int>)
      returns (outcome: Outcome<Error>, neighbours': map<int, seq<int>>, keys': seq<int>)
      requires forall k :: k in neighbours <==> k in keys
      ensures outcome == if Resolves(ps, link) then Pass else Fail(NoMatchingElement)
      ensures outcome.Pass? ==> neighbours' == Step(neighbours, link)
      ensures forall k :: k in neighbours' <==> k in keys'
    {
      neighbours', keys' := neighbours, keys;
      var source := PlanetIndex(ps, link.source);
      if source.None? {
        return Fail(NoMatchingElement), neighbours', keys';
      }
      var target := PlanetIndex(ps, link.target);
      if target.None? {
        return Fail(NoMatchingElement), neighbours', keys';
      }
      var sourcePlanet, targetPlanet := ps[source.value], ps[target.value];
      neighbours', keys' := AddNeighbour(neighbours', keys', sourcePlanet.id, targetPlanet.id);
      neighbours', keys' := AddNeighbour(neighbours', keys', targetPlanet.id, sourcePlanet.id);
      outcome := Pass;
    }

    /**
     * One half of a link: fetch the list stored under `from`, creating an
     * empty one (and a new key) on first sight, and append `to` unless the
     * list already holds it.
     */
    static method AddNeighbour(neighbours: map<int, seq<int>>, keys: seq<int>, from: int, to: int)
      returns (neighbours': map<int, seq<int>>, keys': seq<int>)
      requires forall k :: k in neighbours <==> k in keys
      ensures neighbours' == neighbours[from := AddNew(Get(neighbours, from), to)]
      ensures forall k :: k in neighbours' <==> k in keys'
    {
      var list: seq<int>;
      keys' := keys;
      if from in neighbours {
        list := neighbours[from];
      } else {
        list := [];
        keys' := keys + [from];
      }
      if to !in list {
        list := list + [to];
      }
      neighbours' := neighbours[from := list];
    }

    /**
     * The second loop of LoadNeighbours: for each dictionary key, the first
     * planet with that id receives the key's list. Fails if a key names no
     * planet (which LoadNeighbours never lets happen); otherwise the result
     * is `Assign(ps, neighbours)`.
     */
    static method AssignNeighbours(ps: seq<Planet>, neighbours: map<int, seq<int>>, keys: seq<int>)
      returns (outcome: Outcome<Error>, updated: seq<Planet>)
      requires forall k :: k in neighbours <==> k in keys
      ensures outcome == if forall k :: k in neighbours ==> PlanetIndex(ps, k).Some?
        then Pass else Fail(NoMatchingElement)
      ensures outcome.Pass? ==> updated == Assign(ps, neighbours)
    {
      updated := ps;
      var j := 0;
      while j < |keys|
        invariant 0 <= j <= |keys|
        invariant |updated| == |ps|
        invariant forall k :: k in keys[..j] ==> PlanetIndex(ps, k).Some?
        invariant forall n :: 0 <= n < |ps| ==>
          updated[n] == if ps[n].id in keys[..j] && PlanetIndex(ps, ps[n].id) == Some(n)
                        then ps[n].(neighbours := neighbours[ps[n].id]) else ps[n]
      {
        var key := keys[j];
        PlanetIndexByIds(updated, ps, key);
        var found := PlanetIndex(updated, key);
        if found.None? {
          return Fail(NoMatchingElement), updated;
        }
        var n := found.value;
        updated := updated[n := updated[n].(neighbours := neighbours[key])];
        PrefixSnoc(keys, j);
        j := j + 1;
      }
      assert keys[..j] == keys;
      outcome := Pass;
    }

    /** The deserialisation callback: derived neighbour lists are not transmitted, so they are rebuilt. */
    method OnJsonDeserialized() returns (outcome: Outcome<Error>)
      modifies this
      ensures links == old(links) && planetarySystems == old(planetarySystems)
      ensures playerStartingData == old(playerStartingData) && colors == old(colors)
      ensures points == old(points) && name == old(name)
      ensures outcome == if AllResolve(old(planets), links) then Pass else Fail(NoMatchingElement)
      ensures planets == if outcome.Pass? then Loaded(old(planets), links) else old(planets)
    {
      outcome := LoadNeighbours();
    }

    /** The first planet with the id, or None (null) when there is none. */
    function GetPlanetById(planetId: int): (r: Option<Planet>)
      reads this
      ensures r.None? <==> forall n :: 0 <= n < |planets| ==> planets[n].id != planetId
      ensures r.Some? ==> exists n :: (0 <= n < |planets| && planets[n] == r.value
        && planets[n].id == planetId && forall m :: 0 <= m < n ==> planets[m].id != planetId)
    {
      match PlanetIndex(planets, planetId)
      case None => None
      case Some(n) => Some(planets[n])
    }

    /** The first system whose planet ids contain the id, or None (null) when there is none. */
    function GetSystemByPlanetid(planetId: int): (r: Option<PlanetarySystem>)
      reads this
      ensures r.None? <==> forall n :: 0 <= n < |planetarySystems| ==> planetId !in planetarySystems[n].planets
      ensures r.Some? ==> exists n :: (0 <= n < |planetarySystems| && planetarySystems[n] == r.value
        && planetId in r.value.planets
        && forall m :: 0 <= m < n ==> planetId !in planetarySystems[m].planets)
    {
      match FirstIndex(planetarySystems, (s: PlanetarySystem) => planetId in s.planets)
      case None => None
      case Some(n) => Some(planetarySystems[n])
    }

    /** The first colour with the id; throws (Failure) when there is none. */
    function GetColorById(colorId: int): (r: Result<PlayerColor, Error>)
      reads this
      ensures r.Failure? <==> forall n :: 0 <= n < |colors| ==> colors[n].colorId != colorId
      ensures r.Failure? ==> r.error == NoMatchingElement
      ensures r.Success? ==> exists n :: (0 <= n < |colors| && colors[n] == r.value
        && r.value.colorId == colorId && forall m :: 0 <= m < n ==> colors[m].colorId != colorId)
    {
      match FirstIndex(colors, (c: PlayerColor) => c.colorId == colorId)
      case None => Failure(NoMatchingElement)
      case Some(n) => Success(colors[n])
    }

    /**
     * One entry per starting-data record, in order: the first planet with the
     * record's planet id, or None (null) when no planet has it.
     */
    function StartingPositions(): (r: seq<Option<Planet>>)
      reads this
      ensures |r| == |playerStartingData|
      ensures forall i :: 0 <= i < |r| ==> r[i] == GetPlanetById(playerStartingData[i].planetId)
      ensures forall i :: 0 <= i < |r| ==>
        (r[i].Some? <==> exists n :: 0 <= n < |planets| && planets[n].id == playerStartingData[i].planetId)
      ensures forall i :: 0 <= i < |r| && r[i].Some? ==>
        r[i].value in planets && r[i].value.id == playerStartingData[i].planetId
    {
      var data := playerStartingData;
      seq(|data|, i requires 0 <= i < |data| reads this => GetPlanetById(data[i].planetId))
    }

    /** The number of player slots: one per starting-data record. */
    function MaxPlayersCount(): (r: nat)
      reads this
      ensures r == |playerStartingData|
    {
      |StartingPositions()|
    }
  }
}
