# Map data model of the igwoctisi game client

This project models the map aggregate of the game client (`Client/Model/Map.cs`)
in Dafny and proves properties of it. A map owns lists of planets, links,
planetary systems, starting data and player colours. After its links are read
(and again after deserialisation) the map rebuilds, from the undirected links,
the neighbour list of each planet that some link touches (the first planet
with each endpoint id); every other planet keeps its list. It derives the starting positions from the
starting data and looks planets, systems and colours up by id.

Files:

- `wrappers.dfy`: `Option` (a reference that may be null), `Outcome` and
  `Result` (an operation that may throw).
- `entities.dfy`: the records the map holds, reduced to the members `Map.cs`
  reads, and `FirstIndex`, the first-match search behind LINQ's `First`,
  `Find` and `FirstOrDefault`.
- `neighbours.dfy`: the neighbour computation stated on values. `Adjacency` is
  the dictionary that the first loop builds. `Assign` hands its lists to the
  planets. The lemmas characterise the result by the links alone.
- `map.dfy`: the class `Map`. It has the entity lists as fields, the
  parameterless constructor, `LoadNeighbours` with its two loops, the
  deserialisation callback, the derived views and the lookups.

Modelling choices:

- A planet is a record `Planet(id, neighbours)`. Its neighbour list holds ids.
  Map.cs finds every neighbour it stores with a first-match lookup by id, so
  the object-identity test `List.Contains(planet)` is the same as comparing ids.
- `LoadNeighbours` returns `Fail(NoMatchingElement)` where `Enumerable.First`
  throws. The dictionary is built in locals, so when it throws, no planet has
  changed yet.
- The second loop enumerates the dictionary in some order, which .NET does
  not document; the model takes it to be insertion order. The keys are
  distinct ids, each delivered to a different planet, so the order does not
  affect the result.

What the code does in the cases at the edges:

- Self-loops. Client/Model/Map.cs:205-234 has no guard against a link from a
  planet to itself: the planet becomes its own neighbour, exactly once
  (`Neighbours.SelfLoop`).
- Planets without links. The second loop (Client/Model/Map.cs:238-245) calls
  `SetNeighbours` only on planets whose id is a dictionary key, so a planet
  that no link touches keeps whatever list it had (`Neighbours.LoadedPlanet`).
- Dangling ids. There is no separate validation at load time: a link endpoint
  that names no planet makes `First` throw in the first loop
  (Client/Model/Map.cs:199-200), before any planet is changed
  (`ClientModel.Map.LoadNeighbours`, `Neighbours.NotAllResolve`).
- Missing colour. `GetColorById` (Client/Model/Map.cs:276-279) uses `First`,
  so an id that no colour has makes it throw (`ClientModel.Map.GetColorById`).
- Duplicate planet ids. Both loops resolve an id with `First`, so only the
  first planet with a given id ever receives a list
  (`Neighbours.LoadedPlanet`).

## Model

| member | source | states |
|---|---|---|
| `Entities.PlanetIndex` | Client/Model/Map.cs:199-200 | `Planets.First(p => p.Id == id)`: the index of the first planet with the id, or None exactly when no planet has it, that is, when the id is not among the planets' ids |
| `Neighbours.StepAt` | Client/Model/Map.cs:205-234 | one link adds an entry for each endpoint and appends the opposite endpoint to that endpoint's list unless it is already there; any other key's entry is unchanged |
| `Neighbours.AdjacencyAt` | Client/Model/Map.cs:194-236 | after the scan, an id has an entry exactly when it is an endpoint of some link; the entry holds exactly the ids joined to it by some link, with no duplicates, ordered by the first link that joins each of them |
| `Neighbours.NotAllResolve` | Client/Model/Map.cs:199-200 | a single link with an endpoint that names no planet makes the load fail |
| `Neighbours.KeysResolve` | Client/Model/Map.cs:238-245 | when every endpoint resolves, every dictionary key names a planet, so the lookup in the second loop never throws |
| `Neighbours.LoadedPlanet` | Client/Model/Map.cs:238-245 | a planet gets a new list exactly when it is the first planet with its id and that id is a link endpoint; every other planet, and every planet's id, is unchanged |
| `Neighbours.LoadedNeighbours` | Client/Model/Map.cs:196-245 | a planet's new list contains an id exactly when some link joins the two (soundness and completeness), has no duplicates, and is in first-seen link order |
| `Neighbours.Symmetric` | Client/Model/Map.cs:196-236 | for every link, each endpoint is in the other endpoint's new list |
| `Neighbours.SelfLoop` | Client/Model/Map.cs:205-234 | a link from a planet to itself leaves that planet in its own list exactly once |
| `Neighbours.LoadIdempotent` | Client/Model/Map.cs:192-246 | loading the neighbours of already loaded planets changes nothing, and whether every endpoint resolves does not change |
| `ClientModel.Map.constructor` | Client/Model/Map.cs:255-263 | every entity list starts empty; points and name keep their defaults |
| `ClientModel.Map.LoadNeighbours` | Client/Model/Map.cs:192-246 | fails exactly when some link endpoint names no planet, and then no planet has changed; otherwise the planets become `Loaded(old planets, links)`; no other field changes |
| `ClientModel.Map.CollectNeighbours` | Client/Model/Map.cs:194-236 | the first loop fails exactly when some endpoint does not resolve, and otherwise builds the dictionary `Adjacency(links)` with its keys listed |
| `ClientModel.Map.ConfigureLink` | Client/Model/Map.cs:196-235 | one iteration of the first loop: fails exactly when an endpoint of the link names no planet, and otherwise records each endpoint in the other's list; the key list stays in step with the dictionary |
| `ClientModel.Map.AddNeighbour` | Client/Model/Map.cs:205-218 | one half of a link: the list under `from` (new if absent) gains `to` unless it holds it already; the key list stays in step with the dictionary |
| `ClientModel.Map.AssignNeighbours` | Client/Model/Map.cs:238-245 | the second loop gives each key's list to the first planet with that id and leaves every other planet alone; it fails only if a key names no planet |
| `ClientModel.Map.OnJsonDeserialized` | Client/Model/Map.cs:248-253 | the deserialisation callback rebuilds the neighbour lists, with the same outcome and new state as `LoadNeighbours` |
| `ClientModel.Map.GetPlanetById` | Client/Model/Map.cs:268-271 | the first planet with the id, or None (null) exactly when no planet has it |
| `ClientModel.Map.GetSystemByPlanetid` | Client/Model/Map.cs:272-275 | the first system whose planet-id list contains the id, or None (null) exactly when no system does |
| `ClientModel.Map.GetColorById` | Client/Model/Map.cs:276-279 | the first colour with the id; fails with the no-matching-element error exactly when no colour has it |
| `ClientModel.Map.StartingPositions` | Client/Model/Map.cs:46 | one entry per starting-data record, in order; entry i is the planet lookup of record i's planet id, present exactly when some planet has that id, and then a planet of the map with that id |
| `ClientModel.Map.MaxPlayersCount` | Client/Model/Map.cs:47 | the number of starting-data records |

## Left out

- The XML-loading constructor (Client/Model/Map.cs:82-190): file I/O and XML
  (de)serialisation in a library that is not part of this model. Its effect is
  that the lists are filled and then `LoadNeighbours` runs. `LoadNeighbours`
  is private in Map.cs and runs only from the XML constructor and the
  deserialisation callback. The model makes it public so that a caller who
  fills the lists can stand in for the constructor.
- Colour hex parsing (`Convert.ToUInt32(hex, 16)`), the background layers
  (`float.Parse`, vector parsing) and the `Background` field: library calls and
  floating point. A colour's value is kept as an opaque `uint32`.
- The camera: the midpoint re-centring at load and in the deserialisation
  callback, and `Update`. This is floating-point vector maths on a camera
  type that is not part of this model. `OnJsonDeserialized` models only the
  neighbour rebuild, so it also leaves out the exception a missing camera
  would raise.
- `Visual`, `Points` and `Name` are plain data: `points` and `name` are fields
  the constructor initialises, and `Visual` is not modelled.
- `Planet.SetNeighbours` and the other members of `Planet`: Planet.cs is not
  part of this model. `SetNeighbours` is modelled as replacing the planet's
  neighbour list.
- Object identity and aliasing: planets are values, and a planet's update is
  the replacement of its record in the list. The model does not capture that
  the planet shares its list object with the dictionary. Nor does it capture
  that the same planet object can stand at two places of `Planets`.
- 32-bit ids: ids are unbounded integers. The code does no arithmetic on them,
  so no width matters.
- The ownership-based visibility ("show details") computation: it is not in
  Map.cs. Player ownership is not modelled.
- Client/View/Play/BottomPanel.cs, Client/View/SplashScreen.cs,
  Client/State/PlayState.cs and Client/Model/EndgameData.cs: GUI layout, engine
  lifecycle, state plumbing and a behaviour-free record.
