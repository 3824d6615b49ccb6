/** The station graph (`Estacao[]` loaded from `estacoes.json`): station
    records, lookup by id, and the adjacency paths the route finder works
    with. The list is a plain input of the model; nothing checks that ids are
    unique, that neighbour ids exist, or that adjacency is symmetric. */
module Stations {
  import opened Common

  /** `Estacao`; `lat` and `lng` are only passed through to the response. */
  datatype Station = Station(id: string, nome: string, lat: real, lng: real, vizinhos: seq<string>)

  /** `estacoes.find(e => e.id === id)`: the index of the first station
      carrying `id`. */
  function FindStation(stations: seq<Station>, id: string): (r: Option<nat>)
    ensures r.Some? ==> r.value < |stations| && stations[r.value].id == id
    ensures r.Some? ==> forall j :: 0 <= j < r.value ==> stations[j].id != id
    ensures r.None? <==> forall j :: 0 <= j < |stations| ==> stations[j].id != id
  {
    FindIndex(stations, (s: Station) => s.id == id)
  }

  /** `st` is the station that the lookup of its own id returns. */
  predicate FirstOfId(stations: seq<Station>, st: Station) {
    var k := FindStation(stations, st.id);
    k.Some? && stations[k.value] == st
  }

  /** Every id mentioned in some neighbour list. */
  function NeighborIds(stations: seq<Station>): set<string> {
    set i, j | 0 <= i < |stations| && 0 <= j < |stations[i].vizinhos| :: stations[i].vizinhos[j]
  }

  /** The neighbour list the search expands for `id`: the `vizinhos` of the
      station the lookup finds, and nothing for an unknown id. Only listed
      ids come out, and an id with a hop leaving it is a known station. */
  function Neighbors(stations: seq<Station>, id: string): (r: seq<string>)
    ensures forall y :: y in r ==> y in NeighborIds(stations)
    ensures |r| > 0 ==> FindStation(stations, id).Some?
  {
    match FindStation(stations, id)
    case None => []
    case Some(k) =>
      var v := stations[k].vizinhos;
      assert forall j :: 0 <= j < |v| ==> v[j] in NeighborIds(stations);
      v
  }

  /** A directed hop: `b` is listed among the neighbours of `a`. */
  predicate Edge(stations: seq<Station>, a: string, b: string) {
    b in Neighbors(stations, a)
  }

  /** Each consecutive pair of `p` is a hop. */
  predicate Linked(stations: seq<Station>, p: seq<string>) {
    forall i :: 0 <= i < |p| - 1 ==> Edge(stations, p[i], p[i + 1])
  }

  /** `p` is a walk of hops from `a` to `b` (one station when `a == b`). */
  predicate IsPath(stations: seq<Station>, p: seq<string>, a: string, b: string) {
    |p| >= 1 && p[0] == a && p[|p| - 1] == b && Linked(stations, p)
  }

  /** No station occurs twice in `p`. */
  predicate NoRepeats(p: seq<string>) {
    forall i, j :: 0 <= i < j < |p| ==> p[i] != p[j]
  }

  ghost predicate Reachable(stations: seq<Station>, a: string, b: string) {
    exists p :: IsPath(stations, p, a, b)
  }

  /** Every station of a path except possibly the last one is a known
      station: it has a hop leaving it. */
  lemma PathInteriorKnown(stations: seq<Station>, p: seq<string>, a: string, b: string, i: nat)
    requires IsPath(stations, p, a, b)
    requires i < |p| - 1
    ensures FindStation(stations, p[i]).Some?
  {
    assert Edge(stations, p[i], p[i + 1]);
  }
}
