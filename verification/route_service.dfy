/** The `GET /rota` handler: resolve the `orig` and `dest` query parameters
    to stations, search a route between them and map the outcome to a
    response. The HTTP layer is reduced to the result datatype. */
module RouteService {
  import opened Common
  import opened Text
  import opened Stations
  import opened RouteFinder

  /** A query parameter as the handler reads it: `None` when it is absent. */
  type Query = Option<string>

  /** `!origemNome`: an absent or empty parameter is falsy. */
  predicate Given(q: Query) {
    q.Some? && q.value != ""
  }

  /** The outcome of `/rota`. `Found` carries `origem`, `destino`,
      `total_estacoes` and `trajeto` of the JSON body. */
  datatype RouteResult =
    | MissingParameters
    | StationNotFound
    | NoRoute
    | Found(origem: string, destino: string, totalEstacoes: nat, trajeto: seq<Station>)

  /** The test each station is put to: its name matches the query up to
      accents and case, or its id is the query verbatim. */
  predicate Matches(st: Station, q: string) {
    Normalize(st.nome) == Normalize(q) || st.id == q
  }

  /** The `estacoes.find` of the handler: the index of the first station, in
      list order, that matches the query. */
  function Resolve(stations: seq<Station>, q: string): (r: Option<nat>)
    ensures r.Some? ==> r.value < |stations| && Matches(stations[r.value], q)
    ensures r.Some? ==> forall j :: 0 <= j < r.value ==> !Matches(stations[j], q)
    ensures r.None? <==> forall j :: 0 <= j < |stations| ==> !Matches(stations[j], q)
  {
    FindIndex(stations, (st: Station) => Matches(st, q))
  }

  /** Two queries that differ only in accents and case, and that are not
      station ids, resolve to the same station. */
  lemma ResolveIgnoresAccentsAndCase(stations: seq<Station>, q1: string, q2: string)
    requires Normalize(q1) == Normalize(q2)
    requires forall j :: 0 <= j < |stations| ==> stations[j].id != q1 && stations[j].id != q2
    ensures Resolve(stations, q1) == Resolve(stations, q2)
  {
    assert forall j :: 0 <= j < |stations| ==> (Matches(stations[j], q1) <==> Matches(stations[j], q2));
  }

  /** A station's own id always resolves, to that station or to an earlier
      one; to that very station when no earlier station matches it. */
  lemma ResolveOwnId(stations: seq<Station>, k: nat)
    requires k < |stations|
    ensures Resolve(stations, stations[k].id).Some?
    ensures Resolve(stations, stations[k].id).value <= k
    ensures (forall j :: 0 <= j < k ==> !Matches(stations[j], stations[k].id)) ==>
      Resolve(stations, stations[k].id) == Some(k)
  {
    assert Matches(stations[k], stations[k].id);
  }

  /** Station ids of a list of stations, in order. */
  function Ids(trajeto: seq<Station>): (r: seq<string>)
    ensures |r| == |trajeto|
    ensures forall i :: 0 <= i < |trajeto| ==> r[i] == trajeto[i].id
  {
    if |trajeto| == 0 then [] else [trajeto[0].id] + Ids(trajeto[1..])
  }

  /** `caminho.map(id => estacoes.find(e => e.id === id)!)`: each id of the
      path becomes the first station carrying it. The non-null assertion
      `!` is the requirement that every id is a known station. */
  function ToStations(stations: seq<Station>, ids: seq<string>): (r: seq<Station>)
    requires forall i :: 0 <= i < |ids| ==> FindStation(stations, ids[i]).Some?
    ensures Ids(r) == ids
    ensures forall i :: 0 <= i < |ids| ==> FirstOfId(stations, r[i])
  {
    if |ids| == 0 then []
    else [stations[FindStation(stations, ids[0]).value]] + ToStations(stations, ids[1..])
  }

  /** On a path to a known station, every station is known, so the map of
      `buscarCaminho` never meets a missing station. */
  lemma PathKnown(stations: seq<Station>, p: seq<string>, a: string, b: string)
    requires IsPath(stations, p, a, b)
    requires FindStation(stations, b).Some?
    ensures forall i :: 0 <= i < |p| ==> FindStation(stations, p[i]).Some?
  {
    forall i | 0 <= i < |p|
      ensures FindStation(stations, p[i]).Some?
    {
      if i < |p| - 1 {
        PathInteriorKnown(stations, p, a, b, i);
      }
    }
  }

  /** The whole handler. The checks come in the handler's order: missing
      parameters (400), unknown station (404), no route (404), then the
      route. */
  method Route(stations: seq<Station>, orig: Query, dest: Query) returns (r: RouteResult)
    ensures r.MissingParameters? <==> !Given(orig) || !Given(dest)
    ensures r.StationNotFound? <==>
      Given(orig) && Given(dest) &&
      (Resolve(stations, orig.value).None? || Resolve(stations, dest.value).None?)
    ensures r.NoRoute? <==>
      Given(orig) && Given(dest) &&
      Resolve(stations, orig.value).Some? && Resolve(stations, dest.value).Some? &&
      !Reachable(stations, stations[Resolve(stations, orig.value).value].id,
                 stations[Resolve(stations, dest.value).value].id)
    ensures r.Found? ==>
      Given(orig) && Given(dest) &&
      Resolve(stations, orig.value).Some? && Resolve(stations, dest.value).Some? &&
      var from := stations[Resolve(stations, orig.value).value];
      var to := stations[Resolve(stations, dest.value).value];
      && r.origem == from.nome
      && r.destino == to.nome
      && r.totalEstacoes == |r.trajeto|
      && IsPath(stations, Ids(r.trajeto), from.id, to.id)
      && NoRepeats(Ids(r.trajeto))
      && (forall p :: IsPath(stations, p, from.id, to.id) ==> |r.trajeto| <= |p|)
      && (forall i :: 0 <= i < |r.trajeto| ==> FirstOfId(stations, r.trajeto[i]))
  {
    if orig.None? || orig.value == "" || dest.None? || dest.value == "" {
      return MissingParameters;
    }
    var o := Resolve(stations, orig.value);
    var d := Resolve(stations, dest.value);
    if o.None? || d.None? {
      return StationNotFound;
    }
    var from := stations[o.value];
    var to := stations[d.value];
    var path := FindPath(stations, from.id, to.id);
    if path.None? {
      return NoRoute;
    }
    PathKnown(stations, path.value, from.id, to.id);
    var trajeto := ToStations(stations, path.value);
    return Found(from.nome, to.nome, |trajeto|, trajeto);
  }
}
