/** Route search over the static agency catalogue (`trouver_trajet_disponible`).
    A route is offered when its agency's departure city and its own destination
    match the request after normalisation, and, when the travel date names a
    weekday, the route runs that day. Results keep catalogue order.

    Text normalisation (Unicode NFD, accent stripping, lower-casing, trimming)
    and the date-to-weekday conversion are left uninterpreted: they are
    function parameters. */
module Routes {
  import opened Common

  /** A JSON value copied from the catalogue to the answer unchanged. */
  type Json(==)

  /** One route of an agency. Absent JSON keys are `None`. */
  datatype Route = Route(
    destination: Option<string>,
    daysOfWeek: Option<seq<string>>,
    latitude: Option<Json>,
    longitude: Option<Json>,
    prixVip: Option<Json>,
    prixClassique: Option<Json>,
    departure: Option<Json>,
    duration: Option<Json>)

  /** One agency of the catalogue; an absent `trajets` key is the empty list. */
  datatype Agency = Agency(nomAgence: Option<Json>, villeDepart: Option<string>, trajets: seq<Route>)

  /** One entry of the answer. */
  datatype TrajetInfo = TrajetInfo(
    agence: Option<Json>,
    destination: Option<string>,
    latitude: Option<Json>,
    longitude: Option<Json>,
    prixVip: Option<Json>,
    prixClassique: Option<Json>,
    heureDepart: Option<Json>,
    dureeEstimee: Option<Json>,
    date: Option<string>)

  /** `datetime.weekday()`: Monday is 0. */
  type Weekday = d: int | 0 <= d < 7

  const JoursFr: seq<string> := ["Lundi", "Mardi", "Mercredi", "Jeudi", "Vendredi", "Samedi", "Dimanche"]

  /** `d.get(key, '')` on a string field. */
  function OrEmpty(s: Option<string>): string
  {
    if s.Some? then s.value else ""
  }

  /** The French weekday name to filter on, if any. `weekday` parses a
      `YYYY-MM-DD` date; `None` stands for the `ValueError` of a malformed date. */
  function JourSemaine(dateVoyage: Option<string>, weekday: string -> Option<Weekday>): (jour: Option<string>)
    ensures jour.Some? <==> Truthy(dateVoyage) && weekday(dateVoyage.value).Some?
    ensures jour.Some? ==> jour.value == JoursFr[weekday(dateVoyage.value).value]
  {
    if Truthy(dateVoyage) && weekday(dateVoyage.value).Some? then
      Some(JoursFr[weekday(dateVoyage.value).value])
    else
      None
  }

  /** The request once normalised: departure, destination, weekday name. */
  datatype Query = Query(depart: string, destination: string, jour: Option<string>)

  function MakeQuery(depart: string, destination: string, dateVoyage: Option<string>,
                     normalize: string -> string, weekday: string -> Option<Weekday>): Query
  {
    Query(normalize(depart), normalize(destination), JourSemaine(dateVoyage, weekday))
  }

  /** A position in the catalogue: agency index, then route index. */
  datatype Pos = Pos(agency: nat, route: nat)

  predicate ValidPos(cat: seq<Agency>, p: Pos)
  {
    p.agency < |cat| && p.route < |cat[p.agency].trajets|
  }

  predicate DepartMatches(a: Agency, q: Query, normalize: string -> string)
  {
    normalize(OrEmpty(a.villeDepart)) == q.depart
  }

  predicate DestinationMatches(t: Route, q: Query, normalize: string -> string)
  {
    normalize(OrEmpty(t.destination)) == q.destination
  }

  /** The weekday filter: a route is dropped only when a weekday was derived,
      the route lists its days, and the weekday is not among them. */
  predicate RunsOn(t: Route, jour: Option<string>)
  {
    !(jour.Some? && t.daysOfWeek.Some? && |t.daysOfWeek.value| > 0 && jour.value !in t.daysOfWeek.value)
  }

  /** The route at `p` is offered for query `q`. */
  predicate Selected(cat: seq<Agency>, p: Pos, q: Query, normalize: string -> string)
    requires ValidPos(cat, p)
  {
    var t := cat[p.agency].trajets[p.route];
    DepartMatches(cat[p.agency], q, normalize) && DestinationMatches(t, q, normalize) && RunsOn(t, q.jour)
  }

  /** Catalogue order: agency order first, then route order. */
  predicate Before(a: Pos, b: Pos)
  {
    a.agency < b.agency || (a.agency == b.agency && a.route < b.route)
  }

  predicate InCatalogueOrder(s: seq<Pos>)
  {
    forall a, b :: 0 <= a < b < |s| ==> Before(s[a], s[b])
  }

  /** Offered routes among the first `j` routes of agency `i`, in route order. */
  function RoutesUpTo(cat: seq<Agency>, q: Query, normalize: string -> string, i: nat, j: nat): (r: seq<Pos>)
    requires i < |cat| && j <= |cat[i].trajets|
    ensures forall k :: 0 <= k < |r| ==> r[k].agency == i && r[k].route < j
  {
    if j == 0 then []
    else RoutesUpTo(cat, q, normalize, i, j - 1)
         + (if Selected(cat, Pos(i, j - 1), q, normalize) then [Pos(i, j - 1)] else [])
  }

  /** Offered routes of the first `i` agencies, in catalogue order. */
  function HitsUpTo(cat: seq<Agency>, q: Query, normalize: string -> string, i: nat): (r: seq<Pos>)
    requires i <= |cat|
    ensures forall k :: 0 <= k < |r| ==> r[k].agency < i && ValidPos(cat, r[k])
  {
    if i == 0 then []
    else HitsUpTo(cat, q, normalize, i - 1) + RoutesUpTo(cat, q, normalize, i - 1, |cat[i - 1].trajets|)
  }

  /** Every offered position of the catalogue, in catalogue order. */
  function Matches(cat: seq<Agency>, q: Query, normalize: string -> string): (r: seq<Pos>)
    ensures forall k :: 0 <= k < |r| ==> ValidPos(cat, r[k])
  {
    HitsUpTo(cat, q, normalize, |cat|)
  }

  /** The answer entry built from the route at `p`: the fields of the route,
      the agency's name and the requested date. */
  function Info(cat: seq<Agency>, p: Pos, dateVoyage: Option<string>): TrajetInfo
    requires ValidPos(cat, p)
  {
    var a := cat[p.agency];
    var t := a.trajets[p.route];
    TrajetInfo(a.nomAgence, t.destination, t.latitude, t.longitude, t.prixVip, t.prixClassique,
               t.departure, t.duration, dateVoyage)
  }

  lemma {:induction false} RoutesUpToExact(cat: seq<Agency>, q: Query, normalize: string -> string, i: nat, j: nat, p: Pos)
    requires i < |cat| && j <= |cat[i].trajets|
    ensures p in RoutesUpTo(cat, q, normalize, i, j)
        <==> p.agency == i && p.route < j && Selected(cat, p, q, normalize)
  {
    if j > 0 {
      RoutesUpToExact(cat, q, normalize, i, j - 1, p);
    }
  }

  lemma {:induction false} HitsUpToExact(cat: seq<Agency>, q: Query, normalize: string -> string, i: nat, p: Pos)
    requires i <= |cat|
    ensures p in HitsUpTo(cat, q, normalize, i)
        <==> ValidPos(cat, p) && p.agency < i && Selected(cat, p, q, normalize)
  {
    if i > 0 {
      RoutesUpToExact(cat, q, normalize, i - 1, |cat[i - 1].trajets|, p);
      HitsUpToExact(cat, q, normalize, i - 1, p);
    }
  }

  /** Two sequences in catalogue order, all of the first before all of the
      second, concatenate to one in catalogue order. */
  lemma OrderedConcat(front: seq<Pos>, back: seq<Pos>)
    requires InCatalogueOrder(front) && InCatalogueOrder(back)
    requires forall a, b :: 0 <= a < |front| && 0 <= b < |back| ==> Before(front[a], back[b])
    ensures InCatalogueOrder(front + back)
  {
  }

  lemma {:induction false} RoutesUpToOrdered(cat: seq<Agency>, q: Query, normalize: string -> string, i: nat, j: nat)
    requires i < |cat| && j <= |cat[i].trajets|
    ensures InCatalogueOrder(RoutesUpTo(cat, q, normalize, i, j))
  {
    if j > 0 {
      RoutesUpToOrdered(cat, q, normalize, i, j - 1);
      var tail := if Selected(cat, Pos(i, j - 1), q, normalize) then [Pos(i, j - 1)] else [];
      OrderedConcat(RoutesUpTo(cat, q, normalize, i, j - 1), tail);
    }
  }

  lemma {:induction false} HitsUpToOrdered(cat: seq<Agency>, q: Query, normalize: string -> string, i: nat)
    requires i <= |cat|
    ensures InCatalogueOrder(HitsUpTo(cat, q, normalize, i))
  {
    if i > 0 {
      HitsUpToOrdered(cat, q, normalize, i - 1);
      RoutesUpToOrdered(cat, q, normalize, i - 1, |cat[i - 1].trajets|);
      OrderedConcat(HitsUpTo(cat, q, normalize, i - 1), RoutesUpTo(cat, q, normalize, i - 1, |cat[i - 1].trajets|));
    }
  }

  /** A catalogue position is offered exactly when it exists, its agency
      leaves from the requested city, its route goes to the requested
      destination, and it passes the weekday filter. */
  lemma MatchesExactly(cat: seq<Agency>, q: Query, normalize: string -> string, p: Pos)
    ensures p in Matches(cat, q, normalize)
        <==> ValidPos(cat, p)
             && DepartMatches(cat[p.agency], q, normalize)
             && DestinationMatches(cat[p.agency].trajets[p.route], q, normalize)
             && RunsOn(cat[p.agency].trajets[p.route], q.jour)
  {
    HitsUpToExact(cat, q, normalize, |cat|, p);
  }

  /** Offered positions come out in catalogue order (agency order, then route
      order), hence without repeats. */
  lemma MatchesInCatalogueOrder(cat: seq<Agency>, q: Query, normalize: string -> string)
    ensures InCatalogueOrder(Matches(cat, q, normalize))
  {
    HitsUpToOrdered(cat, q, normalize, |cat|);
  }

  /** A route that matches both cities is left out only when a weekday was
      derived from the date, the route lists its days of operation, and the
      weekday is not among them. */
  lemma DayFilterOnlyExcludes(cat: seq<Agency>, depart: string, destination: string, dateVoyage: Option<string>,
                              normalize: string -> string, weekday: string -> Option<Weekday>, p: Pos)
    requires ValidPos(cat, p)
    requires normalize(OrEmpty(cat[p.agency].villeDepart)) == normalize(depart)
    requires normalize(OrEmpty(cat[p.agency].trajets[p.route].destination)) == normalize(destination)
    ensures var jour := JourSemaine(dateVoyage, weekday);
            var days := cat[p.agency].trajets[p.route].daysOfWeek;
            p !in Matches(cat, MakeQuery(depart, destination, dateVoyage, normalize, weekday), normalize)
            <==> jour.Some? && days.Some? && |days.value| > 0 && jour.value !in days.value
  {
    MatchesExactly(cat, MakeQuery(depart, destination, dateVoyage, normalize, weekday), normalize, p);
  }

  /** A missing, empty or malformed date disables the weekday filter: every
      route matching both cities is offered. */
  lemma NoWeekdayNoFilter(cat: seq<Agency>, depart: string, destination: string, dateVoyage: Option<string>,
                          normalize: string -> string, weekday: string -> Option<Weekday>, p: Pos)
    requires !Truthy(dateVoyage) || weekday(dateVoyage.value).None?
    requires ValidPos(cat, p)
    requires normalize(OrEmpty(cat[p.agency].villeDepart)) == normalize(depart)
    requires normalize(OrEmpty(cat[p.agency].trajets[p.route].destination)) == normalize(destination)
    ensures p in Matches(cat, MakeQuery(depart, destination, dateVoyage, normalize, weekday), normalize)
  {
    MatchesExactly(cat, MakeQuery(depart, destination, dateVoyage, normalize, weekday), normalize, p);
  }

  /** `entries` are the answer entries built from catalogue positions `hits`, one for one. */
  predicate Describes(cat: seq<Agency>, entries: seq<TrajetInfo>, hits: seq<Pos>, dateVoyage: Option<string>)
  {
    && |entries| == |hits|
    && (forall k :: 0 <= k < |hits| ==> ValidPos(cat, hits[k]))
    && (forall k :: 0 <= k < |hits| ==> entries[k] == Info(cat, hits[k], dateVoyage))
  }

  lemma DescribesConcat(cat: seq<Agency>, e1: seq<TrajetInfo>, h1: seq<Pos>, e2: seq<TrajetInfo>, h2: seq<Pos>,
                        dateVoyage: Option<string>)
    requires Describes(cat, e1, h1, dateVoyage) && Describes(cat, e2, h2, dateVoyage)
    ensures Describes(cat, e1 + e2, h1 + h2, dateVoyage)
  {
  }

  /** The inner loop of `trouver_trajet_disponible`: the routes of agency `i`,
      already known to leave from the requested city, that go to the
      requested destination and pass the weekday filter, in route order. */
  method AgencyRoutes(catalogue: seq<Agency>, i: nat, q: Query, normalize: string -> string,
                      dateVoyage: Option<string>)
    returns (found: seq<TrajetInfo>)
    requires i < |catalogue|
    requires DepartMatches(catalogue[i], q, normalize)
    ensures Describes(catalogue, found, RoutesUpTo(catalogue, q, normalize, i, |catalogue[i].trajets|), dateVoyage)
  {
    var agence := catalogue[i];
    found := [];
    var j := 0;
    while j < |agence.trajets|
      invariant 0 <= j <= |agence.trajets|
      invariant Describes(catalogue, found, RoutesUpTo(catalogue, q, normalize, i, j), dateVoyage)
    {
      var trajet := agence.trajets[j];
      if normalize(OrEmpty(trajet.destination)) == q.destination && RunsOn(trajet, q.jour) {
        var entry := Info(catalogue, Pos(i, j), dateVoyage);
        DescribesConcat(catalogue, found, RoutesUpTo(catalogue, q, normalize, i, j), [entry], [Pos(i, j)], dateVoyage);
        found := found + [entry];
      }
      j := j + 1;
    }
  }

  /** `trouver_trajet_disponible`: scan agencies in order and, for those
      leaving from the requested city, scan their routes in order. The answer
      is one entry per offered catalogue position, in catalogue order. */
  method TrouverTrajetDisponible(catalogue: seq<Agency>, depart: string, destination: string,
                                 dateVoyage: Option<string>,
                                 normalize: string -> string, weekday: string -> Option<Weekday>)
    returns (trajets: seq<TrajetInfo>)
    ensures var hits := Matches(catalogue, MakeQuery(depart, destination, dateVoyage, normalize, weekday), normalize);
            |trajets| == |hits|
            && forall k :: 0 <= k < |hits| ==> trajets[k] == Info(catalogue, hits[k], dateVoyage)
  {
    var jour: Option<string> := None;
    if Truthy(dateVoyage) {
      match weekday(dateVoyage.value) {
        case Some(d) => jour := Some(JoursFr[d]);
        case None => jour := None;
      }
    }
    assert jour == JourSemaine(dateVoyage, weekday);
    var departNormalized := normalize(depart);
    var destinationNormalized := normalize(destination);
    var q := Query(departNormalized, destinationNormalized, jour);
    assert q == MakeQuery(depart, destination, dateVoyage, normalize, weekday);

    trajets := [];
    var i := 0;
    while i < |catalogue|
      invariant 0 <= i <= |catalogue|
      invariant Describes(catalogue, trajets, HitsUpTo(catalogue, q, normalize, i), dateVoyage)
    {
      if normalize(OrEmpty(catalogue[i].villeDepart)) == departNormalized {
        var found := AgencyRoutes(catalogue, i, q, normalize, dateVoyage);
        DescribesConcat(catalogue, trajets, HitsUpTo(catalogue, q, normalize, i),
                        found, RoutesUpTo(catalogue, q, normalize, i, |catalogue[i].trajets|), dateVoyage);
        trajets := trajets + found;
      } else {
        NoDepartureNoRoutes(catalogue, q, normalize, i, |catalogue[i].trajets|);
        assert HitsUpTo(catalogue, q, normalize, i + 1) == HitsUpTo(catalogue, q, normalize, i);
      }
      i := i + 1;
    }
  }

  /** An agency that does not leave from the requested city offers nothing. */
  lemma {:induction false} NoDepartureNoRoutes(cat: seq<Agency>, q: Query, normalize: string -> string, i: nat, j: nat)
    requires i < |cat| && j <= |cat[i].trajets|
    requires !DepartMatches(cat[i], q, normalize)
    ensures RoutesUpTo(cat, q, normalize, i, j) == []
  {
    if j > 0 {
      NoDepartureNoRoutes(cat, q, normalize, i, j - 1);
    }
  }
}
