/**
 * City side of the map: the loop over the city-count table that places one
 * circle marker per city with more than `minCount` nodes and a coordinate
 * entry, coloured by `getCityColor`. The coordinates are an opaque value `C`
 * that is passed through to the marker unchanged.
 */
module Cities {
  import opened Wrappers
  import opened Buckets

  /**
   * A city marker: where it is placed, its fill colour, and the city name and
   * node count its hover tooltip shows.
   */
  datatype Marker<C> = Marker(city: string, coords: C, color: string, count: int)

  /**
   * `order` is an enumeration of the keys of `counts`, as `for...in` yields
   * them: every key exactly once, in some order.
   */
  predicate Enumerates(order: seq<string>, counts: map<string, int>)
  {
    (forall i, j :: 0 <= i < j < |order| ==> order[i] != order[j])
    && (forall k :: k in order ==> k in counts)
    && (forall k :: k in counts ==> k in order)
  }

  /**
   * Whether city `city` with `count` nodes gets a marker: the count is above
   * `minCount` and the coordinate lookup is truthy (present and not null).
   */
  predicate Shown<C>(city: string, count: int, coords: map<string, Option<C>>)
  {
    count > MinCount && city in coords && coords[city].Some?
  }

  /** The marker one loop iteration places for `city`, if it places one. */
  function MarkerFor<C>(city: string, count: int, coords: map<string, Option<C>>): Option<Marker<C>>
  {
    if count > MinCount then
      if city in coords && coords[city].Some? then
        Some(Marker(city, coords[city].value, CityColor(count), count))
      else None
    else None
  }

  /** The markers the loop has placed after visiting the cities of `keys`, in visiting order. */
  function Markers<C>(keys: seq<string>, counts: map<string, int>, coords: map<string, Option<C>>): seq<Marker<C>>
    requires forall k :: k in keys ==> k in counts
  {
    if keys == [] then []
    else
      var last := keys[|keys| - 1];
      var placed := Markers(keys[..|keys| - 1], counts, coords);
      match MarkerFor(last, counts[last], coords)
      case None => placed
      case Some(m) => placed + [m]
  }

  /**
   * Filter/join characterisation: a marker is placed exactly for each visited
   * city whose count is above `minCount` and which has coordinates, at those
   * coordinates, in the `getCityColor` colour of its count.
   */
  lemma {:induction false} MarkersExactly<C>(keys: seq<string>, counts: map<string, int>, coords: map<string, Option<C>>)
    requires forall k :: k in keys ==> k in counts
    ensures forall m :: m in Markers(keys, counts, coords) <==>
              m.city in keys && Shown(m.city, counts[m.city], coords)
              && m == Marker(m.city, coords[m.city].value, CityColor(counts[m.city]), counts[m.city])
  {
    if keys != [] {
      var init := keys[..|keys| - 1];
      assert forall k :: k in keys <==> k in init || k == keys[|keys| - 1];
      MarkersExactly(init, counts, coords);
    }
  }

  /** Only visited cities get markers. */
  lemma MarkerCityVisited<C>(keys: seq<string>, counts: map<string, int>, coords: map<string, Option<C>>,
                             m: Marker<C>)
    requires forall k :: k in keys ==> k in counts
    requires m in Markers(keys, counts, coords)
    ensures m.city in keys
  {
    MarkersExactly(keys, counts, coords);
  }

  /** No city gets two markers when the visited keys are distinct. */
  lemma {:induction false} MarkersDistinctCities<C>(keys: seq<string>, counts: map<string, int>,
                                                    coords: map<string, Option<C>>)
    requires forall k :: k in keys ==> k in counts
    requires forall i, j :: 0 <= i < j < |keys| ==> keys[i] != keys[j]
    ensures forall i, j :: 0 <= i < j < |Markers(keys, counts, coords)| ==>
              Markers(keys, counts, coords)[i].city != Markers(keys, counts, coords)[j].city
  {
    if keys != [] {
      var n := |keys| - 1;
      var init := keys[..n];
      MarkersDistinctCities(init, counts, coords);
      var before := Markers(init, counts, coords);
      var ms := Markers(keys, counts, coords);
      if |ms| != |before| {
        assert keys[n] !in init;
        forall i | 0 <= i < |before| ensures before[i].city != keys[n] {
          assert before[i] in before;
          MarkerCityVisited(init, counts, coords, before[i]);
        }
      }
    }
  }

  /**
   * The city-marker loop over the `for...in` enumeration `order` of the
   * city-count table. Cities at or below `minCount`, and cities missing from
   * the coordinate table, are skipped without error.
   */
  method PlaceMarkers<C(==)>(order: seq<string>, counts: map<string, int>, coords: map<string, Option<C>>)
    returns (markers: seq<Marker<C>>)
    requires Enumerates(order, counts)
    ensures markers == Markers(order, counts, coords)
    ensures forall m :: m in markers <==>
              m.city in counts && Shown(m.city, counts[m.city], coords)
              && m == Marker(m.city, coords[m.city].value, CityColor(counts[m.city]), counts[m.city])
    ensures forall i, j :: 0 <= i < j < |markers| ==> markers[i].city != markers[j].city
  {
    markers := [];
    var i := 0;
    while i < |order|
      invariant 0 <= i <= |order|
      invariant markers == Markers(order[..i], counts, coords)
    {
      var city := order[i];
      var count := counts[city];
      if count > MinCount {
        if city in coords && coords[city].Some? {
          markers := markers + [Marker(city, coords[city].value, CityColor(count), count)];
        }
      }
      assert order[..i + 1][..i] == order[..i];
      i := i + 1;
    }
    assert order[..i] == order;
    MarkersExactly(order, counts, coords);
    MarkersDistinctCities(order, counts, coords);
  }

  /** The set of placed markers does not depend on the order `for...in` visits the cities. */
  lemma MarkersOrderIndependent<C>(o1: seq<string>, o2: seq<string>, counts: map<string, int>,
                                  coords: map<string, Option<C>>)
    requires Enumerates(o1, counts) && Enumerates(o2, counts)
    ensures forall m :: m in Markers(o1, counts, coords) <==> m in Markers(o2, counts, coords)
  {
    MarkersExactly(o1, counts, coords);
    MarkersExactly(o2, counts, coords);
  }

  /**
   * Sample tables: Paris with 15 nodes is drawn at its coordinates in
   * `#74c476`; without a coordinate entry it is skipped; 10 nodes are not
   * enough, 11 are.
   */
  lemma Samples(paris: int)
    ensures Markers(["Paris"], map["Paris" := 15], map["Paris" := Some(paris)])
            == [Marker("Paris", paris, "#74c476", 15)]
    ensures Markers(["Paris"], map["Paris" := 15], map["Lyon" := Some(paris)]) == []
    ensures Markers(["Paris"], map["Paris" := 10], map["Paris" := Some(paris)]) == []
    ensures Markers(["Paris"], map["Paris" := 11], map["Paris" := Some(paris)]) != []
  {
    assert ["Paris"][..0] == [];
  }
}
