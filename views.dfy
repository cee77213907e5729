/** Request handling of station/views.py: station autocomplete, trip search
    and the parameter defaults of the availability endpoint. Query
    parameters arrive already classified: parsing text into a number or a
    date is not part of this model. */
module Views {
  import opened Common
  import opened Entities
  import opened Inventory
  import opened TripAvailability

  /** The `passengers_count` parameter: absent (read as "1"), an integer, or
      text that `int(...)` refuses. */
  datatype CountParam = CountAbsent | CountValue(n: int) | NotAnInteger

  /** The `date` parameter: absent or empty (falsy), or text that parses to a
      day number, or text `strptime` refuses (None). */
  datatype DateParam = DateAbsent | DateText(day: Option<int>)

  datatype ViewError = EndpointsRequired | InvalidDate

  /** `int(passengers_count_str)`, falling back to 1 on a ValueError. */
  function PassengersCount(p: CountParam): (n: int)
    ensures p.CountValue? ==> n == p.n
    ensures !p.CountValue? ==> n == 1
  {
    if p.CountValue? then p.n else 1
  }

  /** The date of a request: the parsed day, the fallback when the parameter
      is falsy, or an error when it does not parse. */
  function RequestDate(p: DateParam, fallback: int): (r: Result<int, ViewError>)
    ensures r.Failure? <==> p == DateText(None)
    ensures r.Failure? ==> r.error == InvalidDate
    ensures p == DateAbsent ==> r == Success(fallback)
    ensures p.DateText? && p.day.Some? ==> r == Success(p.day.value)
  {
    match p
    case DateAbsent => Success(fallback)
    case DateText(d) => if d.None? then Failure(InvalidDate) else Success(d.value)
  }

  /** The order of `Station.Meta.ordering = ["name"]`: character by
      character by code point, a prefix before its extensions. */
  predicate NameLeq(a: string, b: string)
    decreases |a|
  {
    a == [] || (b != [] && (a[0] < b[0] || (a[0] == b[0] && NameLeq(a[1..], b[1..]))))
  }

  lemma {:induction false} NameLeqTotal(a: string, b: string)
    ensures NameLeq(a, b) || NameLeq(b, a)
    decreases |a|
  {
    if a != [] && b != [] && a[0] == b[0] {
      NameLeqTotal(a[1..], b[1..]);
    }
  }

  lemma {:induction false} NameLeqTrans(a: string, b: string, c: string)
    requires NameLeq(a, b) && NameLeq(b, c)
    ensures NameLeq(a, c)
    decreases |a|
  {
    if a != [] && a[0] == b[0] && b[0] == c[0] {
      NameLeqTrans(a[1..], b[1..], c[1..]);
    }
  }

  predicate SortedByName(s: seq<Station>)
  {
    forall i, j :: 0 <= i < j < |s| ==> NameLeq(s[i].name, s[j].name)
  }

  /** Places `t` before the first station whose name is no smaller. */
  function InsertByName(t: Station, s: seq<Station>): (r: seq<Station>)
    ensures multiset(r) == multiset(s) + multiset{t}
    ensures |r| == |s| + 1
  {
    if s == [] then [t]
    else if NameLeq(t.name, s[0].name) then [t] + s
    else
      assert s == [s[0]] + s[1..];
      [s[0]] + InsertByName(t, s[1..])
  }

  /** Inserting a station whose name is no smaller than `x` among stations
      whose names are all no smaller than `x` keeps that bound. */
  lemma {:induction false} InsertByNameKeepsLowerBound(t: Station, s: seq<Station>, x: string)
    requires NameLeq(x, t.name)
    requires forall k :: 0 <= k < |s| ==> NameLeq(x, s[k].name)
    ensures forall k :: 0 <= k < |InsertByName(t, s)| ==> NameLeq(x, InsertByName(t, s)[k].name)
  {
    var r := InsertByName(t, s);
    if s == [] {
    } else if NameLeq(t.name, s[0].name) {
      forall k | 0 <= k < |r|
        ensures NameLeq(x, r[k].name)
      {
        if k > 0 {
          assert r[k] == s[k - 1];
        }
      }
    } else {
      var rest := s[1..];
      assert forall k :: 0 <= k < |rest| ==> rest[k] == s[k + 1];
      InsertByNameKeepsLowerBound(t, rest, x);
      var tail := InsertByName(t, rest);
      forall k | 0 <= k < |r|
        ensures NameLeq(x, r[k].name)
      {
        if k > 0 {
          assert r[k] == tail[k - 1];
        }
      }
    }
  }

  lemma {:induction false} InsertByNameKeepsSorted(t: Station, s: seq<Station>)
    requires SortedByName(s)
    ensures SortedByName(InsertByName(t, s))
  {
    var r := InsertByName(t, s);
    if s == [] {
    } else if NameLeq(t.name, s[0].name) {
      forall i, j | 0 <= i < j < |r|
        ensures NameLeq(r[i].name, r[j].name)
      {
        assert r[j] == s[j - 1];
        if i == 0 {
          if j > 1 {
            NameLeqTrans(t.name, s[0].name, s[j - 1].name);
          }
        } else {
          assert r[i] == s[i - 1];
        }
      }
    } else {
      var rest := s[1..];
      assert SortedByName(rest) by {
        forall i, j | 0 <= i < j < |rest|
          ensures NameLeq(rest[i].name, rest[j].name)
        {
          assert rest[i] == s[i + 1] && rest[j] == s[j + 1];
        }
      }
      InsertByNameKeepsSorted(t, rest);
      assert forall k :: 0 <= k < |rest| ==> rest[k] == s[k + 1];
      NameLeqTotal(t.name, s[0].name);
      InsertByNameKeepsLowerBound(t, rest, s[0].name);
      var tail := InsertByName(t, rest);
      forall i, j | 0 <= i < j < |r|
        ensures NameLeq(r[i].name, r[j].name)
      {
        assert r[j] == tail[j - 1];
        if i > 0 {
          assert r[i] == tail[i - 1];
        }
      }
    }
  }

  /** The stations ordered by name; stations with equal names keep their
      table order. */
  function SortByName(s: seq<Station>): (r: seq<Station>)
    ensures multiset(r) == multiset(s)
    ensures |r| == |s|
  {
    if s == [] then []
    else
      assert s == [s[0]] + s[1..];
      InsertByName(s[0], SortByName(s[1..]))
  }

  lemma {:induction false} SortByNameIsSorted(s: seq<Station>)
    ensures SortedByName(SortByName(s))
  {
    if s != [] {
      SortByNameIsSorted(s[1..]);
      InsertByNameKeepsSorted(s[0], SortByName(s[1..]));
    }
  }

  /** The stations whose name contains `q`, ignoring case, by name. */
  function NameMatches(stations: seq<Station>, q: string): seq<Station>
  {
    SortByName(Filter(stations, (s: Station) => ContainsIgnoreCase(s.name, q)))
  }

  /** `StationViewSet.autocomplete`: fewer than two characters give nothing;
      otherwise the first ten stations, by name, whose name contains the
      query, ignoring case. */
  function Autocomplete(stations: seq<Station>, query: Option<string>): (r: seq<Station>)
    ensures |r| <= 10
    ensures query.None? ==> r == []
    ensures query.Some? && |query.value| < 2 ==> r == []
  {
    var q := if query.None? then "" else query.value;
    if |q| < 2 then [] else Take(NameMatches(stations, q), 10)
  }

  /** The matching stations, with the ones the sort lists exactly the
      stored ones that match. */
  lemma NameMatchesMembers(stations: seq<Station>, q: string, s: Station)
    ensures s in NameMatches(stations, q) <==> s in stations && ContainsIgnoreCase(s.name, q)
  {
    var p := (s: Station) => ContainsIgnoreCase(s.name, q);
    var f := Filter(stations, p);
    FilterMembers(stations, p);
    assert s in NameMatches(stations, q) <==> s in multiset(f);
    if s in f {
      var k :| 0 <= k < |f| && f[k] == s;
      assert p(f[k]);
    }
    if s in stations && ContainsIgnoreCase(s.name, q) {
      var k :| 0 <= k < |stations| && stations[k] == s;
      assert p(stations[k]);
    }
  }

  /** Every station the autocomplete lists is stored and matches the query;
      with fewer than ten listed, every match is listed. */
  lemma AutocompleteMembers(stations: seq<Station>, q: string)
    requires |q| >= 2
    ensures forall i :: 0 <= i < |Autocomplete(stations, Some(q))| ==>
      Autocomplete(stations, Some(q))[i] in stations
      && ContainsIgnoreCase(Autocomplete(stations, Some(q))[i].name, q)
    ensures |Autocomplete(stations, Some(q))| < 10 ==>
      forall i :: 0 <= i < |stations| && ContainsIgnoreCase(stations[i].name, q) ==>
        stations[i] in Autocomplete(stations, Some(q))
  {
    var m := NameMatches(stations, q);
    var r := Autocomplete(stations, Some(q));
    forall i | 0 <= i < |r|
      ensures r[i] in stations && ContainsIgnoreCase(r[i].name, q)
    {
      assert r[i] == m[i];
      NameMatchesMembers(stations, q, r[i]);
    }
    if |r| < 10 {
      assert r == m;
      forall i | 0 <= i < |stations| && ContainsIgnoreCase(stations[i].name, q)
        ensures stations[i] in r
      {
        NameMatchesMembers(stations, q, stations[i]);
      }
    }
  }

  /** The autocomplete lists its stations in name order. */
  lemma AutocompleteSorted(stations: seq<Station>, q: string)
    ensures SortedByName(Autocomplete(stations, Some(q)))
  {
    var p := (s: Station) => ContainsIgnoreCase(s.name, q);
    SortByNameIsSorted(Filter(stations, p));
  }

  /** The ten listed are the first by name: a matching station left out
      comes after every listed one, and only when ten are listed. */
  lemma AutocompleteFirstTen(stations: seq<Station>, q: string, s: Station)
    requires |q| >= 2
    requires s in stations && ContainsIgnoreCase(s.name, q)
    requires s !in Autocomplete(stations, Some(q))
    ensures |Autocomplete(stations, Some(q))| == 10
    ensures forall i :: 0 <= i < 10 ==> NameLeq(Autocomplete(stations, Some(q))[i].name, s.name)
  {
    var p := (s: Station) => ContainsIgnoreCase(s.name, q);
    var m := NameMatches(stations, q);
    var r := Autocomplete(stations, Some(q));
    NameMatchesMembers(stations, q, s);
    SortByNameIsSorted(Filter(stations, p));
    var j :| 0 <= j < |m| && m[j] == s;
    forall i | 0 <= i < 10
      ensures NameLeq(r[i].name, s.name)
    {
      assert r[i] == m[i];
    }
  }

  /** The text matches a station's name or city, ignoring case. */
  predicate StationMatches(s: Station, text: string)
  {
    ContainsIgnoreCase(s.name, text) || ContainsIgnoreCase(s.city, text)
  }

  /** The query of `search`: origin and destination text against the route's
      stations, and the departure date. */
  predicate SearchMatch(t: Trip, origin: string, destination: string, day: int)
  {
    StationMatches(t.route.origin, origin)
    && StationMatches(t.route.destination, destination)
    && DayOf(t.departure) == day
  }

  /** The search query, in the model's default order (departure time). */
  function MatchingTrips(trips: seq<Trip>, origin: string, destination: string, day: int): seq<Trip>
  {
    SortByDeparture(Filter(trips, (t: Trip) => SearchMatch(t, origin, destination, day)))
  }

  /** The availability check of `search`: `is_available_for_booking` with no
      class named and the search date as travel date. */
  predicate Bookable(t: Trip, wagons: seq<Wagon>, tickets: seq<Ticket>, n: int, day: int)
  {
    IsAvailableForBooking(t, wagons, tickets, n, None, Some(day))
  }

  /** The trips `search` answers with, for valid parameters. */
  function SearchResult(trips: seq<Trip>, wagons: seq<Wagon>, tickets: seq<Ticket>,
                        origin: string, destination: string, day: int, n: int): seq<Trip>
  {
    var matching := MatchingTrips(trips, origin, destination, day);
    if n > 0 then Filter(matching, (t: Trip) => Bookable(t, wagons, tickets, n, day)) else matching
  }

  /** `TripViewSet.search`. `today` stands for `datetime.now().date()`. */
  method Search(trips: seq<Trip>, wagons: seq<Wagon>, tickets: seq<Ticket>,
                origin: Option<string>, destination: Option<string>,
                date: DateParam, count: CountParam, today: int)
    returns (res: Result<seq<Trip>, ViewError>)
    ensures (origin.None? || origin.value == "" || destination.None? || destination.value == "")
      ==> res == Failure(EndpointsRequired)
    ensures res == Failure(InvalidDate) <==>
      origin.Some? && origin.value != "" && destination.Some? && destination.value != ""
      && date == DateText(None)
    ensures res.Success? <==>
      origin.Some? && origin.value != "" && destination.Some? && destination.value != ""
      && date != DateText(None)
    ensures res.Success? ==>
      res.value == SearchResult(trips, wagons, tickets, origin.value, destination.value,
                                RequestDate(date, today).value, PassengersCount(count))
  {
    if origin.None? || origin.value == "" || destination.None? || destination.value == "" {
      return Failure(EndpointsRequired);
    }
    var n := PassengersCount(count);
    var day := RequestDate(date, today);
    if day.Failure? {
      return Failure(day.error);
    }
    var matching := MatchingTrips(trips, origin.value, destination.value, day.value);
    if n <= 0 {
      return Success(matching);
    }
    var keep := (t: Trip) => Bookable(t, wagons, tickets, n, day.value);
    var filtered := [];
    for i := 0 to |matching|
      invariant filtered == Filter(matching[..i], keep)
    {
      FilterSnoc(matching, i, keep);
      var t := matching[i];
      var stats := AvailableSeatsByClass(t, wagons, tickets, Some(day.value));
      if IsAvailableIn(stats, n, None) {
        filtered := filtered + [t];
      }
    }
    assert matching[..|matching|] == matching;
    return Success(filtered);
  }

  /** The trips the search query keeps are exactly the stored trips that
      match it. */
  lemma MatchingTripsMembers(trips: seq<Trip>, origin: string, destination: string, day: int)
    ensures forall t :: (t in MatchingTrips(trips, origin, destination, day)
                         <==> t in trips && SearchMatch(t, origin, destination, day))
  {
    var m := (t: Trip) => SearchMatch(t, origin, destination, day);
    var f := Filter(trips, m);
    var matching := SortByDeparture(f);
    FilterMembers(trips, m);
    forall t
      ensures t in matching <==> t in trips && SearchMatch(t, origin, destination, day)
    {
      assert t in matching <==> t in multiset(matching);
      assert t in f <==> t in multiset(f);
      if t in f {
        var k :| 0 <= k < |f| && f[k] == t;
        assert m(f[k]);
      }
      if t in trips && SearchMatch(t, origin, destination, day) {
        var k :| 0 <= k < |trips| && trips[k] == t;
        assert m(trips[k]);
      }
    }
  }

  /** Every trip `search` returns is a stored trip that matches the origin
      and destination text and the date and, when the passenger count is
      positive, can take that many passengers. */
  lemma SearchResultSound(trips: seq<Trip>, wagons: seq<Wagon>, tickets: seq<Ticket>,
                          origin: string, destination: string, day: int, n: int, t: Trip)
    requires t in SearchResult(trips, wagons, tickets, origin, destination, day, n)
    ensures t in trips && SearchMatch(t, origin, destination, day)
    ensures n > 0 ==> Bookable(t, wagons, tickets, n, day)
  {
    var b := (t: Trip) => Bookable(t, wagons, tickets, n, day);
    var matching := MatchingTrips(trips, origin, destination, day);
    MatchingTripsMembers(trips, origin, destination, day);
    if n > 0 {
      FilterMembers(matching, b);
      var k :| 0 <= k < |matching| && matching[k] == t;
    }
  }

  /** Every stored trip that matches and, when the passenger count is
      positive, can take that many passengers is returned. */
  lemma SearchResultComplete(trips: seq<Trip>, wagons: seq<Wagon>, tickets: seq<Ticket>,
                             origin: string, destination: string, day: int, n: int, t: Trip)
    requires t in trips && SearchMatch(t, origin, destination, day)
    requires n > 0 ==> Bookable(t, wagons, tickets, n, day)
    ensures t in SearchResult(trips, wagons, tickets, origin, destination, day, n)
  {
    var b := (t: Trip) => Bookable(t, wagons, tickets, n, day);
    var matching := MatchingTrips(trips, origin, destination, day);
    MatchingTripsMembers(trips, origin, destination, day);
    if n > 0 {
      FilterMembers(matching, b);
      var k :| 0 <= k < |matching| && matching[k] == t;
      assert b(matching[k]);
    }
  }

  /** `search` lists its trips in departure order. */
  lemma SearchResultSorted(trips: seq<Trip>, wagons: seq<Wagon>, tickets: seq<Ticket>,
                           origin: string, destination: string, day: int, n: int)
    ensures SortedByDeparture(SearchResult(trips, wagons, tickets, origin, destination, day, n))
  {
    SortIsSorted(Filter(trips, (t: Trip) => SearchMatch(t, origin, destination, day)));
    if n > 0 {
      FilterKeepsSorted(MatchingTrips(trips, origin, destination, day), (t: Trip) => Bookable(t, wagons, tickets, n, day));
    }
  }

  /** Filtering keeps departure order. */
  lemma {:induction false} FilterKeepsSorted(s: seq<Trip>, p: Trip -> bool)
    requires SortedByDeparture(s)
    ensures SortedByDeparture(Filter(s, p))
  {
    if s != [] {
      var init := s[..|s| - 1];
      assert SortedByDeparture(init) by {
        forall i, j | 0 <= i < j < |init|
          ensures init[i].departure <= init[j].departure
        {
          assert init[i] == s[i] && init[j] == s[j];
        }
      }
      FilterKeepsSorted(init, p);
      FilterSnoc(s, |s| - 1, p);
      assert s[..|s| - 1] == init && s[..|s|] == s;
      var fi := Filter(init, p);
      FilterMembers(init, p);
      if p(s[|s| - 1]) {
        var r := fi + [s[|s| - 1]];
        forall i, j | 0 <= i < j < |r|
          ensures r[i].departure <= r[j].departure
        {
          if j == |fi| {
            var k :| 0 <= k < |init| && init[k] == fi[i];
            assert r[i] == init[k] == s[k];
          } else {
            assert r[i] == fi[i] && r[j] == fi[j];
          }
        }
      }
    }
  }

  /** `TripViewSet.availability`: the passenger count defaults to 1 and a
      malformed date is an error; the date itself (defaulting to the trip's
      departure date) is not used by the entries, each of which is computed
      on its own run's departure date. */
  method Availability(trip: Trip, trips: seq<Trip>, wagons: seq<Wagon>, tickets: seq<Ticket>,
                      date: DateParam, count: CountParam)
    returns (res: Result<seq<DateEntry>, ViewError>)
    ensures res.Failure? <==> date == DateText(None)
    ensures res.Failure? ==> res.error == InvalidDate
    ensures res.Success? ==>
      |res.value| == |Candidates(trip, trips)|
      && forall i :: 0 <= i < |res.value| ==>
           res.value[i] == EntryFor(Candidates(trip, trips)[i], wagons, tickets, PassengersCount(count))
  {
    var n := PassengersCount(count);
    var checkDate := RequestDate(date, DayOf(trip.departure));
    if checkDate.Failure? {
      return Failure(checkDate.error);
    }
    var entries := DatesAvailability(trip, trips, wagons, tickets, n);
    return Success(entries);
  }

  /** Without a passenger count, the availability of each run asks for one
      free seat. */
  lemma AvailabilityDefaults(trip: Trip)
    ensures PassengersCount(CountAbsent) == 1 && PassengersCount(NotAnInteger) == 1
    ensures RequestDate(DateAbsent, DayOf(trip.departure)) == Success(DayOf(trip.departure))
  {
  }
}
