/** A model of the airport distance endpoint: the fixed reference table of
    airports and the decision chain of `calculate_distance`, which validates
    the two requested codes, looks them up and shapes either a success payload
    or a typed error with its HTTP status.

    The geodesic distance, computed by a foreign library, is not modelled
    numerically: it is a parameter of the model, a total function from the two
    coordinate pairs to kilometres. Its rounding to two decimals is modelled. */
module Views {

  import opened Rounding
  import opened Dicts

  datatype Option<T> = None | Some(value: T)

  /** A (latitude, longitude) pair in degrees. */
  datatype Coords = Coords(latitude: real, longitude: real)

  /** One record of the reference table. */
  datatype Airport = Airport(name: string, coords: Coords)

  /** The entries of the reference table, as written in its dict display. */
  const AirportEntries: seq<(string, Airport)> := [
    ("BOG", Airport("Aeropuerto Internacional El Dorado", Coords(4.70159, -74.1469))),
    ("MEX", Airport("Aeropuerto Internacional de la Ciudad de México", Coords(19.4363, -99.0721))),
    ("JFK", Airport("John F. Kennedy International Airport", Coords(40.6413, -73.7781))),
    ("MAD", Airport("Aeropuerto Adolfo Suárez Madrid-Barajas", Coords(40.4983, -3.5676))),
    ("MIA", Airport("Miami International Airport", Coords(25.7959, -80.2871))),
    ("LAX", Airport("Los Angeles International Airport", Coords(33.9416, -118.4085)))
  ]

  /** The fixed reference table, keyed by three-letter airport code. */
  const AirportData: map<string, Airport> := FromEntries(AirportEntries)

  /** One validation error of a form field, as its JSON report gives it. */
  datatype FieldError = FieldError(message: string, code: string)

  /** Field name to that field's validation errors. */
  type FieldErrors = map<string, seq<FieldError>>

  /** The submitted form after the form library has run: either the two
      cleaned codes, or the field errors that made it invalid. */
  datatype Form =
    | Valid(origin: string, destination: string)
    | Invalid(errors: FieldErrors)

  /** The reasons the endpoint refuses a request, in the order it checks them. */
  datatype Failure =
    | InvalidForm(errors: FieldErrors)
    | SameAirport
    | OriginNotFound(code: string)
    | DestinationNotFound(code: string)

  /** One side of a success payload: the code as submitted and the table's name. */
  datatype Endpoint = Endpoint(code: string, name: string)

  /** The JSON body of the response; `success` is `Success?`. */
  datatype Response =
    | Success(origin: Endpoint, destination: Endpoint, distanceKm: real)
    | Error(failure: Failure)

  /** The HTTP status code sent with a response. */
  function Status(r: Response): (s: int)
    ensures s == 200 <==> r.Success?
    ensures s == 404 <==> r.Error? && (r.failure.OriginNotFound? || r.failure.DestinationNotFound?)
    ensures s == 400 || s == 404 || s == 200
  {
    match r
    case Success(_, _, _) => 200
    case Error(InvalidForm(_)) => 400
    case Error(SameAirport) => 400
    case Error(OriginNotFound(_)) => 404
    case Error(DestinationNotFound(_)) => 404
  }

  /** Dictionary `get` on the reference table: the record, or nothing for an
      unknown code. */
  function Lookup(code: string): (r: Option<Airport>)
    ensures r.Some? <==> code in AirportData
    ensures r.Some? ==> r.value == AirportData[code]
  {
    if code in AirportData then Some(AirportData[code]) else None
  }

  /** The endpoint's decision chain. `geodesicKm` stands for the ellipsoidal
      geodesic distance, in kilometres, between two coordinate pairs. */
  function CalculateDistance(form: Form, geodesicKm: (Coords, Coords) -> real): (r: Response)
    ensures r.Success? ==>
      && form.Valid?
      && form.origin in AirportData && form.destination in AirportData
      && r.origin == Endpoint(form.origin, AirportData[form.origin].name)
      && r.destination == Endpoint(form.destination, AirportData[form.destination].name)
      && r.distanceKm == RoundHundredths(geodesicKm(AirportData[form.origin].coords, AirportData[form.destination].coords))
    ensures r.Error? && r.failure.OriginNotFound? ==>
      form.Valid? && r.failure.code == form.origin && form.origin !in AirportData
    ensures r.Error? && r.failure.DestinationNotFound? ==>
      form.Valid? && r.failure.code == form.destination && form.destination !in AirportData
  {
    match form
    case Invalid(errors) => Error(InvalidForm(errors))
    case Valid(origin, destination) =>
      if origin == destination then Error(SameAirport)
      else
        var originData := Lookup(origin);
        var destinationData := Lookup(destination);
        if originData.None? then Error(OriginNotFound(origin))
        else if destinationData.None? then Error(DestinationNotFound(destination))
        else
          var distance := geodesicKm(originData.value.coords, destinationData.value.coords);
          Success(
            Endpoint(origin, originData.value.name),
            Endpoint(destination, destinationData.value.name),
            RoundHundredths(distance))
  }

  /** Every check a request fails, in the order the endpoint performs them.
      This is what an endpoint reporting all problems at once would list. */
  function Failures(form: Form): (fs: seq<Failure>)
  {
    match form
    case Invalid(errors) => [InvalidForm(errors)]
    case Valid(origin, destination) =>
      (if origin == destination then [SameAirport] else [])
      + (if origin !in AirportData then [OriginNotFound(origin)] else [])
      + (if destination !in AirportData then [DestinationNotFound(destination)] else [])
  }

  /** The endpoint succeeds exactly when no check fails, and otherwise reports
      the first failing check only. */
  lemma FirstFailureWins(form: Form, geodesicKm: (Coords, Coords) -> real)
    ensures CalculateDistance(form, geodesicKm).Success? <==> Failures(form) == []
    ensures CalculateDistance(form, geodesicKm).Error? ==>
      |Failures(form)| > 0 && CalculateDistance(form, geodesicKm).failure == Failures(form)[0]
  {
  }

  /** The table's keys are exactly the six codes BOG, MEX, JFK, MAD, MIA and
      LAX, each found with the record written for it. */
  lemma AirportDataContents()
    ensures AirportData.Keys == {"BOG", "MEX", "JFK", "MAD", "MIA", "LAX"}
    ensures |AirportData| == 6
    ensures forall i :: 0 <= i < |AirportEntries| ==> AirportData[AirportEntries[i].0] == AirportEntries[i].1
    ensures forall code :: code in AirportData ==>
      exists i :: 0 <= i < |AirportEntries| && AirportEntries[i].0 == code
  {
    FromEntriesKeys(AirportEntries);
    FromEntriesDistinct(AirportEntries);
    var written := set i | 0 <= i < |AirportEntries| :: AirportEntries[i].0;
    assert AirportEntries[0].0 in written && AirportEntries[1].0 in written && AirportEntries[2].0 in written;
    assert AirportEntries[3].0 in written && AirportEntries[4].0 in written && AirportEntries[5].0 in written;
  }

  /** No two airports of the table share a name, so a success payload's names
      tell the two airports apart. */
  lemma AirportNamesDistinct(a: string, b: string)
    requires a in AirportData && b in AirportData && a != b
    ensures AirportData[a].name != AirportData[b].name
  {
    AirportDataContents();
    var i :| 0 <= i < |AirportEntries| && AirportEntries[i].0 == a;
    var j :| 0 <= j < |AirportEntries| && AirportEntries[j].0 == b;
  }

  /** A form the form library rejects gets a 400 carrying its field errors. */
  lemma InvalidFormRejected(errors: FieldErrors, geodesicKm: (Coords, Coords) -> real)
    ensures CalculateDistance(Invalid(errors), geodesicKm) == Error(InvalidForm(errors))
    ensures Status(CalculateDistance(Invalid(errors), geodesicKm)) == 400
  {
  }

  /** Equal codes get the 400 same-airport error, whether or not the code is
      in the table: this check comes before any lookup. */
  lemma SameCodesRejected(code: string, geodesicKm: (Coords, Coords) -> real)
    ensures CalculateDistance(Valid(code, code), geodesicKm) == Error(SameAirport)
    ensures Status(CalculateDistance(Valid(code, code), geodesicKm)) == 400
  {
  }

  /** Distinct codes with an unknown origin get a 404 naming the origin, even
      when the destination is unknown too. */
  lemma UnknownOriginReported(origin: string, destination: string, geodesicKm: (Coords, Coords) -> real)
    requires origin != destination && origin !in AirportData
    ensures CalculateDistance(Valid(origin, destination), geodesicKm) == Error(OriginNotFound(origin))
    ensures Status(CalculateDistance(Valid(origin, destination), geodesicKm)) == 404
  {
  }

  /** Distinct codes with a known origin and an unknown destination get a 404
      naming the destination. */
  lemma UnknownDestinationReported(origin: string, destination: string, geodesicKm: (Coords, Coords) -> real)
    requires origin != destination && origin in AirportData && destination !in AirportData
    ensures CalculateDistance(Valid(origin, destination), geodesicKm) == Error(DestinationNotFound(destination))
    ensures Status(CalculateDistance(Valid(origin, destination), geodesicKm)) == 404
  {
  }

  /** A success payload is produced exactly for a valid form with two distinct
      codes that are both in the table. */
  lemma SuccessExactlyWhenKnownAndDistinct(form: Form, geodesicKm: (Coords, Coords) -> real)
    ensures CalculateDistance(form, geodesicKm).Success? <==>
      form.Valid? && form.origin != form.destination
      && form.origin in AirportData && form.destination in AirportData
  {
  }

  /** The distance in a success payload is the geodesic distance to the nearest
      hundredth of a kilometre: a whole number of hundredths, at most half a
      hundredth away. */
  lemma SuccessDistanceRounded(form: Form, geodesicKm: (Coords, Coords) -> real)
    requires CalculateDistance(form, geodesicKm).Success?
    ensures var r := CalculateDistance(form, geodesicKm);
      var exact := geodesicKm(AirportData[form.origin].coords, AirportData[form.destination].coords);
      && (r.distanceKm * 100.0).Floor as real == r.distanceKm * 100.0
      && Abs(r.distanceKm - exact) <= 0.005
  {
  }

  /** An unknown origin paired with JFK is reported as an unknown origin. */
  lemma UnknownOriginExample(geodesicKm: (Coords, Coords) -> real)
    ensures CalculateDistance(Valid("XXX", "JFK"), geodesicKm) == Error(OriginNotFound("XXX"))
  {
    AirportDataContents();
  }

  /** Bogota to Mexico City succeeds and names El Dorado as the origin. */
  lemma BogotaMexicoExample(geodesicKm: (Coords, Coords) -> real)
    ensures var r := CalculateDistance(Valid("BOG", "MEX"), geodesicKm);
      && r.Success?
      && r.origin == Endpoint("BOG", "Aeropuerto Internacional El Dorado")
      && r.destination == Endpoint("MEX", "Aeropuerto Internacional de la Ciudad de México")
      && r.distanceKm == RoundHundredths(geodesicKm(Coords(4.70159, -74.1469), Coords(19.4363, -99.0721)))
  {
    AirportDataContents();
    assert AirportData[AirportEntries[0].0] == AirportEntries[0].1;
    assert AirportData[AirportEntries[1].0] == AirportEntries[1].1;
  }
}
