# Airport distance endpoint — Dafny model

This project models the core of a small Django application. The application takes two
airport codes from a POST form, looks both up in a fixed table of six airports, and
answers with JSON. The answer is either the two airports (code and name) plus the
distance between them in kilometres, or an error with an HTTP status.

The model covers two parts of `airports/views.py`:

- `AIRPORT_DATA`, the reference table. Its dict display is the entry list
  `Views.AirportEntries`. Each record has a name and a (latitude, longitude) pair, and
  the coordinates are exact `real` literals. `Views.AirportData` is the
  `map<string, Airport>` that the display evaluates to. Module `Dicts` gives the meaning
  of a dict display: the entries are inserted from left to right, so a repeated key
  keeps its last value.
- The decision chain of `calculate_distance`. It is the pure function
  `Views.CalculateDistance`. It returns a `Response`, which is either `Success` with
  both `Endpoint`s and the distance, or `Error` with a `Failure`. The HTTP status of a
  response is `Views.Status`.

The function checks these cases in this order, and the first failing check decides the
answer:

1. An invalid form gives 400 with the field errors.
2. Equal codes give 400 `SameAirport`.
3. An unknown origin gives 404 `OriginNotFound(origin)`.
4. An unknown destination gives 404 `DestinationNotFound(destination)`.
5. Otherwise the answer is a success payload.

In the source, the test `not origen_data` is applied to the result of `AIRPORT_DATA.get`.
Every record in the table is a non-empty dictionary, so that test is true exactly when
the code is missing. The model therefore writes it as `code !in AirportData`, through
`Views.Lookup`.

The geodesic distance comes from a foreign library. The model takes it as a parameter
`geodesicKm: (Coords, Coords) -> real`, an arbitrary total function. Because the function
is arbitrary, every property proved here holds for any distance function. That also shows
the distance is computed from the two looked-up coordinate pairs, origin first.
The call `round(distancia, 2)` is modelled by `Rounding.RoundHundredths`. It rounds
exactly to the nearest hundredth and sends ties to the even neighbour, as Python's `round`
does.

`Views.Failures` lists every check a request fails, in the order the source checks them.
It is an independent reference for the first-failure-wins rule. The code looks up both
codes before testing either (views.py:45-46), but it reports only the first failing
lookup, origin before destination (views.py:48-51). `Views.FirstFailureWins` proves that
the response is the head of that list.

views.py itself never checks that a code is non-empty or well formed. Any such check
belongs to `AirportDistanceForm`, which is outside the model. A failed form arrives as
`Invalid` with the field errors of its JSON report, each a message and a code.

Calling the function twice with the same inputs gives the same output by construction:
`CalculateDistance` is a Dafny function.

## Model

| member | source | states |
|---|---|---|
| `Views.CalculateDistance` | airport_distance_project/airports/views.py:29-69 | A success comes only from a valid form whose two codes are both in the table. The payload echoes both submitted codes unchanged and gives each code's table name. The distance is the rounded geodesic distance between the origin's coordinates and the destination's coordinates, in that order. A 404 names the submitted code that is missing from the table. |
| `Views.Status` | airport_distance_project/airports/views.py:39-69 | Every response is sent with status 200, 400 or 404. It is 200 exactly for a success. It is 404 exactly for an unknown origin or an unknown destination. |
| `Views.Lookup` | airport_distance_project/airports/views.py:45-46 | `AIRPORT_DATA.get(code)` returns a record exactly when the code is a key of the table, and that record is the table's entry for the code. |
| `Views.FirstFailureWins` | airport_distance_project/airports/views.py:35-55 | The response is a success exactly when the list of failed checks is empty. Otherwise the error it carries is the first failed check, in the order form, equality, origin, destination. |
| `Views.AirportDataContents` | airport_distance_project/airports/views.py:19-26 | `Views.AirportData`'s keys are exactly BOG, MEX, JFK, MAD, MIA and LAX, so it holds six entries. Each code maps to the record written for it in the display. Every key of the table is one of the written codes. |
| `Dicts.FromEntries` | airport_distance_project/airports/views.py:19-26 | A dict display evaluates to the map `Views.AirportData` is built from. The display's final entry is in the map with its value, and the map has at most as many entries as the display. |
| `Dicts.FromEntriesLastWins` | airport_distance_project/airports/views.py:19-26 | For every entry of a display that no later entry overwrites, its key maps to its value: a key written several times keeps the value written last. |
| `Dicts.FromEntriesKeys` | airport_distance_project/airports/views.py:19-26 | The keys of the dict a display builds are exactly the keys written in the display. |
| `Dicts.FromEntriesDistinct` | airport_distance_project/airports/views.py:19-26 | When no key of a display is repeated, the dict has one entry per written entry, and each key maps to the value written beside it. |
| `Views.AirportNamesDistinct` | airport_distance_project/airports/views.py:19-26 | No two entries of the table share a name. |
| `Views.InvalidFormRejected` | airport_distance_project/airports/views.py:67-69 | An invalid form gets status 400 with the form's own field errors, whatever the rest of the input is. |
| `Views.SameCodesRejected` | airport_distance_project/airports/views.py:39-49 | Equal codes get the 400 same-airport error for every code, including codes that are not in the table. The equality check therefore runs before any lookup. |
| `Views.UnknownOriginReported` | airport_distance_project/airports/views.py:45-49 | If the codes differ and the origin is not in the table, the response is a 404 naming the origin. This holds even when the destination is unknown too. |
| `Views.UnknownDestinationReported` | airport_distance_project/airports/views.py:50-51 | If the codes differ, the origin is known and the destination is not, the response is a 404 naming the destination. |
| `Views.SuccessExactlyWhenKnownAndDistinct` | airport_distance_project/airports/views.py:39-55 | A success is produced exactly when the form is valid, the codes differ and both codes are keys of the table. |
| `Views.SuccessDistanceRounded` | airport_distance_project/airports/views.py:53-65 | A success's distance is a whole number of hundredths of a kilometre. It is at most 0.005 km from the geodesic distance between the two looked-up coordinate pairs. |
| `Views.UnknownOriginExample` | airport_distance_project/airports/views.py:45-49 | The pair ("XXX", "JFK") gets a 404 naming "XXX". |
| `Views.BogotaMexicoExample` | airport_distance_project/airports/views.py:20-65 | The pair ("BOG", "MEX") succeeds. The origin is El Dorado and the destination is Mexico City's airport, and the distance is computed from their table coordinates. |
| `Rounding.RoundHundredths` | airport_distance_project/airports/views.py:65 | `round(x, 2)` multiplied by 100 is exactly `RoundHalfEven(100·x)`. That this is the nearest whole number of hundredths, with ties to the even one, is proved by `Rounding.RoundHalfEvenNearest` and `Rounding.RoundHundredthsNearest`. |
| `Rounding.RoundHalfEven` | airport_distance_project/airports/views.py:65 | The rounded integer is less than one unit away from its argument. |
| `Rounding.RoundHalfEvenNearest` | airport_distance_project/airports/views.py:65 | No integer is closer to the argument than the rounded one. When another integer is equally close, the rounded one is even. |
| `Rounding.RoundHundredthsNearest` | airport_distance_project/airports/views.py:65 | `round(x, 2)` is a whole number of hundredths and at most 0.005 from x. No whole number of hundredths is closer to x. |
| `Rounding.RoundHundredthsIdempotent` | airport_distance_project/airports/views.py:65 | Rounding an already rounded distance leaves it unchanged. |

## Left out

- The geodesic distance itself (`geopy`'s ellipsoidal formula) is a parameter of the model, not a formula. For that reason the model proves neither its symmetry nor any numeric distance, such as roughly 1196 km for BOG to MEX.
- Rounding.RoundHundredths rounds exact real numbers. Python rounds a binary double, so an apparent tie that is not exactly representable can round the other way. For example, `round(2.675, 2)` is 2.67. The coordinates are exact reals in the model, not doubles.
- The form class `AirportDistanceForm` (`airports/forms.py`) is not part of this model. Whatever required-field, length or case handling it does happens before the modelled chain runs. Its outcome is the input `Form`: either the two cleaned codes or opaque field errors.
- `airport_distance_view` renders an HTML template and contains no logic.
- `JsonResponse`, the `@require_POST` decorator and the rest of the HTTP plumbing are not modelled. A method other than POST is refused before the view runs. Only the status code and the payload's shape are kept.
- The Spanish error-message strings are not modelled. An error keeps only its kind and the code it names.
