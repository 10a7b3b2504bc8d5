/** The state of the App component and its two handlers: `formatCep`, run
    on every edit of the text field, and `fetchCep`, run by "Consultar",
    which chains the address, city and forecast lookups. The three HTTP
    calls are not performed: how each one settled is passed in. */
module App {
  import opened Outcomes
  import CepFormat

  /** The fields `fetchCep` destructures from the address lookup's payload. */
  datatype Address = Address(state: string, city: string, neighborhood: string, street: string)

  /** One element of the city directory's answer; only `id` is used. */
  datatype City = City(id: int, name: string, state: string)

  /** One element of the forecast's `clima` list, kept as it arrives. */
  datatype Day = Day(data: string, condicao: string, min: int, max: int)

  /** An HTTP request issued by a run of `fetchCep`, with what it carries. */
  datatype Request =
    | AddressLookup(cep: string)
    | CityLookup(cityName: string)
    | ForecastLookup(cityId: int)

  /** What `cepResult` shows when the address lookup fails. */
  const NotFoundMessage: string := "CEP n\U{E3}o encontrado"

  /** The label every rendered address starts with. */
  const StateLabel: string := "Estado: "

  /** The text `fetchCep` writes to `cepResult` for a resolved address: four
      labelled lines. */
  function AddressText(a: Address): (r: string)
    ensures ShowsAddress(r)
    ensures |r| == |StateLabel| + |a.state| + 9 + |a.city| + 9 + |a.neighborhood| + 6 + |a.street|
  {
    StateLabel + a.state + "\nCidade: " + a.city + "\nBairro: " + a.neighborhood + "\nRua: " + a.street
  }

  predicate ShowsAddress(s: string) {
    |s| >= |StateLabel| && s[..|StateLabel|] == StateLabel
  }

  /** `fetchCityInfo`: element 0 of the directory's answer when there is
      one (first match wins); otherwise a falsy value (`undefined` for an
      empty list, `null` on failure), both `None` here. */
  function FirstCity(cities: Outcome<seq<City>>): (r: Option<City>)
    ensures r.Some? <==> cities.Success? && cities.value != []
    ensures r.Some? ==> r.value == cities.value[0]
  {
    match cities
    case Success(list) => if |list| > 0 then Some(list[0]) else None
    case Failure => None
  }

  /** `fetchWeather`: the `clima` list, and `[]` when the request failed. */
  function ForecastDays(forecast: Outcome<seq<Day>>): (r: seq<Day>)
    ensures forecast.Success? ==> r == forecast.value
    ensures forecast.Failure? ==> r == []
    ensures r != [] ==> forecast.Success?
  {
    match forecast
    case Success(days) => days
    case Failure => []
  }

  /** A string cut at each '\n', as a text view shows it line by line. */
  function Lines(s: string): (r: seq<string>)
    ensures |r| >= 1
  {
    if s == [] then [[]]
    else
      var rest := Lines(s[1..]);
      if s[0] == '\n' then [[]] + rest
      else [[s[0]] + rest[0]] + rest[1..]
  }

  lemma {:induction false} LinesOfOneLine(s: string)
    requires '\n' !in s
    ensures Lines(s) == [s]
  {
    if s != [] {
      LinesOfOneLine(s[1..]);
      assert [s[0]] + s[1..] == s;
    }
  }

  lemma {:induction false} LinesOfJoin(x: string, y: string)
    requires '\n' !in x
    ensures Lines(x + "\n" + y) == [x] + Lines(y)
  {
    if x == [] {
      assert x + "\n" + y == "\n" + y;
      assert ("\n" + y)[1..] == y;
    } else {
      assert (x + "\n" + y)[1..] == x[1..] + "\n" + y;
      LinesOfJoin(x[1..], y);
      assert [x[0]] + x[1..] == x;
    }
  }

  predicate OneLine(a: Address) {
    '\n' !in a.state && '\n' !in a.city && '\n' !in a.neighborhood && '\n' !in a.street
  }

  /** The address text shows four lines, each a label and one field. */
  lemma AddressTextLines(a: Address)
    requires OneLine(a)
    ensures Lines(AddressText(a)) ==
      [StateLabel + a.state, "Cidade: " + a.city, "Bairro: " + a.neighborhood, "Rua: " + a.street]
  {
    var l1, l2, l3, l4 := StateLabel + a.state, "Cidade: " + a.city, "Bairro: " + a.neighborhood, "Rua: " + a.street;
    assert '\n' !in l1 && '\n' !in l2 && '\n' !in l3 && '\n' !in l4;
    assert AddressText(a) == l1 + "\n" + (l2 + "\n" + (l3 + "\n" + l4));
    LinesOfJoin(l1, l2 + "\n" + (l3 + "\n" + l4));
    LinesOfJoin(l2, l3 + "\n" + l4);
    LinesOfJoin(l3, l4);
    LinesOfOneLine(l4);
  }

  /** Different one-line addresses are shown differently: the text can be
      read back into its four fields. */
  lemma AddressTextInjective(a: Address, b: Address)
    requires OneLine(a) && OneLine(b)
    requires AddressText(a) == AddressText(b)
    ensures a == b
  {
    AddressTextLines(a);
    AddressTextLines(b);
    var la, lb := Lines(AddressText(a)), Lines(AddressText(b));
    assert a.state == la[0][|StateLabel|..] == lb[0][|StateLabel|..] == b.state;
    assert a.city == la[1][8..] == lb[1][8..] == b.city;
    assert a.neighborhood == la[2][8..] == lb[2][8..] == b.neighborhood;
    assert a.street == la[3][5..] == lb[3][5..] == b.street;
  }

  /** A resolved address is always told apart from the failure message. */
  lemma AddressTextIsNotFailure(a: Address)
    ensures ShowsAddress(AddressText(a))
    ensures !ShowsAddress(NotFoundMessage)
    ensures AddressText(a) != NotFoundMessage
  {
    assert AddressText(a)[..|StateLabel|] == StateLabel;
    assert NotFoundMessage[0] == 'C' != StateLabel[0];
  }

  /** The component's four `useState` slots. */
  class AppState {
    var cep: string
    var formattedCep: string
    var cepResult: string
    var weatherResult: seq<Day>

    /** What every state the model reaches satisfies, each run of
        `fetchCep` being atomic: both CEP slots hold the same normalised
        text, which re-normalising leaves unchanged, and a forecast is only
        on screen beside a resolved address. */
    ghost predicate Valid()
      reads this
    {
      && cep == formattedCep
      && CepFormat.Format(cep) == cep
      && (weatherResult != [] ==> ShowsAddress(cepResult))
    }

    /** The initial values given to `useState`. */
    constructor ()
      ensures Valid()
      ensures cep == "" && formattedCep == "" && cepResult == "" && weatherResult == []
    {
      cep, formattedCep := "", "";
      cepResult, weatherResult := "", [];
    }

    /** `formatCep(text)`: normalise the edited text and store it in both
        CEP slots; the results are untouched. */
    method FormatCep(text: string)
      requires Valid()
      modifies this`cep, this`formattedCep
      ensures Valid()
      ensures cep == CepFormat.Format(text) && formattedCep == cep
      ensures CepFormat.WellFormed(cep)
    {
      var formatted := CepFormat.Format(text);
      CepFormat.FormatIdempotent(text);
      CepFormat.FormatShape(text);
      cep := formatted;
      formattedCep := formatted;
    }

    /** `fetchCep()`: look the current `cep` up, show the address, then
        resolve its city and, when the directory names one, show that
        city's forecast. `address`, `cities` and `forecast` say how each
        request settles if it is issued; `issued` lists the requests made,
        in order. */
    method FetchCep(address: Outcome<Address>, cities: Outcome<seq<City>>, forecast: Outcome<seq<Day>>)
      returns (issued: seq<Request>)
      requires Valid()
      modifies this`cepResult, this`weatherResult
      ensures Valid()
      ensures |issued| >= 1 && issued[0] == AddressLookup(cep)
      // Address lookup failed: the failure message, no forecast, nothing else asked.
      ensures address.Failure? ==>
        cepResult == NotFoundMessage && weatherResult == [] && issued == [AddressLookup(cep)]
      // Address found: it is shown, and its city is looked up next.
      ensures address.Success? ==>
        && cepResult == AddressText(address.value)
        && |issued| >= 2 && issued[1] == CityLookup(address.value.city)
      // No city (failed request or empty list): no forecast, and none requested.
      ensures address.Success? && (cities.Failure? || cities.value == []) ==>
        weatherResult == [] && |issued| == 2
      // A city: the forecast of the first one is requested and shown, or [] on failure.
      ensures address.Success? && cities.Success? && cities.value != [] ==>
        && issued == [AddressLookup(cep), CityLookup(address.value.city), ForecastLookup(cities.value[0].id)]
        && weatherResult == (if forecast.Success? then forecast.value else [])
    {
      issued := [AddressLookup(cep)];
      match address
      case Failure =>
        cepResult := NotFoundMessage;
        weatherResult := [];
      case Success(a) =>
        cepResult := AddressText(a);
        AddressTextIsNotFailure(a);
        issued := issued + [CityLookup(a.city)];
        var cityInfo := FirstCity(cities);
        if cityInfo.Some? {
          issued := issued + [ForecastLookup(cityInfo.value.id)];
          weatherResult := ForecastDays(forecast);
        } else {
          weatherResult := [];
        }
    }
  }

  /** Typing a code and pressing "Consultar": the address lookup carries the
      normalised text, and the result slots end as `fetchCep` decides for
      that text. */
  method TypeAndConsult(app: AppState, text: string, address: Outcome<Address>,
                        cities: Outcome<seq<City>>, forecast: Outcome<seq<Day>>)
    returns (issued: seq<Request>)
    requires app.Valid()
    modifies app
    ensures app.Valid()
    ensures app.cep == CepFormat.Format(text) && app.formattedCep == app.cep
    ensures |issued| >= 1 && issued[0] == AddressLookup(CepFormat.Format(text))
    ensures address.Failure? ==>
      && app.cepResult == NotFoundMessage && app.weatherResult == []
      && issued == [AddressLookup(CepFormat.Format(text))]
    ensures address.Success? ==>
      && app.cepResult == AddressText(address.value)
      && |issued| >= 2 && issued[1] == CityLookup(address.value.city)
    ensures address.Success? && (cities.Failure? || cities.value == []) ==>
      app.weatherResult == [] && |issued| == 2
    ensures address.Success? && cities.Success? && cities.value != [] ==>
      && issued == [AddressLookup(CepFormat.Format(text)), CityLookup(address.value.city),
                    ForecastLookup(cities.value[0].id)]
      && app.weatherResult == (if forecast.Success? then forecast.value else [])
  {
    app.FormatCep(text);
    issued := app.FetchCep(address, cities, forecast);
  }
}
