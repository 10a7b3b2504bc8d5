# previsao: postal-code lookup and forecast, modelled in Dafny

The app is a single React Native component, `App.js`. A user types a
Brazilian postal code (CEP) into a text field, and every edit is
normalised by `formatCep`. Pressing "Consultar" runs `fetchCep`, which does
three things in sequence:

1. It looks the code up in an address service and shows the state, city,
   neighbourhood and street.
2. It looks the city name up in a city directory and takes the first match.
3. It fetches that city's forecast and lists the days, each with an emoji
   chosen by `renderWeatherCondition`.

The model has four files:

- `outcomes.dfy` (module `Outcomes`): `Option` stands for a value that may be
  `undefined`. `Outcome` stands for how an awaited HTTP request settled.
- `cep_format.dfy` (module `CepFormat`): `formatCep` as pure functions. The
  regular-expression replacement is modelled literally: the leftmost run of
  five digits, then a greedy group of at most three digits. The lemmas cover
  the output's shape, digit preservation, when a hyphen is inserted,
  idempotence, and how the field reacts to a backspace.
- `weather_condition.dfy` (module `WeatherCondition`): the condition-code
  switch, checked against a lookup table.
- `app_state.dfy` (module `App`): the four `useState` slots as the class
  `AppState`, plus its two handlers.
  - `FetchCep` takes how each of the three requests settles as parameters.
  - It returns the list of requests it issued.
  - Its contract states, for every branch, what `cepResult` and
    `weatherResult` hold and which lookups were reached.
  - `Valid()` is the invariant every state the model reaches keeps, each
    run of `fetchCep` being atomic.

Three behaviours of the code are worth stating plainly:

- `formatCep` inserts the hyphen as soon as there are five digits: five
  digits give `"12345-"`.
- Digits past the eighth are kept, not cut off: `"123456789"` gives
  `"12345-6789"`.
- Unknown condition codes render as the empty string.

## Model

| member | source | states |
|---|---|---|
| `CepFormat.StripNonDigits` | App.js:13 | The result is made of ASCII digits only and is never longer than the input. |
| `CepFormat.StripKeepsDigitCounts` | App.js:13 | Each digit occurs in the result exactly as often as in the input; every other character occurs zero times. |
| `CepFormat.MatchFrom` | App.js:16 | The match found is the leftmost index holding five consecutive digits. `None` means no such index exists. |
| `CepFormat.LeadingDigits` | App.js:16 | The greedy `\d{0,3}` group takes at most `max` characters, all of them digits, and stops only at a non-digit, at the end of the string, or at the bound. |
| `CepFormat.ReplaceFirst` | App.js:16 | Writing back `$1-$2` for the leftmost match only inserts `-` after that match's fifth digit. Without a match the string is unchanged. |
| `CepFormat.Format` | App.js:11-20 | With digits `d` of the input, the result is `d[..5] + "-" + d[5..]` when there are at least five digits, and `d` otherwise. |
| `CepFormat.FormatShape` | App.js:13-16 | The output contains only digits and `-`. A `-` can appear only at index 5, and there is at most one. |
| `CepFormat.FormatKeepsDigits` | App.js:13-16 | Removing the `-` from the output gives exactly the input's digits in their order, however many there are. The output's digits are the input's digits. |
| `CepFormat.FormatHyphenRule` | App.js:16 | A `-` is present if and only if the input has at least five digits. Exactly five digits give `d + "-"`. Fewer than five give `d` unchanged. No digits give `""`. The output length is the digit count, plus one when a `-` is inserted. |
| `CepFormat.FormatIdempotent` | App.js:13-19 | Formatting an output again returns the same string. |
| `CepFormat.BackspaceRestoresHyphen` | App.js:11-20 | With exactly five digits the output is six characters ending in `-`. Formatting it without the `-` gives the same text again, so one backspace does not change the field. |
| `CepFormat.SampleFullCep` | App.js:16 | `"01310-100"` is returned unchanged. |
| `CepFormat.SampleFiveDigits` | App.js:16 | `"12.345"` becomes `"12345-"`. |
| `CepFormat.SampleNineDigits` | App.js:16 | `"123456789"` becomes `"12345-6789"`. |
| `WeatherCondition.RenderWeatherCondition` | App.js:71-89 | It is defined on every string. The result is non-empty if and only if the code is one of `c`, `ci`, `pnt`, `pn`, `ps`, `e`. |
| `WeatherCondition.RenderIsTableLookup` | App.js:72-88 | The switch agrees with the code-to-emoji table on every string, with `""` for strings that are not in the table. |
| `WeatherCondition.RenderDistinguishesCodes` | App.js:73-84 | Two known codes get the same emoji if and only if they are equal or are the rain pair `pn`/`ps`. |
| `WeatherCondition.RenderIsCaseSensitive` | App.js:72-88 | `"C"`, `"PN"`, `" c"` and `""` all render as `""`. |
| `App.AddressText` | App.js:26 | The text written for a resolved address starts with `Estado: `, and its length is the four labels plus the four fields. |
| `App.FirstCity` | App.js:44-56 | A city is returned if and only if the directory request succeeded with a non-empty list, and it is element 0 of that list. A failed request and an empty list both give `None`. |
| `App.ForecastDays` | App.js:58-69 | A successful request gives exactly its `clima` list, and a failed one gives `[]`. A non-empty result implies the request succeeded. |
| `App.AddressTextLines` | App.js:26 | For fields without line breaks, the address text has exactly four lines: `Estado: `, `Cidade: `, `Bairro: ` and `Rua: `, each followed by its field. |
| `App.AddressTextInjective` | App.js:26 | Two addresses whose fields have no line breaks produce the same text only if they are the same address. |
| `App.AddressTextIsNotFailure` | App.js:26-39 | An address text starts with `Estado: `. The failure message does not, so the two are never equal. |
| `App.AppState.constructor` | App.js:6-9 | All four slots start empty, and the invariant holds. |
| `App.AppState.FormatCep` | App.js:11-20 | `cep` and `formattedCep` both become the normalised text. That text has the normalised shape and is a fixed point of formatting. The result slots do not change. |
| `App.AppState.FetchCep` | App.js:22-69 | The address lookup always goes out first, with the current `cep`. If it fails: the failure message, `[]`, and no further lookup. If it succeeds: the address text, then a city lookup with its city. No city (a failed request or an empty list): `[]`, and no forecast lookup. Otherwise: a forecast lookup with element 0's `id`, and the returned days, or `[]` if that lookup failed. The invariant is kept. |
| `App.TypeAndConsult` | App.js:98-100 | After an edit and a press of "Consultar", both CEP slots hold the normalised text of the edit, and the address lookup carries it. The result slots and the requests issued follow `FetchCep`'s branches for that text. |

## Left out

- Rendering is not modelled: the JSX tree, the `ScrollView` list of days and the styles (App.js:91-149). `renderWeatherCondition` is modelled, but applying it to each day is not.
- The HTTP requests are not modelled: axios, the URLs and `encodeURIComponent`. Each request is represented only by how it settles, passed to `FetchCep`, and by the `Request` it adds to the returned list.
- Overlapping runs are not modelled. Two presses whose requests interleave end with whichever finishes last. The code has no guard against this, and the model treats each run as atomic. So `Valid()` holds only for atomic runs. In the app, this interleaving breaks it:
  - Run 1 looks up a code that does not exist, and run 2 looks up one that does.
  - Run 2's address arrives, and its text is written (App.js:26).
  - Run 1 fails, writing `'CEP não encontrado'` and `[]` (App.js:39-40).
  - Run 2's forecast arrives, and its days are written (App.js:34).
  - The screen now shows the failure message beside a forecast.
- `console.error` logging is not modelled, because it changes no state.
- Malformed payloads are not modelled. The address fields are taken to be strings: a missing field would print as `undefined` in the JS template. The directory's answer is taken to be a list, and the forecast's `clima` is taken to be a list of days.
- Every failure of the address request ends in the `catch`. No other statement in the `try` can throw once payloads are well formed, so the `catch` is modelled as the address-failure branch only.
