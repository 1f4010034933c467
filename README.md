# pyhuum sauna client — a Dafny model

This project models the decision layer of the `Huum` client for the HUUM
cloud sauna API and the static tables beneath it:

- **huum/const.py** (`Const`, const.dfy): the `SaunaStatus` codes 230, 231,
  232, 233 and 400 and the three code-to-text tables.
- **huum/schemas.py** (`Schemas`, schemas.dfy): `HuumStatusResponse.from_dict`
  and `SaunaConfig.from_dict` as decode functions over a JSON object
  (`map<string, Value>`). Each field is read from one wire key, and lemmas
  show that this key is the one the alias table gives the field, or the
  field's own name when it has no alias. A field without a default fails with `MissingField` when its key
  is absent. An optional field becomes `None` when its key is absent or null.
  Keys that no field reads are ignored.
- **huum/huum.py** (`HuumClient`, huum.dfy): the `Huum` class. `turn_on`
  converts Fahrenheit with truncation toward zero and checks the range
  `range(40, 110)` before any request. It then runs the door check unless
  `safety_override` is set, and finally sends one start request.
  `set_temperature` is the same call. `status_from_status_or_stop` stops only
  when the status is 232. `_make_call` attaches the JSON body only when it is
  non-empty and maps a failing status to `BadRequest`, `NotAuthenticated`,
  `Forbidden` or `RequestError`.
- decimal.dfy (`Decimal`) writes an integer in decimal, as the f-string in the
  `ValueError` message does, and reads it back.

The HTTP session is an oracle field `network: Call -> Response` of the class.
A ghost field `log` records every request issued. Each operation is also
written as a pure function that returns a `Trace`: the outcome plus the calls
issued, in order (`StatusSpec`, `CheckDoorSpec`, `TurnOnSpec`, `TurnOffSpec`,
`StatusOrStopSpec`). Each method's postcondition equates its result and its
log extension with that function. The lemmas below state the source's
ordering rules about these functions.

Exceptions are one datatype, `HuumError`. It holds the classes of
huum/exceptions.py, `ValueError`, and `DecodeFailure` for decoder errors.

## Model

| member | source | states |
|---|---|---|
| Const.Code | huum/const.py:5-10 | the enumeration value of each member; no contract of its own, its meaning is stated by `Const.CodesAreDistinct` |
| Const.CodesAreDistinct | huum/const.py:5-10 | the enumeration values are exactly {230, 231, 232, 233, 400}; no two members share a code; ONLINE_NOT_HEATING is 232 |
| Const.StatusTextsCoverEnum | huum/const.py:13-19 | the constant `StatusCodeTexts` (`STATUS_CODE_TEXTS`) has exactly the enumeration codes as keys, and every member's text is non-empty |
| Const.DiagnosticTextsDomains | huum/const.py:21-29 | the constants `ConfigCodeTexts` (`CONFIG_CODE_TEXTS`) and `SteamerCodeTexts` (`STEAMER_CODE_TEXTS`) are defined exactly for 1, 2, 3 and for 1, all texts non-empty |
| Schemas.DecodeConfig | huum/schemas.py:25-44 | `SaunaConfig.from_dict`; no contract of its own, its meaning is stated by `Schemas.DecodeConfigExactly` and `Schemas.ConfigWireKeysFromAliases` |
| Schemas.DecodeConfigExactly | huum/schemas.py:25-44 | `SaunaConfig` decodes iff all seven camelCase keys are present; each field holds the value under its alias; a snake_case name is not read |
| Schemas.ConfigWireKeysFromAliases | huum/schemas.py:35-44 | every configuration field is aliased, and the key `DecodeConfig` reads for each field is the alias the table gives it |
| Schemas.RequiredStatusKeys | huum/schemas.py:68-83 | by the alias table, status, door_closed, temperature and sauna_name are read from statusCode, door, temperature and saunaName, the keys `DecodeStatus` reads |
| Schemas.OptionalStatusKeysFirst | huum/schemas.py:68-83 | by the alias table, target_temperature through payment_end_date are read from their camelCase aliases, and duration and config under their own names |
| Schemas.OptionalStatusKeysRest | huum/schemas.py:68-83 | by the alias table, is_private through sauna_config are read from their camelCase aliases, and light and humidity under their own names |
| Schemas.AliasedStatusFields | huum/schemas.py:68-83 | the thirteen fields status through sauna_name each have an alias |
| Schemas.UnaliasedStatusFieldsAbsent | huum/schemas.py:68-83 | temperature, duration, config, light and humidity have no alias |
| Schemas.OnlyFiveUnaliased | huum/schemas.py:47-83 | a declared status field without an alias is one of those five |
| Schemas.StatusWireKeysFromAliasesFirst | huum/schemas.py:68-76 | for each of the first nine fields, its entry in `StatusWireKeys` is the key the alias table gives it |
| Schemas.StatusWireKeysFromAliasesRest | huum/schemas.py:77-83 | the same for the remaining nine fields |
| Schemas.StatusWireKeysFromAliases | huum/schemas.py:68-83 | `StatusWireKeys` lists, field by field in declaration order, the key the alias table gives each field of `HuumStatusResponse` |
| Schemas.StatusAliasesCoverFields | huum/schemas.py:47-83 | every alias and every field without a default names a declared field; exactly temperature, duration, config, light and humidity have no alias |
| Schemas.StatusWireKeysDistinct | huum/schemas.py:68-83 | no two fields of `HuumStatusResponse` read the same wire key: the entries of `StatusWireKeys`, and the alias-table keys of any two different fields, are distinct |
| Schemas.DecodeStatus | huum/schemas.py:47-83 | `HuumStatusResponse.from_dict`; no contract of its own, its meaning is stated by `Schemas.DecodeStatusSucceedsExactly`, `Schemas.DecodeStatusErrors`, `Schemas.DecodeStatusFields` and `Schemas.DecodeStatusReadsOnlyWireKeys` |
| Schemas.DecodeRequiredExactly | huum/schemas.py:49-52 | the four fields without a default decode iff their keys are present, hold the values under them, and a missing one is reported by field name, first in declaration order |
| Schemas.DecodeNestedConfigExactly | huum/schemas.py:66 | the nested configuration is `None` iff saunaConfig is absent or null; an object that decodes gives that configuration; anything else fails with `InvalidFieldValue("sauna_config")` |
| Schemas.DecodeStatusSucceedsExactly | huum/schemas.py:49-66 | decoding succeeds iff statusCode, door, temperature and saunaName are present and the nested saunaConfig is absent, null or a decodable object |
| Schemas.DecodeStatusErrors | huum/schemas.py:49-52 | a missing required key fails with `MissingField` naming the first missing field in declaration order; a bad nested configuration fails with `InvalidFieldValue` |
| Schemas.DecodeStatusFields | huum/schemas.py:49-66 | on success each required field is the value under its wire key; each optional field is `None` exactly when its key is absent or null, else that value |
| Schemas.DecodeStatusReadsOnlyWireKeys | huum/schemas.py:47-83 | two objects that agree on the eighteen wire keys decode identically |
| Schemas.DecodeStatusIgnoresUnknownKeys | huum/schemas.py:47-66 | adding or changing a key that no field reads, such as maxHeatingTime, leaves the decoding unchanged |
| Schemas.DecodeStatusKeepsAnyStatus | huum/schemas.py:49 | any value under statusCode decodes and is kept as it is; it is not checked against the enumeration |
| Schemas.IdleStatusDecodes | tests/test_api.py:16-24 | the idle response decodes with status 232, target temperature `None` (not 0) and the explicit null paymentEndDate as `None`; without saunaName it fails with `MissingField("sauna_name")` |
| Decimal.NatToString | huum/huum.py:120-122 | the decimal text is non-empty, all digits, and has no leading zero |
| Decimal.ParseNatToString | huum/huum.py:120-122 | reading the digits back gives the number |
| Decimal.IntToStringRoundTrip | huum/huum.py:120-122 | the text of any integer, negative ones included, is well formed and names exactly that integer |
| HuumClient.TruncDiv | huum/huum.py:117 | the quotient is truncated toward zero: below the exact quotient by less than 1 for non-negative dividends, above it by less than 1 for negative ones |
| HuumClient.Trunc | huum/huum.py:117 | `int()` of a number lies within 1 of it, on the side of zero |
| HuumClient.FahrenheitToCelsius | huum/huum.py:18-20 | `(f - 32) * 5 / 9` on exact reals; no contract of its own, its meaning is stated by `HuumClient.CelsiusIsTruncatedDivision` and `HuumClient.FahrenheitExamples` |
| HuumClient.TargetCelsius | huum/huum.py:116-117 | the Celsius integer `turn_on` validates; no contract of its own, its meaning is stated by `HuumClient.FahrenheitExamples` and `HuumClient.TurnOnRejectsExactlyOutOfRange` |
| HuumClient.CelsiusIsTruncatedDivision | huum/huum.py:18-20 | for integer f, `int((f - 32) * 5 / 9)` equals the integer division of (f − 32)·5 by 9 truncated toward zero |
| HuumClient.FahrenheitExamples | huum/huum.py:116-117 | 212 F gives 100, 104 gives 40, 230 gives 110, 240 gives 115 and 0 gives −17; Celsius input is unchanged |
| HuumClient.InRange | huum/huum.py:119 | `temperature in range(min_temp, max_temp)`; no contract of its own, its meaning is stated by `HuumClient.RangeBoundaries` and `HuumClient.TurnOnRejectsExactlyOutOfRange` |
| HuumClient.RangeBoundaries | huum/huum.py:44-45 | 40 and 109 are accepted; 39, 110 and 200 are rejected |
| HuumClient.RangeMessage | huum/huum.py:120-122 | the f-string of the `ValueError`; no contract of its own, its meaning is stated by `HuumClient.RangeMessageNamesValue` and `HuumClient.RangeMessageExample` |
| HuumClient.RangeMessageNamesValue | huum/huum.py:119-122 | the `ValueError` text is "Temperature '<t>' must be between 40-110", and `<t>` reads back as the rejected value |
| HuumClient.RangeMessageExample | huum/huum.py:116-122 | 240 F is rejected with the message naming 115 and 40-110 |
| HuumClient.TurnOnRejectsExactlyOutOfRange | huum/huum.py:116-122 | a target outside 40..109 raises `ValueError` and issues no request at all; `turn_on` raises `ValueError` or issues no request only for such a target |
| HuumClient.TurnOnRequestOrder | huum/huum.py:124-133 | for an accepted target the calls are exactly [start] with override; [status, start] when the door check passes; [status] with the check's error when it fails |
| HuumClient.TurnOnRefusesOpenDoor | huum/huum.py:60-66 | a status whose door value is falsy makes `turn_on` raise `SafetyException` after the status request only, with no start request |
| HuumClient.StartCallCarriesTarget | huum/huum.py:127-130 | the start request is a POST to start with body {"targetTemperature": t} attached; status is a GET and stop a POST, both without a body |
| HuumClient.TurnOnStartsAtMostOnce | huum/huum.py:116-133 | `turn_on` issues exactly one start request iff the target is accepted and the door check passes or is overridden, else none; a success always follows exactly one start |
| HuumClient.Truthy | huum/huum.py:65 | Python truthiness of the door value; no contract of its own, its meaning is stated by `HuumClient.FalsyValues` and `HuumClient.CheckDoorOutcome` |
| HuumClient.FalsyValues | huum/huum.py:65 | exactly null, false, 0, the empty string, the empty list and the empty object are falsy, so only they make `not status.door_closed` hold |
| HuumClient.CheckDoorOutcome | huum/huum.py:60-66 | `_check_door` issues one status request; it passes iff the status decodes with a truthy door value; otherwise it raises the status error or `SafetyException` |
| HuumClient.StatusIssuesOneCall | huum/huum.py:183-195 | `status` issues exactly one GET to status and returns its classified and decoded answer |
| HuumClient.TurnOffIssuesOneCall | huum/huum.py:135-148 | `turn_off` issues exactly one POST to stop, with no check before it, and returns its classified and decoded answer |
| HuumClient.DecodeOutcome | huum/huum.py:131-133 | `from_dict(await response.json())` after a classified call; no contract of its own, its meaning is stated by `HuumClient.DecodeOutcomeOfAnswer` |
| HuumClient.DecodedCallSpec | huum/huum.py:131-133 | one request whose answer is classified and then decoded, as `turn_on`, `turn_off` and `status` do; no contract of its own, its meaning is stated by `HuumClient.StatusIssuesOneCall`, `HuumClient.TurnOffIssuesOneCall` and `HuumClient.StartCallCarriesTarget` |
| HuumClient.DecodeOutcomeOfAnswer | huum/huum.py:130-133 | a failing answer raises its classified error without decoding; a successful answer returns the decoded body or the decoder's error |
| HuumClient.StatusOrStopOutcome | huum/huum.py:215-218 | when the status decodes and equals 232 the calls are [status, stop] and the stop answer is returned; otherwise only status is called and its outcome returned |
| HuumClient.Failing | huum/huum.py:81 | the statuses `raise_for_status` raises for (400 or more); no contract of its own, its meaning is stated by `HuumClient.Classify` and `HuumClient.DecodeOutcomeOfAnswer` |
| HuumClient.MakeCallSpec | huum/huum.py:68-92 | `_make_call` as a trace: one request, then the classification of its answer; no contract of its own, its meaning is stated by `HuumClient.Huum.MakeCall` and `HuumClient.Classify` |
| HuumClient.Classify | huum/huum.py:80-92 | status below 400 returns the response unchanged; 400, 401 and 403 raise BadRequest, NotAuthenticated, Forbidden with their messages; any other failing status raises RequestError |
| HuumClient.ErrorFor | huum/huum.py:83-90 | the exception for a failing status; no contract of its own, its meaning is stated by `HuumClient.Classify` and `HuumClient.ErrorIdentifiesStatus` |
| HuumClient.ErrorIdentifiesStatus | huum/huum.py:83-90 | only 400, 401 and 403 have exceptions of their own, one each |
| HuumClient.ArgsFor | huum/huum.py:69-74 | the call carries the url and auth; the JSON body is attached iff it is given and non-empty, and then unchanged |
| HuumClient.Huum.constructor | huum/huum.py:49-58 | the client holds `BasicAuth(username, password)` and the given session, with an empty request log |
| HuumClient.Huum.MakeCall | huum/huum.py:68-92 | appends exactly the one call it issues to the log and returns the classified answer |
| HuumClient.Huum.Status | huum/huum.py:183-195 | result and log extension are those of `StatusSpec` |
| HuumClient.Huum.TurnOff | huum/huum.py:135-148 | result and log extension are those of `TurnOffSpec` |
| HuumClient.Huum.CheckDoor | huum/huum.py:60-66 | result and log extension are those of `CheckDoorSpec` |
| HuumClient.Huum.TurnOn | huum/huum.py:94-133 | result and log extension are those of `TurnOnSpec`: validate, then the door check unless overridden, then one start |
| HuumClient.Huum.Start | huum/huum.py:127-133 | result and log extension are those of `StartSpec`: one POST to start carrying the target, its answer decoded |
| HuumClient.Huum.SetTemperature | huum/huum.py:150-181 | the same result and the same requests as `TurnOn` with the same arguments |
| HuumClient.Huum.StatusFromStatusOrStop | huum/huum.py:197-218 | result and log extension are those of `StatusOrStopSpec` |

## Left out

- The aiohttp transport is not modelled: `ClientSession`, `BasicAuth` (a plain login/password record here, so the `ValueError` aiohttp raises for a `None` login or password or a login containing ':' is not modelled), the session lookup by method name, `open_session` and `close_session` (huum/huum.py:47-58, 68-78, 220-224). The session is the `network` oracle given to the constructor.
- `network` is one fixed function from request to response, so the modelled server is stateless: the same request always gets the same answer for the client's whole lifetime. The real server's door and status change over time (huum/huum.py:64, 192); the model does not capture that two identical requests may be answered differently.
- `raise_for_status` is an assumption of the model: it raises exactly for a status of 400 or more.
- async/await is not modelled. The calls run one after another.
- URL construction with `urljoin` is not modelled. The three endpoints are the values of `Url`.
- Value coercion by the serialisation library is not modelled. Field values are kept as the JSON values received, and required fields accept any value, null included. Floats are not among the modelled JSON values; lists are (`Array`), and an empty one is falsy.
- `to_dict` is not modelled.
- The exact exception the library raises for a bad nested `saunaConfig` is not shown in the source. The model reports `InvalidFieldValue("sauna_config")`.
- `response.json()` is assumed to always give a JSON object; a body that is not JSON is not modelled.
- FahrenheitToCelsius: computed on exact reals, not on floats. For integer inputs the exact quotient is an integer or at least 1/9 from one, so float rounding cannot change `int()` at realistic magnitudes; inputs beyond float precision are not modelled.
- Only integer temperatures are modelled, as `turn_on`'s signature declares. Float arguments are not.
- The dataclasses `HuumStatus`, `HuumConfig` and `HuumSteamerError` (huum/schemas.py:7-22) are unused by the client and not modelled.
- huum/settings.py reads environment variables and is unused by `Huum`; it is not modelled.
- `RequestError` carries no status code or body, as in huum/huum.py:90.
- The tests in tests/test_huum.py:38-54, 66-71 (`test_door_open_on_check`) and 94-99 (`test_set_temperature_turn_on`) build responses without `saunaName`. Under huum/schemas.py:52 these do not decode (`Schemas.IdleStatusDecodes` shows the failure), so in the model the door-open payload of lines 66-71 ends in `DecodeFailure(MissingField("sauna_name"))`, not `SafetyException`; `HuumClient.TurnOnRefusesOpenDoor` is about a status that does decode. The model follows the schema.
- tests/test_api.py:110-132 calls `toggle_light`, which the client does not define; it is not modelled.
