/**
 * The sauna client of huum/huum.py: temperature conversion and validation,
 * the door check that guards the start request, the classification of failed
 * HTTP responses, and the status-or-stop read.
 *
 * The HTTP session is an oracle `network` that answers each call; the class
 * keeps a ghost log of every call it has issued, so the order of requests is
 * visible in the postconditions.  Each operation is first written as a pure
 * function returning a `Trace` (the outcome and the calls issued); the
 * methods of `Huum` are proved to behave like those functions, and the
 * lemmas at the end state what the source promises about them.
 */
module HuumClient {

  import opened Wrappers
  import opened Schemas
  import Const
  import Decimal

  // ------------------------------------------------------------------ errors

  /**
   * Every exception the client can raise. The first five are the classes of
   * huum/exceptions.py, which derive from `HuumError` there; `ValueError` and
   * a decoding failure are not `HuumError` subclasses in the source, so an
   * `except HuumError` would not catch them.
   */
  datatype HuumError =
    | SafetyException(message: string)
    | BadRequest(message: string)
    | NotAuthenticated(message: string)
    | Forbidden(message: string)
    | RequestError
    | ValueError(message: string)
    | DecodeFailure(cause: DecodeError)

  // --------------------------------------------------------------- transport

  datatype HttpMethod = Get | Post

  /** The three endpoints under the API home path. */
  datatype Url = StatusUrl | StartUrl | StopUrl

  datatype BasicAuth = BasicAuth(login: string, password: string)

  /** The keyword arguments `_make_call` hands to the session. */
  datatype CallArgs = CallArgs(url: Url, auth: BasicAuth, json: Option<Wire>)

  /** One HTTP request. */
  datatype Call = Call(verb: HttpMethod, args: CallArgs)

  /** What the session answers: the HTTP status and the decoded JSON body. */
  datatype Response = Response(status: int, body: Wire)

  /** `raise_for_status` raises exactly for a status of 400 or more. */
  predicate Failing(status: int)
  {
    status >= 400
  }

  /** The `match` in `_make_call`: which exception a failing status becomes. */
  function ErrorFor(status: int): HuumError
  {
    match status
    case 400 => BadRequest("Bad request")
    case 401 => NotAuthenticated("Not authenticated")
    case 403 => Forbidden("Forbidden")
    case _ => RequestError
  }

  /** The outcome of `_make_call` for the session's answer. */
  function Classify(resp: Response): (r: Result<Response, HuumError>)
    ensures !Failing(resp.status) ==> r == Ok(resp)
    ensures resp.status == 400 ==> r == Err(BadRequest("Bad request"))
    ensures resp.status == 401 ==> r == Err(NotAuthenticated("Not authenticated"))
    ensures resp.status == 403 ==> r == Err(Forbidden("Forbidden"))
    ensures Failing(resp.status) && resp.status !in {400, 401, 403} ==> r == Err(RequestError)
  {
    if Failing(resp.status) then Err(ErrorFor(resp.status)) else Ok(resp)
  }

  /** The arguments `_make_call` builds: the JSON body is attached only when it is a non-empty object. */
  function ArgsFor(auth: BasicAuth, url: Url, json: Option<Wire>): (a: CallArgs)
    ensures a.url == url && a.auth == auth
    ensures a.json.Some? <==> json.Some? && json.value != map[]
    ensures a.json.Some? ==> a.json == json
  {
    if json.Some? && json.value != map[] then CallArgs(url, auth, json) else CallArgs(url, auth, None)
  }

  /** The body of a start request. */
  function StartBody(t: int): Wire
  {
    map["targetTemperature" := Num(t)]
  }

  function StatusCall(auth: BasicAuth): Call { Call(Get, ArgsFor(auth, StatusUrl, None)) }
  function StartCall(auth: BasicAuth, t: int): Call { Call(Post, ArgsFor(auth, StartUrl, Some(StartBody(t)))) }
  function StopCall(auth: BasicAuth): Call { Call(Post, ArgsFor(auth, StopUrl, None)) }

  // ------------------------------------------------------------- temperature

  const MinTemp: int := 40
  const MaxTemp: int := 110

  /** Division truncating toward zero, as Python's `int()` truncates a quotient. */
  function TruncDiv(a: int, b: int): (q: int)
    requires b > 0
    ensures a >= 0 ==> 0 <= a - q * b < b
    ensures a < 0 ==> 0 <= q * b - a < b
  {
    if a >= 0 then a / b else -((-a) / b)
  }

  /** `int()` of a number: truncation toward zero. */
  function Trunc(x: real): (r: int)
    ensures x >= 0.0 ==> r as real <= x < r as real + 1.0
    ensures x < 0.0 ==> r as real - 1.0 < x <= r as real
  {
    if x >= 0.0 then x.Floor else -((-x).Floor)
  }

  /** `fahrenheit_to_celsius`, on exact reals. */
  function FahrenheitToCelsius(f: int): real
  {
    (f - 32) as real * 5.0 / 9.0
  }

  /** The Celsius integer `turn_on` validates and sends. */
  function TargetCelsius(temperature: int, isFahrenheit: bool): int
  {
    if isFahrenheit then Trunc(FahrenheitToCelsius(temperature)) else temperature
  }

  /** `temperature in range(min_temp, max_temp)`. */
  predicate InRange(t: int)
  {
    MinTemp <= t < MaxTemp
  }

  /** The text of the `ValueError` for a rejected target. */
  function RangeMessage(t: int): string
  {
    "Temperature '" + Decimal.IntToString(t) + "' must be between "
      + Decimal.IntToString(MinTemp) + "-" + Decimal.IntToString(MaxTemp)
  }

  // ----------------------------------------------------- operations as traces

  /** The outcome of an operation and the calls it issued, in order. */
  datatype Trace<T> = Trace(result: Result<T, HuumError>, calls: seq<Call>)

  /** `_make_call`: one request, then the classification of its answer. */
  function MakeCallSpec(net: Call -> Response, auth: BasicAuth, verb: HttpMethod, url: Url, json: Option<Wire>): Trace<Response>
  {
    var call := Call(verb, ArgsFor(auth, url, json));
    Trace(Classify(net(call)), [call])
  }

  /** `HuumStatusResponse.from_dict(await response.json())` after a call. */
  function DecodeOutcome(r: Result<Response, HuumError>): Result<HuumStatusResponse, HuumError>
  {
    match r
    case Err(e) => Err(e)
    case Ok(resp) =>
      match DecodeStatus(resp.body)
      case Ok(s) => Ok(s)
      case Err(d) => Err(DecodeFailure(d))
  }

  /** A call whose answer is decoded as a status response. */
  function DecodedCallSpec(net: Call -> Response, auth: BasicAuth, verb: HttpMethod, url: Url, json: Option<Wire>): Trace<HuumStatusResponse>
  {
    var c := MakeCallSpec(net, auth, verb, url, json);
    Trace(DecodeOutcome(c.result), c.calls)
  }

  function StatusSpec(net: Call -> Response, auth: BasicAuth): Trace<HuumStatusResponse>
  {
    DecodedCallSpec(net, auth, Get, StatusUrl, None)
  }

  function TurnOffSpec(net: Call -> Response, auth: BasicAuth): Trace<HuumStatusResponse>
  {
    DecodedCallSpec(net, auth, Post, StopUrl, None)
  }

  function StartSpec(net: Call -> Response, auth: BasicAuth, t: int): Trace<HuumStatusResponse>
  {
    DecodedCallSpec(net, auth, Post, StartUrl, Some(StartBody(t)))
  }

  /** Python truthiness of a JSON value, as `not status.door_closed` tests it. */
  predicate Truthy(v: Value)
  {
    match v
    case Null => false
    case Bool(b) => b
    case Num(n) => n != 0
    case Text(s) => s != ""
    case Array(items) => items != []
    case Object(fields) => fields != map[]
  }

  const DoorOpenMessage: string := "Can not start sauna when door is open"

  /** `_check_door`: a status request, then a refusal when the door is not closed. */
  function CheckDoorSpec(net: Call -> Response, auth: BasicAuth): Trace<()>
  {
    var s := StatusSpec(net, auth);
    match s.result
    case Err(e) => Trace(Err(e), s.calls)
    case Ok(status) =>
      if Truthy(status.doorClosed) then Trace(Ok(()), s.calls)
      else Trace(Err(SafetyException(DoorOpenMessage)), s.calls)
  }

  /** `turn_on`: convert, validate, check the door unless overridden, then start. */
  function TurnOnSpec(net: Call -> Response, auth: BasicAuth, temperature: int, safetyOverride: bool, isFahrenheit: bool): Trace<HuumStatusResponse>
  {
    var t := TargetCelsius(temperature, isFahrenheit);
    if !InRange(t) then Trace(Err(ValueError(RangeMessage(t))), [])
    else if safetyOverride then StartSpec(net, auth, t)
    else
      var door := CheckDoorSpec(net, auth);
      if door.result.Err? then Trace(Err(door.result.error), door.calls)
      else
        var start := StartSpec(net, auth, t);
        Trace(start.result, door.calls + start.calls)
  }

  /** `status_from_status_or_stop`: the status, or the stop answer when the sauna is online and not heating. */
  function StatusOrStopSpec(net: Call -> Response, auth: BasicAuth): Trace<HuumStatusResponse>
  {
    var s := StatusSpec(net, auth);
    if s.result.Ok? && s.result.value.status == Num(Const.Code(Const.OnlineNotHeating)) then
      var off := TurnOffSpec(net, auth);
      Trace(off.result, s.calls + off.calls)
    else s
  }

  // ------------------------------------------------------------ the client

  class Huum {
    var auth: BasicAuth
    /** The session: what the server answers to each request; the same request always gets the same answer. */
    var network: Call -> Response
    /** Every request issued through this client, oldest first. */
    ghost var log: seq<Call>

    constructor (username: string, password: string, network: Call -> Response)
      ensures auth == BasicAuth(username, password)
      ensures this.network == network
      ensures log == []
    {
      auth := BasicAuth(username, password);
      this.network := network;
      log := [];
    }

    method MakeCall(verb: HttpMethod, url: Url, json: Option<Wire>) returns (r: Result<Response, HuumError>)
      modifies this`log
      ensures r == MakeCallSpec(network, auth, verb, url, json).result
      ensures log == old(log) + MakeCallSpec(network, auth, verb, url, json).calls
    {
      var callArgs := CallArgs(url, auth, None);
      if json.Some? && json.value != map[] {
        callArgs := callArgs.(json := json);
      }
      var call := Call(verb, callArgs);
      var response := network(call);
      log := log + [call];
      if Failing(response.status) {
        match response.status {
          case 400 => r := Err(BadRequest("Bad request"));
          case 401 => r := Err(NotAuthenticated("Not authenticated"));
          case 403 => r := Err(Forbidden("Forbidden"));
          case _ => r := Err(RequestError);
        }
        return;
      }
      r := Ok(response);
    }

    method Status() returns (r: Result<HuumStatusResponse, HuumError>)
      modifies this`log
      ensures r == StatusSpec(network, auth).result
      ensures log == old(log) + StatusSpec(network, auth).calls
    {
      var response := MakeCall(Get, StatusUrl, None);
      r := DecodeOutcome(response);
    }

    method TurnOff() returns (r: Result<HuumStatusResponse, HuumError>)
      modifies this`log
      ensures r == TurnOffSpec(network, auth).result
      ensures log == old(log) + TurnOffSpec(network, auth).calls
    {
      var response := MakeCall(Post, StopUrl, None);
      r := DecodeOutcome(response);
    }

    method CheckDoor() returns (r: Result<(), HuumError>)
      modifies this`log
      ensures r == CheckDoorSpec(network, auth).result
      ensures log == old(log) + CheckDoorSpec(network, auth).calls
    {
      var status := Status();
      if status.Err? {
        return Err(status.error);
      }
      if !Truthy(status.value.doorClosed) {
        return Err(SafetyException(DoorOpenMessage));
      }
      r := Ok(());
    }

    method TurnOn(temperature: int, safetyOverride: bool := false, isFahrenheit: bool := false) returns (r: Result<HuumStatusResponse, HuumError>)
      modifies this`log
      ensures r == TurnOnSpec(network, auth, temperature, safetyOverride, isFahrenheit).result
      ensures log == old(log) + TurnOnSpec(network, auth, temperature, safetyOverride, isFahrenheit).calls
    {
      var t := TargetCelsius(temperature, isFahrenheit);
      if !(MinTemp <= t < MaxTemp) {
        return Err(ValueError(RangeMessage(t)));
      }
      if !safetyOverride {
        var door := CheckDoor();
        if door.Err? {
          return Err(door.error);
        }
      }
      r := Start(t);
    }

    /** The start request of `turn_on`, once the target is validated. */
    method Start(t: int) returns (r: Result<HuumStatusResponse, HuumError>)
      modifies this`log
      ensures r == StartSpec(network, auth, t).result
      ensures log == old(log) + StartSpec(network, auth, t).calls
    {
      var data := map["targetTemperature" := Num(t)];
      var response := MakeCall(Post, StartUrl, Some(data));
      r := DecodeOutcome(response);
    }

    /** `set_temperature`: the same call as `turn_on`. */
    method SetTemperature(temperature: int, safetyOverride: bool := false, isFahrenheit: bool := false) returns (r: Result<HuumStatusResponse, HuumError>)
      modifies this`log
      ensures r == TurnOnSpec(network, auth, temperature, safetyOverride, isFahrenheit).result
      ensures log == old(log) + TurnOnSpec(network, auth, temperature, safetyOverride, isFahrenheit).calls
    {
      r := TurnOn(temperature, safetyOverride, isFahrenheit);
    }

    method StatusFromStatusOrStop() returns (r: Result<HuumStatusResponse, HuumError>)
      modifies this`log
      ensures r == StatusOrStopSpec(network, auth).result
      ensures log == old(log) + StatusOrStopSpec(network, auth).calls
    {
      r := Status();
      if r.Err? {
        return;
      }
      if r.value.status == Num(Const.Code(Const.OnlineNotHeating)) {
        r := TurnOff();
      }
    }
  }

  // ------------------------------------------------------------------ lemmas

  /** On integers, `int()` of the real conversion is `(f - 32) * 5` divided by 9 with truncation toward zero. */
  lemma CelsiusIsTruncatedDivision(f: int)
    ensures Trunc(FahrenheitToCelsius(f)) == TruncDiv((f - 32) * 5, 9)
  {
    var a := (f - 32) * 5;
    var x := FahrenheitToCelsius(f);
    assert x == a as real / 9.0;
    var q := Trunc(x);
    if a >= 0 {
      assert q as real * 9.0 <= a as real < q as real * 9.0 + 9.0;
      assert q * 9 <= a < q * 9 + 9;
    } else {
      assert q as real * 9.0 - 9.0 < a as real <= q as real * 9.0;
      assert q * 9 - 9 < a <= q * 9;
    }
  }

  /** Exactly null, false, 0, the empty string, the empty list and the empty object are falsy. */
  lemma FalsyValues(v: Value)
    ensures !Truthy(v) <==> v in {Null, Bool(false), Num(0), Text(""), Array([]), Object(map[])}
  {
  }

  /** The conversions the documentation and tests rely on; 0 F shows truncation toward zero, not flooring. */
  lemma FahrenheitExamples()
    ensures TargetCelsius(212, true) == 100
    ensures TargetCelsius(104, true) == 40
    ensures TargetCelsius(230, true) == 110
    ensures TargetCelsius(240, true) == 115
    ensures TargetCelsius(0, true) == -17
    ensures TargetCelsius(75, false) == 75
  {
    CelsiusIsTruncatedDivision(212);
    CelsiusIsTruncatedDivision(104);
    CelsiusIsTruncatedDivision(230);
    CelsiusIsTruncatedDivision(240);
    CelsiusIsTruncatedDivision(0);
  }

  /** The bounds as the message prints them. */
  lemma BoundsText()
    ensures Decimal.IntToString(MinTemp) == "40"
    ensures Decimal.IntToString(MaxTemp) == "110"
  {
    assert Decimal.NatToString(4) == "4";
    assert Decimal.NatToString(11) == Decimal.NatToString(1) + "1";
  }

  /** The rejection message names the rejected value, readable back from the text, and the bounds `40-110`. */
  lemma RangeMessageNamesValue(t: int)
    ensures RangeMessage(t) == "Temperature '" + Decimal.IntToString(t) + "' must be between 40-110"
    ensures Decimal.IsIntString(Decimal.IntToString(t)) && Decimal.ParseInt(Decimal.IntToString(t)) == t
  {
    BoundsText();
    Decimal.IntToStringRoundTrip(t);
  }

  /** The message for the 240 F example, whose target truncates to 115. */
  lemma RangeMessageExample()
    ensures RangeMessage(TargetCelsius(240, true)) == "Temperature '" + "115" + "' must be between 40-110"
  {
    FahrenheitExamples();
    RangeMessageNamesValue(115);
    assert Decimal.NatToString(11) == Decimal.NatToString(1) + "1";
    assert Decimal.IntToString(115) == "115";
  }

  /** The accepted Celsius targets are the integers 40 to 109: 40 is accepted, 110 and 200 are not. */
  lemma RangeBoundaries()
    ensures InRange(40) && InRange(109) && !InRange(39) && !InRange(110) && !InRange(200)
  {
  }

  /** A target outside 40..109 is refused with `ValueError` before any request is issued, and only such a target is. */
  lemma TurnOnRejectsExactlyOutOfRange(net: Call -> Response, auth: BasicAuth, temperature: int, safetyOverride: bool, isFahrenheit: bool)
    ensures var t := TargetCelsius(temperature, isFahrenheit);
      var tr := TurnOnSpec(net, auth, temperature, safetyOverride, isFahrenheit);
      && (!InRange(t) ==> tr.result == Err(ValueError(RangeMessage(t))) && tr.calls == [])
      && (tr.result.Err? && tr.result.error.ValueError? <==> !InRange(t))
      && (tr.calls == [] <==> !InRange(t))
  {
  }

  /** The request order of `turn_on` for an accepted target: status first unless overridden, then exactly one start. */
  lemma TurnOnRequestOrder(net: Call -> Response, auth: BasicAuth, temperature: int, safetyOverride: bool, isFahrenheit: bool)
    requires InRange(TargetCelsius(temperature, isFahrenheit))
    ensures var t := TargetCelsius(temperature, isFahrenheit);
      var tr := TurnOnSpec(net, auth, temperature, safetyOverride, isFahrenheit);
      var door := CheckDoorSpec(net, auth);
      var start := StartSpec(net, auth, t);
      && (safetyOverride ==> tr.calls == [StartCall(auth, t)] && tr.result == start.result)
      && (!safetyOverride && door.result.Ok? ==>
            tr.calls == [StatusCall(auth), StartCall(auth, t)] && tr.result == start.result)
      && (!safetyOverride && door.result.Err? ==>
            tr.calls == [StatusCall(auth)] && tr.result == Err(door.result.error))
  {
  }

  /** An open door stops `turn_on` with `SafetyException` after the status request and before any start request. */
  lemma TurnOnRefusesOpenDoor(net: Call -> Response, auth: BasicAuth, temperature: int, isFahrenheit: bool)
    requires InRange(TargetCelsius(temperature, isFahrenheit))
    requires StatusSpec(net, auth).result.Ok?
    requires !Truthy(StatusSpec(net, auth).result.value.doorClosed)
    ensures var tr := TurnOnSpec(net, auth, temperature, false, isFahrenheit);
      && tr.result == Err(SafetyException(DoorOpenMessage))
      && tr.calls == [StatusCall(auth)]
  {
  }

  /** The start request carries `{"targetTemperature": t}` and is sent with the body attached. */
  lemma StartCallCarriesTarget(auth: BasicAuth, t: int)
    ensures StartCall(auth, t) == Call(Post, CallArgs(StartUrl, auth, Some(map["targetTemperature" := Num(t)])))
    ensures StatusCall(auth) == Call(Get, CallArgs(StatusUrl, auth, None))
    ensures StopCall(auth) == Call(Post, CallArgs(StopUrl, auth, None))
  {
    assert "targetTemperature" in StartBody(t);
  }

  /** How many start requests a sequence of calls holds. */
  function StartRequests(calls: seq<Call>): nat
  {
    if calls == [] then 0
    else (if calls[0].args.url == StartUrl then 1 else 0) + StartRequests(calls[1..])
  }

  /** `turn_on` issues one start request when the target is accepted and the door check passes or is skipped, and none otherwise. */
  lemma TurnOnStartsAtMostOnce(net: Call -> Response, auth: BasicAuth, temperature: int, safetyOverride: bool, isFahrenheit: bool)
    ensures var tr := TurnOnSpec(net, auth, temperature, safetyOverride, isFahrenheit);
      StartRequests(tr.calls) ==
        if InRange(TargetCelsius(temperature, isFahrenheit)) && (safetyOverride || CheckDoorSpec(net, auth).result.Ok?)
        then 1 else 0
    ensures var tr := TurnOnSpec(net, auth, temperature, safetyOverride, isFahrenheit);
      tr.result.Ok? ==> StartRequests(tr.calls) == 1
  {
    var t := TargetCelsius(temperature, isFahrenheit);
    if InRange(t) {
      TurnOnRequestOrder(net, auth, temperature, safetyOverride, isFahrenheit);
      var start := StartCall(auth, t);
      assert StartRequests([start]) == 1 by {
        assert [start][1..] == [];
      }
      assert StartRequests([StatusCall(auth)]) == 0 by {
        assert [StatusCall(auth)][1..] == [];
      }
      assert StartRequests([StatusCall(auth), start]) == 1 by {
        assert [StatusCall(auth), start][1..] == [start];
      }
    }
  }

  /** A failed door check is the status request's own error, or `SafetyException` when the door value is falsy. */
  lemma CheckDoorOutcome(net: Call -> Response, auth: BasicAuth)
    ensures var d := CheckDoorSpec(net, auth);
      var s := StatusSpec(net, auth);
      && d.calls == [StatusCall(auth)]
      && (d.result.Ok? <==> s.result.Ok? && Truthy(s.result.value.doorClosed))
      && (s.result.Err? ==> d.result == Err(s.result.error))
      && (s.result.Ok? && !Truthy(s.result.value.doorClosed) ==> d.result == Err(SafetyException(DoorOpenMessage)))
  {
  }

  /** `status` issues exactly one GET to the status endpoint and returns its decoded answer. */
  lemma StatusIssuesOneCall(net: Call -> Response, auth: BasicAuth)
    ensures StatusSpec(net, auth).calls == [StatusCall(auth)]
    ensures StatusSpec(net, auth).result == DecodeOutcome(Classify(net(StatusCall(auth))))
  {
  }

  /** `turn_off` issues exactly one POST to the stop endpoint, with no body and no precondition, and returns its decoded answer. */
  lemma TurnOffIssuesOneCall(net: Call -> Response, auth: BasicAuth)
    ensures TurnOffSpec(net, auth).calls == [StopCall(auth)]
    ensures TurnOffSpec(net, auth).result == DecodeOutcome(Classify(net(StopCall(auth))))
  {
  }

  /** A successful answer is decoded from the body the server sent; a failing one never reaches the decoder. */
  lemma DecodeOutcomeOfAnswer(resp: Response)
    ensures Failing(resp.status) ==> DecodeOutcome(Classify(resp)) == Err(ErrorFor(resp.status))
    ensures !Failing(resp.status) && DecodeStatus(resp.body).Ok? ==>
      DecodeOutcome(Classify(resp)) == Ok(DecodeStatus(resp.body).value)
    ensures !Failing(resp.status) && DecodeStatus(resp.body).Err? ==>
      DecodeOutcome(Classify(resp)) == Err(DecodeFailure(DecodeStatus(resp.body).error))
  {
  }

  /** Only the stop request follows the status request, and only when the status is exactly 232. */
  lemma StatusOrStopOutcome(net: Call -> Response, auth: BasicAuth)
    ensures var s := StatusSpec(net, auth);
      var r := StatusOrStopSpec(net, auth);
      if s.result.Ok? && s.result.value.status == Num(232) then
        r.calls == [StatusCall(auth), StopCall(auth)] && r.result == TurnOffSpec(net, auth).result
      else
        r.calls == [StatusCall(auth)] && r.result == s.result
  {
    Const.CodesAreDistinct();
  }

  /** Only 400, 401 and 403 get an exception of their own; every other failing status is `RequestError`. */
  lemma ErrorIdentifiesStatus(s1: int, s2: int)
    requires ErrorFor(s1) == ErrorFor(s2)
    requires !ErrorFor(s1).RequestError?
    ensures s1 == s2
    ensures s1 in {400, 401, 403}
  {
  }
}
