/**
 * The wire schema of the status response and of the sauna configuration
 * (huum/schemas.py): which wire key each field is read from, which fields are
 * required, and what an absent optional field becomes.
 *
 * Field values are carried as the JSON values they arrive as; the
 * serialisation library's type coercion is not part of this model.
 */
module Schemas {

  import opened Wrappers

  /** A JSON value as the decoder receives it. */
  datatype Value =
    | Null
    | Bool(b: bool)
    | Num(n: int)
    | Text(s: string)
    | Array(items: seq<Value>)
    | Object(fields: map<string, Value>)

  /** A decoded JSON object: wire key to value. */
  type Wire = map<string, Value>

  /** Why `from_dict` fails; each names the field (not the wire key). */
  datatype DecodeError = MissingField(field: string) | InvalidFieldValue(field: string)

  /** The wire key a field is read from: its alias when it has one, else its own name. */
  function WireKey(aliases: map<string, string>, field: string): string
  {
    if field in aliases then aliases[field] else field
  }

  /** An optional key: absent and explicit `null` both read as `None`. */
  function Lookup(m: Wire, key: string): Option<Value>
  {
    if key in m && m[key] != Null then Some(m[key]) else None
  }

  /** A field without a default, read from its wire key: the key must be present; its value may be anything. */
  function RequiredKey(m: Wire, key: string, field: string): Result<Value, DecodeError>
  {
    if key in m then Ok(m[key]) else Err(MissingField(field))
  }

  // ---------------------------------------------------------------- SaunaConfig

  datatype SaunaConfig = SaunaConfig(
    childLock: Value,
    maxHeatingTime: Value,
    minHeatingTime: Value,
    maxTemp: Value,
    minTemp: Value,
    maxTimer: Value,
    minTimer: Value)

  /** The fields of `SaunaConfig`, in declaration order. */
  const ConfigFields: seq<string> :=
    ["child_lock", "max_heating_time", "min_heating_time", "max_temp", "min_temp", "max_timer", "min_timer"]

  const ConfigAliases: map<string, string> := map[
    "child_lock" := "childLock",
    "max_heating_time" := "maxHeatingTime",
    "min_heating_time" := "minHeatingTime",
    "max_temp" := "maxTemp",
    "min_temp" := "minTemp",
    "max_timer" := "maxTimer",
    "min_timer" := "minTimer"
  ]

  /** The wire key of each field of `SaunaConfig`, in declaration order (`ConfigWireKeysFromAliases`). */
  const ConfigWireKeys: seq<string> :=
    ["childLock", "maxHeatingTime", "minHeatingTime", "maxTemp", "minTemp", "maxTimer", "minTimer"]

  /** `SaunaConfig.from_dict`: every field is required, each read from its wire key. */
  function DecodeConfig(m: Wire): Result<SaunaConfig, DecodeError>
  {
    var childLock :- RequiredKey(m, "childLock", "child_lock");
    var maxHeatingTime :- RequiredKey(m, "maxHeatingTime", "max_heating_time");
    var minHeatingTime :- RequiredKey(m, "minHeatingTime", "min_heating_time");
    var maxTemp :- RequiredKey(m, "maxTemp", "max_temp");
    var minTemp :- RequiredKey(m, "minTemp", "min_temp");
    var maxTimer :- RequiredKey(m, "maxTimer", "max_timer");
    var minTimer :- RequiredKey(m, "minTimer", "min_timer");
    Ok(SaunaConfig(childLock, maxHeatingTime, minHeatingTime, maxTemp, minTemp, maxTimer, minTimer))
  }

  // --------------------------------------------------------- HuumStatusResponse

  datatype HuumStatusResponse = HuumStatusResponse(
    status: Value,
    doorClosed: Value,
    temperature: Value,
    saunaName: Value,
    targetTemperature: Option<Value>,
    startDate: Option<Value>,
    endDate: Option<Value>,
    duration: Option<Value>,
    config: Option<Value>,
    steamerError: Option<Value>,
    paymentEndDate: Option<Value>,
    isPrivate: Option<Value>,
    showModal: Option<Value>,
    light: Option<Value>,
    targetHumidity: Option<Value>,
    humidity: Option<Value>,
    remoteSafetyState: Option<Value>,
    saunaConfig: Option<SaunaConfig>)

  /** The fields of `HuumStatusResponse`, in declaration order. */
  const StatusFields: seq<string> := [
    "status", "door_closed", "temperature", "sauna_name",
    "target_temperature", "start_date", "end_date", "duration", "config",
    "steamer_error", "payment_end_date", "is_private", "show_modal", "light",
    "target_humidity", "humidity", "remote_safety_state", "sauna_config"
  ]

  /** The fields that have no default. */
  const StatusRequired: set<string> := {"status", "door_closed", "temperature", "sauna_name"}

  const StatusAliases: map<string, string> := map[
    "status" := "statusCode",
    "door_closed" := "door",
    "target_temperature" := "targetTemperature",
    "start_date" := "startDate",
    "end_date" := "endDate",
    "steamer_error" := "steamerError",
    "payment_end_date" := "paymentEndDate",
    "is_private" := "isPrivate",
    "show_modal" := "showModal",
    "target_humidity" := "targetHumidity",
    "remote_safety_state" := "remoteSafetyState",
    "sauna_config" := "saunaConfig",
    "sauna_name" := "saunaName"
  ]

  /**
   * The wire key of each field of `HuumStatusResponse`, in declaration order:
   * the keys `DecodeStatus` reads, as the alias table gives them
   * (`RequiredStatusKeys`, `OptionalStatusKeysFirst`, `OptionalStatusKeysRest`).
   */
  const StatusWireKeys: seq<string> := [
    "statusCode", "door", "temperature", "saunaName",
    "targetTemperature", "startDate", "endDate", "duration", "config",
    "steamerError", "paymentEndDate", "isPrivate", "showModal", "light",
    "targetHumidity", "humidity", "remoteSafetyState", "saunaConfig"
  ]

  /** The nested configuration: absent or null is `None`; anything but an object, or an object that does not decode, is invalid. */
  function DecodeNestedConfig(m: Wire): Result<Option<SaunaConfig>, DecodeError>
  {
    match Lookup(m, "saunaConfig")
    case None => Ok(None)
    case Some(v) =>
      if v.Object? && DecodeConfig(v.fields).Ok? then Ok(Some(DecodeConfig(v.fields).value))
      else Err(InvalidFieldValue("sauna_config"))
  }

  /** The four fields without a default, taken in declaration order. */
  function DecodeRequired(m: Wire): Result<(Value, Value, Value, Value), DecodeError>
  {
    var status :- RequiredKey(m, "statusCode", "status");
    var doorClosed :- RequiredKey(m, "door", "door_closed");
    var temperature :- RequiredKey(m, "temperature", "temperature");
    var saunaName :- RequiredKey(m, "saunaName", "sauna_name");
    Ok((status, doorClosed, temperature, saunaName))
  }

  /** The record, once the required fields and the nested configuration are decoded. */
  function BuildStatus(m: Wire, required: (Value, Value, Value, Value), saunaConfig: Option<SaunaConfig>): HuumStatusResponse
  {
    HuumStatusResponse(
      required.0, required.1, required.2, required.3,
      Lookup(m, "targetTemperature"),
      Lookup(m, "startDate"),
      Lookup(m, "endDate"),
      Lookup(m, "duration"),
      Lookup(m, "config"),
      Lookup(m, "steamerError"),
      Lookup(m, "paymentEndDate"),
      Lookup(m, "isPrivate"),
      Lookup(m, "showModal"),
      Lookup(m, "light"),
      Lookup(m, "targetHumidity"),
      Lookup(m, "humidity"),
      Lookup(m, "remoteSafetyState"),
      saunaConfig)
  }

  /** `HuumStatusResponse.from_dict`: the required fields, then the nested configuration, then the rest. */
  function DecodeStatus(m: Wire): Result<HuumStatusResponse, DecodeError>
  {
    var required :- DecodeRequired(m);
    var saunaConfig :- DecodeNestedConfig(m);
    Ok(BuildStatus(m, required, saunaConfig))
  }

  // ------------------------------------------------------------------ lemmas

  /** The wire keys of the four required status fields. */
  lemma RequiredStatusKeys()
    ensures WireKey(StatusAliases, "status") == "statusCode"
    ensures WireKey(StatusAliases, "door_closed") == "door"
    ensures WireKey(StatusAliases, "temperature") == "temperature"
    ensures WireKey(StatusAliases, "sauna_name") == "saunaName"
  {
  }

  /** The wire keys of the first seven optional status fields. */
  lemma OptionalStatusKeysFirst()
    ensures WireKey(StatusAliases, "target_temperature") == "targetTemperature"
    ensures WireKey(StatusAliases, "start_date") == "startDate"
    ensures WireKey(StatusAliases, "end_date") == "endDate"
    ensures WireKey(StatusAliases, "duration") == "duration"
    ensures WireKey(StatusAliases, "config") == "config"
    ensures WireKey(StatusAliases, "steamer_error") == "steamerError"
    ensures WireKey(StatusAliases, "payment_end_date") == "paymentEndDate"
  {
  }

  /** The wire keys of the remaining optional status fields. */
  lemma OptionalStatusKeysRest()
    ensures WireKey(StatusAliases, "is_private") == "isPrivate"
    ensures WireKey(StatusAliases, "show_modal") == "showModal"
    ensures WireKey(StatusAliases, "light") == "light"
    ensures WireKey(StatusAliases, "target_humidity") == "targetHumidity"
    ensures WireKey(StatusAliases, "humidity") == "humidity"
    ensures WireKey(StatusAliases, "remote_safety_state") == "remoteSafetyState"
    ensures WireKey(StatusAliases, "sauna_config") == "saunaConfig"
  {
  }

  /** Index by index, the first nine wire keys are the keys the alias table gives the fields. */
  lemma StatusWireKeysFromAliasesFirst()
    ensures forall i | 0 <= i < 9 :: WireKey(StatusAliases, StatusFields[i]) == StatusWireKeys[i]
  {
    RequiredStatusKeys();
    OptionalStatusKeysFirst();
    assert StatusFields[0] == "status" && StatusWireKeys[0] == "statusCode";
    assert StatusFields[1] == "door_closed" && StatusWireKeys[1] == "door";
    assert StatusFields[2] == "temperature" && StatusWireKeys[2] == "temperature";
    assert StatusFields[3] == "sauna_name" && StatusWireKeys[3] == "saunaName";
    assert StatusFields[4] == "target_temperature" && StatusWireKeys[4] == "targetTemperature";
    assert StatusFields[5] == "start_date" && StatusWireKeys[5] == "startDate";
    assert StatusFields[6] == "end_date" && StatusWireKeys[6] == "endDate";
    assert StatusFields[7] == "duration" && StatusWireKeys[7] == "duration";
    assert StatusFields[8] == "config" && StatusWireKeys[8] == "config";
  }

  /** Index by index, the remaining wire keys are the keys the alias table gives the fields. */
  lemma StatusWireKeysFromAliasesRest()
    ensures forall i | 9 <= i < |StatusFields| :: WireKey(StatusAliases, StatusFields[i]) == StatusWireKeys[i]
  {
    OptionalStatusKeysFirst();
    OptionalStatusKeysRest();
    assert StatusFields[9] == "steamer_error" && StatusWireKeys[9] == "steamerError";
    assert StatusFields[10] == "payment_end_date" && StatusWireKeys[10] == "paymentEndDate";
    assert StatusFields[11] == "is_private" && StatusWireKeys[11] == "isPrivate";
    assert StatusFields[12] == "show_modal" && StatusWireKeys[12] == "showModal";
    assert StatusFields[13] == "light" && StatusWireKeys[13] == "light";
    assert StatusFields[14] == "target_humidity" && StatusWireKeys[14] == "targetHumidity";
    assert StatusFields[15] == "humidity" && StatusWireKeys[15] == "humidity";
    assert StatusFields[16] == "remote_safety_state" && StatusWireKeys[16] == "remoteSafetyState";
    assert StatusFields[17] == "sauna_config" && StatusWireKeys[17] == "saunaConfig";
  }

  /** `StatusWireKeys` lists, in declaration order, the key each status field is read from. */
  lemma StatusWireKeysFromAliases()
    ensures |StatusWireKeys| == |StatusFields|
    ensures forall i | 0 <= i < |StatusFields| :: WireKey(StatusAliases, StatusFields[i]) == StatusWireKeys[i]
  {
    StatusWireKeysFromAliasesFirst();
    StatusWireKeysFromAliasesRest();
  }

  /** The thirteen aliased fields of the status response. */
  lemma AliasedStatusFields()
    ensures && "status" in StatusAliases && "door_closed" in StatusAliases
            && "target_temperature" in StatusAliases && "start_date" in StatusAliases
            && "end_date" in StatusAliases && "steamer_error" in StatusAliases
            && "payment_end_date" in StatusAliases && "is_private" in StatusAliases
            && "show_modal" in StatusAliases && "target_humidity" in StatusAliases
            && "remote_safety_state" in StatusAliases && "sauna_config" in StatusAliases
            && "sauna_name" in StatusAliases
  {
  }

  /** The five status fields without an alias. */
  lemma UnaliasedStatusFieldsAbsent()
    ensures && "temperature" !in StatusAliases && "duration" !in StatusAliases
            && "config" !in StatusAliases && "light" !in StatusAliases
            && "humidity" !in StatusAliases
  {
  }

  /** A status field outside the five unaliased ones has an alias. */
  lemma OnlyFiveUnaliased()
    ensures forall f :: f in StatusFields && f !in StatusAliases ==>
      f in {"temperature", "duration", "config", "light", "humidity"}
  {
    AliasedStatusFields();
    forall f | f in StatusFields && f !in StatusAliases
      ensures f in {"temperature", "duration", "config", "light", "humidity"}
    {
      assert || f == "status" || f == "door_closed" || f == "temperature" || f == "sauna_name"
             || f == "target_temperature" || f == "start_date" || f == "end_date" || f == "duration"
             || f == "config" || f == "steamer_error" || f == "payment_end_date" || f == "is_private"
             || f == "show_modal" || f == "light" || f == "target_humidity" || f == "humidity"
             || f == "remote_safety_state" || f == "sauna_config";
    }
  }

  /**
   * Every alias and every field without a default names a declared field;
   * exactly temperature, duration, config, light and humidity have no alias.
   */
  lemma StatusAliasesCoverFields()
    ensures StatusAliases.Keys <= set f | f in StatusFields
    ensures StatusRequired <= set f | f in StatusFields
    ensures forall f :: f in StatusFields && f !in StatusAliases <==>
      f in {"temperature", "duration", "config", "light", "humidity"}
  {
    AliasedStatusFields();
    UnaliasedStatusFieldsAbsent();
    forall f | f in {"temperature", "duration", "config", "light", "humidity"}
      ensures f in StatusFields && f !in StatusAliases
    {
    }
    OnlyFiveUnaliased();
  }

  /** `ConfigWireKeys`, the keys `DecodeConfig` reads, is what the alias table gives; every field is aliased. */
  lemma ConfigWireKeysFromAliases()
    ensures |ConfigWireKeys| == |ConfigFields|
    ensures forall i :: 0 <= i < |ConfigFields| ==> WireKey(ConfigAliases, ConfigFields[i]) == ConfigWireKeys[i]
    ensures ConfigAliases.Keys == set f | f in ConfigFields
  {
  }

  /**
   * The position of a status wire key in declaration order, read off its
   * length and first two characters. It exists only to prove
   * `StatusWireKeysDistinct`: the solver settles the distinctness of
   * eighteen string literals cheaply through one integer each, where
   * comparing the strings pairwise exceeds its budget.
   */
  function KeyRank(k: string): int
  {
    var sig := if |k| < 2 then (|k|, ' ', ' ') else (|k|, k[0], k[1]);
    if sig == (10, 's', 't') then 0
    else if sig == (4, 'd', 'o') then 1
    else if sig == (11, 't', 'e') then 2
    else if sig == (9, 's', 'a') then 3
    else if sig == (17, 't', 'a') then 4
    else if sig == (9, 's', 't') then 5
    else if sig == (7, 'e', 'n') then 6
    else if sig == (8, 'd', 'u') then 7
    else if sig == (6, 'c', 'o') then 8
    else if sig == (12, 's', 't') then 9
    else if sig == (14, 'p', 'a') then 10
    else if sig == (9, 'i', 's') then 11
    else if sig == (9, 's', 'h') then 12
    else if sig == (5, 'l', 'i') then 13
    else if sig == (14, 't', 'a') then 14
    else if sig == (8, 'h', 'u') then 15
    else if sig == (17, 'r', 'e') then 16
    else if sig == (11, 's', 'a') then 17
    else -1
  }

  /** The first nine wire keys sit at their rank. */
  lemma StatusKeyRanksFirst()
    ensures forall i | 0 <= i < 9 :: KeyRank(StatusWireKeys[i]) == i
  {
    var w := StatusWireKeys;
    assert KeyRank(w[0]) == 0;
    assert KeyRank(w[1]) == 1;
    assert KeyRank(w[2]) == 2;
    assert KeyRank(w[3]) == 3;
    assert KeyRank(w[4]) == 4;
    assert KeyRank(w[5]) == 5;
    assert KeyRank(w[6]) == 6;
    assert KeyRank(w[7]) == 7;
    assert KeyRank(w[8]) == 8;
  }

  /** The last nine wire keys sit at their rank. */
  lemma StatusKeyRanksRest()
    ensures forall i | 9 <= i < |StatusWireKeys| :: KeyRank(StatusWireKeys[i]) == i
  {
    var w := StatusWireKeys;
    assert KeyRank(w[9]) == 9;
    assert KeyRank(w[10]) == 10;
    assert KeyRank(w[11]) == 11;
    assert KeyRank(w[12]) == 12;
    assert KeyRank(w[13]) == 13;
    assert KeyRank(w[14]) == 14;
    assert KeyRank(w[15]) == 15;
    assert KeyRank(w[16]) == 16;
    assert KeyRank(w[17]) == 17;
  }

  /** No two fields of the status response read the same wire key. */
  lemma StatusWireKeysDistinct()
    ensures forall i, j :: 0 <= i < j < |StatusWireKeys| ==> StatusWireKeys[i] != StatusWireKeys[j]
    ensures forall i, j :: 0 <= i < j < |StatusFields| ==>
      WireKey(StatusAliases, StatusFields[i]) != WireKey(StatusAliases, StatusFields[j])
  {
    StatusKeyRanksFirst();
    StatusKeyRanksRest();
    assert forall i | 0 <= i < |StatusWireKeys| :: KeyRank(StatusWireKeys[i]) == i;
    StatusWireKeysFromAliases();
  }

  /** All seven configuration fields are required, each read from its camelCase key only. */
  lemma DecodeConfigExactly(m: Wire)
    ensures DecodeConfig(m).Ok? <==>
      && "childLock" in m && "maxHeatingTime" in m && "minHeatingTime" in m
      && "maxTemp" in m && "minTemp" in m && "maxTimer" in m && "minTimer" in m
    ensures DecodeConfig(m).Ok? ==> DecodeConfig(m).value == SaunaConfig(
      m["childLock"], m["maxHeatingTime"], m["minHeatingTime"],
      m["maxTemp"], m["minTemp"], m["maxTimer"], m["minTimer"])
    ensures "childLock" !in m ==> DecodeConfig(m) == Err(MissingField("child_lock"))
  {
  }

  /** Whether the nested `saunaConfig` value is acceptable: absent, null, or an object that decodes. */
  predicate NestedConfigDecodes(m: Wire)
  {
    || "saunaConfig" !in m
    || m["saunaConfig"] == Null
    || (m["saunaConfig"].Object? && DecodeConfig(m["saunaConfig"].fields).Ok?)
  }

  /** The required fields: present in declaration order, or the first missing one is reported. */
  lemma DecodeRequiredExactly(m: Wire)
    ensures DecodeRequired(m).Ok? <==> "statusCode" in m && "door" in m && "temperature" in m && "saunaName" in m
    ensures DecodeRequired(m).Ok? ==>
      DecodeRequired(m).value == (m["statusCode"], m["door"], m["temperature"], m["saunaName"])
    ensures "statusCode" !in m ==> DecodeRequired(m) == Err(MissingField("status"))
    ensures "statusCode" in m && "door" !in m ==> DecodeRequired(m) == Err(MissingField("door_closed"))
    ensures "statusCode" in m && "door" in m && "temperature" !in m ==>
      DecodeRequired(m) == Err(MissingField("temperature"))
    ensures "statusCode" in m && "door" in m && "temperature" in m && "saunaName" !in m ==>
      DecodeRequired(m) == Err(MissingField("sauna_name"))
  {
  }

  /** The nested configuration decodes exactly when `NestedConfigDecodes` holds. */
  lemma DecodeNestedConfigExactly(m: Wire)
    ensures DecodeNestedConfig(m).Ok? <==> NestedConfigDecodes(m)
    ensures DecodeNestedConfig(m).Err? ==> DecodeNestedConfig(m) == Err(InvalidFieldValue("sauna_config"))
    ensures DecodeNestedConfig(m).Ok? ==> (DecodeNestedConfig(m).value.None? <==> Lookup(m, "saunaConfig").None?)
    ensures DecodeNestedConfig(m).Ok? && DecodeNestedConfig(m).value.Some? ==>
      "saunaConfig" in m && m["saunaConfig"].Object? && DecodeConfig(m["saunaConfig"].fields) == Ok(DecodeNestedConfig(m).value.value)
  {
  }

  /** Decoding succeeds exactly when the four required keys are present and the nested configuration decodes. */
  lemma DecodeStatusSucceedsExactly(m: Wire)
    ensures DecodeStatus(m).Ok? <==>
      "statusCode" in m && "door" in m && "temperature" in m && "saunaName" in m && NestedConfigDecodes(m)
  {
    DecodeRequiredExactly(m);
    DecodeNestedConfigExactly(m);
  }

  /** The first missing required field, in declaration order, is the one reported. */
  lemma DecodeStatusErrors(m: Wire)
    ensures "statusCode" !in m ==> DecodeStatus(m) == Err(MissingField("status"))
    ensures "statusCode" in m && "door" !in m ==> DecodeStatus(m) == Err(MissingField("door_closed"))
    ensures "statusCode" in m && "door" in m && "temperature" !in m ==>
      DecodeStatus(m) == Err(MissingField("temperature"))
    ensures "statusCode" in m && "door" in m && "temperature" in m && "saunaName" !in m ==>
      DecodeStatus(m) == Err(MissingField("sauna_name"))
    ensures "statusCode" in m && "door" in m && "temperature" in m && "saunaName" in m && !NestedConfigDecodes(m) ==>
      DecodeStatus(m) == Err(InvalidFieldValue("sauna_config"))
  {
    DecodeRequiredExactly(m);
    DecodeNestedConfigExactly(m);
  }

  /**
   * On success every field holds the value under its one wire key; an optional
   * field is `None` exactly when its key is absent or null.
   */
  lemma DecodeStatusFields(m: Wire)
    requires DecodeStatus(m).Ok?
    ensures var r := DecodeStatus(m).value;
      && "statusCode" in m && r.status == m["statusCode"]
      && "door" in m && r.doorClosed == m["door"]
      && "temperature" in m && r.temperature == m["temperature"]
      && "saunaName" in m && r.saunaName == m["saunaName"]
      && r.targetTemperature == Lookup(m, "targetTemperature")
      && r.startDate == Lookup(m, "startDate")
      && r.endDate == Lookup(m, "endDate")
      && r.duration == Lookup(m, "duration")
      && r.config == Lookup(m, "config")
      && r.steamerError == Lookup(m, "steamerError")
      && r.paymentEndDate == Lookup(m, "paymentEndDate")
      && r.isPrivate == Lookup(m, "isPrivate")
      && r.showModal == Lookup(m, "showModal")
      && r.light == Lookup(m, "light")
      && r.targetHumidity == Lookup(m, "targetHumidity")
      && r.humidity == Lookup(m, "humidity")
      && r.remoteSafetyState == Lookup(m, "remoteSafetyState")
      && (r.saunaConfig.None? <==> Lookup(m, "saunaConfig").None?)
      && (r.saunaConfig.Some? ==>
            "saunaConfig" in m && m["saunaConfig"].Object? && DecodeConfig(m["saunaConfig"].fields) == Ok(r.saunaConfig.value))
  {
    DecodeRequiredExactly(m);
    DecodeNestedConfigExactly(m);
  }

  /** Two objects agree on one key: both lack it, or both hold the same value under it. */
  predicate SameAt(m: Wire, m': Wire, key: string)
  {
    (key in m <==> key in m') && (key in m ==> m[key] == m'[key])
  }

  /** Two objects agree on every key that some status field reads. */
  predicate AgreeOnStatusKeys(m: Wire, m': Wire)
  {
    forall i :: 0 <= i < |StatusWireKeys| ==> SameAt(m, m', StatusWireKeys[i])
  }

  /** What `DecodeStatus` looks at, spelled out key by key. */
  predicate AgreeOnStatusKeysSpelled(m: Wire, m': Wire)
  {
    && SameAt(m, m', "statusCode")
    && SameAt(m, m', "door")
    && SameAt(m, m', "temperature")
    && SameAt(m, m', "saunaName")
    && SameAt(m, m', "targetTemperature")
    && SameAt(m, m', "startDate")
    && SameAt(m, m', "endDate")
    && SameAt(m, m', "duration")
    && SameAt(m, m', "config")
    && SameAt(m, m', "steamerError")
    && SameAt(m, m', "paymentEndDate")
    && SameAt(m, m', "isPrivate")
    && SameAt(m, m', "showModal")
    && SameAt(m, m', "light")
    && SameAt(m, m', "targetHumidity")
    && SameAt(m, m', "humidity")
    && SameAt(m, m', "remoteSafetyState")
    && SameAt(m, m', "saunaConfig")
  }

  lemma AgreeSpelled(m: Wire, m': Wire)
    requires AgreeOnStatusKeys(m, m')
    ensures AgreeOnStatusKeysSpelled(m, m')
  {
    var w := StatusWireKeys;
    assert SameAt(m, m', w[0]) && SameAt(m, m', w[1]) && SameAt(m, m', w[2]);
    assert SameAt(m, m', w[3]) && SameAt(m, m', w[4]) && SameAt(m, m', w[5]);
    assert SameAt(m, m', w[6]) && SameAt(m, m', w[7]) && SameAt(m, m', w[8]);
    assert SameAt(m, m', w[9]) && SameAt(m, m', w[10]) && SameAt(m, m', w[11]);
    assert SameAt(m, m', w[12]) && SameAt(m, m', w[13]) && SameAt(m, m', w[14]);
    assert SameAt(m, m', w[15]) && SameAt(m, m', w[16]) && SameAt(m, m', w[17]);
  }

  /** The decoded status depends only on the values under the eighteen wire keys. */
  lemma DecodeStatusReadsOnlyWireKeys(m: Wire, m': Wire)
    requires AgreeOnStatusKeys(m, m')
    ensures DecodeStatus(m) == DecodeStatus(m')
  {
    AgreeSpelled(m, m');
    assert DecodeRequired(m) == DecodeRequired(m');
    assert DecodeNestedConfig(m) == DecodeNestedConfig(m');
  }

  /** A key that no field reads, whatever its value, changes nothing about the decoding. */
  lemma DecodeStatusIgnoresUnknownKeys(m: Wire, k: string, v: Value)
    requires k !in StatusWireKeys
    ensures DecodeStatus(m[k := v]) == DecodeStatus(m)
  {
    DecodeStatusReadsOnlyWireKeys(m[k := v], m);
  }

  /** The status is kept as it arrives: any value under `statusCode` decodes, enumeration member or not. */
  lemma DecodeStatusKeepsAnyStatus(m: Wire, v: Value)
    requires DecodeStatus(m).Ok?
    ensures DecodeStatus(m["statusCode" := v]).Ok?
    ensures DecodeStatus(m["statusCode" := v]).value == DecodeStatus(m).value.(status := v)
  {
    var m' := m["statusCode" := v];
    DecodeRequiredExactly(m);
    DecodeRequiredExactly(m');
    assert DecodeNestedConfig(m') == DecodeNestedConfig(m);
  }

  /** The idle response the status endpoint sends while the sauna is not heating. */
  const IdleStatusWire: Wire := map[
    "maxHeatingTime" := Text("3"),
    "statusCode" := Num(232),
    "door" := Bool(true),
    "paymentEndDate" := Null,
    "temperature" := Text("21"),
    "saunaName" := Text("test")
  ]

  /**
   * The idle response decodes: `maxHeatingTime` is not a field and is ignored,
   * an explicit null and an absent target temperature both become `None`.
   * Without `saunaName` the same response does not decode.
   */
  lemma IdleStatusDecodes()
    ensures DecodeStatus(IdleStatusWire).Ok?
    ensures DecodeStatus(IdleStatusWire).value.status == Num(232)
    ensures DecodeStatus(IdleStatusWire).value.targetTemperature == None
    ensures DecodeStatus(IdleStatusWire).value.paymentEndDate == None
    ensures DecodeStatus(IdleStatusWire - {"saunaName"}) == Err(MissingField("sauna_name"))
  {
    var m := IdleStatusWire;
    assert m.Keys == {"maxHeatingTime", "statusCode", "door", "paymentEndDate", "temperature", "saunaName"};
    DecodeRequiredExactly(m);
    DecodeRequiredExactly(m - {"saunaName"});
  }
}
