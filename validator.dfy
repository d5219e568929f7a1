/** `validate_message`: the gate between a decoded payload and a normalised
    reading. Checks run in a fixed order, and the first one that fails decides
    the rejection. */
module Validator {
  import opened Telemetry

  const DeviceIdField: string := "device_id"
  const TimestampField: string := "timestamp_utc"
  const TemperatureField: string := "temperature_celsius"
  const HumidityField: string := "humidity_percent"

  /** The required fields, in the order their presence is checked. */
  const RequiredFields: seq<string> := [DeviceIdField, TimestampField, TemperatureField, HumidityField]

  const MinTemperature: real := -50.0
  const MaxTemperature: real := 100.0
  const MinHumidity: real := 0.0
  const MaxHumidity: real := 100.0

  /** Why a payload was rejected. Each is a `ValueError` in the source. */
  datatype Reason =
    | MissingField(name: string)
    | EmptyDeviceId
    | BadTimestamp
    | BadTemperature
    | BadHumidity
    | TemperatureOutOfRange(temperature: Float)
    | HumidityOutOfRange(humidity: Float)

  /** The three ways `validate_message` can end: it returns a record, it raises
      `ValueError`, or an exception of another class escapes it. */
  datatype Verdict = Valid(reading: Reading) | Invalid(reason: Reason) | Unexpected

  /** The index of the first of `fields` that `data` lacks, if any. */
  function FirstMissing(fields: seq<string>, data: Payload): (r: Option<nat>)
    ensures r.Some? ==> r.value < |fields| && fields[r.value] !in data
    ensures r.Some? ==> forall j :: 0 <= j < r.value ==> fields[j] in data
    ensures r.None? <==> forall j :: 0 <= j < |fields| ==> fields[j] in data
  {
    if fields == [] then None
    else if fields[0] !in data then Some(0)
    else match FirstMissing(fields[1..], data)
      case None => None
      case Some(k) => Some(k + 1)
  }

  predicate AllPresent(data: Payload) {
    DeviceIdField in data && TimestampField in data && TemperatureField in data && HumidityField in data
  }

  lemma AllPresentListed(data: Payload)
    ensures AllPresent(data) <==> forall j :: 0 <= j < |RequiredFields| ==> RequiredFields[j] in data
  {
    assert RequiredFields[0] == DeviceIdField && RequiredFields[1] == TimestampField;
    assert RequiredFields[2] == TemperatureField && RequiredFields[3] == HumidityField;
  }

  /** `name` is the first required field, in list order, that `data` lacks. */
  predicate IsFirstMissing(data: Payload, name: string) {
    exists i :: 0 <= i < |RequiredFields| && RequiredFields[i] == name && name !in data &&
      forall j :: 0 <= j < i ==> RequiredFields[j] in data
  }

  /** Every field is present and the device id is non-empty: the three
      conversions are attempted, in the order timestamp, temperature, humidity. */
  predicate ReachesConversions(data: Payload, lib: Coercions) {
    AllPresent(data) && lib.str(data[DeviceIdField]) != ""
  }

  /** The first conversion that fails raises a `ValueError` or `TypeError`,
      which the validator turns into a rejection. */
  predicate ConversionRejected(data: Payload, lib: Coercions) {
    ReachesConversions(data, lib) &&
    (lib.isoparse(data[TimestampField]).ConversionError? ||
     (lib.isoparse(data[TimestampField]).Converted? &&
      (lib.float(data[TemperatureField]).ConversionError? ||
       (lib.float(data[TemperatureField]).Converted? && lib.float(data[HumidityField]).ConversionError?))))
  }

  /** The first conversion that fails raises an exception of another class (such
      as `OverflowError`), which escapes `validate_message`. */
  predicate Escapes(data: Payload, lib: Coercions) {
    ReachesConversions(data, lib) &&
    (lib.isoparse(data[TimestampField]).OtherError? ||
     (lib.isoparse(data[TimestampField]).Converted? &&
      (lib.float(data[TemperatureField]).OtherError? ||
       (lib.float(data[TemperatureField]).Converted? && lib.float(data[HumidityField]).OtherError?))))
  }

  /** Every field is present, the device id is non-empty and the three conversions succeed:
      the range checks are reached. */
  predicate ReachesRangeChecks(data: Payload, lib: Coercions) {
    ReachesConversions(data, lib) &&
    lib.isoparse(data[TimestampField]).Converted? &&
    lib.float(data[TemperatureField]).Converted? &&
    lib.float(data[HumidityField]).Converted?
  }

  /** A payload the gate lets through: every check passes. */
  predicate Acceptable(data: Payload, lib: Coercions) {
    ReachesRangeChecks(data, lib) &&
    Within(lib.float(data[TemperatureField]).value, MinTemperature, MaxTemperature) &&
    Within(lib.float(data[HumidityField]).value, MinHumidity, MaxHumidity)
  }

  /** The constraints every accepted reading meets. */
  predicate ReadingOk(r: Reading) {
    r.deviceId != "" &&
    MinTemperature <= r.temperature <= MaxTemperature &&
    MinHumidity <= r.humidity <= MaxHumidity
  }

  /** `r` carries the converted values of `data`'s four fields. */
  predicate Carries(data: Payload, lib: Coercions, r: Reading) {
    AllPresent(data) &&
    r.deviceId == lib.str(data[DeviceIdField]) &&
    lib.isoparse(data[TimestampField]) == Converted(r.timestamp) &&
    lib.float(data[TemperatureField]) == Converted(Finite(r.temperature)) &&
    lib.float(data[HumidityField]) == Converted(Finite(r.humidity))
  }

  /** `validate_message(data)` at the wall-clock time `now`. */
  function Validate(data: Payload, lib: Coercions, now: Timestamp): (v: Verdict)
    ensures v.Valid? <==> Acceptable(data, lib)
    ensures v.Valid? ==> ReadingOk(v.reading) && Carries(data, lib, v.reading) && v.reading.processedAt == now
    ensures (v.Invalid? && v.reason.MissingField?) <==> !AllPresent(data)
    ensures v.Invalid? && v.reason.MissingField? ==> IsFirstMissing(data, v.reason.name)
    ensures v == Invalid(EmptyDeviceId) <==> AllPresent(data) && lib.str(data[DeviceIdField]) == ""
    // the conversions run in source order, and the first one that fails decides
    ensures v == Invalid(BadTimestamp) <==>
      ReachesConversions(data, lib) && lib.isoparse(data[TimestampField]).ConversionError?
    ensures v == Invalid(BadTemperature) <==>
      ReachesConversions(data, lib) && lib.isoparse(data[TimestampField]).Converted? &&
      lib.float(data[TemperatureField]).ConversionError?
    ensures v == Invalid(BadHumidity) <==>
      ReachesConversions(data, lib) && lib.isoparse(data[TimestampField]).Converted? &&
      lib.float(data[TemperatureField]).Converted? && lib.float(data[HumidityField]).ConversionError?
    ensures v.Unexpected? <==> Escapes(data, lib)
    ensures (v.Invalid? && v.reason.TemperatureOutOfRange?) <==>
      ReachesRangeChecks(data, lib) && !Within(lib.float(data[TemperatureField]).value, MinTemperature, MaxTemperature)
    ensures v.Invalid? && v.reason.TemperatureOutOfRange? ==>
      lib.float(data[TemperatureField]) == Converted(v.reason.temperature)
    ensures (v.Invalid? && v.reason.HumidityOutOfRange?) <==>
      ReachesRangeChecks(data, lib) &&
      Within(lib.float(data[TemperatureField]).value, MinTemperature, MaxTemperature) &&
      !Within(lib.float(data[HumidityField]).value, MinHumidity, MaxHumidity)
    ensures v.Invalid? && v.reason.HumidityOutOfRange? ==>
      lib.float(data[HumidityField]) == Converted(v.reason.humidity)
  {
    AllPresentListed(data);
    match FirstMissing(RequiredFields, data)
    case Some(i) => Invalid(MissingField(RequiredFields[i]))
    case None =>
      var deviceId := lib.str(data[DeviceIdField]);
      if deviceId == "" then Invalid(EmptyDeviceId)
      else
        match lib.isoparse(data[TimestampField])
        case ConversionError => Invalid(BadTimestamp)
        case OtherError => Unexpected
        case Converted(timestamp) =>
          match lib.float(data[TemperatureField])
          case ConversionError => Invalid(BadTemperature)
          case OtherError => Unexpected
          case Converted(temperature) =>
            match lib.float(data[HumidityField])
            case ConversionError => Invalid(BadHumidity)
            case OtherError => Unexpected
            case Converted(humidity) =>
              if !Within(temperature, MinTemperature, MaxTemperature) then
                Invalid(TemperatureOutOfRange(temperature))
              else if !Within(humidity, MinHumidity, MaxHumidity) then
                Invalid(HumidityOutOfRange(humidity))
              else
                Valid(Reading(deviceId, timestamp, temperature.value, humidity.value, now))
  }

  /** The reported missing field is the first one in list order that is absent. */
  lemma MissingFieldReported(data: Payload, lib: Coercions, now: Timestamp, i: nat)
    requires i < |RequiredFields| && RequiredFields[i] !in data
    requires forall j :: 0 <= j < i ==> RequiredFields[j] in data
    ensures Validate(data, lib, now) == Invalid(MissingField(RequiredFields[i]))
  {
  }

  /** A payload that reaches the range checks is accepted exactly when both values
      lie in their closed ranges, endpoints included. */
  lemma RangeEndpointsAccepted(data: Payload, lib: Coercions, now: Timestamp, t: real, h: real)
    requires ReachesRangeChecks(data, lib)
    requires lib.float(data[TemperatureField]) == Converted(Finite(t))
    requires lib.float(data[HumidityField]) == Converted(Finite(h))
    ensures Validate(data, lib, now).Valid? <==> (-50.0 <= t <= 100.0 && 0.0 <= h <= 100.0)
  {
  }

  /** A temperature or humidity of NaN or an infinity never passes. */
  lemma NonFiniteRejected(data: Payload, lib: Coercions, now: Timestamp)
    requires ReachesRangeChecks(data, lib)
    requires !lib.float(data[TemperatureField]).value.Finite? || !lib.float(data[HumidityField]).value.Finite?
    ensures Validate(data, lib, now).Invalid?
  {
  }

  /** The library as Python behaves on the values of the unit test for a valid message. */
  function SampleCoercions(): Coercions {
    Coercions(
      (v: Json) => if v.JString? then v.s else "?",
      (v: Json) => if v == JString("2023-10-01T10:00:00Z") then Converted(Timestamp(1696154400000000)) else ConversionError,
      (v: Json) => if v.JNumber? then Converted(Finite(v.n)) else ConversionError)
  }

  /** The valid message of the unit tests keeps its device id and temperature. */
  lemma SampleMessageAccepted(now: Timestamp)
    ensures var data := map[DeviceIdField := JString("test-1"), TimestampField := JString("2023-10-01T10:00:00Z"),
                            TemperatureField := JNumber(20.5), HumidityField := JNumber(50.0)];
            var v := Validate(data, SampleCoercions(), now);
            v.Valid? && v.reading.deviceId == "test-1" && v.reading.temperature == 20.5 && v.reading.processedAt == now
  {
  }

  /** A message with only a device id is rejected, naming the timestamp field. */
  lemma SampleMissingFieldRejected(now: Timestamp)
    ensures Validate(map[DeviceIdField := JString("test-1")], SampleCoercions(), now)
            == Invalid(MissingField(TimestampField))
  {
    MissingFieldReported(map[DeviceIdField := JString("test-1")], SampleCoercions(), now, 1);
  }

  /** A temperature of 200 is rejected as out of range. */
  lemma SampleHotMessageRejected(now: Timestamp)
    ensures var data := map[DeviceIdField := JString("test-1"), TimestampField := JString("2023-10-01T10:00:00Z"),
                            TemperatureField := JNumber(200.0), HumidityField := JNumber(50.0)];
            Validate(data, SampleCoercions(), now) == Invalid(TemperatureOutOfRange(Finite(200.0)))
  {
  }
}
