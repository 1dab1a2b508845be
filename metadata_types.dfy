/**
 * Records of the local video metadata (mobile/src/types/videoMetadata.types.ts), and the
 * dynamically typed value that the metadata validators receive (`any` in the application).
 * Times are seconds as reals.
 */
module MetadataTypes {
  import opened Wrappers

  /** One question shown during a recording, and the interval in which it was on screen. */
  datatype QuestionTiming = QuestionTiming(id: string, text: string, startTime: real, endTime: real, order: int)

  datatype DeviceInfo = DeviceInfo(
    platform: string, model: string, osVersion: string, brand: Option<string>, deviceType: Option<string>)

  datatype VideoMetadata = VideoMetadata(
    id: string,
    uri: string,
    duration: real,
    recordedAt: int,
    questions: seq<QuestionTiming>,
    thumbnail: Option<string>,
    deviceInfo: Option<DeviceInfo>)

  /** A JavaScript value as parsed from JSON; NaN and the infinities are not modelled. */
  datatype JsValue =
    | JsUndefined
    | JsNull
    | JsBool(b: bool)
    | JsNumber(n: real)
    | JsString(s: string)
    | JsArray(items: seq<JsValue>)
    | JsObject(fields: map<string, JsValue>)

  /** JavaScript truthiness. */
  predicate Truthy(v: JsValue)
  {
    match v
    case JsUndefined => false
    case JsNull => false
    case JsBool(b) => b
    case JsNumber(n) => n != 0.0
    case JsString(s) => s != ""
    case JsArray(_) => true
    case JsObject(_) => true
  }

  /** `v.key`: the property of an object, undefined for a missing key or a non-object. */
  function Prop(v: JsValue, key: string): (r: JsValue)
    ensures v.JsObject? && key in v.fields ==> r == v.fields[key]
    ensures !(v.JsObject? && key in v.fields) ==> r == JsUndefined
  {
    if v.JsObject? && key in v.fields then v.fields[key] else JsUndefined
  }

  function TimingToJs(q: QuestionTiming): JsValue
  {
    JsObject(map[
      "id" := JsString(q.id), "text" := JsString(q.text),
      "startTime" := JsNumber(q.startTime), "endTime" := JsNumber(q.endTime),
      "order" := JsNumber(q.order as real)])
  }

  function TimingsToJs(qs: seq<QuestionTiming>): (r: seq<JsValue>)
    ensures |r| == |qs|
    ensures forall i :: 0 <= i < |qs| ==> r[i] == TimingToJs(qs[i])
  {
    if qs == [] then [] else [TimingToJs(qs[0])] + TimingsToJs(qs[1..])
  }

  function DeviceInfoToJs(d: DeviceInfo): JsValue
  {
    var base := map["platform" := JsString(d.platform), "model" := JsString(d.model), "osVersion" := JsString(d.osVersion)];
    var withBrand := if d.brand.Some? then base["brand" := JsString(d.brand.value)] else base;
    JsObject(if d.deviceType.Some? then withBrand["deviceType" := JsString(d.deviceType.value)] else withBrand)
  }

  /** The value a stored record parses back to; absent optional fields are absent keys. */
  function MetadataToJs(m: VideoMetadata): JsValue
  {
    var base := map[
      "id" := JsString(m.id), "uri" := JsString(m.uri), "duration" := JsNumber(m.duration),
      "recordedAt" := JsNumber(m.recordedAt as real), "questions" := JsArray(TimingsToJs(m.questions))];
    var withThumb := if m.thumbnail.Some? then base["thumbnail" := JsString(m.thumbnail.value)] else base;
    JsObject(if m.deviceInfo.Some? then withThumb["deviceInfo" := DeviceInfoToJs(m.deviceInfo.value)] else withThumb)
  }
}
