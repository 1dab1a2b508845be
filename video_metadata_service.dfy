/**
 * The local store of recording metadata (mobile/src/services/VideoMetadataService.ts): building
 * a record with back-to-back question intervals, and append, look-up, merge, delete, clear and
 * migrate over the stored list.
 *
 * AsyncStorage is the `stored` field. A failed read (`getItem` or `JSON.parse` throwing) is the
 * input `readOk == false`, which `getAllMetadata` turns into an empty list; a failed write is
 * `writeOk == false`, which leaves the store as it was. The clock, the random id part, the
 * thumbnail outcome and the device description are parameters.
 */
module VideoMetadataService {
  import opened Wrappers
  import opened JsText
  import opened MetadataTypes
  import opened VideoMetadataUtils
  import opened KeyedLists

  /** Seconds each question is on screen. */
  const QuestionDuration: real := 3.333

  function TimingAt(text: string, index: nat, now: nat): QuestionTiming
  {
    QuestionTiming(
      "q_" + NatToString(index) + "_" + NatToString(now), text,
      index as real * QuestionDuration, (index + 1) as real * QuestionDuration, index)
  }

  /** The `questions.map((text, index) => …)` of `createVideoMetadata`. */
  function QuestionTimings(texts: seq<string>, now: nat): (r: seq<QuestionTiming>)
    ensures |r| == |texts|
    ensures forall i :: 0 <= i < |r| ==> r[i] == TimingAt(texts[i], i, now)
  {
    seq(|texts|, i requires 0 <= i < |texts| => TimingAt(texts[i], i, now))
  }

  /**
   * The i-th interval carries the i-th text and order i, starts where the previous one ends
   * (the first at 0), and is not empty.
   */
  lemma TimingsAreBackToBack(texts: seq<string>, now: nat)
    ensures var r := QuestionTimings(texts, now);
      && (r != [] ==> r[0].startTime == 0.0)
      && (forall i :: 0 <= i < |r| ==> r[i].text == texts[i] && r[i].order == i && r[i].startTime < r[i].endTime)
      && (forall i :: 0 <= i < |r| - 1 ==> r[i].endTime == r[i + 1].startTime)
  {
  }

  /** Interval i covers [i·d, (i+1)·d), so at time t the question shown is the one numbered ⌊t/d⌋. */
  lemma ActiveQuestionIsIntervalAtTime(texts: seq<string>, now: nat, t: real)
    requires 0.0 <= t < |texts| as real * QuestionDuration
    ensures var r := QuestionTimings(texts, now); var k := (t / QuestionDuration).Floor;
      0 <= k < |r| && FindActiveQuestion(r, t) == Some(r[k])
  {
    var r := QuestionTimings(texts, now);
    var k := (t / QuestionDuration).Floor;
    FloorBetween(t, QuestionDuration, k);
    assert 0 <= k < |texts| by {
      if k < 0 { ScaleMonotone(k + 1, 0, QuestionDuration); }
      if k >= |texts| { ScaleMonotone(|texts|, k, QuestionDuration); }
    }
    assert IsActive(r[k], t);
    forall j | 0 <= j < k ensures !IsActive(r[j], t) {
      ScaleMonotone(j + 1, k, QuestionDuration);
    }
    FirstActiveIsFound(r, t, k);
  }

  /** `k = ⌊t/d⌋` puts `t` in the interval `[k·d, (k+1)·d)`. */
  lemma FloorBetween(t: real, d: real, k: int)
    requires d > 0.0 && k == (t / d).Floor
    ensures k as real * d <= t < k as real * d + d
  {
    QuotientTimesDivisor(t, d);
    BetweenMultiples(t / d, d, k, t);
  }

  lemma BetweenMultiples(q: real, d: real, k: int, t: real)
    requires d > 0.0 && t == q * d && k as real <= q < k as real + 1.0
    ensures k as real * d <= t < k as real * d + d
  {
    MultiplyBothSides(k as real, q, d);
    MultiplyBothSides(q, k as real + 1.0, d);
    assert q < k as real + 1.0;
    assert q * d < (k as real + 1.0) * d;
    assert t < (k as real + 1.0) * d;
    assert (k as real + 1.0) * d == k as real * d + d;
  }

  lemma MultiplyBothSides(a: real, b: real, d: real)
    requires d > 0.0
    ensures a <= b ==> a * d <= b * d
    ensures a < b ==> a * d < b * d
  {
  }

  lemma QuotientTimesDivisor(t: real, d: real)
    requires d != 0.0
    ensures t / d * d == t
  {
  }

  lemma ScaleMonotone(a: int, b: int, d: real)
    requires a <= b && d > 0.0
    ensures a as real * d <= b as real * d
  {
  }

  /** An active question with no active question before it is the one found. */
  lemma FirstActiveIsFound(qs: seq<QuestionTiming>, t: real, k: nat)
    requires k < |qs| && IsActive(qs[k], t)
    requires forall j :: 0 <= j < k ==> !IsActive(qs[j], t)
    ensures FindActiveQuestion(qs, t) == Some(qs[k])
  {
    var f := FirstActive(qs, t);
    assert f.Some?;
    assert f.value == k;
  }

  /** The question time of a fresh recording is the number of questions times the interval length. */
  lemma TotalTimeOfTimings(texts: seq<string>, now: nat)
    ensures CalculateTotalQuestionTime(QuestionTimings(texts, now)) == |texts| as real * QuestionDuration
  {
  }

  /**
   * `createVideoMetadata`: id `video_<now>_<random>`, the given uri, duration and start time,
   * the question intervals, the thumbnail when one was made, and the device description.
   */
  function CreateVideoMetadata(
    videoUri: string, duration: real, questions: seq<string>, recordingStartTime: int,
    now: nat, randomPart: string, thumbnail: Option<string>, device: DeviceInfo): (m: VideoMetadata)
    ensures m.uri == videoUri && m.duration == duration && m.recordedAt == recordingStartTime
    ensures m.questions == QuestionTimings(questions, now)
    ensures m.thumbnail == thumbnail && m.deviceInfo == Some(device)
  {
    VideoMetadata(
      "video_" + NatToString(now) + "_" + randomPart, videoUri, duration, recordingStartTime,
      QuestionTimings(questions, now), thumbnail, Some(device))
  }

  /** A freshly created record passes the strict validator of the utilities. */
  lemma CreatedMetadataIsValid(
    videoUri: string, duration: real, questions: seq<string>, recordingStartTime: int,
    now: nat, randomPart: string, thumbnail: Option<string>, device: DeviceInfo)
    ensures ValidateVideoMetadata(MetadataToJs(
      CreateVideoMetadata(videoUri, duration, questions, recordingStartTime, now, randomPart, thumbnail, device)))
  {
    var m := CreateVideoMetadata(videoUri, duration, questions, recordingStartTime, now, randomPart, thumbnail, device);
    TimingsAreBackToBack(questions, now);
    MetadataValidIffTimingsOrdered(m);
  }

  /** `validateMetadata`: string id and uri, numeric duration and an array of questions, which are not inspected. */
  function ValidateMetadata(v: JsValue): (r: bool)
    ensures r ==> v.JsObject? && "id" in v.fields && "uri" in v.fields && "duration" in v.fields && "questions" in v.fields
    ensures r ==> v.fields["id"].JsString? && v.fields["uri"].JsString?
    ensures r ==> v.fields["duration"].JsNumber? && v.fields["questions"].JsArray?
    ensures (&& v.JsObject? && "id" in v.fields && "uri" in v.fields && "duration" in v.fields && "questions" in v.fields
             && v.fields["id"].JsString? && v.fields["uri"].JsString? && v.fields["duration"].JsNumber?
             && v.fields["questions"].JsArray?) ==> r
  {
    && Truthy(v)
    && Prop(v, "id").JsString?
    && Prop(v, "uri").JsString?
    && Prop(v, "duration").JsNumber?
    && Prop(v, "questions").JsArray?
  }

  /** Whatever the utilities' validator accepts, the service's validator accepts. */
  lemma StrictValidationImpliesBasic(v: JsValue)
    ensures ValidateVideoMetadata(v) ==> ValidateMetadata(v)
  {
  }

  /** The service's validator accepts a record whose question ends before it starts; the strict one does not. */
  lemma BasicValidationIgnoresTimings()
    ensures var q := QuestionTiming("q", "?", 2.0, 1.0, 0);
      var m := VideoMetadata("v", "file:v", 5.0, 0, [q], None, None);
      ValidateMetadata(MetadataToJs(m)) && !ValidateVideoMetadata(MetadataToJs(m))
  {
    var q := QuestionTiming("q", "?", 2.0, 1.0, 0);
    var m := VideoMetadata("v", "file:v", 5.0, 0, [q], None, None);
    MetadataValidIffTimingsOrdered(m);
    assert m.questions[0].startTime >= m.questions[0].endTime;
  }

  // ---------------------------------------------------------------------------------------------
  // The stored list

  /** The position of the first record with this id: `findIndex`, or `find` for the record. */
  function IndexOfId(s: seq<VideoMetadata>, id: string): (r: Option<nat>)
    ensures r.Some? ==> r.value < |s| && s[r.value].id == id
    ensures r.Some? ==> forall k :: 0 <= k < r.value ==> s[k].id != id
    ensures r.None? <==> forall k :: 0 <= k < |s| ==> s[k].id != id
  {
    if s == [] then None
    else if s[0].id == id then Some(0)
    else match IndexOfId(s[1..], id)
      case None => None
      case Some(k) => Some(k + 1)
  }

  /** `all.find(m => m.id === id) || null`. */
  function FindById(s: seq<VideoMetadata>, id: string): (r: Option<VideoMetadata>)
    ensures r.Some? ==> r.value.id == id && r.value in s
    ensures r.None? <==> forall k :: 0 <= k < |s| ==> s[k].id != id
    ensures r.Some? ==> exists k :: 0 <= k < |s| && s[k] == r.value && forall j :: 0 <= j < k ==> s[j].id != id
  {
    match IndexOfId(s, id)
    case None => None
    case Some(k) => Some(s[k])
  }

  /** `all.find(m => m.uri === uri) || null`. */
  function FindByUri(s: seq<VideoMetadata>, uri: string): (r: Option<VideoMetadata>)
    ensures r.Some? ==> r.value.uri == uri && r.value in s
    ensures r.None? <==> forall k :: 0 <= k < |s| ==> s[k].uri != uri
    ensures r.Some? ==> exists k :: 0 <= k < |s| && s[k] == r.value && forall j :: 0 <= j < k ==> s[j].uri != uri
  {
    if s == [] then None
    else if s[0].uri == uri then Some(s[0])
    else
      var r := FindByUri(s[1..], uri);
      assert r.Some? ==> exists k :: 0 <= k < |s| && s[k] == r.value && forall j :: 0 <= j < k ==> s[j].uri != uri by {
        if r.Some? {
          var k :| 0 <= k < |s[1..]| && s[1..][k] == r.value && forall j :: 0 <= j < k ==> s[1..][j].uri != uri;
          assert s[k + 1] == r.value;
          forall j | 0 <= j < k + 1 ensures s[j].uri != uri {
            if j > 0 { assert s[j] == s[1..][j - 1]; }
          }
        }
      }
      r
  }

  /** Appending a record never hides an earlier one with the same id: look-up finds the first. */
  lemma FindAfterAppend(s: seq<VideoMetadata>, m: VideoMetadata)
    ensures FindById(s + [m], m.id) == if FindById(s, m.id).Some? then FindById(s, m.id) else Some(m)
  {
    var t := s + [m];
    if IndexOfId(s, m.id).None? {
      assert forall k :: 0 <= k < |s| ==> t[k].id != m.id;
      assert t[|s|] == m;
    } else {
      var k := IndexOfId(s, m.id).value;
      assert forall j :: 0 <= j < k ==> t[j].id != m.id;
      assert t[k].id == m.id;
      assert IndexOfId(t, m.id) == Some(k);
    }
  }

  /** The keys of `Partial<VideoMetadata>` that an update sets; an optional field can be set to absent. */
  datatype MetadataUpdate = MetadataUpdate(
    id: Option<string>,
    uri: Option<string>,
    duration: Option<real>,
    recordedAt: Option<int>,
    questions: Option<seq<QuestionTiming>>,
    thumbnail: Option<Option<string>>,
    deviceInfo: Option<Option<DeviceInfo>>)

  /** `{ ...m, ...updates }`: each key the update sets replaces the record's; the others are kept. */
  function Merge(m: VideoMetadata, u: MetadataUpdate): (r: VideoMetadata)
    ensures r.id == u.id.GetOr(m.id) && r.uri == u.uri.GetOr(m.uri)
    ensures r.duration == u.duration.GetOr(m.duration) && r.recordedAt == u.recordedAt.GetOr(m.recordedAt)
    ensures r.questions == u.questions.GetOr(m.questions)
    ensures r.thumbnail == u.thumbnail.GetOr(m.thumbnail) && r.deviceInfo == u.deviceInfo.GetOr(m.deviceInfo)
  {
    VideoMetadata(
      u.id.GetOr(m.id), u.uri.GetOr(m.uri), u.duration.GetOr(m.duration), u.recordedAt.GetOr(m.recordedAt),
      u.questions.GetOr(m.questions), u.thumbnail.GetOr(m.thumbnail), u.deviceInfo.GetOr(m.deviceInfo))
  }

  /** An update that sets no key leaves a record as it was. */
  lemma MergeEmptyUpdate(m: VideoMetadata)
    ensures Merge(m, MetadataUpdate(None, None, None, None, None, None, None)) == m
  {
  }

  /** Merging twice with the same update is merging once. */
  lemma MergeIdempotent(m: VideoMetadata, u: MetadataUpdate)
    ensures Merge(Merge(m, u), u) == Merge(m, u)
  {
  }

  /** The list after `updateMetadata`: the first record with the id merged, every other record kept. */
  function UpdateFirst(s: seq<VideoMetadata>, id: string, u: MetadataUpdate): (r: seq<VideoMetadata>)
    ensures |r| == |s|
    ensures IndexOfId(s, id).None? ==> r == s
    ensures IndexOfId(s, id).Some? ==> var k := IndexOfId(s, id).value;
      r[k] == Merge(s[k], u) && forall j :: 0 <= j < |s| && j != k ==> r[j] == s[j]
  {
    match IndexOfId(s, id)
    case None => s
    case Some(k) => s[k := Merge(s[k], u)]
  }

  /** After an update that keeps the id, look-up by that id finds the merged record. */
  lemma FindAfterUpdate(s: seq<VideoMetadata>, id: string, u: MetadataUpdate)
    requires u.id.None?
    requires FindById(s, id).Some?
    ensures FindById(UpdateFirst(s, id, u), id) == Some(Merge(FindById(s, id).value, u))
  {
    var k := IndexOfId(s, id).value;
    var r := UpdateFirst(s, id, u);
    assert forall j :: 0 <= j < k ==> r[j].id != id;
    assert r[k].id == id;
    assert IndexOfId(r, id) == Some(k);
  }

  /** The key the store deletes by. */
  function MetadataId(m: VideoMetadata): string
  {
    m.id
  }

  /** After deleting an id nothing is found under it. */
  lemma DeleteThenFind(s: seq<VideoMetadata>, id: string)
    ensures FindById(WithoutKey(s, MetadataId, id), id).None?
  {
    var r := WithoutKey(s, MetadataId, id);
    assert forall k :: 0 <= k < |r| ==> MetadataId(r[k]) != id;
  }

  /** One record of `migrateMetadata`: a missing device description is filled in. */
  function MigrateOne(m: VideoMetadata, device: DeviceInfo): (r: VideoMetadata)
    ensures r.deviceInfo.Some?
    ensures m.deviceInfo.Some? ==> r == m
    ensures r == m.(deviceInfo := r.deviceInfo)
  {
    if m.deviceInfo.None? then m.(deviceInfo := Some(device)) else m
  }

  /** `all.map(…)` of `migrateMetadata`. */
  function Migrated(s: seq<VideoMetadata>, device: DeviceInfo): (r: seq<VideoMetadata>)
    ensures |r| == |s|
    ensures forall i :: 0 <= i < |s| ==> r[i] == MigrateOne(s[i], device)
  {
    seq(|s|, i requires 0 <= i < |s| => MigrateOne(s[i], device))
  }

  /** Migration gives every record a device description, keeps the ones that had one, and is idempotent. */
  lemma MigratedProperties(s: seq<VideoMetadata>, device: DeviceInfo, device2: DeviceInfo)
    ensures forall i :: 0 <= i < |s| ==> Migrated(s, device)[i].deviceInfo.Some?
    ensures forall i :: 0 <= i < |s| && s[i].deviceInfo.Some? ==> Migrated(s, device)[i] == s[i]
    ensures Migrated(Migrated(s, device), device2) == Migrated(s, device)
  {
  }

  /** The AsyncStorage entry holding the list. */
  class MetadataStore {
    var stored: seq<VideoMetadata>

    constructor(initial: seq<VideoMetadata>)
      ensures stored == initial
    {
      stored := initial;
    }

    /** `getAllMetadata`: the stored list, or empty when nothing is stored or reading fails. */
    method GetAllMetadata(readOk: bool) returns (all: seq<VideoMetadata>)
      ensures readOk ==> all == stored
      ensures !readOk ==> all == []
    {
      all := if readOk then stored else [];
    }

    /**
     * `saveMetadata`: the listed records with `m` appended, written back. Because a failed read
     * gives the empty list, a save after one replaces the stored records by `[m]`.
     */
    method SaveMetadata(m: VideoMetadata, readOk: bool, writeOk: bool) returns (saved: bool)
      modifies this
      ensures saved == writeOk
      ensures saved && readOk ==> stored == old(stored) + [m]
      ensures saved && !readOk ==> stored == [m]
      ensures !saved ==> stored == old(stored)
    {
      var existing := GetAllMetadata(readOk);
      var updated := existing + [m];
      if !writeOk {
        return false;
      }
      stored := updated;
      return true;
    }

    /** `getMetadataById`. */
    method GetMetadataById(id: string, readOk: bool) returns (r: Option<VideoMetadata>)
      ensures r == FindById(if readOk then stored else [], id)
    {
      var all := GetAllMetadata(readOk);
      r := FindById(all, id);
    }

    /** `getMetadataByUri`. */
    method GetMetadataByUri(uri: string, readOk: bool) returns (r: Option<VideoMetadata>)
      ensures r == FindByUri(if readOk then stored else [], uri)
    {
      var all := GetAllMetadata(readOk);
      r := FindByUri(all, uri);
    }

    /** `updateMetadata`: nothing is written when no record has the id; otherwise the merged list is. */
    method UpdateMetadata(id: string, u: MetadataUpdate, readOk: bool, writeOk: bool) returns (ok: bool)
      modifies this
      ensures var all := if readOk then old(stored) else [];
        && (IndexOfId(all, id).None? ==> ok && stored == old(stored))
        && (IndexOfId(all, id).Some? && writeOk ==> ok && stored == UpdateFirst(all, id, u))
        && (IndexOfId(all, id).Some? && !writeOk ==> !ok && stored == old(stored))
    {
      var all := GetAllMetadata(readOk);
      match IndexOfId(all, id)
      case None =>
        return true;
      case Some(k) =>
        if !writeOk {
          return false;
        }
        stored := UpdateFirst(all, id, u);
        return true;
    }

    /** `deleteMetadata`: the list without the records carrying the id, written back. */
    method DeleteMetadata(id: string, readOk: bool, writeOk: bool) returns (ok: bool)
      modifies this
      ensures ok == writeOk
      ensures ok ==> stored == WithoutKey(if readOk then old(stored) else [], MetadataId, id)
      ensures !ok ==> stored == old(stored)
    {
      var all := GetAllMetadata(readOk);
      var filtered := WithoutKey(all, MetadataId, id);
      if !writeOk {
        return false;
      }
      stored := filtered;
      return true;
    }

    /** `clearAllMetadata`: the entry is removed, so the list reads as empty. */
    method ClearAllMetadata(removeOk: bool) returns (ok: bool)
      modifies this
      ensures ok == removeOk
      ensures ok ==> stored == []
      ensures !ok ==> stored == old(stored)
    {
      if removeOk {
        stored := [];
      }
      return removeOk;
    }

    /** `migrateMetadata`: fills missing device descriptions; failures are swallowed. */
    method MigrateMetadata(device: DeviceInfo, readOk: bool, writeOk: bool)
      modifies this
      ensures writeOk ==> stored == Migrated(if readOk then old(stored) else [], device)
      ensures !writeOk ==> stored == old(stored)
    {
      var all := GetAllMetadata(readOk);
      var migrated := Migrated(all, device);
      if writeOk {
        stored := migrated;
      }
    }
  }
}
