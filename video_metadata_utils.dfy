/**
 * Helpers over the question timings of a recorded video (mobile/src/utils/videoMetadataUtils.ts):
 * which question is on screen at a time, playback progress, clock formatting, validation of
 * parsed records, ordering by start time, and the next and previous question.
 */
module VideoMetadataUtils {
  import opened Wrappers
  import opened JsText
  import opened MetadataTypes

  /** `currentTime >= q.startTime && currentTime < q.endTime`. */
  predicate IsActive(q: QuestionTiming, t: real)
  {
    q.startTime <= t < q.endTime
  }

  /** The index of the first active question. */
  function FirstActive(qs: seq<QuestionTiming>, t: real): (r: Option<nat>)
    ensures r.Some? ==> r.value < |qs| && IsActive(qs[r.value], t)
    ensures r.Some? ==> forall k :: 0 <= k < r.value ==> !IsActive(qs[k], t)
    ensures r.None? <==> forall k :: 0 <= k < |qs| ==> !IsActive(qs[k], t)
  {
    if qs == [] then None
    else if IsActive(qs[0], t) then Some(0)
    else match FirstActive(qs[1..], t)
      case None => None
      case Some(k) => Some(k + 1)
  }

  /** `findActiveQuestion`: the first question whose interval holds `t`, or null. */
  function FindActiveQuestion(qs: seq<QuestionTiming>, t: real): (r: Option<QuestionTiming>)
    ensures r.Some? ==> IsActive(r.value, t)
    ensures r.Some? ==> exists k :: 0 <= k < |qs| && qs[k] == r.value && forall j :: 0 <= j < k ==> !IsActive(qs[j], t)
    ensures r.None? <==> forall k :: 0 <= k < |qs| ==> !IsActive(qs[k], t)
  {
    match FirstActive(qs, t)
    case None => None
    case Some(k) => Some(qs[k])
  }

  /** `calculateVideoProgress`: percent of the duration played, capped at 100; 0 for a zero duration. */
  function CalculateVideoProgress(currentTime: real, duration: real): (r: real)
    ensures duration == 0.0 ==> r == 0.0
    ensures r <= 100.0
    ensures duration > 0.0 && currentTime >= 0.0 ==> r >= 0.0
    ensures duration > 0.0 && currentTime >= duration ==> r == 100.0
    ensures duration > 0.0 && currentTime < duration ==> r == currentTime / duration * 100.0
  {
    if duration == 0.0 then 0.0
    else
      var p := currentTime / duration * 100.0;
      assert duration > 0.0 && currentTime >= duration ==> p >= 100.0 by {
        if duration > 0.0 && currentTime >= duration {
          assert currentTime / duration >= 1.0;
        }
      }
      assert duration > 0.0 && currentTime < duration ==> p < 100.0 by {
        if duration > 0.0 && currentTime < duration {
          assert currentTime / duration < 1.0;
        }
      }
      if p <= 100.0 then p else 100.0
  }

  /** Playing further never lowers the progress shown for the same video. */
  lemma ProgressIsMonotone(t1: real, t2: real, duration: real)
    requires duration > 0.0 && t1 <= t2
    ensures CalculateVideoProgress(t1, duration) <= CalculateVideoProgress(t2, duration)
  {
    assert t1 / duration <= t2 / duration;
  }

  /** `Math.trunc`. */
  function Trunc(x: real): int
  {
    if x >= 0.0 then x.Floor else -((-x).Floor)
  }

  /** JavaScript's `%` on numbers: the remainder takes the sign of the dividend. */
  function JsRem(x: real, m: real): real
    requires m != 0.0
  {
    x - m * Trunc(x / m) as real
  }

  /** `Math.floor(seconds / 60)`. */
  function Minutes(seconds: real): int
  {
    (seconds / 60.0).Floor
  }

  /** `Math.floor(seconds % 60)`. */
  function SecondsPart(seconds: real): int
  {
    JsRem(seconds, 60.0).Floor
  }

  /** The text `formatTime` writes: `${mins}:${secs.toString().padStart(2, '0')}`. */
  function ClockText(seconds: real): string
  {
    IntToString(Minutes(seconds)) + ":" + PadStart(IntToString(SecondsPart(seconds)), 2, '0')
  }

  /**
   * `formatTime`: for a non-negative time, minutes, a colon and two second digits below 60,
   * which read back as the time's whole seconds.
   */
  function FormatTime(seconds: real): (r: string)
    ensures seconds >= 0.0 ==> ParseClock(r) == Some(seconds.Floor)
    ensures seconds >= 0.0 ==> |r| >= 4 && r[|r| - 3] == ':' && '0' <= r[|r| - 2] <= '5' && '0' <= r[|r| - 1] <= '9'
  {
    if seconds < 0.0 then ClockText(seconds)
    else
      ClockTextReadsBack(seconds);
      ClockText(seconds)
  }

  /**
   * `formatDuration`: whole seconds with an `s` below a minute, the clock form otherwise; either
   * form reads back as the time's whole seconds.
   */
  function FormatDuration(seconds: real): (r: string)
    ensures seconds >= 0.0 ==> ParseDuration(r) == Some(seconds.Floor)
    ensures seconds >= 0.0 ==> (seconds < 60.0 <==> r[|r| - 1] == 's')
  {
    if seconds < 60.0 then
      var r := IntToString(seconds.Floor) + "s";
      if seconds >= 0.0 then
        SecondsTextReadsBack(seconds.Floor);
        r
      else r
    else FormatTime(seconds)
  }

  /** For a non-negative time the clock shows whole minutes and 0..59 seconds that sum to the whole seconds. */
  lemma ClockPartsSplitSeconds(seconds: real)
    requires seconds >= 0.0
    ensures Minutes(seconds) >= 0 && 0 <= SecondsPart(seconds) < 60
    ensures 60 * Minutes(seconds) + SecondsPart(seconds) == seconds.Floor
  {
    var mins := Minutes(seconds);
    assert mins as real <= seconds / 60.0 < mins as real + 1.0;
    assert 60.0 * mins as real <= seconds < 60.0 * mins as real + 60.0;
    var rem := JsRem(seconds, 60.0);
    assert rem == seconds - 60.0 * mins as real;
    assert rem.Floor == seconds.Floor - 60 * mins;
  }

  /** A number below 60 written with two digits. */
  lemma TwoDigits(n: nat)
    requires n < 60
    ensures PadStart(NatToString(n), 2, '0') == [DigitChar(n / 10), DigitChar(n % 10)]
  {
    var d := NatToString(n);
    if n < 10 {
      assert d == [DigitChar(n)];
      assert PadStart(d, 2, '0') == PadStart(['0'] + d, 2, '0');
      assert n / 10 == 0 && n % 10 == n;
    } else {
      var hi, lo := n / 10, n % 10;
      assert hi < 10;
      assert d == NatToString(hi) + [DigitChar(lo)];
      assert NatToString(hi) == [DigitChar(hi)];
    }
  }

  /** Reads `m:ss` back into whole seconds. */
  function ParseClock(s: string): (r: Option<int>)
  {
    if |s| >= 4 && s[|s| - 3] == ':' && AllDigits(s[..|s| - 3]) && AllDigits(s[|s| - 2..])
    then Some(DigitsValue(s[..|s| - 3]) * 60 + DigitsValue(s[|s| - 2..]))
    else None
  }

  /** Reads what `formatDuration` writes back into whole seconds. */
  function ParseDuration(s: string): (r: Option<int>)
  {
    if |s| >= 2 && s[|s| - 1] == 's' && AllDigits(s[..|s| - 1]) then Some(DigitsValue(s[..|s| - 1]))
    else ParseClock(s)
  }

  /** The clock text of a non-negative time: minutes, a colon and two second digits. */
  lemma ClockTextShape(seconds: real)
    requires seconds >= 0.0
    ensures var secs := SecondsPart(seconds);
      0 <= secs < 60 && ClockText(seconds) == NatToString(Minutes(seconds)) + ":" + [DigitChar(secs / 10), DigitChar(secs % 10)]
  {
    ClockPartsSplitSeconds(seconds);
    TwoDigits(SecondsPart(seconds));
  }

  lemma ParseClockOfParts(mins: nat, secs: nat, total: int)
    requires secs < 60 && total == 60 * mins + secs
    ensures ParseClock(NatToString(mins) + ":" + [DigitChar(secs / 10), DigitChar(secs % 10)]) == Some(total)
  {
    var m := NatToString(mins);
    var two := [DigitChar(secs / 10), DigitChar(secs % 10)];
    var r := m + ":" + two;
    assert r[..|r| - 3] == m;
    assert r[|r| - 2..] == two;
    NatToStringValue(mins);
    assert two[..1] == [DigitChar(secs / 10)];
    assert DigitsValue(two[..1]) == secs / 10;
    assert DigitsValue(two) == secs;
  }

  /** The clock text of a non-negative time is `m:ss` and reads back as its whole seconds. */
  lemma ClockTextReadsBack(seconds: real)
    requires seconds >= 0.0
    ensures ParseClock(ClockText(seconds)) == Some(seconds.Floor)
    ensures var r := ClockText(seconds);
      |r| >= 4 && r[|r| - 3] == ':' && '0' <= r[|r| - 2] <= '5' && '0' <= r[|r| - 1] <= '9'
  {
    ClockTextShape(seconds);
    ClockPartsSplitSeconds(seconds);
    ParseClockOfParts(Minutes(seconds), SecondsPart(seconds), seconds.Floor);
    ClockShape(Minutes(seconds), SecondsPart(seconds));
  }

  /** The clock text has a colon three from the end, a tens digit of at most 5 and a units digit. */
  lemma ClockShape(mins: nat, secs: nat)
    requires secs < 60
    ensures var r := NatToString(mins) + ":" + [DigitChar(secs / 10), DigitChar(secs % 10)];
      |r| >= 4 && r[|r| - 3] == ':' && '0' <= r[|r| - 2] <= '5' && '0' <= r[|r| - 1] <= '9'
  {
    var r := NatToString(mins) + ":" + [DigitChar(secs / 10), DigitChar(secs % 10)];
    assert r[|r| - 2] == DigitChar(secs / 10);
  }

  /** Whole seconds followed by `s` read back as those seconds. */
  lemma SecondsTextReadsBack(n: nat)
    ensures var r := NatToString(n) + "s"; ParseDuration(r) == Some(n) && r[|r| - 1] == 's'
  {
    var r := NatToString(n) + "s";
    assert r[..|r| - 1] == NatToString(n);
    NatToStringValue(n);
  }

  /** `calculateTotalQuestionTime`: 0 without questions, else the last question's end time. */
  function CalculateTotalQuestionTime(qs: seq<QuestionTiming>): (r: real)
    ensures qs == [] ==> r == 0.0
    ensures qs != [] ==> r == qs[|qs| - 1].endTime
  {
    if |qs| == 0 then 0.0 else qs[|qs| - 1].endTime
  }

  predicate IsString(v: JsValue) { v.JsString? }
  predicate IsNumber(v: JsValue) { v.JsNumber? }

  /** `validateQuestionTiming`: a truthy value with string id and text, numeric times, and start before end. */
  function ValidateQuestionTiming(v: JsValue): (r: bool)
    ensures r ==> v.JsObject? && Prop(v, "id").JsString? && Prop(v, "text").JsString?
    ensures r ==> Prop(v, "startTime").JsNumber? && Prop(v, "endTime").JsNumber?
    ensures r ==> Prop(v, "startTime").n < Prop(v, "endTime").n
  {
    && Truthy(v)
    && IsString(Prop(v, "id"))
    && IsString(Prop(v, "text"))
    && IsNumber(Prop(v, "startTime"))
    && IsNumber(Prop(v, "endTime"))
    && Prop(v, "startTime").n < Prop(v, "endTime").n
  }

  /** `validateVideoMetadata`: string id and uri, numeric duration, and an array of valid timings. */
  function ValidateVideoMetadata(v: JsValue): (r: bool)
    ensures r ==> v.JsObject? && Prop(v, "questions").JsArray?
    ensures r ==> forall i :: 0 <= i < |Prop(v, "questions").items| ==> ValidateQuestionTiming(Prop(v, "questions").items[i])
  {
    && Truthy(v)
    && IsString(Prop(v, "id"))
    && IsString(Prop(v, "uri"))
    && IsNumber(Prop(v, "duration"))
    && Prop(v, "questions").JsArray?
    && (forall i :: 0 <= i < |Prop(v, "questions").items| ==> ValidateQuestionTiming(Prop(v, "questions").items[i]))
  }

  /** A stored timing passes validation exactly when it starts before it ends. */
  lemma TimingValidIffOrdered(q: QuestionTiming)
    ensures ValidateQuestionTiming(TimingToJs(q)) <==> q.startTime < q.endTime
  {
    var v := TimingToJs(q);
    assert Prop(v, "startTime") == JsNumber(q.startTime);
    assert Prop(v, "endTime") == JsNumber(q.endTime);
    assert Prop(v, "id") == JsString(q.id);
    assert Prop(v, "text") == JsString(q.text);
  }

  /** The stored object carries the record's id, uri, duration and timings under their keys. */
  lemma MetadataToJsProps(m: VideoMetadata)
    ensures var v := MetadataToJs(m);
      && v.JsObject?
      && Prop(v, "id") == JsString(m.id)
      && Prop(v, "uri") == JsString(m.uri)
      && Prop(v, "duration") == JsNumber(m.duration)
      && Prop(v, "questions") == JsArray(TimingsToJs(m.questions))
  {
    OptionalKeysAreNew();
    MetadataIdAndUri(m);
    MetadataDurationAndTimings(m);
  }

  lemma OptionalKeysAreNew()
    ensures "thumbnail" !in ["id", "uri", "duration", "questions"]
    ensures "deviceInfo" !in ["id", "uri", "duration", "questions"]
  {
    assert |"thumbnail"| == 9 && |"deviceInfo"| == 10;
    assert "thumbnail"[0] != "questions"[0];
  }

  lemma MetadataIdAndUri(m: VideoMetadata)
    requires "thumbnail" !in ["id", "uri", "duration", "questions"]
    requires "deviceInfo" !in ["id", "uri", "duration", "questions"]
    ensures Prop(MetadataToJs(m), "id") == JsString(m.id)
    ensures Prop(MetadataToJs(m), "uri") == JsString(m.uri)
  {
    var v := MetadataToJs(m);
    assert Prop(v, "id") == JsString(m.id);
  }

  lemma MetadataDurationAndTimings(m: VideoMetadata)
    requires "thumbnail" !in ["id", "uri", "duration", "questions"]
    requires "deviceInfo" !in ["id", "uri", "duration", "questions"]
    ensures Prop(MetadataToJs(m), "duration") == JsNumber(m.duration)
    ensures Prop(MetadataToJs(m), "questions") == JsArray(TimingsToJs(m.questions))
  {
    var v := MetadataToJs(m);
    assert Prop(v, "duration") == JsNumber(m.duration);
  }

  /** A stored record passes validation exactly when each of its timings starts before it ends. */
  lemma MetadataValidIffTimingsOrdered(m: VideoMetadata)
    ensures ValidateVideoMetadata(MetadataToJs(m)) <==> forall i :: 0 <= i < |m.questions| ==> m.questions[i].startTime < m.questions[i].endTime
  {
    MetadataToJsProps(m);
    forall i | 0 <= i < |m.questions|
      ensures ValidateQuestionTiming(TimingsToJs(m.questions)[i]) <==> m.questions[i].startTime < m.questions[i].endTime
    {
      TimingValidIffOrdered(m.questions[i]);
    }
  }

  // ---------------------------------------------------------------------------------------------
  // Ordering by start time: `[...questions].sort((a, b) => a.startTime - b.startTime)`

  predicate SortedByStart(s: seq<QuestionTiming>)
  {
    forall i, j :: 0 <= i < j < |s| ==> s[i].startTime <= s[j].startTime
  }

  /** Places `q` after every element that starts no later, as a stable sort does. */
  function InsertByStart(q: QuestionTiming, s: seq<QuestionTiming>): (r: seq<QuestionTiming>)
    requires SortedByStart(s)
    ensures |r| == |s| + 1
    ensures forall k :: 0 <= k < |r| ==> r[k] == q || r[k] in s
    ensures SortedByStart(r)
    ensures multiset(r) == multiset(s) + multiset{q}
  {
    if s == [] || q.startTime < s[0].startTime then [q] + s
    else
      var rest := InsertByStart(q, s[1..]);
      HeadStartsFirst(q, s, rest);
      SortedCons(s[0], rest);
      assert s == [s[0]] + s[1..];
      [s[0]] + rest
  }

  /** The head of a sorted list starts no later than anything drawn from its tail or than a later-starting `q`. */
  lemma HeadStartsFirst(q: QuestionTiming, s: seq<QuestionTiming>, rest: seq<QuestionTiming>)
    requires SortedByStart(s) && s != [] && s[0].startTime <= q.startTime
    requires forall k :: 0 <= k < |rest| ==> rest[k] == q || rest[k] in s[1..]
    ensures forall k :: 0 <= k < |rest| ==> s[0].startTime <= rest[k].startTime
  {
    forall k | 0 <= k < |rest| ensures s[0].startTime <= rest[k].startTime {
      if rest[k] != q {
        var m :| 0 <= m < |s[1..]| && s[1..][m] == rest[k];
        assert s[m + 1] == rest[k];
      }
    }
  }

  /** A sorted list stays sorted under a head that starts no later than any of its elements. */
  lemma SortedCons(x: QuestionTiming, rest: seq<QuestionTiming>)
    requires SortedByStart(rest)
    requires forall k :: 0 <= k < |rest| ==> x.startTime <= rest[k].startTime
    ensures SortedByStart([x] + rest)
  {
    var r := [x] + rest;
    forall i, j | 0 <= i < j < |r| ensures r[i].startTime <= r[j].startTime {
      if i == 0 {
        assert r[j] == rest[j - 1];
      } else {
        assert r[i] == rest[i - 1] && r[j] == rest[j - 1];
      }
    }
  }

  /** `sortQuestionsByTime`: the same timings, ordered by start time; the input is a value and stays as it was. */
  function SortQuestionsByTime(qs: seq<QuestionTiming>): (r: seq<QuestionTiming>)
    ensures SortedByStart(r)
    ensures multiset(r) == multiset(qs)
    ensures |r| == |qs|
  {
    if qs == [] then []
    else
      var init := qs[..|qs| - 1];
      assert qs == init + [qs[|qs| - 1]];
      var r := InsertByStart(qs[|qs| - 1], SortQuestionsByTime(init));
      assert |r| == |multiset(r)|;
      r
  }

  /** `sorted.find(q => q.startTime > currentTime)`. */
  function FirstStartingAfter(s: seq<QuestionTiming>, t: real): (r: Option<QuestionTiming>)
    ensures r.Some? ==> r.value in s && r.value.startTime > t
    ensures r.Some? ==> exists k :: 0 <= k < |s| && s[k] == r.value && forall j :: 0 <= j < k ==> s[j].startTime <= t
    ensures r.None? <==> forall k :: 0 <= k < |s| ==> s[k].startTime <= t
  {
    if s == [] then None
    else if s[0].startTime > t then Some(s[0])
    else
      var r := FirstStartingAfter(s[1..], t);
      assert r.Some? ==> exists k :: 0 <= k < |s| && s[k] == r.value && forall j :: 0 <= j < k ==> s[j].startTime <= t by {
        if r.Some? {
          var k :| 0 <= k < |s[1..]| && s[1..][k] == r.value && forall j :: 0 <= j < k ==> s[1..][j].startTime <= t;
          assert s[k + 1] == r.value;
          assert forall j :: 0 <= j < k + 1 ==> s[j].startTime <= t by {
            forall j | 0 <= j < k + 1 ensures s[j].startTime <= t {
              if j > 0 { assert s[j] == s[1..][j - 1]; }
            }
          }
        }
      }
      r
  }

  lemma SortedHasSameQuestions(qs: seq<QuestionTiming>)
    ensures forall q :: q in qs <==> q in SortQuestionsByTime(qs)
  {
    var sorted := SortQuestionsByTime(qs);
    assert forall q :: q in qs <==> q in multiset(qs);
    assert forall q :: q in sorted <==> q in multiset(sorted);
  }

  /** In a list sorted by start time, the first question starting after `t` starts no later than any other such. */
  lemma FirstAfterIsEarliest(s: seq<QuestionTiming>, t: real)
    requires SortedByStart(s)
    ensures var r := FirstStartingAfter(s, t);
      r.Some? ==> forall q :: q in s && q.startTime > t ==> r.value.startTime <= q.startTime
  {
    var r := FirstStartingAfter(s, t);
    if r.Some? {
      var k :| 0 <= k < |s| && s[k] == r.value && forall j :: 0 <= j < k ==> s[j].startTime <= t;
      forall q | q in s && q.startTime > t ensures r.value.startTime <= q.startTime {
        var m :| 0 <= m < |s| && s[m] == q;
        assert s[m].startTime > t;
        assert k <= m;
      }
    }
  }

  /** `getNextQuestion`: among the questions starting after `t`, one that starts earliest; null if none. */
  function GetNextQuestion(qs: seq<QuestionTiming>, t: real): (r: Option<QuestionTiming>)
    ensures r.Some? ==> r.value in qs && r.value.startTime > t
    ensures r.Some? ==> forall q :: q in qs && q.startTime > t ==> r.value.startTime <= q.startTime
    ensures r.None? <==> forall q :: q in qs ==> q.startTime <= t
  {
    var sorted := SortQuestionsByTime(qs);
    SortedHasSameQuestions(qs);
    FirstAfterIsEarliest(sorted, t);
    FirstStartingAfter(sorted, t)
  }

  /** `sorted.filter(q => q.endTime <= currentTime)`. */
  function EndedBy(s: seq<QuestionTiming>, t: real): (r: seq<QuestionTiming>)
    ensures forall q :: q in r <==> q in s && q.endTime <= t
    ensures SortedByStart(s) ==> SortedByStart(r)
  {
    if s == [] then []
    else
      var rest := EndedBy(s[1..], t);
      assert SortedByStart(s) ==> forall q :: q in rest ==> s[0].startTime <= q.startTime by {
        if SortedByStart(s) {
          forall q | q in rest ensures s[0].startTime <= q.startTime {
            var k :| 0 <= k < |s[1..]| && s[1..][k] == q;
            assert s[k + 1] == q;
          }
        }
      }
      if s[0].endTime <= t then [s[0]] + rest else rest
  }

  /** The last element of a list sorted by start time starts no earlier than any other. */
  lemma LastStartsLatest(s: seq<QuestionTiming>)
    requires SortedByStart(s) && s != []
    ensures forall q :: q in s ==> q.startTime <= s[|s| - 1].startTime
  {
    forall q | q in s ensures q.startTime <= s[|s| - 1].startTime {
      var k :| 0 <= k < |s| && s[k] == q;
    }
  }

  /** `getPreviousQuestion`: among the questions ended by `t`, one that starts latest; null if none. */
  function GetPreviousQuestion(qs: seq<QuestionTiming>, t: real): (r: Option<QuestionTiming>)
    ensures r.Some? ==> r.value in qs && r.value.endTime <= t
    ensures r.Some? ==> forall q :: q in qs && q.endTime <= t ==> q.startTime <= r.value.startTime
    ensures r.None? <==> forall q :: q in qs ==> q.endTime > t
  {
    var sorted := SortQuestionsByTime(qs);
    SortedHasSameQuestions(qs);
    var previous := EndedBy(sorted, t);
    if |previous| == 0 then
      assert forall q :: q in qs ==> q !in previous;
      None
    else
      LastStartsLatest(previous);
      Some(previous[|previous| - 1])
  }

  /** `getThumbnailTimestamp`: a tenth of the duration, in milliseconds, at most one second. */
  function GetThumbnailTimestamp(duration: real): (r: real)
    ensures r <= 1000.0
    ensures duration <= 10.0 ==> r == duration * 100.0
    ensures duration >= 10.0 ==> r == 1000.0
  {
    var ms := duration * 0.1 * 1000.0;
    if ms <= 1000.0 then ms else 1000.0
  }
}
