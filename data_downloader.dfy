/**
 * The pure part of `NineLevelDataDownloader.download_content`: once the JSON
 * of a lesson has been fetched (here it is an argument), the lesson is the
 * descriptor's level and class ids, the cleaned title, and the records of
 * the sentences, materialised by `list(...)`.
 */
module DataDownloader {
  import opened Wrappers
  import opened Exceptions
  import opened Decimal
  import opened DataCleaner
  import opened UrlDialector

  /** `NineLevelDataInfo`, as `asdict` renders it. */
  datatype Lesson = Lesson(levelId: string, classId: string, title: string, data: seq<Record>)

  /**
   * `download_content` after the fetch: `clean_data` runs first, then the
   * fields are taken in declaration order, and `list(result[-1])` runs the
   * pending `extract_data` calls.
   */
  function AssembleLesson(info: RequestInfo, payload: Payload): (r: Result<Lesson, PyError>)
    ensures r.Ok? <==> (CleanData(payload).Ok?
      && forall k :: 0 <= k < |payload.sentence.value| ==> ExtractData(payload.sentence.value[k]).Ok?)
    ensures r.Ok? ==> (r.value.levelId == info.levelId && r.value.classId == info.classId
      && r.value.title == payload.title.value + " " + payload.titleCh.value
      && |r.value.data| == |payload.sentence.value|
      && forall k :: 0 <= k < |r.value.data| ==>
        ExtractData(payload.sentence.value[k]).Ok? && r.value.data[k] == ExtractData(payload.sentence.value[k]).value)
    ensures CleanData(payload).Err? ==> r == Err(CleanData(payload).error)
    ensures CleanData(payload).Ok? && r.Err? ==> exists f :: (0 <= f < |payload.sentence.value|
      && (forall k :: 0 <= k < f ==> ExtractData(payload.sentence.value[k]).Ok?)
      && ExtractData(payload.sentence.value[f]).Err?
      && r.error == ExtractData(payload.sentence.value[f]).error)
  {
    match CleanData(payload)
    case Err(e) => Err(e)
    case Ok(cleaned) =>
      ExtractAllSpec(cleaned.pending);
      match ExtractAll(cleaned.pending)
      case Err(e) => Err(e)
      case Ok(data) => Ok(Lesson(info.levelId, info.classId, cleaned.title, data))
  }

  /**
   * A well-formed lesson assembles for every descriptor of a dialect, and its
   * ids are those of the descriptor's position in the enumeration: level
   * `i % 9 + 1` and class `i / 9 + 1`, written in decimal.
   */
  lemma LessonOfDescriptor(name: string, dialectId: int, i: int, payload: Payload)
    requires 0 <= i < 90
    requires payload.title.Some? && payload.titleCh.Some? && payload.sentence.Some?
    requires forall k :: 0 <= k < |payload.sentence.value| ==> ExtractData(payload.sentence.value[k]).Ok?
    ensures var r := AssembleLesson(AllDescriptors(name, dialectId)[i], payload);
      && r.Ok?
      && r.value.levelId == IntToString(i % 9 + 1)
      && r.value.classId == IntToString(i / 9 + 1)
      && |r.value.data| == |payload.sentence.value|
  {
    ExtractAllSpec(payload.sentence.value);
  }
}
