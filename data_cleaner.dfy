/**
 * `NineLevelDataCleaner`: turns the JSON of one lesson into its title and a
 * flat list of records, one per sentence, each holding the sentence's order,
 * its dialect text rebuilt from the `ab` values of its words, and its Chinese
 * translation. A key the JSON lacks raises KeyError, as subscripting a dict
 * does; a missing key is `None` in the datatypes below.
 */
module DataCleaner {
  import opened Wrappers
  import opened Exceptions
  import opened Text

  /** One entry of a sentence's `word` list; its `ch` gloss is never read. */
  datatype Word = Word(ab: Option<string>)

  /** One entry of the lesson's `sentence` list. */
  datatype Sentence = Sentence(order: Option<string>, chinese: Option<string>, word: Option<seq<Word>>)

  /** The lesson JSON: the keys `title`, `titleCh` and `sentence`. */
  datatype Payload = Payload(title: Option<string>, titleCh: Option<string>, sentence: Option<seq<Sentence>>)

  /** `NineLevelDataCleanerInfo`, as `asdict` renders it. */
  datatype Record = Record(order: string, dialect: string, chineseTranslation: string)

  /**
   * The value of `clean_data`: the title, and the sentences that its lazy
   * `map(self.extract_data, ...)` has yet to turn into records.
   */
  datatype Cleaned = Cleaned(title: string, pending: seq<Sentence>)

  /** `[translation_dict["ab"] for translation_dict in dialect]`. */
  function CollectAb(words: seq<Word>): (r: Result<seq<string>, PyError>)
    ensures r.Ok? <==> forall k :: 0 <= k < |words| ==> words[k].ab.Some?
    ensures r.Ok? ==> |r.value| == |words| && forall k :: 0 <= k < |words| ==> r.value[k] == words[k].ab.value
    ensures r.Err? ==> r.error == KeyError("ab")
  {
    if |words| == 0 then Ok([])
    else if words[0].ab.None? then Err(KeyError("ab"))
    else
      match CollectAb(words[1..])
      case Err(e) => Err(e)
      case Ok(rest) => Ok([words[0].ab.value] + rest)
  }

  /** `concatenate_ab_value`: the `ab` values joined by spaces, without whitespace before a mark. */
  function ConcatenateAbValue(words: seq<Word>): (r: Result<string, PyError>)
    ensures r.Ok? <==> forall k :: 0 <= k < |words| ==> words[k].ab.Some?
    ensures r.Err? ==> r.error == KeyError("ab")
    ensures |words| == 0 ==> r == Ok("")
  {
    match CollectAb(words)
    case Err(e) => Err(e)
    case Ok(abs) => Ok(DropSpaceBeforeMarks(Join(abs)))
  }

  /**
   * For every word list whose words all carry `ab`, the dialect text is the
   * substitution applied to the space-separated join of the `ab` values.
   */
  lemma ConcatenateJoin(words: seq<Word>, abs: seq<string>)
    requires |abs| == |words| && forall k :: 0 <= k < |words| ==> words[k].ab == Some(abs[k])
    ensures ConcatenateAbValue(words) == Ok(DropSpaceBeforeMarks(Join(abs)))
  {
    assert CollectAb(words).value == abs;
  }

  /**
   * When every `ab` is a non-empty word without whitespace, the dialect text
   * has no whitespace before a mark, and it is the join itself except for the
   * spaces that stood before a mark.
   */
  lemma ConcatenateWords(words: seq<Word>, abs: seq<string>)
    requires |abs| == |words| && forall k :: 0 <= k < |words| ==> words[k].ab == Some(abs[k])
    requires forall k :: 0 <= k < |abs| ==> |abs[k]| > 0 && NoSpace(abs[k])
    ensures ConcatenateAbValue(words) == Ok(DropSpaceBeforeMarks(Join(abs)))
    ensures NoSpaceBeforeMark(ConcatenateAbValue(words).value)
  {
    ConcatenateJoin(words, abs);
    JoinNoDoubleSpace(abs);
    NoSpaceBeforeMarkAfterDrop(Join(abs));
  }

  /** `extract_data`: reads `order`, `chinese` and `word` in that order, then rebuilds the dialect text. */
  function ExtractData(sentence: Sentence): (r: Result<Record, PyError>)
    ensures r.Ok? <==> (sentence.order.Some? && sentence.chinese.Some? && sentence.word.Some?
      && ConcatenateAbValue(sentence.word.value).Ok?)
    ensures r.Ok? ==> (r.value.order == sentence.order.value
      && r.value.chineseTranslation == sentence.chinese.value
      && r.value.dialect == ConcatenateAbValue(sentence.word.value).value)
    ensures r.Err? ==> r.error == (if sentence.order.None? then KeyError("order")
      else if sentence.chinese.None? then KeyError("chinese")
      else if sentence.word.None? then KeyError("word")
      else KeyError("ab"))
  {
    if sentence.order.None? then Err(KeyError("order"))
    else if sentence.chinese.None? then Err(KeyError("chinese"))
    else if sentence.word.None? then Err(KeyError("word"))
    else
      match ConcatenateAbValue(sentence.word.value)
      case Err(e) => Err(e)
      case Ok(dialect) => Ok(Record(sentence.order.value, dialect, sentence.chinese.value))
  }

  /**
   * `clean_data`: the f-string title reads `title` then `titleCh`, then
   * `sentence` is read; no record is built yet.
   */
  function CleanData(p: Payload): (r: Result<Cleaned, PyError>)
    ensures r.Ok? <==> p.title.Some? && p.titleCh.Some? && p.sentence.Some?
    ensures r.Ok? ==> (r.value.title == p.title.value + " " + p.titleCh.value
      && r.value.pending == p.sentence.value)
    ensures r.Err? ==> r.error == (if p.title.None? then KeyError("title")
      else if p.titleCh.None? then KeyError("titleCh")
      else KeyError("sentence"))
  {
    if p.title.None? then Err(KeyError("title"))
    else if p.titleCh.None? then Err(KeyError("titleCh"))
    else if p.sentence.None? then Err(KeyError("sentence"))
    else Ok(Cleaned(p.title.value + " " + p.titleCh.value, p.sentence.value))
  }

  /** `list(map(self.extract_data, sentences))`: the first failing sentence raises. */
  function ExtractAll(sentences: seq<Sentence>): Result<seq<Record>, PyError>
  {
    if |sentences| == 0 then Ok([])
    else
      match ExtractData(sentences[0])
      case Err(e) => Err(e)
      case Ok(record) =>
        match ExtractAll(sentences[1..])
        case Err(e) => Err(e)
        case Ok(rest) => Ok([record] + rest)
  }

  /**
   * The records are one per sentence, in order, and exist exactly when every
   * sentence extracts; otherwise the error is that of the first sentence that
   * does not.
   */
  lemma {:induction false} ExtractAllSpec(sentences: seq<Sentence>)
    ensures var r := ExtractAll(sentences);
      && (r.Ok? <==> forall k :: 0 <= k < |sentences| ==> ExtractData(sentences[k]).Ok?)
      && (r.Ok? ==> (|r.value| == |sentences|
        && forall k :: 0 <= k < |sentences| ==> r.value[k] == ExtractData(sentences[k]).value))
      && (r.Err? ==> exists f :: (0 <= f < |sentences| && ExtractData(sentences[f]).Err?
        && (forall k :: 0 <= k < f ==> ExtractData(sentences[k]).Ok?)
        && r.error == ExtractData(sentences[f]).error))
  {
    if |sentences| > 0 {
      var tail := sentences[1..];
      ExtractAllSpec(tail);
      assert forall k :: 1 <= k < |sentences| ==> sentences[k] == tail[k - 1];
      if ExtractData(sentences[0]).Ok? && ExtractAll(tail).Err? {
        var f :| 0 <= f < |tail| && ExtractData(tail[f]).Err?
          && (forall k :: 0 <= k < f ==> ExtractData(tail[k]).Ok?)
          && ExtractAll(tail).error == ExtractData(tail[f]).error;
        assert sentences[f + 1] == tail[f];
        assert forall k :: 1 <= k < f + 1 ==> ExtractData(sentences[k]).Ok?;
      }
    }
  }

  /** Three words, the last a question mark: the space before it goes. */
  lemma ConcatenateExample(words: seq<Word>, dialect: string)
    requires words == [Word(Some("Kapah")), Word(Some("kisu")), Word(Some("?"))]
    requires dialect == "Kapah kisu?"
    ensures ConcatenateAbValue(words) == Ok(dialect)
  {
    var abs := ["Kapah", "kisu", "?"];
    assert CollectAb(words).value == abs;
    var joined := "Kapah kisu ?";
    assert Join(abs) == joined;
    ExampleTail(joined);
    ExampleMiddle(joined);
    ExampleHead(joined, dialect);
  }

  // The substitution on "Kapah kisu ?", from the back: the space at 10 goes.
  lemma ExampleTail(joined: string)
    requires joined == "Kapah kisu ?"
    ensures SubFrom(joined, 10) == "?"
  {
    assert SubFrom(joined, 11) == "?";
  }

  lemma ExampleMiddle(joined: string)
    requires joined == "Kapah kisu ?" && SubFrom(joined, 10) == "?"
    ensures SubFrom(joined, 5) == " kisu?"
  {
    assert SubFrom(joined, 9) == "u?";
    assert SubFrom(joined, 8) == "su?";
    assert SubFrom(joined, 7) == "isu?";
    assert SubFrom(joined, 6) == "kisu?";
  }

  lemma ExampleHead(joined: string, dialect: string)
    requires joined == "Kapah kisu ?" && SubFrom(joined, 5) == " kisu?"
    requires dialect == "Kapah kisu?"
    ensures SubFrom(joined, 0) == dialect
  {
    assert SubFrom(joined, 4) == "h kisu?";
    assert SubFrom(joined, 3) == "ah kisu?";
    assert SubFrom(joined, 2) == "pah kisu?";
    assert SubFrom(joined, 1) == "apah kisu?";
  }

  /** A one-sentence lesson titled "A" / "B": the title "A B" and a single record. */
  lemma CleanExample(p: Payload, words: seq<Word>)
    requires words == [Word(Some("Kapah")), Word(Some("kisu")), Word(Some("?"))]
    requires p == Payload(Some("A"), Some("B"), Some([Sentence(Some("1"), Some("你好"), Some(words))]))
    ensures CleanData(p) == Ok(Cleaned("A B", p.sentence.value))
    ensures ExtractAll(p.sentence.value) == Ok([Record("1", "Kapah kisu?", "你好")])
  {
    assert "A" + " " + "B" == "A B";
    ConcatenateExample(words, "Kapah kisu?");
    var sentences := p.sentence.value;
    assert ExtractData(sentences[0]) == Ok(Record("1", "Kapah kisu?", "你好"));
    ExtractAllSpec(sentences);
    assert |sentences| == 1;
    assert ExtractAll(sentences).value == [ExtractData(sentences[0]).value];
  }
}
