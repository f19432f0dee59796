/**
 * The URL enumerator (`URLCreator`): for one dialect, the lesson URLs of all
 * nine levels and ten classes, class in the outer loop and level in the inner.
 */
module UrlCreator {
  import opened Wrappers
  import opened Exceptions
  import opened Decimal
  import Dialects

  /** The directory of the lesson service; `urljoin` with a relative name is concatenation here. */
  const BaseUrl: string := "http://web.klokah.tw/ninew/php/"

  /** A `URLCreator` after `__post_init__`: the dialect name and the id looked up for it. */
  datatype Creator = Creator(dialectCh: string, dialectId: int)

  /** `URLCreator(dialect_ch)`, whose `__post_init__` raises KeyError for a name not in the table. */
  function NewCreator(dialectCh: string): (r: Result<Creator, PyError>)
    ensures r.Ok? <==> Dialects.Lookup(dialectCh).Ok?
    ensures r.Ok? ==> r.value == Creator(dialectCh, Dialects.Lookup(dialectCh).value)
    ensures r.Err? ==> r.error == KeyError(dialectCh)
  {
    match Dialects.Lookup(dialectCh)
    case Ok(id) => Ok(Creator(dialectCh, id))
    case Err(e) => Err(e)
  }

  /** `[*range(lo, hi)]`. */
  function Range(lo: int, hi: int): seq<int> {
    seq(if lo < hi then hi - lo else 0, k => lo + k)
  }

  /** The lesson URL for a dialect id, level and class, in the form the service expects. */
  function LessonUrl(dialectId: int, levelId: int, classId: int): string {
    BaseUrl + "getTextNew.php?d=" + IntToString(dialectId) + "&l=" + IntToString(levelId)
      + "&c=" + IntToString(classId)
  }

  /** `merge_with_level_ids`: the URL of one level, still without its class parameter. */
  function MergeWithLevelIds(c: Creator, levelId: int): string {
    BaseUrl + "getTextNew.php?d=" + IntToString(c.dialectId) + "&l=" + IntToString(levelId)
  }

  /** `f"{url}&c={id_value}"`. */
  function AppendClass(url: string, classId: int): string {
    url + "&c=" + IntToString(classId)
  }

  /** Every URL of `urls`, in order, with the class parameter `classId` appended. */
  function WithClass(urls: seq<string>, classId: int): (r: seq<string>)
    ensures |r| == |urls|
  {
    seq(|urls|, j requires 0 <= j < |urls| => AppendClass(urls[j], classId))
  }

  /** Where row `k` starts when every row holds `n` entries. */
  function RowStart(k: nat, n: nat): nat {
    if k == 0 then 0 else n + RowStart(k - 1, n)
  }

  /** Rows of `n` entries start at multiples of `n`. */
  lemma {:induction false} RowStartProduct(k: nat, n: nat)
    ensures RowStart(k, n) == k * n
  {
    if k > 0 {
      RowStartProduct(k - 1, n);
      assert k * n == n + (k - 1) * n;
    }
  }

  /** `merge_with_class_ids`: for each class id in turn, every level URL with that class appended. */
  function MergeWithClassIds(classIds: seq<int>, urls: seq<string>): seq<string> {
    if |classIds| == 0 then [] else WithClass(urls, classIds[0]) + MergeWithClassIds(classIds[1..], urls)
  }

  /** One URL for every pair of a class id and a level URL. */
  lemma {:induction false} MergeWithClassIdsLength(classIds: seq<int>, urls: seq<string>)
    ensures |MergeWithClassIds(classIds, urls)| == RowStart(|classIds|, |urls|)
  {
    if |classIds| > 0 {
      MergeWithClassIdsLength(classIds[1..], urls);
    }
  }

  /**
   * The `k`-th class id and the `j`-th URL meet in row `k`, column `j`: the
   * class ids drive the outer loop.
   */
  lemma {:induction false} MergeWithClassIdsAt(classIds: seq<int>, urls: seq<string>, k: nat, j: nat)
    requires k < |classIds| && j < |urls|
    ensures RowStart(k, |urls|) + j < |MergeWithClassIds(classIds, urls)|
    ensures MergeWithClassIds(classIds, urls)[RowStart(k, |urls|) + j] == WithClass(urls, classIds[k])[j]
  {
    MergeWithClassIdsLength(classIds, urls);
    var n := |urls|;
    var head, rest := WithClass(urls, classIds[0]), MergeWithClassIds(classIds[1..], urls);
    if k > 0 {
      MergeWithClassIdsAt(classIds[1..], urls, k - 1, j);
      assert classIds[1..][k - 1] == classIds[k];
      AppendRight(head, rest, RowStart(k - 1, n) + j);
    } else {
      AppendLeft(head, rest, j);
    }
  }

  lemma AppendLeft<T>(a: seq<T>, b: seq<T>, i: nat)
    requires i < |a|
    ensures (a + b)[i] == a[i]
  {
  }

  lemma AppendRight<T>(a: seq<T>, b: seq<T>, i: nat)
    requires i < |b|
    ensures |a| + i < |a + b| && (a + b)[|a| + i] == b[i]
  {
  }

  /** `map(self.merge_with_level_ids, list_of_level_ids)`. */
  function LevelUrls(c: Creator, levelIds: seq<int>): (r: seq<string>)
    ensures |r| == |levelIds|
  {
    seq(|levelIds|, k requires 0 <= k < |levelIds| => MergeWithLevelIds(c, levelIds[k]))
  }

  /** `create`: levels 1..9 and classes 1..10, class in the outer loop. */
  function Create(c: Creator): seq<string> {
    MergeWithClassIds(Range(1, 11), LevelUrls(c, Range(1, 10)))
  }

  /** `create` yields 90 URLs; level `l` of class `cl` sits at `(cl - 1) * 9 + (l - 1)`. */
  lemma CreateLayout(c: Creator, l: int, cl: int)
    requires 1 <= l <= 9 && 1 <= cl <= 10
    ensures |Create(c)| == 90
    ensures Create(c)[(cl - 1) * 9 + (l - 1)] == LessonUrl(c.dialectId, l, cl)
  {
    var levels, classes := LevelUrls(c, Range(1, 10)), Range(1, 11);
    assert |levels| == 9 && |classes| == 10;
    MergeWithClassIdsLength(classes, levels);
    MergeWithClassIdsAt(classes, levels, cl - 1, l - 1);
    RowStartProduct(cl - 1, 9);
    RowStartProduct(10, 9);
    assert classes[cl - 1] == cl;
    assert WithClass(levels, cl)[l - 1] == AppendClass(levels[l - 1], cl);
    assert levels[l - 1] == MergeWithLevelIds(c, l);
  }

  /** Position `i` of `create` holds the URL of level `i % 9 + 1` and class `i / 9 + 1`. */
  lemma CreateAt(c: Creator, i: int)
    requires 0 <= i < 90
    ensures |Create(c)| == 90
    ensures Create(c)[i] == LessonUrl(c.dialectId, i % 9 + 1, i / 9 + 1)
  {
    CreateLayout(c, i % 9 + 1, i / 9 + 1);
    assert (i / 9) * 9 + i % 9 == i;
  }

  /** The whole of `create`, position by position. */
  lemma CreateLayoutAll(c: Creator)
    ensures |Create(c)| == 90
    ensures forall i :: 0 <= i < 90 ==> Create(c)[i] == LessonUrl(c.dialectId, i % 9 + 1, i / 9 + 1)
  {
    CreateAt(c, 0);
    forall i | 0 <= i < 90
      ensures Create(c)[i] == LessonUrl(c.dialectId, i % 9 + 1, i / 9 + 1)
    {
      CreateAt(c, i);
    }
  }
}
