/**
 * The request selector (`URLDialector`): turns each enumerated URL back into
 * a request descriptor and picks one descriptor, one level's descriptors or
 * all of them, according to the optional level and class filters.
 */
module UrlDialector {
  import opened Wrappers
  import opened Exceptions
  import opened Decimal
  import opened UrlScan
  import opened UrlCreator
  import Dialects

  /** A Python value passed as `level_id` or `class_id`: nothing, an `int` or a `str`. */
  datatype Arg = Absent | IntArg(i: int) | StrArg(s: string)

  /** `str(arg)`. */
  function PyStr(a: Arg): string {
    match a
    case Absent => "None"
    case IntArg(i) => IntToString(i)
    case StrArg(s) => s
  }

  /** A `URLDialector`: the dialect name and the two optional filters. */
  datatype Dialector = Dialector(dialectCh: string, levelId: Arg, classId: Arg)

  /** `URLDialectorInfo`, the request descriptor. */
  datatype RequestInfo = RequestInfo(dialectName: string, levelId: string, classId: string, url: string)

  /** What `generate` returns: a list of descriptors, or a single descriptor that may be `None`. */
  datatype Selection = Many(infos: seq<RequestInfo>) | One(info: Option<RequestInfo>)

  /** The descriptor of one lesson, with the ids as the decimal strings written in its URL. */
  function Descriptor(name: string, dialectId: int, l: int, c: int): RequestInfo {
    RequestInfo(name, IntToString(l), IntToString(c), LessonUrl(dialectId, l, c))
  }

  /** All 90 descriptors of a dialect, level varying fastest. */
  function AllDescriptors(name: string, dialectId: int): (r: seq<RequestInfo>)
    ensures |r| == 90
  {
    seq(90, i => Descriptor(name, dialectId, i % 9 + 1, i / 9 + 1))
  }

  /** Position `i` holds level `i % 9 + 1` of class `i / 9 + 1`. */
  lemma AllDescriptorsAt(name: string, dialectId: int, i: int)
    requires 0 <= i < 90
    ensures AllDescriptors(name, dialectId)[i] == Descriptor(name, dialectId, i % 9 + 1, i / 9 + 1)
  {
  }

  /** `create_list_of_urls`. */
  function CreateListOfUrls(d: Dialector): (r: Result<seq<string>, PyError>)
    ensures r.Err? <==> Dialects.Lookup(d.dialectCh).Err?
    ensures r.Err? ==> r.error == KeyError(d.dialectCh)
    ensures r.Ok? ==> |r.value| == 90
    ensures r.Ok? ==> forall i :: 0 <= i < 90 ==>
      r.value[i] == LessonUrl(Dialects.Lookup(d.dialectCh).value, i % 9 + 1, i / 9 + 1)
  {
    match NewCreator(d.dialectCh)
    case Err(e) => Err(e)
    case Ok(c) => CreateLayoutAll(c); Ok(Create(c))
  }

  /** `generate_request_info`: read the level and class back out of `url`; IndexError when a parameter is missing. */
  function GenerateRequestInfo(dialectCh: string, url: string): (r: Result<RequestInfo, PyError>)
    ensures r.Err? <==> FirstDigitsAfter(url, "&l=").None? || FirstDigitsAfter(url, "&c=").None?
    ensures r.Ok? ==> (Some(r.value.levelId) == FirstDigitsAfter(url, "&l=")
      && Some(r.value.classId) == FirstDigitsAfter(url, "&c="))
    ensures r.Ok? ==> r.value.dialectName == dialectCh && r.value.url == url
    ensures r.Ok? ==> AllDigits(r.value.levelId) && AllDigits(r.value.classId)
    ensures r.Err? ==> r.error == IndexError
  {
    match FirstDigitsAfter(url, "&l=")
    case None => Err(IndexError)
    case Some(levelId) =>
      match FirstDigitsAfter(url, "&c=")
      case None => Err(IndexError)
      case Some(classId) => Ok(RequestInfo(dialectCh, levelId, classId, url))
  }

  /** `list(map(self.generate_request_info, urls))`: the first failure propagates. */
  function GenerateRequestInfos(dialectCh: string, urls: seq<string>): (r: Result<seq<RequestInfo>, PyError>)
    ensures r.Ok? <==> forall k :: 0 <= k < |urls| ==> GenerateRequestInfo(dialectCh, urls[k]).Ok?
    ensures r.Ok? ==> |r.value| == |urls|
    ensures r.Ok? ==> forall k :: 0 <= k < |urls| ==> GenerateRequestInfo(dialectCh, urls[k]) == Ok(r.value[k])
  {
    if |urls| == 0 then Ok([])
    else
      match GenerateRequestInfo(dialectCh, urls[0])
      case Err(e) => Err(e)
      case Ok(info) =>
        match GenerateRequestInfos(dialectCh, urls[1..])
        case Err(e) => Err(e)
        case Ok(rest) => Ok([info] + rest)
  }

  /** `find_particular_level`: the descriptors whose level id reads `str(levelId)`, in order. */
  function FindParticularLevel(infos: seq<RequestInfo>, levelId: int): seq<RequestInfo> {
    if |infos| == 0 then []
    else
      (if infos[0].levelId == IntToString(levelId) then [infos[0]] else [])
        + FindParticularLevel(infos[1..], levelId)
  }

  /** The filter keeps exactly the entries of the input whose level id reads `str(levelId)`, and no more entries than the input has. */
  lemma {:induction false} FindParticularLevelMembers(infos: seq<RequestInfo>, levelId: int)
    ensures forall x :: x in FindParticularLevel(infos, levelId) <==> x in infos && x.levelId == IntToString(levelId)
    ensures |FindParticularLevel(infos, levelId)| <= |infos|
  {
    if |infos| > 0 {
      FindParticularLevelMembers(infos[1..], levelId);
      assert infos == [infos[0]] + infos[1..];
    }
  }

  predicate MatchesLevelAndClass(info: RequestInfo, levelId: int, classId: Arg) {
    info.levelId == IntToString(levelId) && info.classId == PyStr(classId)
  }

  /** `find_particular_level_and_class`: the loop returns the first descriptor matching both ids, or falls off the end with `None`. */
  function FindParticularLevelAndClass(infos: seq<RequestInfo>, levelId: int, classId: Arg): Option<RequestInfo> {
    if |infos| == 0 then None
    else if MatchesLevelAndClass(infos[0], levelId, classId) then Some(infos[0])
    else FindParticularLevelAndClass(infos[1..], levelId, classId)
  }

  /** The search yields `None` exactly when no entry matches both ids. */
  lemma {:induction false} FindParticularLevelAndClassNone(infos: seq<RequestInfo>, levelId: int, classId: Arg)
    ensures FindParticularLevelAndClass(infos, levelId, classId).None?
      <==> forall k :: 0 <= k < |infos| ==> !MatchesLevelAndClass(infos[k], levelId, classId)
  {
    if |infos| > 0 {
      var tail := infos[1..];
      FindParticularLevelAndClassNone(tail, levelId, classId);
      assert forall k :: 1 <= k < |infos| ==> infos[k] == tail[k - 1];
    }
  }

  /** A found entry is the one at the first position matching both ids. */
  lemma {:induction false} FindParticularLevelAndClassFirst(infos: seq<RequestInfo>, levelId: int, classId: Arg)
    ensures var r := FindParticularLevelAndClass(infos, levelId, classId);
      r.Some? ==> exists k :: (0 <= k < |infos| && infos[k] == r.value
        && MatchesLevelAndClass(infos[k], levelId, classId)
        && forall j :: 0 <= j < k ==> !MatchesLevelAndClass(infos[j], levelId, classId))
  {
    if |infos| > 0 && !MatchesLevelAndClass(infos[0], levelId, classId) {
      var tail := infos[1..];
      var r := FindParticularLevelAndClass(tail, levelId, classId);
      if r.Some? {
        FindParticularLevelAndClassFirst(tail, levelId, classId);
        var k :| 0 <= k < |tail| && tail[k] == r.value
          && MatchesLevelAndClass(tail[k], levelId, classId)
          && forall j :: 0 <= j < k ==> !MatchesLevelAndClass(tail[j], levelId, classId);
        assert infos[k + 1] == r.value;
        forall j | 0 <= j < k + 1
          ensures !MatchesLevelAndClass(infos[j], levelId, classId)
        {
          if j > 0 {
            assert infos[j] == tail[j - 1];
          }
        }
      }
    } else if |infos| > 0 {
      assert 0 <= 0 < |infos| && infos[0] == FindParticularLevelAndClass(infos, levelId, classId).value;
    }
  }

  /**
   * `generate`. The second test repeats `isinstance(self.level_id, int)` where
   * `class_id` was evidently meant, so any class value other than `None`
   * takes the level-and-class branch once the level is an `int`.
   */
  function Generate(d: Dialector): (r: Result<Selection, PyError>)
    ensures r.Err? <==> Dialects.Lookup(d.dialectCh).Err?
    ensures r.Err? ==> r.error == KeyError(d.dialectCh)
  {
    match CreateListOfUrls(d)
    case Err(e) => Err(e)
    case Ok(urls) =>
      ReadBackAll(d.dialectCh, Dialects.Lookup(d.dialectCh).value, urls);
      match GenerateRequestInfos(d.dialectCh, urls)
      case Err(e) => Err(e)
      case Ok(infos) =>
        if d.levelId.IntArg? && d.classId.Absent? then
          Ok(Many(FindParticularLevel(infos, d.levelId.i)))
        else if d.levelId.IntArg? && d.levelId.IntArg? then
          Ok(One(FindParticularLevelAndClass(infos, d.levelId.i, d.classId)))
        else
          Ok(Many(infos))
  }

  /** Neither the text in front of the dialect id nor a printed integer contains `&`. */
  lemma NoAmpersandBeforeLevel(dialectId: int)
    ensures '&' !in BaseUrl + "getTextNew.php?d=" + IntToString(dialectId)
  {
    var p, n := BaseUrl + "getTextNew.php?d=", IntToString(dialectId);
    assert '&' !in p;
    forall i | 0 <= i < |n|
      ensures n[i] != '&'
    {
      if i > 0 {
        assert n[i] == n[1..][i - 1];
      }
    }
  }

  /** Round trip: reading a lesson URL back yields the level and class it was built from. */
  lemma GenerateRequestInfoRoundTrip(name: string, dialectId: int, l: int, c: int)
    requires 0 <= l && 0 <= c
    ensures GenerateRequestInfo(name, LessonUrl(dialectId, l, c)) == Ok(Descriptor(name, dialectId, l, c))
  {
    var p := BaseUrl + "getTextNew.php?d=" + IntToString(dialectId);
    var dl, dc := IntToString(l), IntToString(c);
    var url := LessonUrl(dialectId, l, c);
    NoAmpersandBeforeLevel(dialectId);
    assert url == p + "&l=" + dl + ("&c=" + dc);
    FirstDigitsAfterMarker(p, "&l=", dl, "&c=" + dc);
    var w := p + "&l=" + dl;
    forall i | 0 <= i < |w|
      ensures w[i] == '&' ==> i + 1 < |w| && w[i + 1] != 'c'
    {
      if i < |p| {
        assert w[i] == p[i];
      } else if i > |p| + 2 {
        assert w[i] == dl[i - |p| - 3];
      }
    }
    assert url == w + "&c=" + dc + "";
    FirstDigitsAfterMarker(w, "&c=", dc, "");
  }

  /** Reading back the 90 enumerated URLs yields the 90 descriptors, in the same order. */
  lemma ReadBackAll(name: string, dialectId: int, urls: seq<string>)
    requires |urls| == 90
    requires forall i :: 0 <= i < 90 ==> urls[i] == LessonUrl(dialectId, i % 9 + 1, i / 9 + 1)
    ensures GenerateRequestInfos(name, urls) == Ok(AllDescriptors(name, dialectId))
  {
    var all := AllDescriptors(name, dialectId);
    forall k | 0 <= k < 90
      ensures GenerateRequestInfo(name, urls[k]) == Ok(all[k])
    {
      ReadBackOne(name, dialectId, urls[k], k);
    }
    var r := GenerateRequestInfos(name, urls);
    SameElements(r.value, all);
  }

  lemma ReadBackOne(name: string, dialectId: int, url: string, k: int)
    requires 0 <= k < 90 && url == LessonUrl(dialectId, k % 9 + 1, k / 9 + 1)
    ensures GenerateRequestInfo(name, url) == Ok(AllDescriptors(name, dialectId)[k])
  {
    var l, c := k % 9 + 1, k / 9 + 1;
    var d := Descriptor(name, dialectId, l, c);
    GenerateRequestInfoRoundTrip(name, dialectId, l, c);
    AllDescriptorsAt(name, dialectId, k);
  }

  /** Two sequences of the same length that agree everywhere are equal. */
  lemma SameElements<T>(a: seq<T>, b: seq<T>)
    requires |a| == |b| && forall k :: 0 <= k < |a| ==> a[k] == b[k]
    ensures a == b
  {
  }

  /** `create` has no duplicates: two positions holding the same URL are the same position. */
  lemma CreateNoDuplicates(c: Creator, i: int, j: int)
    requires 0 <= i < 90 && 0 <= j < 90
    ensures |Create(c)| == 90
    ensures Create(c)[i] == Create(c)[j] <==> i == j
  {
    CreateAt(c, i);
    CreateAt(c, j);
    var li, ci, lj, cj := i % 9 + 1, i / 9 + 1, j % 9 + 1, j / 9 + 1;
    if Create(c)[i] == Create(c)[j] {
      GenerateRequestInfoRoundTrip("", c.dialectId, li, ci);
      GenerateRequestInfoRoundTrip("", c.dialectId, lj, cj);
      IntToStringInjective(li, lj);
      IntToStringInjective(ci, cj);
      assert i == (ci - 1) * 9 + (li - 1) && j == (cj - 1) * 9 + (lj - 1);
    }
  }

  /** Filtering by level distributes over concatenation, so it keeps the input order. */
  lemma {:induction false} FindParticularLevelAppend(a: seq<RequestInfo>, b: seq<RequestInfo>, levelId: int)
    ensures FindParticularLevel(a + b, levelId) == FindParticularLevel(a, levelId) + FindParticularLevel(b, levelId)
  {
    if |a| > 0 {
      var ab := a + b;
      assert ab[0] == a[0];
      assert ab[1..] == a[1..] + b;
      FindParticularLevelAppend(a[1..], b, levelId);
      var x := if a[0].levelId == IntToString(levelId) then [a[0]] else [];
      AppendAssoc(x, FindParticularLevel(a[1..], levelId), FindParticularLevel(b, levelId));
    } else {
      assert a + b == b;
    }
  }

  lemma SliceSplit<T>(s: seq<T>, i: int, j: int)
    requires 0 <= i <= j <= |s|
    ensures s[..j] == s[..i] + s[i..j]
  {
  }

  lemma SliceAll<T>(s: seq<T>)
    ensures s[..|s|] == s
  {
  }

  lemma AppendAssoc<T>(x: seq<T>, y: seq<T>, z: seq<T>)
    ensures x + (y + z) == (x + y) + z
  {
  }

  /** Nothing is kept from a list in which no level id reads `str(levelId)`. */
  lemma {:induction false} FindParticularLevelNone(infos: seq<RequestInfo>, levelId: int)
    requires forall k :: 0 <= k < |infos| ==> infos[k].levelId != IntToString(levelId)
    ensures FindParticularLevel(infos, levelId) == []
  {
    if |infos| > 0 {
      FindParticularLevelNone(infos[1..], levelId);
    }
  }

  /** Exactly one entry is kept from a list in which exactly one level id reads `str(levelId)`. */
  lemma FindParticularLevelSingle(infos: seq<RequestInfo>, levelId: int, i: int)
    requires 0 <= i < |infos| && infos[i].levelId == IntToString(levelId)
    requires forall k :: 0 <= k < |infos| && k != i ==> infos[k].levelId != IntToString(levelId)
    ensures FindParticularLevel(infos, levelId) == [infos[i]]
  {
    var before, after := infos[..i], infos[i + 1..];
    assert infos == before + ([infos[i]] + after);
    FindParticularLevelAppend(before, [infos[i]] + after, levelId);
    FindParticularLevelAppend([infos[i]], after, levelId);
    FindParticularLevelNone(before, levelId);
    FindParticularLevelNone(after, levelId);
    assert [infos[i]][1..] == [];
  }

  /** The `m`-th block of nine descriptors holds the levels 1..9 of class `m + 1`. */
  lemma BlockOfClass(name: string, dialectId: int, m: int, k: int)
    requires 0 <= m < 10 && 0 <= k < 9
    ensures AllDescriptors(name, dialectId)[9 * m + k] == Descriptor(name, dialectId, k + 1, m + 1)
  {
    DivMod9(m, k);
    AllDescriptorsAt(name, dialectId, 9 * m + k);
  }

  lemma DivMod9(m: int, k: int)
    requires 0 <= m && 0 <= k < 9
    ensures (9 * m + k) % 9 == k && (9 * m + k) / 9 == m
  {
  }

  /** Filtering the block of class `m + 1` by level `n` leaves only the descriptor of that lesson. */
  lemma FindLevelInBlock(name: string, dialectId: int, n: int, m: int)
    requires 1 <= n <= 9 && 0 <= m < 10
    ensures FindParticularLevel(AllDescriptors(name, dialectId)[9 * m..9 * m + 9], n)
      == [Descriptor(name, dialectId, n, m + 1)]
  {
    var all := AllDescriptors(name, dialectId);
    var block := all[9 * m..9 * m + 9];
    forall k | 0 <= k < 9
      ensures block[k].levelId == IntToString(k + 1)
    {
      assert block[k] == all[9 * m + k];
      BlockOfClass(name, dialectId, m, k);
    }
    forall k | 0 <= k < 9 && k != n - 1
      ensures block[k].levelId != IntToString(n)
    {
      IntToStringInjective(k + 1, n);
    }
    FindParticularLevelSingle(block, n, n - 1);
    assert block[n - 1] == all[9 * m + (n - 1)];
    BlockOfClass(name, dialectId, m, n - 1);
  }

  /** Filtering the first `m` blocks by level `n` leaves level `n` of classes 1..m, in class order. */
  lemma {:induction false} FindLevelInBlocks(name: string, dialectId: int, n: int, m: int)
    requires 1 <= n <= 9 && 0 <= m <= 10
    ensures var r := FindParticularLevel(AllDescriptors(name, dialectId)[..9 * m], n);
      |r| == m && forall k :: 0 <= k < m ==> r[k] == Descriptor(name, dialectId, n, k + 1)
  {
    var all := AllDescriptors(name, dialectId);
    if m > 0 {
      FindLevelInBlocks(name, dialectId, n, m - 1);
      var front, block := all[..9 * (m - 1)], all[9 * (m - 1)..9 * m];
      SliceSplit(all, 9 * (m - 1), 9 * m);
      FindParticularLevelAppend(front, block, n);
      FindLevelInBlock(name, dialectId, n, m - 1);
      var head, last := FindParticularLevel(front, n), FindParticularLevel(block, n);
      var r := FindParticularLevel(all[..9 * m], n);
      assert r == head + last;
      forall k | 0 <= k < m
        ensures r[k] == Descriptor(name, dialectId, n, k + 1)
      {
        if k < m - 1 {
          assert r[k] == head[k];
        } else {
          assert r[k] == last[0];
        }
      }
    } else {
      assert all[..0] == [];
    }
  }

  /**
   * `find_particular_level` on all 90 descriptors: for a level in 1..9, the ten
   * descriptors of that level, classes 1..10 in order; for any other level, none.
   */
  lemma FindParticularLevelOnAll(name: string, dialectId: int, n: int)
    ensures FindParticularLevel(AllDescriptors(name, dialectId), n)
      == if 1 <= n <= 9 then seq(10, k => Descriptor(name, dialectId, n, k + 1)) else []
  {
    var all := AllDescriptors(name, dialectId);
    if 1 <= n <= 9 {
      FindLevelInBlocks(name, dialectId, n, 10);
      SliceAll(all);
      SameElements(FindParticularLevel(all, n), seq(10, k => Descriptor(name, dialectId, n, k + 1)));
    } else {
      forall k | 0 <= k < 90
        ensures all[k].levelId != IntToString(n)
      {
        AllDescriptorsAt(name, dialectId, k);
        IntToStringInjective(k % 9 + 1, n);
      }
      FindParticularLevelNone(all, n);
    }
  }

  /** Among all 90 descriptors, the one matching level `n` and class value `cls` is that of class `c`. */
  lemma MatchOnAll(name: string, dialectId: int, n: int, cls: Arg, k: int)
    requires 0 <= k < 90 && MatchesLevelAndClass(AllDescriptors(name, dialectId)[k], n, cls)
    ensures 1 <= n <= 9 && 1 <= k / 9 + 1 <= 10 && PyStr(cls) == IntToString(k / 9 + 1)
    ensures AllDescriptors(name, dialectId)[k] == Descriptor(name, dialectId, n, k / 9 + 1)
  {
    IntToStringInjective(k % 9 + 1, n);
  }

  /**
   * `find_particular_level_and_class` on all 90 descriptors, for a level in 1..9 and a
   * class value that prints as a class in 1..10: the one descriptor of that lesson.
   */
  lemma FindParticularLevelAndClassOnAll(name: string, dialectId: int, n: int, cls: Arg, c: int)
    requires 1 <= n <= 9 && 1 <= c <= 10 && PyStr(cls) == IntToString(c)
    ensures FindParticularLevelAndClass(AllDescriptors(name, dialectId), n, cls)
      == Some(Descriptor(name, dialectId, n, c))
  {
    var all := AllDescriptors(name, dialectId);
    BlockOfClass(name, dialectId, c - 1, n - 1);
    assert MatchesLevelAndClass(all[9 * (c - 1) + (n - 1)], n, cls);
    FindParticularLevelAndClassNone(all, n, cls);
    FindParticularLevelAndClassFirst(all, n, cls);
    var r := FindParticularLevelAndClass(all, n, cls);
    var k :| 0 <= k < 90 && all[k] == r.value && MatchesLevelAndClass(all[k], n, cls);
    MatchOnAll(name, dialectId, n, cls, k);
    IntToStringInjective(k / 9 + 1, c);
  }

  /** For a level outside 1..9, or a class value printing as no class in 1..10, nothing matches. */
  lemma FindParticularLevelAndClassMissing(name: string, dialectId: int, n: int, cls: Arg)
    requires !(1 <= n <= 9) || forall c :: 1 <= c <= 10 ==> PyStr(cls) != IntToString(c)
    ensures FindParticularLevelAndClass(AllDescriptors(name, dialectId), n, cls) == None
  {
    var all := AllDescriptors(name, dialectId);
    forall k | 0 <= k < 90
      ensures !MatchesLevelAndClass(all[k], n, cls)
    {
      if MatchesLevelAndClass(all[k], n, cls) {
        MatchOnAll(name, dialectId, n, cls, k);
      }
    }
    FindParticularLevelAndClassNone(all, n, cls);
  }

  /** For a known dialect, `generate` reads back all 90 descriptors before it selects among them. */
  lemma GenerateReadsAll(d: Dialector, dialectId: int)
    requires (d.dialectCh, dialectId) in Dialects.Table
    ensures Dialects.Lookup(d.dialectCh) == Ok(dialectId)
    ensures CreateListOfUrls(d).Ok?
    ensures GenerateRequestInfos(d.dialectCh, CreateListOfUrls(d).value) == Ok(AllDescriptors(d.dialectCh, dialectId))
  {
    Dialects.LookupCorrect(d.dialectCh, dialectId);
    ReadBackAll(d.dialectCh, dialectId, CreateListOfUrls(d).value);
  }

  /** An `int` level without a class selects that level's ten lessons, or none for a level outside 1..9. */
  lemma GenerateLevelOnly(d: Dialector, dialectId: int, n: int)
    requires (d.dialectCh, dialectId) in Dialects.Table
    requires d.levelId == IntArg(n) && d.classId == Absent
    ensures Generate(d) == Ok(Many(if 1 <= n <= 9 then seq(10, k => Descriptor(d.dialectCh, dialectId, n, k + 1)) else []))
  {
    GenerateReadsAll(d, dialectId);
    FindParticularLevelOnAll(d.dialectCh, dialectId, n);
  }

  /**
   * An `int` level with any class value other than `None` selects the single lesson
   * whose class prints like that value; an `int` and a `str` such as "3" both work.
   */
  lemma GenerateLevelAndClass(d: Dialector, dialectId: int, n: int, c: int)
    requires (d.dialectCh, dialectId) in Dialects.Table
    requires d.levelId == IntArg(n) && !d.classId.Absent?
    requires 1 <= n <= 9 && 1 <= c <= 10 && PyStr(d.classId) == IntToString(c)
    ensures Generate(d) == Ok(One(Some(Descriptor(d.dialectCh, dialectId, n, c))))
  {
    GenerateReadsAll(d, dialectId);
    FindParticularLevelAndClassOnAll(d.dialectCh, dialectId, n, d.classId, c);
  }

  /** Without a matching lesson the level-and-class branch returns `None` rather than failing. */
  lemma GenerateLevelAndClassMissing(d: Dialector, dialectId: int, n: int)
    requires (d.dialectCh, dialectId) in Dialects.Table
    requires d.levelId == IntArg(n) && !d.classId.Absent?
    requires !(1 <= n <= 9) || forall c :: 1 <= c <= 10 ==> PyStr(d.classId) != IntToString(c)
    ensures Generate(d) == Ok(One(None))
  {
    GenerateReadsAll(d, dialectId);
    FindParticularLevelAndClassMissing(d.dialectCh, dialectId, n, d.classId);
  }

  /** A level that is not an `int`, a `str` one included, selects all 90 descriptors whatever the class. */
  lemma GenerateWithoutIntLevel(d: Dialector, dialectId: int)
    requires (d.dialectCh, dialectId) in Dialects.Table
    requires !d.levelId.IntArg?
    ensures Generate(d) == Ok(Many(AllDescriptors(d.dialectCh, dialectId)))
  {
    GenerateReadsAll(d, dialectId);
  }

  /** The dialect of the docstring examples has id 14. */
  lemma ExampleDialect()
    ensures NewCreator("霧台魯凱語") == Ok(Creator("霧台魯凱語", 14))
  {
    assert Dialects.Table[11] == ("霧台魯凱語", 14);
    assert ("霧台魯凱語", 14) in Dialects.Table;
    Dialects.LookupCorrect("霧台魯凱語", 14);
  }

  // The class-1 URL of a level of dialect 14, spelled out.
  lemma ExampleUrl(l: int, digit: string, url: string)
    requires 1 <= l <= 9 && digit == [DigitChar(l)]
    requires url == "http://web.klokah.tw/ninew/php/getTextNew.php?d=14&l=" + digit + "&c=1"
    ensures LessonUrl(14, l, 1) == url
  {
    assert IntToString(14) == "14" && IntToString(1) == "1";
    assert BaseUrl + "getTextNew.php?d=" + "14" == "http://web.klokah.tw/ninew/php/getTextNew.php?d=14";
  }

  /** The second URL of the `create` docstring, for the dialect of id 14. */
  lemma CreateExample(c: Creator, url: string)
    requires c.dialectId == 14
    requires url == "http://web.klokah.tw/ninew/php/getTextNew.php?d=14&l=2&c=1"
    ensures |Create(c)| == 90 && Create(c)[1] == url
  {
    CreateLayout(c, 2, 1);
    ExampleUrl(2, "2", url);
  }

  /** The `generate_request_info` docstring example. */
  lemma GenerateRequestInfoExample(name: string, url: string)
    requires url == "http://web.klokah.tw/ninew/php/getTextNew.php?d=14&l=1&c=1"
    ensures GenerateRequestInfo(name, url) == Ok(RequestInfo(name, "1", "1", url))
  {
    ExampleUrl(1, "1", url);
    GenerateRequestInfoRoundTrip(name, 14, 1, 1);
  }
}
