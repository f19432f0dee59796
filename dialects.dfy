/**
 * The dialect registry: the closed table of dialect names and the numeric
 * ids the remote lesson service uses for them, in declaration order.
 */
module Dialects {
  import opened Wrappers
  import opened Exceptions

  /** A member of the enum: its name and its value. */
  type Entry = (string, int)

  /** The members of `NineLevelDialect`, in declaration order. */
  const Table: seq<Entry> := [
    ("卡那卡那富語", 33),
    ("撒奇萊雅語", 38),
    ("雅美語", 29),
    ("南王卑南語", 3),
    ("知本卑南語", 2),
    ("西群卑南語", 1),
    ("建和卑南語", 4),
    ("鄒語", 32),
    ("噶瑪蘭語", 31),
    ("太魯閣語", 44),
    ("東魯凱語", 15),
    ("霧台魯凱語", 14),
    ("大武魯凱語", 41),
    ("多納魯凱語", 35),
    ("茂林魯凱語", 37),
    ("萬山魯凱語", 36),
    ("東排灣語", 11),
    ("北排灣語", 12),
    ("中排灣語", 13),
    ("南排灣語", 10),
    ("卓群布農語", 6),
    ("卡群布農語", 7),
    ("丹群布農語", 8),
    ("巒群布農語", 9),
    ("郡群布農語", 5),
    ("都達語", 22),
    ("德固達雅語", 20),
    ("德路固語", 21),
    ("邵語", 30),
    ("賽考利克泰雅語", 16),
    ("澤敖利泰雅語", 17),
    ("汶水泰雅語", 18),
    ("萬大泰雅語", 19),
    ("宜蘭澤敖利泰雅語", 42),
    ("四季泰雅語", 43),
    ("秀姑巒阿美語", 23),
    ("南勢阿美語", 24),
    ("海岸阿美語", 25),
    ("馬蘭阿美語", 26),
    ("恆春阿美語", 27),
    ("賽夏語", 28),
    ("拉阿魯哇語", 34)
  ]

  /** `get_info`: the member names, in declaration order. */
  function Names(): (names: seq<string>)
  {
    NamesOf(Table)
  }

  function NamesOf(t: seq<Entry>): (names: seq<string>)
    ensures |names| == |t|
    ensures forall k :: 0 <= k < |t| ==> names[k] == t[k].0
  {
    seq(|t|, k requires 0 <= k < |t| => t[k].0)
  }

  /** `get_info_dict`: each member name mapped to its value. */
  function InfoDict(): (m: map<string, int>)
  {
    DictOf(Table, |Table|)
  }

  /** The dictionary built from the first `n` entries of `t`, later entries written last. */
  function DictOf(t: seq<Entry>, n: nat): (m: map<string, int>)
    requires n <= |t|
  {
    if n == 0 then map[] else DictOf(t, n - 1)[t[n - 1].0 := t[n - 1].1]
  }

  /** The first entry of `t` carrying `name`, searching from position `k`. */
  function LookupFrom(t: seq<Entry>, name: string, k: nat): (r: Option<int>)
    requires k <= |t|
    ensures r.Some? <==> exists j :: k <= j < |t| && t[j].0 == name
    ensures r.Some? ==> exists j :: k <= j < |t| && t[j] == (name, r.value)
    decreases |t| - k
  {
    if k == |t| then None
    else if t[k].0 == name then Some(t[k].1)
    else LookupFrom(t, name, k + 1)
  }

  /** `NineLevelDialect[name].value`, which raises `KeyError(name)` for a name not in the table. */
  function Lookup(name: string): (r: Result<int, PyError>)
    ensures r.Err? ==> r.error == KeyError(name)
  {
    match LookupFrom(Table, name, 0)
    case Some(id) => Ok(id)
    case None => Err(KeyError(name))
  }

  ghost predicate UniqueNames(t: seq<Entry>) {
    forall j, k :: 0 <= j < k < |t| ==> t[j].0 != t[k].0
  }

  /** In a table without repeated names, the search finds exactly the entries of the table. */
  lemma LookupFromExact(t: seq<Entry>, name: string, id: int)
    requires UniqueNames(t)
    ensures LookupFrom(t, name, 0) == Some(id) <==> (name, id) in t
    ensures LookupFrom(t, name, 0).None? <==> forall k :: 0 <= k < |t| ==> t[k].0 != name
  {
    if (name, id) in t {
      var k :| 0 <= k < |t| && t[k] == (name, id);
      var r := LookupFrom(t, name, 0);
      assert r.Some?;
      var j :| 0 <= j < |t| && t[j] == (name, r.value);
      assert j == k;
    }
  }

  // Position of an id in the table, written out as a decision table so that
  // the verifier can check the table entry by entry.
  ghost function PositionOfId(id: int): int {
    match id
    case 33 => 0
    case 38 => 1
    case 29 => 2
    case 3 => 3
    case 2 => 4
    case 1 => 5
    case 4 => 6
    case 32 => 7
    case 31 => 8
    case 44 => 9
    case 15 => 10
    case 14 => 11
    case 41 => 12
    case 35 => 13
    case 37 => 14
    case 36 => 15
    case 11 => 16
    case 12 => 17
    case 13 => 18
    case 10 => 19
    case 6 => 20
    case 7 => 21
    case 8 => 22
    case 9 => 23
    case 5 => 24
    case 22 => 25
    case 20 => 26
    case 21 => 27
    case 30 => 28
    case 16 => 29
    case 17 => 30
    case 18 => 31
    case 19 => 32
    case 42 => 33
    case 43 => 34
    case 23 => 35
    case 24 => 36
    case 25 => 37
    case 26 => 38
    case 27 => 39
    case 28 => 40
    case 34 => 41
    case _ => -1
  }

  // Position of a name in the table, likewise.
  ghost function PositionOfName(name: string): int {
    match name
    case "卡那卡那富語" => 0
    case "撒奇萊雅語" => 1
    case "雅美語" => 2
    case "南王卑南語" => 3
    case "知本卑南語" => 4
    case "西群卑南語" => 5
    case "建和卑南語" => 6
    case "鄒語" => 7
    case "噶瑪蘭語" => 8
    case "太魯閣語" => 9
    case "東魯凱語" => 10
    case "霧台魯凱語" => 11
    case "大武魯凱語" => 12
    case "多納魯凱語" => 13
    case "茂林魯凱語" => 14
    case "萬山魯凱語" => 15
    case "東排灣語" => 16
    case "北排灣語" => 17
    case "中排灣語" => 18
    case "南排灣語" => 19
    case "卓群布農語" => 20
    case "卡群布農語" => 21
    case "丹群布農語" => 22
    case "巒群布農語" => 23
    case "郡群布農語" => 24
    case "都達語" => 25
    case "德固達雅語" => 26
    case "德路固語" => 27
    case "邵語" => 28
    case "賽考利克泰雅語" => 29
    case "澤敖利泰雅語" => 30
    case "汶水泰雅語" => 31
    case "萬大泰雅語" => 32
    case "宜蘭澤敖利泰雅語" => 33
    case "四季泰雅語" => 34
    case "秀姑巒阿美語" => 35
    case "南勢阿美語" => 36
    case "海岸阿美語" => 37
    case "馬蘭阿美語" => 38
    case "恆春阿美語" => 39
    case "賽夏語" => 40
    case "拉阿魯哇語" => 41
    case _ => -1
  }

  lemma IdPositionsLow()
    ensures forall k :: 0 <= k < 21 ==> PositionOfId(Table[k].1) == k
  {
  }

  lemma IdPositionsHigh()
    ensures forall k :: 21 <= k < 42 ==> PositionOfId(Table[k].1) == k
  {
  }

  lemma IdPositions()
    ensures forall k :: 0 <= k < |Table| ==> PositionOfId(Table[k].1) == k
  {
    IdPositionsLow();
    IdPositionsHigh();
  }

  lemma NamePositionsLow()
    ensures forall k :: 0 <= k < 21 ==> PositionOfName(Table[k].0) == k
  {
  }

  lemma NamePositionsHigh()
    ensures forall k :: 21 <= k < 42 ==> PositionOfName(Table[k].0) == k
  {
  }

  lemma NamePositions()
    ensures forall k :: 0 <= k < |Table| ==> PositionOfName(Table[k].0) == k
  {
    NamePositionsLow();
    NamePositionsHigh();
  }

  /** The table has 42 members with pairwise distinct names and pairwise distinct ids, all in 1..44. */
  lemma TableWellFormed()
    ensures |Table| == 42
    ensures UniqueNames(Table)
    ensures forall j, k :: 0 <= j < k < |Table| ==> Table[j].1 != Table[k].1
    ensures forall k :: 0 <= k < |Table| ==> 1 <= Table[k].1 <= 44
  {
    IdPositions();
    NamePositions();
  }

  /** A lookup succeeds exactly on the table's names and then returns that name's own id. */
  lemma LookupCorrect(name: string, id: int)
    ensures Lookup(name) == Ok(id) <==> (name, id) in Table
  {
    TableWellFormed();
    LookupFromExact(Table, name, id);
  }

  lemma LookupFails(name: string)
    ensures Lookup(name).Err? <==> name !in Names()
  {
    LookupFromMissing(Table, name);
  }

  lemma LookupFromMissing(t: seq<Entry>, name: string)
    ensures LookupFrom(t, name, 0).None? <==> name !in NamesOf(t)
  {
    var names := NamesOf(t);
    if name in names {
      var k :| 0 <= k < |names| && names[k] == name;
      assert t[k].0 == name;
    }
  }

  /** The dictionary's keys are exactly the names of the first `n` entries. */
  lemma {:induction false} DictOfKeys(t: seq<Entry>, n: nat)
    requires n <= |t|
    ensures DictOf(t, n).Keys == set k | 0 <= k < n :: t[k].0
  {
    if n > 0 {
      DictOfKeys(t, n - 1);
      assert (set k | 0 <= k < n :: t[k].0) == (set k | 0 <= k < n - 1 :: t[k].0) + {t[n - 1].0};
    }
  }

  /** Built from a table without repeated names, the dictionary maps each entry's name to that entry's id. */
  lemma {:induction false} DictOfValues(t: seq<Entry>, n: nat)
    requires n <= |t| && UniqueNames(t)
    ensures forall k :: 0 <= k < n ==> t[k].0 in DictOf(t, n) && DictOf(t, n)[t[k].0] == t[k].1
  {
    if n > 0 {
      DictOfValues(t, n - 1);
      forall k | 0 <= k < n
        ensures t[k].0 in DictOf(t, n) && DictOf(t, n)[t[k].0] == t[k].1
      {
        if k < n - 1 {
          assert t[k].0 != t[n - 1].0;
        }
      }
    }
  }

  lemma DictAgreesWithLookup(t: seq<Entry>, name: string)
    requires UniqueNames(t)
    ensures name in DictOf(t, |t|) <==> LookupFrom(t, name, 0).Some?
    ensures name in DictOf(t, |t|) ==> LookupFrom(t, name, 0) == Some(DictOf(t, |t|)[name])
  {
    DictOfKeys(t, |t|);
    DictOfValues(t, |t|);
    LookupFromMissing(t, name);
    if name in DictOf(t, |t|) {
      var k :| 0 <= k < |t| && t[k].0 == name;
      LookupFromExact(t, name, t[k].1);
      assert t[k] in t;
    }
  }

  /** `get_info_dict` has exactly the names of `get_info` as keys, and agrees with the lookup on each. */
  lemma InfoDictAgrees(name: string)
    ensures name in InfoDict() <==> name in Names()
    ensures name in InfoDict() ==> Lookup(name) == Ok(InfoDict()[name])
  {
    TableWellFormed();
    DictAgreesWithLookup(Table, name);
    LookupFails(name);
  }
}
