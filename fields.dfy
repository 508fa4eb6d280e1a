/**
 * The conversion rules of scripts/json_conversion/json_conversion.py restated
 * field by field. Each XField function says what one CSV cell under one column
 * becomes in one go; the XByField lemmas prove that the staged, list-wide
 * passes of Conversion compute exactly these tables, with the same rows in the
 * same order, and that every exception they raise is the exception of a field.
 */
module ConversionFields {
  import opened Wrappers
  import opened Json
  import opened Text
  import opened Conversion
  import Seqs

  // ---------------------------------------------------------------------------
  // Rule tables
  // ---------------------------------------------------------------------------

  /** int(float(t)) as a JSON value. */
  function IntOf(t: string): Result<Value> {
    var n :- FloatToInt(t);
    Ok(Int(n))
  }

  /** int(float(t)) on every token, the first failing token raising. */
  function IntsOf(parts: seq<string>): Result<seq<Value>> {
    if |parts| == 0 then Ok([])
    else
      var first :- IntOf(parts[0]);
      var rest :- IntsOf(parts[1..]);
      Ok([first] + rest)
  }

  function CharacterField(k: string, cell: string): Result<Value> {
    if IsBlank(cell) then Ok(Null)
    else
      var t := Strip(cell);
      if k in BoolKeys && t == "0.0" then Ok(Bool(false))
      else if k in BoolKeys && t == "1.0" then Ok(Bool(true))
      else if k in CharacterIds then IntOf(t)
      else if k == "professionalGroup" && t == "government executive officials" then Ok(Str("government officials"))
      else Ok(Str(t))
  }

  /** The tokens of a play authorId or nbScenes cell: spaces removed, split at both ',' and '.'. */
  function PlayTokens(t: string): seq<string> {
    Split(Remove(t, ' '), {',', '.'})
  }

  function PlayField(k: string, cell: string): Result<Value> {
    if IsBlank(cell) then Ok(Null)
    else
      var t := Strip(cell);
      if k == "authorId" then
        var ids :- IntsOf(PlayTokens(t));
        Ok(List(ids))
      else if k == "nbScenes" then Ok(List(Strs(PlayTokens(t))))
      else if k == "workId" then IntOf(if t == "?" then "unknown" else t)
      else if t == "?" then Ok(Str("unknown"))
      else Ok(Str(t))
  }

  function LocationField(k: string, cell: string): Result<Value> {
    if IsBlank(cell) then Ok(Null)
    else if k in LocationIds then IntOf(Strip(cell))
    else Ok(Str(Strip(cell)))
  }

  /** Author cells are not stripped, and a blank sex becomes "U". */
  function AuthorField(k: string, cell: string): Result<Value> {
    if IsBlank(cell) then Ok(if k == "sex" then Str("U") else Null)
    else if k in AuthorIds then IntOf(cell)
    else Ok(Str(cell))
  }

  /** The tokens of a setting placeId cell: spaces removed, '.' read as ',', split at ','. */
  function PlaceTokens(t: string): seq<string> {
    Split(Replace(Remove(t, ' '), '.', ','), {','})
  }

  /** A setting field before coord is moved to OSMLatLon. */
  function SettingField(k: string, cell: string): Result<Value> {
    if IsBlank(cell) then Ok(Null)
    else
      var t := Strip(cell);
      if k in SettingIds then IntOf(t)
      else if k == "placeId" then
        var ids :- IntsOf(PlaceTokens(t));
        Ok(List(ids))
      else if k == "coord" && t == "#N/A" then Ok(Null)
      else Ok(Str(t))
  }

  function PublisherField(k: string, cell: string): Result<Value> {
    if IsBlank(cell) then Ok(Null)
    else if k in PublisherIds then IntOf(Strip(cell))
    else Ok(Str(Strip(cell)))
  }

  // ---------------------------------------------------------------------------
  // Rows converted field by field
  // ---------------------------------------------------------------------------

  predicate RowOk(row: Row, rule: (string, string) -> Result<Value>) {
    forall j :: 0 <= j < |row| ==> rule(row[j].0, row[j].1).Ok?
  }

  /** The record a rule table makes of a row: the same keys in the same order. */
  function FieldRecord(row: Row, rule: (string, string) -> Result<Value>): (r: Record)
    requires RowOk(row, rule)
    ensures Keys(r) == RowKeys(row)
  {
    seq(|row|, j requires 0 <= j < |row| => (row[j].0, rule(row[j].0, row[j].1).value))
  }

  ghost predicate FieldsOk(data: seq<Row>, rule: (string, string) -> Result<Value>) {
    forall i :: 0 <= i < |data| ==> RowOk(data[i], rule)
  }

  /** `out` holds, one for one and in order, the records the rule table makes of `data`. */
  ghost predicate ByFields(data: seq<Row>, out: seq<Record>, rule: (string, string) -> Result<Value>) {
    FieldsOk(data, rule) && |out| == |data| &&
    forall i :: 0 <= i < |data| ==> out[i] == FieldRecord(data[i], rule)
  }

  ghost predicate SomeFieldRaises(data: seq<Row>, rule: (string, string) -> Result<Value>, e: Error) {
    exists i, j :: 0 <= i < |data| && 0 <= j < |data[i]| && rule(data[i][j].0, data[i][j].1) == Err(e)
  }

  /** The rows a play conversion keeps: those whose lang cell is not blank. */
  predicate HasLang(row: Row) {
    RowGet(row, "lang").Some? && !IsBlank(RowGet(row, "lang").value)
  }

  // ---------------------------------------------------------------------------
  // The staged passes compute the tables
  // ---------------------------------------------------------------------------

  /** Blank normalisation: a blank cell becomes null; any other becomes text, stripped unless `trim` is off. */
  lemma CellSpec(v: string, trim: bool)
    ensures Cell(v, trim) == Null <==> IsBlank(v)
    ensures trim && !IsBlank(v) ==> Cell(v, true) == Str(Strip(v)) && Strip(v) != [] && Trimmed(Strip(v))
    ensures !trim && !IsBlank(v) ==> Cell(v, false) == Str(v)
  {
    StripEmptyIffBlank(v);
    StripCharacterisation(v);
  }

  lemma {:induction false} IntsOfItems(parts: seq<string>)
    ensures ItemsToInt(true, Strs(parts)) == IntsOf(parts)
  {
    if |parts| > 0 {
      IntsOfItems(parts[1..]);
      assert Strs(parts)[1..] == Strs(parts[1..]);
    }
  }

  lemma {:induction false} ItemsUnconverted(items: seq<Value>)
    ensures ItemsToInt(false, items) == Ok(items)
  {
    if |items| > 0 {
      ItemsUnconverted(items[1..]);
      assert items == [items[0]] + items[1..];
    }
  }

  /** One character cell through the staged passes: the id pass ends where the table does. */
  lemma CharacterStages(k: string, v: string)
    ensures match CharacterIdToInt(k, OneToTrue(k, ZeroToFalse(k, Cell(v, true))))
            case Ok(x) => CharacterField(k, v) == Ok(FixProfession(k, x))
            case Err(e) => CharacterField(k, v) == Err(e)
  {
    CellSpec(v, true);
    var c := OneToTrue(k, ZeroToFalse(k, Cell(v, true)));
    if !IsBlank(v) && k in CharacterIds {
      assert k !in BoolKeys;
      assert c == Str(Strip(v));
      assert CharacterIdToInt(k, c) == IntOf(Strip(v));
    }
  }

  lemma CharactersByField(data: seq<Row>)
    ensures ConvertCharacters(data).Ok? <==> FieldsOk(data, CharacterField)
    ensures ConvertCharacters(data).Ok? ==> ByFields(data, ConvertCharacters(data).value, CharacterField)
    ensures ConvertCharacters(data).Err? ==> SomeFieldRaises(data, CharacterField, ConvertCharacters(data).error)
  {
    var s3: seq<Record> := EachRecord(EachRecord(NormaliseAll(data, true), ZeroToFalse), OneToTrue);
    forall i: int, j: int | 0 <= i < |data| && 0 <= j < |data[i]|
      ensures s3[i][j].0 == data[i][j].0
      ensures match CharacterIdToInt(s3[i][j].0, s3[i][j].1)
              case Ok(x) => CharacterField(data[i][j].0, data[i][j].1) == Ok(FixProfession(data[i][j].0, x))
              case Err(e) => CharacterField(data[i][j].0, data[i][j].1) == Err(e)
    {
      var (k, v) := data[i][j];
      CharacterStages(k, v);
      assert s3[i][j] == (k, OneToTrue(k, ZeroToFalse(k, Cell(v, true))));
    }
    TryEachRecordSpec(s3, CharacterIdToInt);
    if ConvertCharacters(data).Ok? {
      var out := ConvertCharacters(data).value;
      forall i | 0 <= i < |data| ensures out[i] == FieldRecord(data[i], CharacterField) {
      }
    }
  }

  lemma LocationsByField(data: seq<Row>)
    ensures ConvertLocations(data).Ok? <==> FieldsOk(data, LocationField)
    ensures ConvertLocations(data).Ok? ==> ByFields(data, ConvertLocations(data).value, LocationField)
    ensures ConvertLocations(data).Err? ==> SomeFieldRaises(data, LocationField, ConvertLocations(data).error)
  {
    var s1: seq<Record> := NormaliseAll(data, true);
    forall i: int, j: int | 0 <= i < |data| && 0 <= j < |data[i]|
      ensures LocationIdToInt(s1[i][j].0, s1[i][j].1) == LocationField(data[i][j].0, data[i][j].1)
    {
      CellSpec(data[i][j].1, true);
    }
    TryEachRecordSpec(s1, LocationIdToInt);
  }

  lemma AuthorsByField(data: seq<Row>)
    ensures ConvertAuthors(data).Ok? <==> FieldsOk(data, AuthorField)
    ensures ConvertAuthors(data).Ok? ==> ByFields(data, ConvertAuthors(data).value, AuthorField)
    ensures ConvertAuthors(data).Err? ==> SomeFieldRaises(data, AuthorField, ConvertAuthors(data).error)
  {
    var s1: seq<Record> := NormaliseAll(data, false);
    forall i: int, j: int | 0 <= i < |data| && 0 <= j < |data[i]|
      ensures match AuthorIdToInt(s1[i][j].0, s1[i][j].1)
              case Ok(x) => AuthorField(data[i][j].0, data[i][j].1) == Ok(DefaultSex(data[i][j].0, x))
              case Err(e) => AuthorField(data[i][j].0, data[i][j].1) == Err(e)
    {
      CellSpec(data[i][j].1, false);
    }
    TryEachRecordSpec(s1, AuthorIdToInt);
    if ConvertAuthors(data).Ok? {
      var out := ConvertAuthors(data).value;
      forall i | 0 <= i < |data| ensures out[i] == FieldRecord(data[i], AuthorField) {
      }
    }
  }

  lemma PublishersByField(data: seq<Row>)
    ensures ConvertPublishers(data).Ok? <==> FieldsOk(data, PublisherField)
    ensures ConvertPublishers(data).Ok? ==> ByFields(data, ConvertPublishers(data).value, PublisherField)
    ensures ConvertPublishers(data).Err? ==> SomeFieldRaises(data, PublisherField, ConvertPublishers(data).error)
  {
    var s1: seq<Record> := NormaliseAll(data, true);
    forall i: int, j: int | 0 <= i < |data| && 0 <= j < |data[i]|
      ensures PublisherIdToInt(s1[i][j].0, s1[i][j].1) == PublisherField(data[i][j].0, data[i][j].1)
    {
      CellSpec(data[i][j].1, true);
    }
    TryEachRecordSpec(s1, PublisherIdToInt);
  }

  /** The value of column `k` after normalisation is the normalised cell of that column. */
  lemma {:induction false} GetNormaliseRow(row: Row, k: string, trim: bool)
    ensures Get(NormaliseRow(row, trim), k) ==
      match RowGet(row, k) case None => None case Some(c) => Some(Cell(c, trim))
  {
    if |row| > 0 && row[0].0 != k {
      GetNormaliseRow(row[1..], k, trim);
      assert NormaliseRow(row, trim)[1..] == NormaliseRow(row[1..], trim);
    }
  }

  lemma NormaliseAllConcat(a: seq<Row>, b: seq<Row>, trim: bool)
    ensures NormaliseAll(a + b, trim) == NormaliseAll(a, trim) + NormaliseAll(b, trim)
  {
  }

  /**
   * Dropping plays with no lang: a row without a lang column raises KeyError;
   * otherwise exactly the rows with a non-blank lang are kept, in order.
   */
  lemma {:induction false} KeepWithLangSpec(data: seq<Row>)
    ensures (exists i :: 0 <= i < |data| && RowGet(data[i], "lang").None?) ==>
      KeepWithLang(NormaliseAll(data, true)) == Err(KeyError("lang"))
    ensures (forall i :: 0 <= i < |data| ==> RowGet(data[i], "lang").Some?) ==>
      KeepWithLang(NormaliseAll(data, true)) == Ok(NormaliseAll(Seqs.Filter(data, HasLang), true))
  {
    if |data| > 0 {
      var n := NormaliseAll(data, true);
      var tail := data[1..];
      assert n[1..] == NormaliseAll(tail, true);
      GetNormaliseRow(data[0], "lang", true);
      KeepWithLangSpec(tail);
      match RowGet(data[0], "lang")
      case None =>
      case Some(c) =>
        CellSpec(c, true);
        if exists i :: 0 <= i < |data| && RowGet(data[i], "lang").None? {
          var i :| 0 <= i < |data| && RowGet(data[i], "lang").None?;
          assert RowGet(tail[i - 1], "lang").None?;
        } else {
          assert forall i :: 0 <= i < |tail| ==> RowGet(tail[i], "lang").Some? by {
            forall i | 0 <= i < |tail| ensures RowGet(tail[i], "lang").Some? {
              assert tail[i] == data[i + 1];
            }
          }
          var head := if HasLang(data[0]) then [data[0]] else [];
          assert Seqs.Filter(data, HasLang) == head + Seqs.Filter(tail, HasLang);
          NormaliseAllConcat(head, Seqs.Filter(tail, HasLang), true);
          assert Get(n[0], "lang") == Some(Cell(c, true));
          assert HasLang(data[0]) <==> Truthy(Cell(c, true));
          assert NormaliseAll(head, true) == if Truthy(Cell(c, true)) then [n[0]] else [];
        }
    }
  }


  // ---------------------------------------------------------------------------
  // Passes composed rule by rule
  // ---------------------------------------------------------------------------

  /** A non-raising pass over records made by `rule1` makes the records of `rule2`. */
  lemma EachRecordByFields(data: seq<Row>, rs: seq<Record>, m: (string, Value) -> Value,
                           rule1: (string, string) -> Result<Value>, rule2: (string, string) -> Result<Value>)
    requires ByFields(data, rs, rule1)
    requires forall k, v :: rule1(k, v).Ok? ==> rule2(k, v) == Ok(m(k, rule1(k, v).value))
    ensures ByFields(data, EachRecord(rs, m), rule2)
  {
    var out := EachRecord(rs, m);
    forall i | 0 <= i < |data| ensures RowOk(data[i], rule2) && out[i] == FieldRecord(data[i], rule2) {
      assert forall j :: 0 <= j < |data[i]| ==> rs[i][j] == (data[i][j].0, rule1(data[i][j].0, data[i][j].1).value);
    }
  }

  /** A raising pass over records made by `rule1` succeeds exactly when `rule2` accepts every field. */
  lemma PassAfterFields(data: seq<Row>, rs: seq<Record>, g: (string, Value) -> Result<Value>,
                        rule1: (string, string) -> Result<Value>, rule2: (string, string) -> Result<Value>)
    requires ByFields(data, rs, rule1)
    requires forall k, v :: rule1(k, v).Ok? ==> g(k, rule1(k, v).value) == rule2(k, v)
    ensures TryEachRecord(rs, g).Ok? <==> FieldsOk(data, rule2)
    ensures TryEachRecord(rs, g).Ok? ==> ByFields(data, TryEachRecord(rs, g).value, rule2)
    ensures TryEachRecord(rs, g).Err? ==> SomeFieldRaises(data, rule2, TryEachRecord(rs, g).error)
  {
    forall i, j | 0 <= i < |data| && 0 <= j < |data[i]|
      ensures rs[i][j] == (data[i][j].0, rule1(data[i][j].0, data[i][j].1).value)
    {
      assert rs[i] == FieldRecord(data[i], rule1);
    }
    TryEachRecordSpec(rs, g);
    if TryEachRecord(rs, g).Ok? {
      var out := TryEachRecord(rs, g).value;
      forall i | 0 <= i < |data| ensures out[i] == FieldRecord(data[i], rule2) {
      }
    }
  }

  /** A rule that raises wherever `rule1` raises, with the same exception, inherits its failing fields. */
  lemma RaisesCarry(data: seq<Row>, rule1: (string, string) -> Result<Value>,
                    rule2: (string, string) -> Result<Value>, e: Error)
    requires SomeFieldRaises(data, rule1, e)
    requires forall k, v :: rule1(k, v).Err? ==> rule2(k, v) == rule1(k, v)
    ensures SomeFieldRaises(data, rule2, e)
  {
    var i, j :| 0 <= i < |data| && 0 <= j < |data[i]| && rule1(data[i][j].0, data[i][j].1) == Err(e);
    assert rule2(data[i][j].0, data[i][j].1) == Err(e);
  }

  lemma FieldsOkCarry(data: seq<Row>, rule1: (string, string) -> Result<Value>, rule2: (string, string) -> Result<Value>)
    requires FieldsOk(data, rule2)
    requires forall k, v :: rule1(k, v).Err? ==> rule2(k, v) == rule1(k, v)
    ensures FieldsOk(data, rule1)
  {
    forall i, j | 0 <= i < |data| && 0 <= j < |data[i]| ensures rule1(data[i][j].0, data[i][j].1).Ok? {
      assert RowOk(data[i], rule2);
    }
  }

  // ---------------------------------------------------------------------------
  // Plays
  // ---------------------------------------------------------------------------

  /** A play field after normalisation, the list split and the "?" rule. */
  function PlayPre(k: string, v: string): Result<Value> {
    Ok(QuestionToUnknown(k, SplitPlayList(k, Cell(v, true))))
  }

  /** A play field after the workId pass as well. */
  function PlayStage(k: string, v: string): Result<Value> {
    PlayIdToInt(k, PlayPre(k, v).value)
  }

  /** The last play pass, on the authorId tokens, completes the table. */
  lemma PlayFieldStaged(k: string, v: string)
    ensures PlayStage(k, v).Err? ==> PlayField(k, v) == PlayStage(k, v)
    ensures PlayStage(k, v).Ok? ==> AuthorIdsToInt(k, PlayStage(k, v).value) == PlayField(k, v)
  {
    CellSpec(v, true);
    if !IsBlank(v) {
      if k == "authorId" {
        PlayStagedList(k, v);
        IntsOfItems(PlayTokens(Strip(v)));
      } else if k == "nbScenes" {
        PlayStagedList(k, v);
        ItemsUnconverted(Strs(PlayTokens(Strip(v))));
      } else {
        PlayStagedPlain(k, v);
      }
    }
  }

  lemma PlayStagedList(k: string, v: string)
    requires !IsBlank(v) && k in PlayLists
    ensures PlayStage(k, v) == Ok(List(Strs(PlayTokens(Strip(v)))))
  {
    CellSpec(v, true);
    assert k !in PlayIds;
  }

  lemma PlayStagedPlain(k: string, v: string)
    requires !IsBlank(v) && k !in PlayLists
    ensures k == "workId" ==> PlayStage(k, v) == IntOf(if Strip(v) == "?" then "unknown" else Strip(v))
    ensures k != "workId" ==> PlayStage(k, v) == Ok(Str(if Strip(v) == "?" then "unknown" else Strip(v)))
  {
    CellSpec(v, true);
  }


  lemma PlayPreByFields(kept: seq<Row>)
    ensures ByFields(kept, EachRecord(EachRecord(NormaliseAll(kept, true), SplitPlayList), QuestionToUnknown), PlayPre)
  {
    var s4 := EachRecord(EachRecord(NormaliseAll(kept, true), SplitPlayList), QuestionToUnknown);
    forall i | 0 <= i < |kept| ensures RowOk(kept[i], PlayPre) && s4[i] == FieldRecord(kept[i], PlayPre) {
    }
  }

  lemma PlaysByField(data: seq<Row>)
    ensures (exists i :: 0 <= i < |data| && RowGet(data[i], "lang").None?) ==>
      ConvertPlays(data) == Err(KeyError("lang"))
    ensures (forall i :: 0 <= i < |data| ==> RowGet(data[i], "lang").Some?) ==>
      var kept := Seqs.Filter(data, HasLang);
      (ConvertPlays(data).Ok? <==> FieldsOk(kept, PlayField)) &&
      (ConvertPlays(data).Ok? ==> ByFields(kept, ConvertPlays(data).value, PlayField)) &&
      (ConvertPlays(data).Err? ==> SomeFieldRaises(kept, PlayField, ConvertPlays(data).error))
  {
    KeepWithLangSpec(data);
    if forall i :: 0 <= i < |data| ==> RowGet(data[i], "lang").Some? {
      var kept := Seqs.Filter(data, HasLang);
      var s4 := EachRecord(EachRecord(NormaliseAll(kept, true), SplitPlayList), QuestionToUnknown);
      forall k, v ensures PlayStage(k, v).Ok? ==> PlayIdToInt(k, PlayPre(k, v).value) == PlayStage(k, v) {
      }
      forall k, v
        ensures PlayStage(k, v).Err? ==> PlayField(k, v) == PlayStage(k, v)
        ensures PlayStage(k, v).Ok? ==> AuthorIdsToInt(k, PlayStage(k, v).value) == PlayField(k, v)
      {
        PlayFieldStaged(k, v);
      }
      PlayPreByFields(kept);
      PassAfterFields(kept, s4, PlayIdToInt, PlayPre, PlayStage);
      var s5 := TryEachRecord(s4, PlayIdToInt);
      assert ConvertPlays(data) == if s5.Err? then Err(s5.error) else TryEachRecord(s5.value, AuthorIdsToInt);
      if s5.Ok? {
        PassAfterFields(kept, s5.value, AuthorIdsToInt, PlayStage, PlayField);
      } else {
        RaisesCarry(kept, PlayStage, PlayField, s5.error);
        if FieldsOk(kept, PlayField) {
          FieldsOkCarry(kept, PlayStage, PlayField);
        }
      }
    }
  }

  // ---------------------------------------------------------------------------
  // Settings
  // ---------------------------------------------------------------------------

  /**
   * The record-level setting step: OSMLatLon receives the coord value, or null
   * when there is none, coord is gone, and every other key reads as before.
   */
  function SettingRecord(fields: Record): (r: Record)
    ensures Get(r, "OSMLatLon") == Some(match Get(fields, "coord") case Some(c) => c case None => Null)
    ensures Get(r, "coord") == None && "coord" !in Keys(r)
    ensures forall k :: k != "coord" && k != "OSMLatLon" ==> Get(r, k) == Get(fields, k)
    ensures Keys(r) == Without(if "OSMLatLon" in Keys(fields) then Keys(fields) else Keys(fields) + ["OSMLatLon"], "coord")
  {
    var osm := match Get(fields, "coord") case Some(c) => c case None => Null;
    var moved := CoordToOSMLatLon(fields);
    GetPutAll(fields, "OSMLatLon", osm);
    GetPut(fields, "OSMLatLon", osm, "OSMLatLon");
    GetDelete(moved, "coord", "OSMLatLon");
    GetDeleteAll(moved, "coord");
    KeysDelete(moved, "coord");
    Delete(moved, "coord")
  }

  lemma GetPutAll(r: Record, k: string, v: Value)
    ensures Get(Put(r, k, v), k) == Some(v)
    ensures forall k' :: k' != k ==> Get(Put(r, k, v), k') == Get(r, k')
  {
    forall k' | k' != k ensures Get(Put(r, k, v), k') == Get(r, k') {
      GetPut(r, k, v, k');
    }
    GetPut(r, k, v, k);
  }

  lemma GetDeleteAll(r: Record, k: string)
    ensures Get(Delete(r, k), k) == None && k !in Keys(Delete(r, k))
    ensures forall k' :: k' != k ==> Get(Delete(r, k), k') == Get(r, k')
  {
    forall k' | k' != k ensures Get(Delete(r, k), k') == Get(r, k') {
      GetDelete(r, k, k');
    }
    GetDelete(r, k, k);
  }

  function SettingCell(k: string, v: string): Result<Value> {
    Ok(Cell(v, true))
  }

  /** A setting field after the id pass. */
  function SettingIdStage(k: string, v: string): Result<Value> {
    SettingIdToInt(k, Cell(v, true))
  }

  /** A setting field after the placeId split. */
  function SettingSplit(k: string, v: string): Result<Value> {
    var x :- SettingIdStage(k, v);
    Ok(SplitPlaceId(k, x))
  }

  /** A setting field after the placeId token pass. */
  function SettingTokens(k: string, v: string): Result<Value> {
    var x :- SettingSplit(k, v);
    PlaceIdsToInt(k, x)
  }

  /** The #N/A pass completes the table. */
  lemma SettingFieldStaged(k: string, v: string)
    ensures SettingTokens(k, v).Err? ==> SettingField(k, v) == SettingTokens(k, v)
    ensures SettingTokens(k, v).Ok? ==> SettingField(k, v) == Ok(NaToNull(k, SettingTokens(k, v).value))
  {
    CellSpec(v, true);
    if !IsBlank(v) {
      IntsOfItems(PlaceTokens(Strip(v)));
    }
  }

  /** Every stage of a setting cell agrees with the table: an exception is the table's, a value completes to it. */
  lemma SettingStagesCarry()
    ensures forall k, v :: SettingIdStage(k, v).Err? ==> SettingField(k, v) == SettingIdStage(k, v)
    ensures forall k, v :: SettingTokens(k, v).Err? ==> SettingField(k, v) == SettingTokens(k, v)
    ensures forall k, v :: SettingTokens(k, v).Ok? ==> SettingField(k, v) == Ok(NaToNull(k, SettingTokens(k, v).value))
  {
    forall k, v
      ensures SettingTokens(k, v).Err? ==> SettingField(k, v) == SettingTokens(k, v)
      ensures SettingTokens(k, v).Ok? ==> SettingField(k, v) == Ok(NaToNull(k, SettingTokens(k, v).value))
    {
      SettingFieldStaged(k, v);
    }
  }

  /** The placeId split and its token pass, after the id pass. */
  lemma SettingsAfterIds(data: seq<Row>, s2: seq<Record>)
    requires ByFields(data, s2, SettingIdStage)
    ensures var s4 := TryEachRecord(EachRecord(s2, SplitPlaceId), PlaceIdsToInt);
      (s4.Ok? <==> FieldsOk(data, SettingTokens)) &&
      (s4.Ok? ==> ByFields(data, s4.value, SettingTokens)) &&
      (s4.Err? ==> SomeFieldRaises(data, SettingTokens, s4.error))
  {
    EachRecordByFields(data, s2, SplitPlaceId, SettingIdStage, SettingSplit);
    PassAfterFields(data, EachRecord(s2, SplitPlaceId), PlaceIdsToInt, SettingSplit, SettingTokens);
  }

  /** The #N/A pass and the move of coord to OSMLatLon. */
  lemma SettingsFinal(data: seq<Row>, s4: seq<Record>)
    requires ByFields(data, s4, SettingTokens)
    ensures FieldsOk(data, SettingField)
    ensures var s5 := EachRecord(s4, NaToNull);
      var s6 := seq(|s5|, i requires 0 <= i < |s5| => CoordToOSMLatLon(s5[i]));
      var out := seq(|s6|, i requires 0 <= i < |s6| => Delete(s6[i], "coord"));
      |out| == |data| && forall i :: 0 <= i < |data| ==> out[i] == SettingRecord(FieldRecord(data[i], SettingField))
  {
    SettingStagesCarry();
    EachRecordByFields(data, s4, NaToNull, SettingTokens, SettingField);
  }

  lemma SettingsByField(data: seq<Row>)
    ensures ConvertSettings(data).Ok? <==> FieldsOk(data, SettingField)
    ensures ConvertSettings(data).Ok? ==>
      var out := ConvertSettings(data).value;
      |out| == |data| && forall i :: 0 <= i < |data| ==> out[i] == SettingRecord(FieldRecord(data[i], SettingField))
    ensures ConvertSettings(data).Err? ==> SomeFieldRaises(data, SettingField, ConvertSettings(data).error)
  {
    SettingStagesCarry();
    var s1 := NormaliseAll(data, true);
    assert ByFields(data, s1, SettingCell) by {
      forall i | 0 <= i < |data| ensures RowOk(data[i], SettingCell) && s1[i] == FieldRecord(data[i], SettingCell) {
      }
    }
    PassAfterFields(data, s1, SettingIdToInt, SettingCell, SettingIdStage);
    var s2 := TryEachRecord(s1, SettingIdToInt);
    if s2.Err? {
      RaisesCarry(data, SettingIdStage, SettingField, s2.error);
      if FieldsOk(data, SettingField) {
        FieldsOkCarry(data, SettingIdStage, SettingField);
      }
    } else {
      SettingsAfterIds(data, s2.value);
      var s4 := TryEachRecord(EachRecord(s2.value, SplitPlaceId), PlaceIdsToInt);
      if s4.Err? {
        RaisesCarry(data, SettingTokens, SettingField, s4.error);
        if FieldsOk(data, SettingField) {
          FieldsOkCarry(data, SettingTokens, SettingField);
        }
      } else {
        SettingsFinal(data, s4.value);
      }
    }
  }

  // ---------------------------------------------------------------------------
  // Properties of the tables
  // ---------------------------------------------------------------------------

  /** IntsOf succeeds exactly when every token is decimal text, converting each in place. */
  lemma {:induction false} IntsOfSpec(parts: seq<string>)
    ensures IntsOf(parts).Ok? <==> forall i :: 0 <= i < |parts| ==> FloatToInt(parts[i]).Ok?
    ensures IntsOf(parts).Ok? ==>
      |IntsOf(parts).value| == |parts| &&
      forall i :: 0 <= i < |parts| ==> IntsOf(parts).value[i] == Int(FloatToInt(parts[i]).value)
  {
    if |parts| > 0 {
      IntsOfSpec(parts[1..]);
      if IntOf(parts[0]).Ok? && IntsOf(parts[1..]).Ok? {
        forall i | 0 <= i < |parts| ensures IntsOf(parts).value[i] == Int(FloatToInt(parts[i]).value) {
          if i > 0 { assert parts[i] == parts[1..][i - 1]; }
        }
      } else if IntOf(parts[0]).Ok? {
        var i :| 0 <= i < |parts[1..]| && !FloatToInt(parts[1..][i]).Ok?;
        assert !FloatToInt(parts[i + 1]).Ok?;
      }
    }
  }

  /** Only cl and isGrp become Booleans, from exactly "0.0" and "1.0" once stripped. */
  lemma CharacterBooleans(k: string, v: string, b: bool)
    ensures CharacterField(k, v) == Ok(Bool(b)) <==>
      k in BoolKeys && !IsBlank(v) && Strip(v) == (if b then "1.0" else "0.0")
  {
  }

  /**
   * A non-blank play authorId becomes one integer per token, the tokens coming
   * from splitting at every ',' and '.', so there is one token more than
   * separators, and an empty token raises.
   */
  lemma PlayAuthorIds(v: string)
    requires !IsBlank(v)
    ensures var tokens := PlayTokens(Strip(v));
      (PlayField("authorId", v).Ok? <==> forall i :: 0 <= i < |tokens| ==> FloatToInt(tokens[i]).Ok?) &&
      |tokens| == CountIn(Remove(Strip(v), ' '), {',', '.'}) + 1 &&
      ("" in tokens ==> PlayField("authorId", v).Err?) &&
      (PlayField("authorId", v).Ok? ==>
        PlayField("authorId", v).value == List(seq(|tokens|, i requires 0 <= i < |tokens| => Int(FloatToInt(tokens[i]).value))))
  {
    var tokens := PlayTokens(Strip(v));
    PlayAuthorIdField(v);
    IntsOfSpec(tokens);
    SplitPieces(Remove(Strip(v), ' '), {',', '.'});
    if "" in tokens {
      var i :| 0 <= i < |tokens| && tokens[i] == "";
      assert FloatToInt("").Err?;
    }
  }

  lemma PlayAuthorIdField(v: string)
    requires !IsBlank(v)
    ensures var ids := IntsOf(PlayTokens(Strip(v)));
      PlayField("authorId", v) == if ids.Ok? then Ok(List(ids.value)) else Err(ids.error)
  {
  }

  /** The workId of a play may not be "?": it is read as "unknown", which is not a number. */
  lemma PlayUnknownWork()
    ensures PlayField("workId", "?") == Err(ValueError("unknown"))
  {
    assert Strip("?") == "?";
  }

  /** `"4.0,5.0"` under authorId gives four integers, the '.' splitting as a ',' does. */
  lemma PlayAuthorIdsWithDecimals()
    ensures PlayField("authorId", "4.0,5.0") == Ok(List([Int(4), Int(0), Int(5), Int(0)]))
  {
    var cell := "4.0,5.0";
    assert !IsBlank(cell) by { assert !IsSpace(cell[0]); }
    assert Strip(cell) == cell;
    TokensOfDecimals();
    IntsOfDecimals();
  }

  lemma IntsOfDecimals()
    ensures IntsOf(["4", "0", "5", "0"]) == Ok([Int(4), Int(0), Int(5), Int(0)])
  {
    var ds: seq<nat> := [4, 0, 5, 0];
    var parts := ["4", "0", "5", "0"];
    assert DigitChar(4) == '4' && DigitChar(0) == '0' && DigitChar(5) == '5';
    assert parts[0] == [DigitChar(ds[0])] && parts[1] == [DigitChar(ds[1])];
    assert parts[2] == [DigitChar(ds[2])] && parts[3] == [DigitChar(ds[3])];
    DigitsAsInts(parts, ds);
    assert seq(|ds|, i requires 0 <= i < |ds| => Int(ds[i])) == [Int(4), Int(0), Int(5), Int(0)];
  }

  lemma TokensOfDecimals()
    ensures PlayTokens("4.0,5.0") == ["4", "0", "5", "0"]
  {
    RemoveDeletesAll("4.0,5.0", ' ');
    assert Remove("4.0,5.0", ' ') == "4.0,5.0";
    SplitDecimals();
  }

  lemma SplitDecimals()
    ensures Split("4.0,5.0", {',', '.'}) == ["4", "0", "5", "0"]
  {
    SplitOnCommaOrPeriod("4.0,5.0");
    assert Replace("4.0,5.0", '.', ',') == "4,0,5,0";
    SplitDigitsAtCommas();
  }

  lemma SplitDigitsAtCommas()
    ensures Split("4,0,5,0", {','}) == ["4", "0", "5", "0"]
  {
    var parts := ["4", "0", "5", "0"];
    assert Join(parts[3..], ",") == "0";
    assert Join(parts[2..], ",") == "5,0";
    assert Join(parts[1..], ",") == "0,5,0";
    assert Join(parts, ",") == "4,0,5,0";
    SplitJoin(parts, ',');
  }

  /** Single-digit tokens convert to their digits. */
  lemma {:induction false} DigitsAsInts(parts: seq<string>, ds: seq<nat>)
    requires |parts| == |ds|
    requires forall i :: 0 <= i < |ds| ==> ds[i] < 10 && parts[i] == [DigitChar(ds[i])]
    ensures IntsOf(parts) == Ok(seq(|ds|, i requires 0 <= i < |ds| => Int(ds[i])))
  {
    if |parts| > 0 {
      DigitsAsInts(parts[1..], ds[1..]);
      FloatToIntReadsIntText(ds[0]);
      assert IntToText(ds[0]) == parts[0];
      assert IntOf(parts[0]) == Ok(Int(ds[0]));
      assert forall i :: 0 <= i < |ds[1..]| ==> ds[1..][i] == ds[i + 1];
      assert seq(|ds|, i requires 0 <= i < |ds| => Int(ds[i])) ==
        [Int(ds[0])] + seq(|ds[1..]|, i requires 0 <= i < |ds[1..]| => Int(ds[1..][i]));
    } else {
      assert |seq(|ds|, i requires 0 <= i < |ds| => Int(ds[i]))| == 0;
    }
  }

  /** `"9.0"` under a setting placeId gives the two ids 9 and 0. */
  lemma SettingPlaceIdWithDecimal()
    ensures SettingField("placeId", "9.0") == Ok(List([Int(9), Int(0)]))
  {
    var cell := "9.0";
    assert !IsBlank(cell) by { assert !IsSpace(cell[0]); }
    assert Strip(cell) == cell;
    PlaceTokensOfDecimal();
    DigitsAsInts(["9", "0"], [9, 0]);
    var ds: seq<nat> := [9, 0];
    assert seq(|ds|, i requires 0 <= i < |ds| => Int(ds[i])) == [Int(9), Int(0)];
  }

  lemma PlaceTokensOfDecimal()
    ensures PlaceTokens("9.0") == ["9", "0"]
  {
    RemoveDeletesAll("9.0", ' ');
    assert Remove("9.0", ' ') == "9.0";
    assert Replace("9.0", '.', ',') == "9,0";
    assert Join(["9", "0"], ",") == "9,0";
    SplitJoin(["9", "0"], ',');
  }

  /**
   * "?" is replaced only in plain play values: a plain value that strips to
   * "?" becomes "unknown", while an nbScenes list, split before the
   * replacement, keeps every token as it is, "?" tokens included.
   */
  lemma PlayQuestionInList(k: string, v: string)
    requires !IsBlank(v)
    ensures k != "authorId" && k != "nbScenes" && k != "workId" ==>
      PlayField(k, v) == Ok(Str(if Strip(v) == "?" then "unknown" else Strip(v)))
    ensures PlayField("nbScenes", v) == Ok(List(Strs(PlayTokens(Strip(v)))))
    ensures forall i :: 0 <= i < |PlayTokens(Strip(v))| && PlayTokens(Strip(v))[i] == "?" ==>
      PlayField("nbScenes", v).value.items[i] == Str("?")
  {
  }

  /** An empty or blank author sex becomes "U"; any other sex is kept as written. */
  lemma AuthorBlankSex(v: string)
    ensures IsBlank(v) ==> AuthorField("sex", v) == Ok(Str("U"))
    ensures !IsBlank(v) ==> AuthorField("sex", v) == Ok(Str(v))
  {
  }

  /** Author text is kept unstripped, surrounding whitespace included; a blank cell other than sex is null. */
  lemma AuthorTextUnstripped(k: string, v: string)
    requires k !in AuthorIds
    ensures !IsBlank(v) ==> AuthorField(k, v) == Ok(Str(v))
    ensures IsBlank(v) && k != "sex" ==> AuthorField(k, v) == Ok(Null)
  {
  }

  /**
   * A non-blank professionalGroup cell is stripped, and the one value
   * "government executive officials" becomes "government officials"; a
   * blank one is null.
   */
  lemma ProfessionalGroupRewrite(v: string)
    ensures !IsBlank(v) ==>
      CharacterField("professionalGroup", v) ==
        Ok(Str(if Strip(v) == "government executive officials" then "government officials" else Strip(v)))
    ensures IsBlank(v) ==> CharacterField("professionalGroup", v) == Ok(Null)
  {
  }

  /** An author id is read through int(float()), which ignores the surrounding spaces and drops the fraction. */
  lemma AuthorIdOfDecimal()
    ensures AuthorField("authorId", " 7.9 ") == Ok(Int(7))
  {
    assert !IsBlank(" 7.9 ") by { assert !IsSpace(" 7.9 "[1]); }
    assert LStrip(" 7.9 ") == "7.9 ";
    assert RStrip("7.9 ") == "7.9";
    assert Strip(" 7.9 ") == "7" + "." + "9";
    FloatToIntOfParts(" 7.9 ", false, "7", "9");
  }
}
