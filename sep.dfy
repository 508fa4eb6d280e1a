/**
 * The earlier converter of scripts/json_conversion/json_conversion_sep.py:
 * characters and plays only, no trimming, only empty cells become null, play
 * lists split at ',' alone, no play id converted, no play row dropped, and the
 * result wrapped under "data" in a template built afresh on every call.
 */
module ConversionSep {
  import opened Wrappers
  import opened Json
  import opened Text
  import opened Conversion
  import opened ConversionFields

  /** `None if not v else v`: only the empty cell becomes null. */
  function SepCell(v: string): Value {
    if v == "" then Null else Str(v)
  }

  function SepNormaliseAll(data: seq<Row>): seq<Record> {
    seq(|data|, i requires 0 <= i < |data| =>
      seq(|data[i]|, j requires 0 <= j < |data[i]| => (data[i][j].0, SepCell(data[i][j].1))))
  }

  /** `v.replace(" ", "").split(",")` under authorId and nbScenes. */
  function SepSplitList(k: string, v: Value): Value {
    if k in PlayLists && v != Null then
      match v
      case Str(s) => List(Strs(Split(Remove(s, ' '), {','})))
      case _ => v
    else v
  }

  /** The character passes, shared with utils/json_conversion_merged.py. */
  function SepCharacters(data: seq<Row>): Result<seq<Record>> {
    var s1 := SepNormaliseAll(data);
    var s2 := EachRecord(s1, ZeroToFalse);
    var s3 := EachRecord(s2, OneToTrue);
    TryEachRecord(s3, CharacterIdToInt)
  }

  /** The play passes: none of them can raise. */
  function SepPlays(data: seq<Row>): seq<Record> {
    EachRecord(EachRecord(SepNormaliseAll(data), SepSplitList), QuestionToUnknown)
  }

  /** `{"data": {key: [...]}}`. */
  function DataContainer(key: string, records: seq<Record>): Value {
    Obj([("data", Container(key, records))])
  }

  /**
   * convert_to_json of the earlier script. `Ok(None)` is the None it returns
   * for a type other than char_data and play_data; an exception of the id pass
   * is `Err`.
   */
  method ConvertToJson(data: seq<Row>, dataType: string) returns (result: Result<Option<Value>>)
    ensures dataType == "char_data" ==>
      (SepCharacters(data).Err? ==> result == Err(SepCharacters(data).error)) &&
      (SepCharacters(data).Ok? ==> result == Ok(Some(DataContainer("characters", SepCharacters(data).value))))
    ensures dataType == "play_data" ==> result == Ok(Some(DataContainer("plays", SepPlays(data))))
    ensures dataType != "char_data" && dataType != "play_data" ==> result == Ok(None)
  {
    if dataType == "char_data" {
      var converted := SepCharacters(data);
      if converted.Err? {
        return Err(converted.error);
      }
      var rows := converted.value;
      var characters: seq<Record> := [];
      for i := 0 to |rows|
        invariant characters == rows[..i]
      {
        characters := characters + [rows[i]];
      }
      assert characters == rows;
      return Ok(Some(DataContainer("characters", characters)));
    }
    if dataType == "play_data" {
      var rows := SepPlays(data);
      var plays: seq<Record> := [];
      for i := 0 to |rows|
        invariant plays == rows[..i]
      {
        plays := plays + [rows[i]];
      }
      assert plays == rows;
      return Ok(Some(DataContainer("plays", plays)));
    }
    return Ok(None);
  }

  // ---------------------------------------------------------------------------
  // Rule tables
  // ---------------------------------------------------------------------------

  function SepCharacterField(k: string, cell: string): Result<Value> {
    if cell == "" then Ok(Null)
    else if k in BoolKeys && cell == "0.0" then Ok(Bool(false))
    else if k in BoolKeys && cell == "1.0" then Ok(Bool(true))
    else if k in CharacterIds then IntOf(cell)
    else Ok(Str(cell))
  }

  /** The tokens of a play list cell: spaces removed, split at ','. */
  function SepTokens(cell: string): seq<string> {
    Split(Remove(cell, ' '), {','})
  }

  function SepPlayField(k: string, cell: string): Result<Value> {
    if cell == "" then Ok(Null)
    else if k in PlayLists then Ok(List(Strs(SepTokens(cell))))
    else if cell == "?" then Ok(Str("unknown"))
    else Ok(Str(cell))
  }

  function SepCellRule(k: string, cell: string): Result<Value> {
    Ok(SepCell(cell))
  }

  function SepZeroStage(k: string, cell: string): Result<Value> {
    Ok(ZeroToFalse(k, SepCell(cell)))
  }

  function SepSplitStage(k: string, cell: string): Result<Value> {
    Ok(SepSplitList(k, SepCell(cell)))
  }

  function SepBoolStage(k: string, cell: string): Result<Value> {
    Ok(OneToTrue(k, ZeroToFalse(k, SepCell(cell))))
  }

  lemma SepNormaliseByFields(data: seq<Row>)
    ensures ByFields(data, SepNormaliseAll(data), SepCellRule)
  {
    var s1 := SepNormaliseAll(data);
    forall i | 0 <= i < |data| ensures RowOk(data[i], SepCellRule) && s1[i] == FieldRecord(data[i], SepCellRule) {
    }
  }

  /** The staged character passes compute the table, one record per row, in order. */
  lemma SepCharactersByField(data: seq<Row>)
    ensures SepCharacters(data).Ok? <==> FieldsOk(data, SepCharacterField)
    ensures SepCharacters(data).Ok? ==> ByFields(data, SepCharacters(data).value, SepCharacterField)
    ensures SepCharacters(data).Err? ==> SomeFieldRaises(data, SepCharacterField, SepCharacters(data).error)
  {
    forall k, v ensures SepBoolStage(k, v).Ok? ==> CharacterIdToInt(k, SepBoolStage(k, v).value) == SepCharacterField(k, v) {
      if v != "" && k in CharacterIds {
        assert k !in BoolKeys;
      }
    }
    SepNormaliseByFields(data);
    var s1 := SepNormaliseAll(data);
    var s2 := EachRecord(s1, ZeroToFalse);
    EachRecordByFields(data, s1, ZeroToFalse, SepCellRule, SepZeroStage);
    EachRecordByFields(data, s2, OneToTrue, SepZeroStage, SepBoolStage);
    PassAfterFields(data, EachRecord(s2, OneToTrue), CharacterIdToInt, SepBoolStage, SepCharacterField);
  }

  /** The staged play passes compute the table: every row kept, one record per row, in order. */
  lemma SepPlaysByField(data: seq<Row>)
    ensures FieldsOk(data, SepPlayField)
    ensures ByFields(data, SepPlays(data), SepPlayField)
  {
    var s1 := SepNormaliseAll(data);
    SepNormaliseByFields(data);
    EachRecordByFields(data, s1, SepSplitList, SepCellRule, SepSplitStage);
    EachRecordByFields(data, EachRecord(s1, SepSplitList), QuestionToUnknown,
      SepSplitStage, SepPlayField);
  }

  // ---------------------------------------------------------------------------
  // Properties of the tables
  // ---------------------------------------------------------------------------

  /** On a cell with no surrounding whitespace the two converters agree, except for the professionalGroup fix. */
  lemma SepAgreesOnTrimmedCells(k: string, v: string)
    requires v != "" && Trimmed(v)
    requires k != "professionalGroup"
    ensures SepCharacterField(k, v) == CharacterField(k, v)
  {
    StripTrimmed(v);
    assert !IsBlank(v) by { assert !IsSpace(v[0]); }
  }

  /** Whitespace is kept as it is: a blank but non-empty cell stays text. */
  lemma SepKeepsWhitespace(k: string, v: string)
    requires v != "" && IsBlank(v)
    requires k !in CharacterIds
    ensures SepCharacterField(k, v) == Ok(Str(v))
    ensures CharacterField(k, v) == Ok(Null)
  {
    assert IsSpace(v[0]);
  }

  /**
   * A play list cell is cut at its commas only: the tokens hold no ',' and,
   * joined back with ',', give the cell with its spaces removed.
   */
  lemma SepTokensRoundTrip(cell: string)
    ensures Join(SepTokens(cell), ",") == Remove(cell, ' ')
    ensures forall p :: p in SepTokens(cell) ==> ',' !in p
    ensures |SepTokens(cell)| == CountIn(Remove(cell, ' '), {','}) + 1
  {
    JoinSplit(Remove(cell, ' '), ',');
    SplitPieces(Remove(cell, ' '), {','});
  }
}
