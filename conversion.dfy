/**
 * The CSV-to-JSON converter of scripts/json_conversion/json_conversion.py.
 *
 * Each rule is a whole-list pass, as in the source: every row goes through one
 * pass before any row goes through the next, so an exception comes from the
 * first failing row of the first failing pass. Beside each converter stands
 * its rule table field by field (CharacterField, PlayField, ...), and a lemma
 * proves that the staged passes compute exactly the table.
 */
module Conversion {
  import opened Wrappers
  import opened Json
  import opened Text
  import Seqs

  // ---------------------------------------------------------------------------
  // Single-field rules
  // ---------------------------------------------------------------------------

  /** `None if not v or v.isspace() else v.strip()`; the author pass keeps `v` unstripped. */
  function Cell(v: string, trim: bool): Value {
    if IsBlank(v) then Null else Str(if trim then Strip(v) else v)
  }

  /** Python truthiness of a JSON value. */
  predicate Truthy(v: Value) {
    match v
    case Null => false
    case Str(s) => s != ""
    case Bool(b) => b
    case Int(n) => n != 0
    case List(items) => items != []
    case Obj(fields) => fields != []
  }

  /** int(float(v)). float() of a Boolean is 0.0 or 1.0; of None, a list or a dict it raises TypeError. */
  function FloatInt(v: Value): Result<Value> {
    match v
    case Str(s) => var n :- FloatToInt(s); Ok(Int(n))
    case Int(n) => Ok(Int(n))
    case Bool(b) => Ok(Int(if b then 1 else 0))
    case _ => Err(TypeError("float() argument must be a string or a real number"))
  }

  const BoolKeys: set<string> := {"cl", "isGrp"}
  const CharacterIds: set<string> := {"workId", "characterId"}
  const PlayIds: set<string> := {"workId"}
  const PlayLists: set<string> := {"authorId", "nbScenes"}
  const LocationIds: set<string> := {"placeId"}
  const AuthorIds: set<string> := {"authorId"}
  const SettingIds: set<string> := {"workId", "actId", "sceneId"}
  const PublisherIds: set<string> := {"publisherId", "placeId"}

  /** `False if k in ["cl", "isGrp"] and v == "0.0" else v`. */
  function ZeroToFalse(k: string, v: Value): Value {
    if k in BoolKeys && v == Str("0.0") then Bool(false) else v
  }

  /** `True if k in ["cl", "isGrp"] and v == "1.0" else v`. */
  function OneToTrue(k: string, v: Value): Value {
    if k in BoolKeys && v == Str("1.0") then Bool(true) else v
  }

  /** `int(float(v)) if k in ids and v is not None else v`. */
  function IdToInt(ids: set<string>, k: string, v: Value): Result<Value> {
    if k in ids && v != Null then FloatInt(v) else Ok(v)
  }

  /** Character professionalGroup vocabulary fix. */
  function FixProfession(k: string, v: Value): Value {
    if k == "professionalGroup" && v == Str("government executive officials")
    then Str("government officials") else v
  }

  function Strs(parts: seq<string>): seq<Value> {
    seq(|parts|, i requires 0 <= i < |parts| => Str(parts[i]))
  }

  /**
   * Play `re.split("[,.]", v.replace(" ", ""))` for authorId and nbScenes.
   * The values reaching this pass are Null or text (the only results of Cell).
   */
  function SplitPlayList(k: string, v: Value): Value {
    if k in PlayLists && v != Null then
      match v
      case Str(s) => List(Strs(Split(Remove(s, ' '), {',', '.'})))
      case _ => v
    else v
  }

  /** Play `"unknown" if v == "?" else v`, on every key; a list is never equal to "?". */
  function QuestionToUnknown(k: string, v: Value): Value {
    if v == Str("?") then Str("unknown") else v
  }

  /**
   * `[int(float(id)) if convert and id is not None else id for id in items]`:
   * the first element that fails raises.
   */
  function ItemsToInt(convert: bool, items: seq<Value>): Result<seq<Value>> {
    if |items| == 0 then Ok([])
    else
      var first :- if convert && items[0] != Null then FloatInt(items[0]) else Ok(items[0]);
      var rest :- ItemsToInt(convert, items[1..]);
      Ok([first] + rest)
  }

  /**
   * `[int(float(id)) if k == listKey and id is not None else id for id in v] if isinstance(v, list) else v`:
   * the elements of every list value are rebuilt, and converted under `listKey` only.
   */
  function ListIdsToInt(listKey: string, k: string, v: Value): Result<Value> {
    match v
    case List(items) =>
      var converted :- ItemsToInt(k == listKey, items);
      Ok(List(converted))
    case _ => Ok(v)
  }

  /** Author `"U" if k in ["sex"] and v is None else v`. */
  function DefaultSex(k: string, v: Value): Value {
    if k == "sex" && v == Null then Str("U") else v
  }

  /**
   * Setting `v.replace(" ", "").replace(".", ",").split(",")` for placeId.
   * The values reaching this pass are Null, text, or an Int under an id key.
   */
  function SplitPlaceId(k: string, v: Value): Value {
    if k == "placeId" && v != Null then
      match v
      case Str(s) => List(Strs(Split(Replace(Remove(s, ' '), '.', ','), {','})))
      case _ => v
    else v
  }

  /** Setting `None if k == "coord" and v == "#N/A" else v`. */
  function NaToNull(k: string, v: Value): Value {
    if k == "coord" && v == Str("#N/A") then Null else v
  }

  /**
   * `{**d, "OSMLatLon": d.pop("coord")} if "coord" in d else {**d, "OSMLatLon": None}`:
   * OSMLatLon receives the coord value (None when there is no coord). The copy
   * still holds coord; the next pass deletes it.
   */
  function CoordToOSMLatLon(r: Record): Record {
    Put(r, "OSMLatLon", match Get(r, "coord") case Some(c) => c case None => Null)
  }

  // The id passes of the six branches, as named functions.
  function CharacterIdToInt(k: string, v: Value): Result<Value> { IdToInt(CharacterIds, k, v) }
  function PlayIdToInt(k: string, v: Value): Result<Value> { IdToInt(PlayIds, k, v) }
  function AuthorIdsToInt(k: string, v: Value): Result<Value> { ListIdsToInt("authorId", k, v) }
  function LocationIdToInt(k: string, v: Value): Result<Value> { IdToInt(LocationIds, k, v) }
  function AuthorIdToInt(k: string, v: Value): Result<Value> { IdToInt(AuthorIds, k, v) }
  function SettingIdToInt(k: string, v: Value): Result<Value> { IdToInt(SettingIds, k, v) }
  function PlaceIdsToInt(k: string, v: Value): Result<Value> { ListIdsToInt("placeId", k, v) }
  function PublisherIdToInt(k: string, v: Value): Result<Value> { IdToInt(PublisherIds, k, v) }

  // ---------------------------------------------------------------------------
  // Whole-list passes
  // ---------------------------------------------------------------------------

  function NormaliseRow(row: Row, trim: bool): Record {
    seq(|row|, j requires 0 <= j < |row| => (row[j].0, Cell(row[j].1, trim)))
  }

  function NormaliseAll(data: seq<Row>, trim: bool): seq<Record> {
    seq(|data|, i requires 0 <= i < |data| => NormaliseRow(data[i], trim))
  }

  /** `[{k: f(k, v) for k, v in dct.items()} for dct in rs]`. */
  function EachRecord(rs: seq<Record>, f: (string, Value) -> Value): seq<Record> {
    seq(|rs|, i requires 0 <= i < |rs| => MapFields(rs[i], f))
  }

  /** The same, when `f` can raise: the first failing row, and in it the first failing key, raises. */
  function TryEachRecord(rs: seq<Record>, f: (string, Value) -> Result<Value>): Result<seq<Record>> {
    TryMap(rs, (r: Record) => TryFields(r, f))
  }

  /**
   * A raising pass succeeds exactly when every field of every record succeeds;
   * it then rewrites each value in place, and otherwise raises the exception of
   * one of the fields.
   */
  lemma TryEachRecordSpec(rs: seq<Record>, f: (string, Value) -> Result<Value>)
    ensures TryEachRecord(rs, f).Ok? <==>
      forall i, j :: 0 <= i < |rs| && 0 <= j < |rs[i]| ==> f(rs[i][j].0, rs[i][j].1).Ok?
    ensures TryEachRecord(rs, f).Ok? ==>
      var out := TryEachRecord(rs, f).value;
      |out| == |rs| &&
      forall i :: 0 <= i < |rs| ==>
        (|out[i]| == |rs[i]| &&
         forall j :: 0 <= j < |rs[i]| ==> out[i][j] == (rs[i][j].0, f(rs[i][j].0, rs[i][j].1).value))
    ensures TryEachRecord(rs, f).Err? ==>
      exists i, j :: 0 <= i < |rs| && 0 <= j < |rs[i]| && f(rs[i][j].0, rs[i][j].1) == Err(TryEachRecord(rs, f).error)
  {
    var g := (r: Record) => TryFields(r, f);
    TryMapSpec(rs, g);
    forall i | 0 <= i < |rs| {
      TryFieldsSpec(rs[i], f);
    }
    if TryEachRecord(rs, f).Err? {
      TryMapFirstError(rs, g);
      var i :| 0 <= i < |rs| && g(rs[i]) == Err(TryMap(rs, g).error) && forall j :: 0 <= j < i ==> g(rs[j]).Ok?;
      TryFieldsFirstError(rs[i], f);
    }
  }

  /** `[dct for dct in play_data if dct["lang"]]`; a row with no lang column raises KeyError. */
  function KeepWithLang(rs: seq<Record>): Result<seq<Record>> {
    if |rs| == 0 then Ok([])
    else
      match Get(rs[0], "lang")
      case None => Err(KeyError("lang"))
      case Some(lang) =>
        var rest :- KeepWithLang(rs[1..]);
        Ok((if Truthy(lang) then [rs[0]] else []) + rest)
  }

  // ---------------------------------------------------------------------------
  // The six branches of convert_to_json
  // ---------------------------------------------------------------------------

  function ConvertCharacters(data: seq<Row>): Result<seq<Record>> {
    var s1 := NormaliseAll(data, true);
    var s2 := EachRecord(s1, ZeroToFalse);
    var s3 := EachRecord(s2, OneToTrue);
    var s4 :- TryEachRecord(s3, CharacterIdToInt);
    Ok(EachRecord(s4, FixProfession))
  }

  function ConvertPlays(data: seq<Row>): Result<seq<Record>> {
    var s1 := NormaliseAll(data, true);
    var s2 :- KeepWithLang(s1);
    var s3 := EachRecord(s2, SplitPlayList);
    var s4 := EachRecord(s3, QuestionToUnknown);
    var s5 :- TryEachRecord(s4, PlayIdToInt);
    TryEachRecord(s5, AuthorIdsToInt)
  }

  function ConvertLocations(data: seq<Row>): Result<seq<Record>> {
    TryEachRecord(NormaliseAll(data, true), LocationIdToInt)
  }

  function ConvertAuthors(data: seq<Row>): Result<seq<Record>> {
    var s1 := NormaliseAll(data, false);
    var s2 :- TryEachRecord(s1, AuthorIdToInt);
    Ok(EachRecord(s2, DefaultSex))
  }

  function ConvertSettings(data: seq<Row>): Result<seq<Record>> {
    var s1 := NormaliseAll(data, true);
    var s2 :- TryEachRecord(s1, SettingIdToInt);
    var s3 := EachRecord(s2, SplitPlaceId);
    var s4 :- TryEachRecord(s3, PlaceIdsToInt);
    var s5 := EachRecord(s4, NaToNull);
    var s6 := seq(|s5|, i requires 0 <= i < |s5| => CoordToOSMLatLon(s5[i]));
    Ok(seq(|s6|, i requires 0 <= i < |s6| => Delete(s6[i], "coord")))
  }

  function ConvertPublishers(data: seq<Row>): Result<seq<Record>> {
    TryEachRecord(NormaliseAll(data, true), PublisherIdToInt)
  }

  // ---------------------------------------------------------------------------
  // Data types, templates and dispatch
  // ---------------------------------------------------------------------------

  datatype DataType = CharData | PlayData | LocationData | AuthorData | SettingData | PublisherData

  /** The keys of TEMPLATE_MAP. */
  function TypeName(t: DataType): string {
    match t
    case CharData => "char_data"
    case PlayData => "play_data"
    case LocationData => "location_data"
    case AuthorData => "author_data"
    case SettingData => "setting_data"
    case PublisherData => "publisher_data"
  }

  /** The single key of each template. */
  function ContainerKey(t: DataType): string {
    match t
    case CharData => "characters"
    case PlayData => "plays"
    case LocationData => "locations"
    case AuthorData => "authors"
    case SettingData => "settings"
    case PublisherData => "publishers"
  }

  function ParseDataType(name: string): Option<DataType> {
    if name == "char_data" then Some(CharData)
    else if name == "play_data" then Some(PlayData)
    else if name == "location_data" then Some(LocationData)
    else if name == "author_data" then Some(AuthorData)
    else if name == "setting_data" then Some(SettingData)
    else if name == "publisher_data" then Some(PublisherData)
    else None
  }

  /** The guard run before any conversion: a name outside TEMPLATE_MAP raises ValueError. */
  function CheckDataType(name: string): Result<DataType> {
    match ParseDataType(name)
    case Some(t) => Ok(t)
    case None => Err(ValueError(
      "Data type must be one of ['char_data', 'play_data', 'location_data', 'author_data', 'setting_data', 'publisher_data']"))
  }

  /** The six names of TEMPLATE_MAP and the six data types correspond one to one. */
  lemma DataTypeNames(t: DataType, name: string)
    ensures ParseDataType(TypeName(t)) == Some(t)
    ensures ParseDataType(name) == Some(t) ==> TypeName(t) == name
    ensures CheckDataType(name).Ok? <==>
      name in {"char_data", "play_data", "location_data", "author_data", "setting_data", "publisher_data"}
    ensures CheckDataType(name).Ok? ==> CheckDataType(name).value == ParseDataType(name).value
  {
  }

  /** The branch of convert_to_json taken for each type, up to the appending loop. */
  function ConvertRows(t: DataType, data: seq<Row>): Result<seq<Record>> {
    match t
    case CharData => ConvertCharacters(data)
    case PlayData => ConvertPlays(data)
    case LocationData => ConvertLocations(data)
    case AuthorData => ConvertAuthors(data)
    case SettingData => ConvertSettings(data)
    case PublisherData => ConvertPublishers(data)
  }

  /**
   * The module-level TEMPLATE_MAP: one result list per data type. get_json_template
   * hands out these shared lists, so every conversion appends to what earlier
   * conversions of the same type left there.
   */
  class TemplateMap {
    var lists: map<DataType, seq<Record>>

    ghost predicate Valid()
      reads this
    {
      forall t: DataType :: t in lists
    }

    constructor ()
      ensures Valid()
      ensures forall t: DataType :: t in lists && lists[t] == []
    {
      lists := map[CharData := [], PlayData := [], LocationData := [], AuthorData := [],
                   SettingData := [], PublisherData := []];
      new;
      forall t: DataType ensures t in lists && lists[t] == [] {
        assert t.CharData? || t.PlayData? || t.LocationData? || t.AuthorData? || t.SettingData? || t.PublisherData?;
      }
    }

    /** get_json_template: the shared template of a known type, a fresh `{}` otherwise. */
    function GetJsonTemplate(templateType: string): Value
      reads this
      requires Valid()
    {
      match ParseDataType(templateType)
      case Some(t) => Container(ContainerKey(t), lists[t])
      case None => Obj([])
    }

    /**
     * convert_to_json: on success the converted rows are appended, in order, to
     * the shared list of the type and the filled template is returned; on an
     * exception nothing has been appended; an unknown type gives `{}`.
     */
    method ConvertToJson(data: seq<Row>, templateType: string) returns (result: Result<Value>)
      requires Valid()
      modifies this
      ensures Valid()
      ensures ParseDataType(templateType).None? ==> result == Ok(Obj([])) && lists == old(lists)
      ensures ParseDataType(templateType).Some? && ConvertRows(ParseDataType(templateType).value, data).Err? ==>
        result == Err(ConvertRows(ParseDataType(templateType).value, data).error) && lists == old(lists)
      ensures ParseDataType(templateType).Some? && ConvertRows(ParseDataType(templateType).value, data).Ok? ==>
        var t := ParseDataType(templateType).value;
        lists == old(lists)[t := old(lists)[t] + ConvertRows(t, data).value] &&
        result == Ok(Container(ContainerKey(t), lists[t]))
    {
      var parsed := ParseDataType(templateType);
      if parsed.None? {
        return Ok(Obj([]));
      }
      var t := parsed.value;
      var converted := ConvertRows(t, data);
      if converted.Err? {
        return Err(converted.error);
      }
      var rows := converted.value;
      var i := 0;
      assert old(lists)[t] + rows[..0] == old(lists)[t];
      assert old(lists)[t := old(lists)[t]] == old(lists);
      while i < |rows|
        invariant 0 <= i <= |rows|
        invariant Valid()
        invariant lists == old(lists)[t := old(lists)[t] + rows[..i]]
      {
        assert lists[t] == old(lists)[t] + rows[..i];
        lists := lists[t := lists[t] + [rows[i]]];
        assert rows[..i + 1] == rows[..i] + [rows[i]];
        assert old(lists)[t] + rows[..i] + [rows[i]] == old(lists)[t] + rows[..i + 1];
        i := i + 1;
      }
      assert rows[..i] == rows;
      result := Ok(GetJsonTemplate(templateType));
    }
  }
}
