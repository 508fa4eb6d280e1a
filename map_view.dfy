/**
 * The data logic of website/assets/js-plugins/map.ts: the null-coordinate
 * filter, the publisher join that adds playData to every location and
 * setting, the GeoJSON features built from them, the per-language type
 * counts and enabled flags of the mapFilters table, the "only one type
 * active" rule and the truncation rule of the popup list. The module globals
 * are the fields of MapState.
 */
module MapView {
  import opened Wrappers
  import opened Json
  import opened Text
  import opened Js
  import Seqs

  /** The languages of the mapFilters table. */
  datatype Lang = Fre | Ger | Als

  /** The two data layers of the map. */
  datatype MapType = Locations | Settings

  /** The keys of mapFilters and of each typeEnabled table, in the order `for ... in` visits them. */
  const Langs: seq<Lang> := [Fre, Ger, Als]
  const Types: seq<MapType> := [Locations, Settings]

  /** Every (language, type) entry of the table. */
  const AllKeys: set<(Lang, MapType)> :=
    {(Fre, Locations), (Fre, Settings), (Ger, Locations), (Ger, Settings), (Als, Locations), (Als, Settings)}

  /** The table as mapFilters declares it: every flag off, every count 0. */
  const AllOff: map<(Lang, MapType), bool> := map k | k in AllKeys :: false
  const AllZero: map<(Lang, MapType), int> := map k | k in AllKeys :: 0

  /** maxListItems. */
  const MaxListItems: nat := 8

  function LangName(l: Lang): string {
    match l
    case Fre => "fre"
    case Ger => "ger"
    case Als => "als"
  }

  function TypeName(t: MapType): string {
    match t
    case Locations => "locations"
    case Settings => "settings"
  }

  // ---------------------------------------------------------------------------
  // filterData
  // ---------------------------------------------------------------------------

  /** `item.OSMLatLon !== null`. */
  predicate HasCoords(item: Record) {
    !StrictEq(Get(item, "OSMLatLon"), Some(Null))
  }

  /** filterData: each of the given arrays without its items whose OSMLatLon is null. */
  function FilterData(arrays: seq<seq<Record>>): seq<seq<Record>> {
    seq(|arrays|, i requires 0 <= i < |arrays| => Seqs.Filter(arrays[i], HasCoords))
  }

  /**
   * filterData keeps one array per input array; each keeps exactly the items
   * whose OSMLatLon is not null, in their order. An item with no OSMLatLon
   * at all is kept.
   */
  lemma FilterDataSpec(arrays: seq<seq<Record>>, i: nat, x: Record)
    requires i < |arrays|
    ensures |FilterData(arrays)| == |arrays|
    ensures x in FilterData(arrays)[i] <==> x in arrays[i] && Get(x, "OSMLatLon") != Some(Null)
    ensures |FilterData(arrays)[i]| == Seqs.Count(arrays[i], HasCoords)
    ensures Seqs.IsSubsequence(FilterData(arrays)[i], arrays[i])
  {
    Seqs.FilterSpec(arrays[i], HasCoords);
    assert x in Seqs.Filter(arrays[i], HasCoords) <==> x in arrays[i] && HasCoords(x);
  }

  // ---------------------------------------------------------------------------
  // extendData
  // ---------------------------------------------------------------------------

  /**
   * The publisher test of extendData: same lang, and the publisher's placeId
   * is in the item's placeId array, or equal to the item's placeId when that
   * is not an array.
   */
  predicate PublisherMatches(item: Record, pub: Record) {
    StrictEq(Get(pub, "lang"), Get(item, "lang")) &&
    match Get(item, "placeId")
    case Some(List(ids)) => ArrayIncludes(ids, Get(pub, "placeId"))
    case _ => StrictEq(Get(pub, "placeId"), Get(item, "placeId"))
  }

  /** `Object.values(publisherData).filter(...)`, the values given in their enumeration order. */
  function PublishersOf(pubs: seq<Record>, item: Record): seq<Record> {
    Seqs.Filter(pubs, (pub: Record) => PublisherMatches(item, pub))
  }

  /** `play${n}`. */
  function PlayKey(n: nat): string {
    "play" + NatToText(n)
  }

  /** The play entry of one publisher: the four publisher fields and the item's time and settingText, each `|| null`. */
  function PlayEntry(pub: Record, item: Record): Record {
    [("playName", OrNull(Get(pub, "playName"))),
     ("playDate", OrNull(Get(pub, "playDate"))),
     ("authorNames", OrNull(Get(pub, "authorNames"))),
     ("publisherName", OrNull(Get(pub, "publisherName"))),
     ("settingTime", OrNull(Get(item, "time"))),
     ("settingText", OrNull(Get(item, "settingText")))]
  }

  /** The playData object the forEach loop fills: play1 .. playN, in publisher order. */
  function PlayData(pubs: seq<Record>, item: Record): Record {
    seq(|pubs|, i requires 0 <= i < |pubs| => (PlayKey(i + 1), Obj(PlayEntry(pubs[i], item))))
  }

  /** `{...item, playData}`: the item with playData added, or replaced where it was. */
  function Extended(pubs: seq<Record>, item: Record): Record {
    Put(item, "playData", Obj(PlayData(PublishersOf(pubs, item), item)))
  }

  /** extendData: every item of every array extended, in order. */
  function ExtendData(pubs: seq<Record>, arrays: seq<seq<Record>>): seq<seq<Record>> {
    seq(|arrays|, i requires 0 <= i < |arrays| =>
      seq(|arrays[i]|, j requires 0 <= j < |arrays[i]| => Extended(pubs, arrays[i][j])))
  }

  /** The forEach loop of extendData: one `playData[playKey] = {...}` per matching publisher. */
  method BuildPlayData(publishers: seq<Record>, item: Record) returns (playData: Record)
    ensures playData == PlayData(publishers, item)
  {
    playData := [];
    for index := 0 to |publishers|
      invariant playData == PlayData(publishers[..index], item)
    {
      var playKey := PlayKey(index + 1);
      PlayKeyFresh(publishers[..index], item, index + 1);
      PlayDataSnoc(publishers, item, index);
      playData := Put(playData, playKey, Obj(PlayEntry(publishers[index], item)));
    }
    assert publishers[..|publishers|] == publishers;
  }

  /** One more publisher adds its entry last. */
  lemma PlayDataSnoc(pubs: seq<Record>, item: Record, n: nat)
    requires n < |pubs|
    ensures PlayData(pubs[..n + 1], item) == PlayData(pubs[..n], item) + [(PlayKey(n + 1), Obj(PlayEntry(pubs[n], item)))]
  {
    var a := PlayData(pubs[..n + 1], item);
    var b := PlayData(pubs[..n], item) + [(PlayKey(n + 1), Obj(PlayEntry(pubs[n], item)))];
    assert |a| == |b|;
    forall j | 0 <= j < |a| ensures a[j] == b[j] {
      assert pubs[..n + 1][j] == pubs[j];
      if j < n {
        assert pubs[..n][j] == pubs[j];
      }
    }
  }

  /** The item mapping of extendData, with its forEach loop. */
  method ExtendItem(publisherData: seq<Record>, item: Record) returns (extended: Record)
    ensures extended == Extended(publisherData, item)
  {
    var publishers := PublishersOf(publisherData, item);
    var playData := BuildPlayData(publishers, item);
    extended := Put(item, "playData", Obj(playData));
  }

  /** Two play keys are equal only for equal numbers. */
  lemma PlayKeyInjective(m: nat, n: nat)
    ensures PlayKey(m) == PlayKey(n) ==> m == n
  {
    if PlayKey(m) == PlayKey(n) {
      assert PlayKey(m)[4..] == NatToText(m);
      assert PlayKey(n)[4..] == NatToText(n);
      NatToTextDigits(m);
      NatToTextDigits(n);
    }
  }

  /** A later play number is not yet a key of playData, so Put appends it. */
  lemma PlayKeyFresh(pubs: seq<Record>, item: Record, n: nat)
    requires n > |pubs|
    ensures KeyIndex(PlayData(pubs, item), PlayKey(n)) == |pubs|
  {
    var r := PlayData(pubs, item);
    var i := KeyIndex(r, PlayKey(n));
    if i < |r| {
      PlayKeyInjective(i + 1, n);
    }
  }

  /** Every other fact of the item is kept, playData holds the matching publishers' entries. */
  lemma ExtendedSpec(pubs: seq<Record>, item: Record, k: string)
    ensures k != "playData" ==> Get(Extended(pubs, item), k) == Get(item, k)
    ensures Get(Extended(pubs, item), "playData") == Some(Obj(PlayData(PublishersOf(pubs, item), item)))
    ensures Keys(Extended(pubs, item)) == if "playData" in Keys(item) then Keys(item) else Keys(item) + ["playData"]
  {
    GetPut(item, "playData", Obj(PlayData(PublishersOf(pubs, item), item)), k);
  }

  /** extendData keeps every array and every item, in order, each with all its other fields. */
  lemma ExtendDataSpec(pubs: seq<Record>, arrays: seq<seq<Record>>, i: nat, j: nat, k: string)
    requires i < |arrays| && j < |arrays[i]|
    ensures |ExtendData(pubs, arrays)| == |arrays| && |ExtendData(pubs, arrays)[i]| == |arrays[i]|
    ensures k != "playData" ==> Get(ExtendData(pubs, arrays)[i][j], k) == Get(arrays[i][j], k)
    ensures Get(ExtendData(pubs, arrays)[i][j], "playData") ==
      Some(Obj(PlayData(PublishersOf(pubs, arrays[i][j]), arrays[i][j])))
  {
    ExtendedSpec(pubs, arrays[i][j], k);
  }

  /** The publishers chosen are exactly those passing the lang and placeId test, in their order. */
  lemma PublishersOfSpec(pubs: seq<Record>, item: Record, pub: Record)
    ensures pub in PublishersOf(pubs, item) <==> pub in pubs && PublisherMatches(item, pub)
    ensures |PublishersOf(pubs, item)| == Seqs.Count(pubs, (pub: Record) => PublisherMatches(item, pub))
    ensures Seqs.IsSubsequence(PublishersOf(pubs, item), pubs)
  {
    var p := (pub: Record) => PublisherMatches(item, pub);
    Seqs.FilterSpec(pubs, p);
    assert pub in Seqs.Filter(pubs, p) <==> pub in pubs && p(pub);
  }

  /** playData has the keys play1 .. playN, in order. */
  lemma PlayDataKeys(pubs: seq<Record>, item: Record)
    ensures Keys(PlayData(pubs, item)) == seq(|pubs|, i requires 0 <= i < |pubs| => PlayKey(i + 1))
  {
  }

  /** playN is the entry of the N-th matching publisher; there is no play0 and nothing past the last. */
  lemma PlayDataGet(pubs: seq<Record>, item: Record, n: nat)
    ensures 1 <= n <= |pubs| ==> Get(PlayData(pubs, item), PlayKey(n)) == Some(Obj(PlayEntry(pubs[n - 1], item)))
    ensures n == 0 || n > |pubs| ==> Get(PlayData(pubs, item), PlayKey(n)) == None
  {
    var r := PlayData(pubs, item);
    var i := KeyIndex(r, PlayKey(n));
    PlayKeyInjective(i + 1, n);
    if 1 <= n <= |pubs| {
      assert r[n - 1].0 == PlayKey(n);
    }
  }

  /** `x || null` read back from a play entry: null exactly when `x` is falsy, and `x` itself otherwise. */
  predicate CopiedOrNull(e: Record, k: string, x: Option<Value>) {
    (Get(e, k) == Some(Null) <==> !Truthy(x)) && (Truthy(x) ==> Get(e, k) == x)
  }

  /** The keys of a play entry, in order. */
  lemma PlayEntryKeys(pub: Record, item: Record)
    ensures Keys(PlayEntry(pub, item)) ==
      ["playName", "playDate", "authorNames", "publisherName", "settingTime", "settingText"]
  {
  }

  /** A field written as `x || null` at a position no earlier key shadows reads back as CopiedOrNull says. */
  lemma CopiedAt(e: Record, i: nat, x: Option<Value>)
    requires i < |e| && forall j :: 0 <= j < i ==> e[j].0 != e[i].0
    requires e[i].1 == OrNull(x)
    ensures CopiedOrNull(e, e[i].0, x)
  {
    GetAt(e, i);
  }

  /** The first three copied fields of a play entry. */
  lemma PlayEntryFirstFields(pub: Record, item: Record)
    ensures var e := PlayEntry(pub, item);
      CopiedOrNull(e, "playName", Get(pub, "playName")) &&
      CopiedOrNull(e, "playDate", Get(pub, "playDate")) &&
      CopiedOrNull(e, "authorNames", Get(pub, "authorNames"))
  {
    var e := PlayEntry(pub, item);
    CopiedAt(e, 0, Get(pub, "playName"));
    CopiedAt(e, 1, Get(pub, "playDate"));
    CopiedAt(e, 2, Get(pub, "authorNames"));
  }

  /** The last three copied fields of a play entry. */
  lemma PlayEntryLastFields(pub: Record, item: Record)
    ensures var e := PlayEntry(pub, item);
      CopiedOrNull(e, "publisherName", Get(pub, "publisherName")) &&
      CopiedOrNull(e, "settingTime", Get(item, "time")) &&
      CopiedOrNull(e, "settingText", Get(item, "settingText"))
  {
    var e := PlayEntry(pub, item);
    CopiedAt(e, 3, Get(pub, "publisherName"));
    CopiedAt(e, 4, Get(item, "time"));
    CopiedAt(e, 5, Get(item, "settingText"));
  }

  /** Each copied field of a play entry is null exactly when its source is falsy, and the source itself otherwise. */
  lemma PlayEntryFields(pub: Record, item: Record)
    ensures var e := PlayEntry(pub, item);
      CopiedOrNull(e, "playName", Get(pub, "playName")) &&
      CopiedOrNull(e, "playDate", Get(pub, "playDate")) &&
      CopiedOrNull(e, "authorNames", Get(pub, "authorNames")) &&
      CopiedOrNull(e, "publisherName", Get(pub, "publisherName")) &&
      CopiedOrNull(e, "settingTime", Get(item, "time")) &&
      CopiedOrNull(e, "settingText", Get(item, "settingText"))
  {
    PlayEntryFirstFields(pub, item);
    PlayEntryLastFields(pub, item);
  }

  // ---------------------------------------------------------------------------
  // convertToGeoJSON
  // ---------------------------------------------------------------------------

  /**
   * The properties of one GeoJSON feature, with the OSMLatLon text its point
   * is parsed from.
   */
  datatype Feature = Feature(name: Option<Value>, lang: Option<Value>, playData: Option<Value>, featureType: string, latLon: string)

  /**
   * `ogLocData.find(loc => item.lang === loc.lang && item.placeId.includes(loc.placeId))`:
   * `includes` runs only for the locations with the item's lang, and throws
   * when the item's placeId is neither an array nor a string.
   */
  function FindPlace(locs: seq<Record>, item: Record): Result<Option<Record>> {
    if |locs| == 0 then Ok(None)
    else if !StrictEq(Get(item, "lang"), Get(locs[0], "lang")) then FindPlace(locs[1..], item)
    else
      var hit :- Includes(Get(item, "placeId"), Get(locs[0], "placeId"));
      if hit then Ok(Some(locs[0])) else FindPlace(locs[1..], item)
  }

  /** The test of that find, where it is evaluated. */
  predicate PlaceOf(item: Record, loc: Record) {
    StrictEq(Get(item, "lang"), Get(loc, "lang")) && Includes(Get(item, "placeId"), Get(loc, "placeId")) == Ok(true)
  }

  /** A location the find passes over: another lang, or `includes` false. */
  predicate PassedOver(item: Record, loc: Record) {
    !StrictEq(Get(item, "lang"), Get(loc, "lang")) || Includes(Get(item, "placeId"), Get(loc, "placeId")) == Ok(false)
  }

  /** The name of a feature: the item's own for locations, that of its place for settings. */
  function FeatureName(ogLocs: seq<Record>, item: Record, dataType: string): Result<Option<Value>> {
    if dataType == "settings" then
      var loc :- FindPlace(ogLocs, item);
      Ok(if loc.Some? then Get(loc.value, "name") else Some(Null))
    else Ok(Get(item, "name"))
  }

  /** The feature of one item; `OSMLatLon.split` throws on anything but text. */
  function ToFeature(ogLocs: seq<Record>, item: Record, dataType: string): Result<Feature> {
    var name :- FeatureName(ogLocs, item, dataType);
    match Get(item, "OSMLatLon")
    case Some(Str(s)) => Ok(Feature(name, Get(item, "lang"), Get(item, "playData"), dataType, s))
    case _ => Err(TypeError("OSMLatLon.split is not a function"))
  }

  /** convertToGeoJSON: the features of the FeatureCollection, or the exception it throws. */
  function ConvertToGeoJSON(ogLocs: seq<Record>, mapData: seq<Record>, dataType: string): Result<seq<Feature>> {
    if dataType != "locations" && dataType != "settings" then
      Err(Thrown("Invalid dataType: " + dataType + ".\n    Must be either \"locations\" or \"settings\"."))
    else TryMap(mapData, (item: Record) => ToFeature(ogLocs, item, dataType))
  }

  /** The find finds nothing exactly when it passes over every location. */
  lemma {:induction false} FindPlaceNone(locs: seq<Record>, item: Record)
    ensures FindPlace(locs, item) == Ok(None) <==> forall j :: 0 <= j < |locs| ==> PassedOver(item, locs[j])
  {
    if |locs| > 0 {
      var rest := locs[1..];
      FindPlaceNone(rest, item);
      if PassedOver(item, locs[0]) {
        assert FindPlace(locs, item) == FindPlace(rest, item);
        forall j | 0 < j < |locs| ensures locs[j] == rest[j - 1] {
        }
      }
    }
  }

  /**
   * What the find gives is the first location, in ogLocData order, with the
   * item's lang whose placeId the item's placeId includes.
   */
  lemma {:induction false} FindPlaceFound(locs: seq<Record>, item: Record)
    ensures FindPlace(locs, item).Ok? && FindPlace(locs, item).value.Some? ==>
      exists k :: 0 <= k < |locs| && FindPlace(locs, item).value.value == locs[k] && PlaceOf(item, locs[k]) &&
        forall j :: 0 <= j < k ==> PassedOver(item, locs[j])
  {
    if |locs| > 0 {
      var r := FindPlace(locs, item);
      var rest := locs[1..];
      if PassedOver(item, locs[0]) {
        FindPlaceFound(rest, item);
        if r.Ok? && r.value.Some? {
          var k :| 0 <= k < |rest| && r.value.value == rest[k] && PlaceOf(item, rest[k]) &&
            forall j :: 0 <= j < k ==> PassedOver(item, rest[j]);
          assert locs[k + 1] == rest[k];
          forall j | 0 < j < k + 1 ensures PassedOver(item, locs[j]) {
            assert locs[j] == rest[j - 1];
          }
        }
      } else if r.Ok? && r.value.Some? {
        assert PlaceOf(item, locs[0]) && r.value.value == locs[0];
      }
    }
  }

  /** The find throws the exception of the first `includes` that throws before a match. */
  lemma {:induction false} FindPlaceThrows(locs: seq<Record>, item: Record)
    ensures FindPlace(locs, item).Err? ==>
      exists k :: 0 <= k < |locs| && StrictEq(Get(item, "lang"), Get(locs[k], "lang")) &&
        Includes(Get(item, "placeId"), Get(locs[k], "placeId")) == Err(FindPlace(locs, item).error) &&
        forall j :: 0 <= j < k ==> PassedOver(item, locs[j])
  {
    if |locs| > 0 {
      var r := FindPlace(locs, item);
      var rest := locs[1..];
      if PassedOver(item, locs[0]) {
        FindPlaceThrows(rest, item);
        if r.Err? {
          var k :| 0 <= k < |rest| && StrictEq(Get(item, "lang"), Get(rest[k], "lang")) &&
            Includes(Get(item, "placeId"), Get(rest[k], "placeId")) == Err(r.error) &&
            forall j :: 0 <= j < k ==> PassedOver(item, rest[j]);
          assert locs[k + 1] == rest[k];
          forall j | 0 < j < k + 1 ensures PassedOver(item, locs[j]) {
            assert locs[j] == rest[j - 1];
          }
        }
      } else if r.Err? {
        assert Includes(Get(item, "placeId"), Get(locs[0], "placeId")) == Err(r.error);
      }
    }
  }

  /**
   * A setting's name is the name of its place, null when no location
   * matches; a location keeps its own name.
   */
  lemma FeatureNameSpec(ogLocs: seq<Record>, item: Record, dataType: string)
    ensures dataType != "settings" ==> FeatureName(ogLocs, item, dataType) == Ok(Get(item, "name"))
    ensures dataType == "settings" && (forall j :: 0 <= j < |ogLocs| ==> PassedOver(item, ogLocs[j])) ==>
      FeatureName(ogLocs, item, dataType) == Ok(Some(Null))
    ensures dataType == "settings" && FindPlace(ogLocs, item).Ok? && FindPlace(ogLocs, item).value.Some? ==>
      exists k :: 0 <= k < |ogLocs| && PlaceOf(item, ogLocs[k]) &&
        (forall j :: 0 <= j < k ==> PassedOver(item, ogLocs[j])) &&
        FeatureName(ogLocs, item, dataType) == Ok(Get(ogLocs[k], "name"))
  {
    FindPlaceNone(ogLocs, item);
    FindPlaceFound(ogLocs, item);
  }

  /**
   * convertToGeoJSON throws for any type but "locations" and "settings".
   * Otherwise it gives one feature per item, in order, carrying the item's
   * lang and playData and the type, and throws exactly when some item's
   * feature does.
   */
  lemma ConvertToGeoJSONSpec(ogLocs: seq<Record>, mapData: seq<Record>, dataType: string)
    ensures dataType != "locations" && dataType != "settings" ==>
      ConvertToGeoJSON(ogLocs, mapData, dataType).Err? && ConvertToGeoJSON(ogLocs, mapData, dataType).error.Thrown?
    ensures dataType == "locations" || dataType == "settings" ==>
      (ConvertToGeoJSON(ogLocs, mapData, dataType).Ok? <==>
        forall i :: 0 <= i < |mapData| ==> ToFeature(ogLocs, mapData[i], dataType).Ok?)
    ensures ConvertToGeoJSON(ogLocs, mapData, dataType).Ok? ==>
      var fs := ConvertToGeoJSON(ogLocs, mapData, dataType).value;
      |fs| == |mapData| &&
      forall i :: 0 <= i < |mapData| ==>
        fs[i].lang == Get(mapData[i], "lang") && fs[i].playData == Get(mapData[i], "playData") &&
        fs[i].featureType == dataType && Get(mapData[i], "OSMLatLon") == Some(Str(fs[i].latLon))
  {
    if dataType == "locations" || dataType == "settings" {
      var f := (item: Record) => ToFeature(ogLocs, item, dataType);
      TryMapSpec(mapData, f);
    }
  }

  /** An item without any OSMLatLon passes filterData but makes convertToGeoJSON throw a TypeError. */
  lemma MissingCoordsThrow(ogLocs: seq<Record>, mapData: seq<Record>, dataType: string, i: nat)
    requires dataType == "locations" || dataType == "settings"
    requires i < |mapData| && Get(mapData[i], "OSMLatLon") == None
    ensures HasCoords(mapData[i])
    ensures ConvertToGeoJSON(ogLocs, mapData, dataType).Err?
  {
    ConvertToGeoJSONSpec(ogLocs, mapData, dataType);
  }

  // ---------------------------------------------------------------------------
  // Type counts and flags
  // ---------------------------------------------------------------------------

  /** `feature.properties.lang === key`. */
  predicate FeatureInLang(f: Feature, l: Lang) {
    StrictEq(f.lang, Some(Str(LangName(l))))
  }

  /** `data.features.filter(feature => feature.properties.lang === key).length`. */
  function LangCount(features: seq<Feature>, l: Lang): nat {
    |Seqs.Filter(features, (f: Feature) => FeatureInLang(f, l))|
  }

  /** The count of one entry: the features of its layer in its language. */
  function CountOf(locFeatures: seq<Feature>, settingFeatures: seq<Feature>, l: Lang, t: MapType): nat {
    LangCount(if t == Locations then locFeatures else settingFeatures, l)
  }

  /** The counts the setMap loop stores: one per language and type. */
  function TypeCounts(locFeatures: seq<Feature>, settingFeatures: seq<Feature>): map<(Lang, MapType), int> {
    map k | k in AllKeys :: CountOf(locFeatures, settingFeatures, k.0, k.1)
  }

  /** The position of a language in Langs. */
  function LangIndex(l: Lang): (i: nat)
    ensures i < |Langs| && Langs[i] == l
  {
    match l
    case Fre => 0
    case Ger => 1
    case Als => 2
  }

  /** The position of a type in Types. */
  function TypeIndex(t: MapType): (i: nat)
    ensures i < |Types| && Types[i] == t
  {
    match t
    case Locations => 0
    case Settings => 1
  }

  /** The table has an entry for every language and type. */
  lemma AllKeysComplete(l: Lang, t: MapType)
    ensures (l, t) in AllKeys
  {
  }

  /** A six-entry table whose every entry is that entry's count is the table of counts. */
  lemma CountsTable(m: map<(Lang, MapType), int>, locFeatures: seq<Feature>, settingFeatures: seq<Feature>)
    requires m.Keys == AllKeys
    requires forall l, t :: (l, t) in m && m[(l, t)] == CountOf(locFeatures, settingFeatures, l, t)
    ensures m == TypeCounts(locFeatures, settingFeatures)
  {
    var c := TypeCounts(locFeatures, settingFeatures);
    forall k | k in AllKeys ensures m[k] == c[k] {
      assert m[(k.0, k.1)] == CountOf(locFeatures, settingFeatures, k.0, k.1);
    }
  }

  /** A six-entry table whose every flag is off is the reset table. */
  lemma OffTable(m: map<(Lang, MapType), bool>)
    requires m.Keys == AllKeys
    requires forall l, t :: (l, t) in m && !m[(l, t)]
    ensures m == AllOff
  {
    forall k | k in AllKeys ensures m[k] == AllOff[k] {
      assert !m[(k.0, k.1)];
    }
  }

  /** An item whose lang is the given language's name. */
  predicate ItemInLang(item: Record, l: Lang) {
    StrictEq(Get(item, "lang"), Some(Str(LangName(l))))
  }

  /** Filters over two sequences that agree position by position keep as many elements. */
  lemma {:induction false} FilterCountsAgree<A, B>(a: seq<A>, b: seq<B>, p: A -> bool, q: B -> bool)
    requires |a| == |b|
    requires forall i :: 0 <= i < |a| ==> p(a[i]) == q(b[i])
    ensures |Seqs.Filter(a, p)| == |Seqs.Filter(b, q)|
  {
    if |a| > 0 {
      forall i | 0 <= i < |a| - 1 ensures p(a[1..][i]) == q(b[1..][i]) {
        assert a[1..][i] == a[i + 1] && b[1..][i] == b[i + 1];
      }
      FilterCountsAgree(a[1..], b[1..], p, q);
    }
  }

  /**
   * The count of a language is the number of converted items in that
   * language: those of the filtered input whose lang is that language's name.
   */
  lemma LangCountOfItems(ogLocs: seq<Record>, items: seq<Record>, pubs: seq<Record>, dataType: string, l: Lang)
    requires ConvertToGeoJSON(ogLocs, seq(|items|, j requires 0 <= j < |items| => Extended(pubs, items[j])), dataType).Ok?
    ensures LangCount(ConvertToGeoJSON(ogLocs, seq(|items|, j requires 0 <= j < |items| => Extended(pubs, items[j])), dataType).value, l) ==
      |Seqs.Filter(items, (item: Record) => ItemInLang(item, l))|
  {
    var ext := seq(|items|, j requires 0 <= j < |items| => Extended(pubs, items[j]));
    var fs := ConvertToGeoJSON(ogLocs, ext, dataType).value;
    ConvertToGeoJSONSpec(ogLocs, ext, dataType);
    forall j | 0 <= j < |fs| ensures FeatureInLang(fs[j], l) == ItemInLang(items[j], l) {
      ExtendedSpec(pubs, items[j], "lang");
    }
    FilterCountsAgree(fs, items, (f: Feature) => FeatureInLang(f, l), (item: Record) => ItemInLang(item, l));
  }

  /** A (language, type) entry that is enabled and has something to show. */
  predicate IsActive(enabled: map<(Lang, MapType), bool>, count: map<(Lang, MapType), int>, l: Lang, t: MapType) {
    (l, t) in enabled && enabled[(l, t)] && (l, t) in count && count[(l, t)] > 0
  }

  /** The types added to activeTypes while visiting the languages `langs` and, for each, the types `types`. */
  function ActiveAmong(enabled: map<(Lang, MapType), bool>, count: map<(Lang, MapType), int>,
                       langs: seq<Lang>, types: seq<MapType>): set<MapType> {
    set l, t | l in langs && t in types && IsActive(enabled, count, l, t) :: t
  }

  /** The types with some enabled language that has items. */
  function ActiveTypes(enabled: map<(Lang, MapType), bool>, count: map<(Lang, MapType), int>): set<MapType> {
    ActiveAmong(enabled, count, Langs, Types)
  }

  /** A type is active when some language has it enabled with a positive count. */
  predicate TypeActive(enabled: map<(Lang, MapType), bool>, count: map<(Lang, MapType), int>, t: MapType) {
    IsActive(enabled, count, Fre, t) || IsActive(enabled, count, Ger, t) || IsActive(enabled, count, Als, t)
  }

  /** Exactly one type is active when one of the two is and the other is not. */
  lemma OnlyOneTypeIff(enabled: map<(Lang, MapType), bool>, count: map<(Lang, MapType), int>)
    ensures |ActiveTypes(enabled, count)| == 1 <==>
      TypeActive(enabled, count, Locations) != TypeActive(enabled, count, Settings)
    ensures forall t :: t in ActiveTypes(enabled, count) <==> TypeActive(enabled, count, t)
  {
    var s := ActiveTypes(enabled, count);
    forall t ensures t in s <==> TypeActive(enabled, count, t) {
      if TypeActive(enabled, count, t) {
        if IsActive(enabled, count, Fre, t) { assert Langs[0] == Fre; }
        else if IsActive(enabled, count, Ger, t) { assert Langs[1] == Ger; }
        else { assert Langs[2] == Als; }
        assert t in Types by { if t == Locations { assert Types[0] == t; } else { assert Types[1] == t; } }
      }
    }
    var a := TypeActive(enabled, count, Locations);
    var b := TypeActive(enabled, count, Settings);
    if a && b {
      assert s == {Locations, Settings};
    } else if a {
      assert s == {Locations};
    } else if b {
      assert s == {Settings};
    } else {
      assert s == {};
    }
  }

  /** After a reset nothing is active, so clustering is back on whatever the counts. */
  lemma ResetNothingActive(count: map<(Lang, MapType), int>)
    ensures ActiveTypes(AllOff, count) == {}
  {
    OnlyOneTypeIff(AllOff, count);
  }

  /** Enabling one entry that has items, from an all-off table, makes its type the only active one. */
  lemma OneButtonOneType(count: map<(Lang, MapType), int>, l: Lang, t: MapType)
    requires (l, t) in count && count[(l, t)] > 0
    ensures ActiveTypes(AllOff[(l, t) := true], count) == {t}
  {
    var enabled := AllOff[(l, t) := true];
    OnlyOneTypeIff(enabled, count);
    assert TypeActive(enabled, count, t);
    if t == Locations {
      assert !TypeActive(enabled, count, Settings);
      assert forall u :: u in ActiveTypes(enabled, count) <==> u == Locations;
    } else {
      assert !TypeActive(enabled, count, Locations);
      assert forall u :: u in ActiveTypes(enabled, count) <==> u == Settings;
    }
  }

  // ---------------------------------------------------------------------------
  // createList
  // ---------------------------------------------------------------------------

  /**
   * What createList builds: the one entry itself, or an ordered list with
   * the visible entries and, when it was cut, the number of hidden ones that
   * the "... and N more" entry shows.
   */
  datatype ListView = Single(item: string) | Ordered(visible: seq<string>, hidden: Option<nat>)

  function CreateList(data: seq<string>, maxItems: nat): ListView {
    if |data| == 1 then Single(data[0])
    else if |data| > maxItems then Ordered(data[..maxItems], Some(|data| - maxItems))
    else Ordered(data, None)
  }

  /**
   * A one-entry list is that entry. Otherwise the list shows a prefix of the
   * entries of at most maxItems, and the "more" entry appears exactly when
   * entries are hidden, counting the rest.
   */
  lemma CreateListSpec(data: seq<string>, maxItems: nat)
    ensures |data| == 1 <==> CreateList(data, maxItems).Single?
    ensures |data| == 1 ==> CreateList(data, maxItems).item == data[0]
    ensures |data| != 1 ==>
      var v := CreateList(data, maxItems);
      |v.visible| <= |data| && v.visible == data[..|v.visible|] &&
      (|data| > maxItems <==> v.hidden.Some?) &&
      (v.hidden.Some? ==> |v.visible| == maxItems && |v.visible| + v.hidden.value == |data|) &&
      (v.hidden.None? ==> v.visible == data)
  {
  }

  /** The "more" handler rebuilds the list with all entries as the limit: nothing is hidden. */
  lemma MoreShowsAll(content: seq<string>)
    requires |content| != 1
    ensures CreateList(content, |content|) == Ordered(content, None)
  {
  }

  // ---------------------------------------------------------------------------
  // Module state
  // ---------------------------------------------------------------------------

  /** The module globals of map.ts: the data setMap stores and the mapFilters table, as two maps. */
  class MapState {
    var ogLocData: seq<Record>
    var extendedLocData: seq<Record>
    var extendedSettingData: seq<Record>
    var typeEnabled: map<(Lang, MapType), bool>
    var typeCount: map<(Lang, MapType), int>

    /** The table has exactly its six entries. */
    ghost predicate Valid()
      reads this
    {
      typeEnabled.Keys == AllKeys && typeCount.Keys == AllKeys
    }

    /** The globals as the module declares them. */
    constructor ()
      ensures Valid()
      ensures ogLocData == [] && extendedLocData == [] && extendedSettingData == []
      ensures typeEnabled == AllOff && typeCount == AllZero
    {
      ogLocData := [];
      extendedLocData := [];
      extendedSettingData := [];
      typeEnabled := AllOff;
      typeCount := AllZero;
    }

    /**
     * The data part of setMap: filter, keep the filtered locations, extend
     * both layers, convert them and count the features of each language.
     * A convertToGeoJSON exception leaves the counts as they were.
     */
    method SetMap(locData: seq<Record>, settingData: seq<Record>, publisherData: seq<Record>)
        returns (thrown: Option<Error>)
      requires Valid()
      modifies this
      ensures Valid()
      ensures ogLocData == Seqs.Filter(locData, HasCoords)
      ensures extendedLocData == ExtendData(publisherData, [ogLocData])[0]
      ensures extendedSettingData == ExtendData(publisherData, [Seqs.Filter(settingData, HasCoords)])[0]
      ensures typeEnabled == old(typeEnabled)
      ensures var locs := ConvertToGeoJSON(ogLocData, extendedLocData, "locations");
        var settings := ConvertToGeoJSON(ogLocData, extendedSettingData, "settings");
        (locs.Err? ==> thrown == Some(locs.error) && typeCount == old(typeCount)) &&
        (locs.Ok? && settings.Err? ==> thrown == Some(settings.error) && typeCount == old(typeCount)) &&
        (locs.Ok? && settings.Ok? ==> thrown == None && typeCount == TypeCounts(locs.value, settings.value))
    {
      var filtered := FilterData([locData, settingData]);
      ogLocData := filtered[0];
      var extended := ExtendData(publisherData, [filtered[0], filtered[1]]);
      extendedLocData := extended[0];
      extendedSettingData := extended[1];
      var geoLoc := ConvertToGeoJSON(ogLocData, extendedLocData, "locations");
      if geoLoc.Err? {
        return Some(geoLoc.error);
      }
      var geoSetting := ConvertToGeoJSON(ogLocData, extendedSettingData, "settings");
      if geoSetting.Err? {
        return Some(geoSetting.error);
      }
      UpdateTypeCounts(geoLoc.value, geoSetting.value);
      return None;
    }

    /** The typeCount loop of setMap: every language, every type. */
    method UpdateTypeCounts(locFeatures: seq<Feature>, settingFeatures: seq<Feature>)
      requires Valid()
      modifies this
      ensures Valid()
      ensures typeCount == TypeCounts(locFeatures, settingFeatures)
      ensures typeEnabled == old(typeEnabled)
      ensures ogLocData == old(ogLocData)
      ensures extendedLocData == old(extendedLocData) && extendedSettingData == old(extendedSettingData)
    {
      for i := 0 to |Langs|
        invariant Valid() && typeEnabled == old(typeEnabled)
        invariant ogLocData == old(ogLocData)
        invariant extendedLocData == old(extendedLocData) && extendedSettingData == old(extendedSettingData)
        invariant forall l, t :: LangIndex(l) < i ==> (l, t) in typeCount && typeCount[(l, t)] == CountOf(locFeatures, settingFeatures, l, t)
      {
        var key := Langs[i];
        for j := 0 to |Types|
          invariant Valid() && typeEnabled == old(typeEnabled)
          invariant ogLocData == old(ogLocData)
          invariant extendedLocData == old(extendedLocData) && extendedSettingData == old(extendedSettingData)
          invariant forall l, t :: LangIndex(l) < i ==> (l, t) in typeCount && typeCount[(l, t)] == CountOf(locFeatures, settingFeatures, l, t)
          invariant forall t :: TypeIndex(t) < j ==> (key, t) in typeCount && typeCount[(key, t)] == CountOf(locFeatures, settingFeatures, key, t)
        {
          var t := Types[j];
          var data := if t == Locations then locFeatures else settingFeatures;
          AllKeysComplete(key, t);
          typeCount := typeCount[(key, t) := LangCount(data, key)];
        }
      }
      CountsTable(typeCount, locFeatures, settingFeatures);
    }

    /** The flag assignments of the map filter buttons. */
    method SetTypeEnabled(l: Lang, t: MapType, on: bool)
      requires Valid()
      modifies this
      ensures Valid()
      ensures typeEnabled == old(typeEnabled)[(l, t) := on]
      ensures typeCount == old(typeCount)
      ensures ogLocData == old(ogLocData)
      ensures extendedLocData == old(extendedLocData) && extendedSettingData == old(extendedSettingData)
    {
      typeEnabled := typeEnabled[(l, t) := on];
    }

    /** isOnlyOneTypeActive: the nested loops collect the active types in a set. */
    method IsOnlyOneTypeActive() returns (b: bool)
      ensures b <==> |ActiveTypes(typeEnabled, typeCount)| == 1
    {
      var activeTypes: set<MapType> := {};
      for i := 0 to |Langs|
        invariant activeTypes == ActiveAmong(typeEnabled, typeCount, Langs[..i], Types)
      {
        var lang := Langs[i];
        for j := 0 to |Types|
          invariant activeTypes ==
            ActiveAmong(typeEnabled, typeCount, Langs[..i], Types) + ActiveAmong(typeEnabled, typeCount, [lang], Types[..j])
        {
          var t := Types[j];
          if (lang, t) in typeEnabled && typeEnabled[(lang, t)] && (lang, t) in typeCount && typeCount[(lang, t)] > 0 {
            activeTypes := activeTypes + {t};
          }
          ActiveAmongStep(typeEnabled, typeCount, lang, Types[..j], t);
          assert Types[..j + 1] == Types[..j] + [t];
        }
        assert Types[..|Types|] == Types;
        ActiveAmongNext(typeEnabled, typeCount, Langs[..i], lang);
        assert Langs[..i + 1] == Langs[..i] + [lang];
      }
      assert Langs[..|Langs|] == Langs;
      b := |activeTypes| == 1;
    }

    /** resetMapFilters, its table part: every flag off, the counts kept. */
    method ResetMapFilters()
      requires Valid()
      modifies this
      ensures Valid()
      ensures typeEnabled == AllOff
      ensures typeCount == old(typeCount)
      ensures ogLocData == old(ogLocData)
      ensures extendedLocData == old(extendedLocData) && extendedSettingData == old(extendedSettingData)
    {
      for i := 0 to |Langs|
        invariant Valid() && typeCount == old(typeCount)
        invariant ogLocData == old(ogLocData)
        invariant extendedLocData == old(extendedLocData) && extendedSettingData == old(extendedSettingData)
        invariant forall l, t :: LangIndex(l) < i ==> (l, t) in typeEnabled && !typeEnabled[(l, t)]
      {
        var lang := Langs[i];
        for j := 0 to |Types|
          invariant Valid() && typeCount == old(typeCount)
          invariant ogLocData == old(ogLocData)
          invariant extendedLocData == old(extendedLocData) && extendedSettingData == old(extendedSettingData)
          invariant forall l, t :: LangIndex(l) < i ==> (l, t) in typeEnabled && !typeEnabled[(l, t)]
          invariant forall t :: TypeIndex(t) < j ==> (lang, t) in typeEnabled && !typeEnabled[(lang, t)]
        {
          var t := Types[j];
          AllKeysComplete(lang, t);
          typeEnabled := typeEnabled[(lang, t) := false];
        }
      }
      OffTable(typeEnabled);
    }
  }

  /** One more type visited for one language. */
  lemma ActiveAmongStep(enabled: map<(Lang, MapType), bool>, count: map<(Lang, MapType), int>,
                        l: Lang, types: seq<MapType>, t: MapType)
    ensures ActiveAmong(enabled, count, [l], types + [t]) ==
      ActiveAmong(enabled, count, [l], types) + (if IsActive(enabled, count, l, t) then {t} else {})
  {
  }

  /** One more language visited, with all its types. */
  lemma ActiveAmongNext(enabled: map<(Lang, MapType), bool>, count: map<(Lang, MapType), int>,
                        langs: seq<Lang>, l: Lang)
    ensures ActiveAmong(enabled, count, langs + [l], Types) ==
      ActiveAmong(enabled, count, langs, Types) + ActiveAmong(enabled, count, [l], Types)
  {
  }
}
