# thealtres-vis data core in Dafny

thealtres-vis shows a corpus of nineteenth-century theatre plays in French, German and Alsatian. Three Python converters turn the corpus spreadsheets (CSV rows) into the JSON files the website loads. Two TypeScript modules of the website then filter, join and count that data for the relation views and the map.

This project models the data logic of those five files and proves properties of it.

| file | module | what it models |
|---|---|---|
| `wrappers.dfy` | `Wrappers` | `Option`, `Result` and the raised or thrown errors (`ValueError`, `KeyError`, `TypeError`, a thrown JavaScript `Error`) |
| `json.dfy` | `Json` | JSON values; a record as an ordered list of key/value pairs; key lookup, insertion (Python `d[k] = v`, JavaScript spread) and deletion |
| `text.dfy` | `Text` | `str.strip`/`isspace`, `replace`, `split`/`re.split`, `int()` and `int(float())` on decimal text |
| `seqs.dfy` | `Seqs` | `filter`, `find`, subsequences and flat maps on sequences |
| `js.dfy` | `Js` | `===`, truthiness, `\|\| null`, `??`, `Array.prototype.includes` and `String.prototype.includes`, string conversion |
| `conversion.dfy` | `Conversion` | `convert_to_json` of `json_conversion.py`, as staged list-wide passes; `TEMPLATE_MAP` as a class whose lists the conversions append to |
| `fields.dfy` | `ConversionFields` | the same rules restated one cell at a time, and proofs that the staged passes compute exactly these tables |
| `sep.dfy` | `ConversionSep` | the earlier converter `json_conversion_sep.py` |
| `merged.dfy` | `ConversionMerged` | the converter `utils/json_conversion_merged.py`, which joins characters to plays |
| `vis.dfy` | `Vis` | the vis.ts module globals as a class: character and play filters, the two relation views, the author-name lookup and the character list template |
| `map_view.dfy` | `MapView` | the map.ts module globals as a class: the null-coordinate filter, the publisher join, the GeoJSON features, the per-language counts and enabled flags, and the popup list truncation |

How the model reads the source:

- A Python pass such as `[{k: ... for k, v in dct.items()} for dct in data]` runs over the whole list before the next pass starts. So an exception comes from the first failing row of the first pass that fails. The model keeps the passes in that order.
- Each converter also has a per-cell rule table, such as `ConversionFields.CharacterField`. A lemma proves that the staged passes compute exactly that table, and that any exception they raise is the exception of some cell.
- JavaScript `undefined` is `None` in an `Option<Value>`. `===` on an array or object is always false, because no two loaded objects are the same object.

Where the code and its described behaviour differ, the model follows the code:

- A play `authorId` of `"4.0,5.0"` is split at every `,` and `.` (`re.split("[,.]", ...)`). It becomes `[4, 0, 5, 0]`, not `[4, 5]` (`ConversionFields.PlayAuthorIdsWithDecimals`).
- A setting `placeId` of `"9.0"` has its `.` turned into `,`. It becomes `[9, 0]`, not `[9]` (`ConversionFields.SettingPlaceIdWithDecimal`).

## Model

| member | source | states |
|---|---|---|
| Conversion.DataTypeNames | scripts/json_conversion/json_conversion.py:12-32 | The six TEMPLATE_MAP names and the six data types correspond one to one. The data-type guard accepts exactly those six names and raises ValueError for any other. |
| Conversion.TryEachRecordSpec | scripts/json_conversion/json_conversion.py:83-86 | A converting pass succeeds iff every field of every record converts. It then rewrites each value in place, keeping keys, order and row count. Otherwise it raises the exception of one of the fields. |
| Conversion.TemplateMap.constructor | scripts/json_conversion/json_conversion.py:12-19 | TEMPLATE_MAP starts with an empty list for every data type. |
| Conversion.TemplateMap.ConvertToJson | scripts/json_conversion/json_conversion.py:48-225 | An unknown type returns `{}` and changes nothing. An exception changes no shared list. On success the converted rows are appended, in order, to the shared list of that type only, and the filled template holding the whole list is returned. |
| ConversionFields.CellSpec | scripts/json_conversion/json_conversion.py:71 | A cell becomes null iff it is empty or all whitespace. Otherwise it becomes its stripped text, which is non-empty and trimmed. Author cells keep their text unstripped. |
| ConversionFields.CharactersByField | scripts/json_conversion/json_conversion.py:70-97 | The character branch succeeds iff every cell satisfies the character table, and then gives one record per row, in order, by that table. Any exception it raises is some cell's exception under the table. |
| ConversionFields.CharacterBooleans | scripts/json_conversion/json_conversion.py:75-80 | A character cell becomes a Boolean iff its column is cl or isGrp and its stripped text is "1.0" (true) or "0.0" (false). |
| ConversionFields.ProfessionalGroupRewrite | scripts/json_conversion/json_conversion.py:88-94 | A non-blank professionalGroup cell becomes its stripped text, except that "government executive officials" becomes "government officials". A blank one becomes null. |
| ConversionFields.KeepWithLangSpec | scripts/json_conversion/json_conversion.py:100-104 | A play row without a lang column raises KeyError("lang"). Otherwise exactly the rows whose lang is not blank are kept, in order. |
| ConversionFields.PlaysByField | scripts/json_conversion/json_conversion.py:99-133 | A missing lang column raises KeyError. Otherwise the play branch keeps the rows with a lang. It succeeds iff every cell of those rows satisfies the play table, then gives one record per kept row. Any exception is some kept cell's exception. |
| ConversionFields.PlayAuthorIds | scripts/json_conversion/json_conversion.py:107-129 | A non-blank authorId becomes one integer per token, split at every ',' and '.'. There is one token more than separators. An empty token raises, and the cell converts iff every token reads as a number. |
| ConversionFields.PlayAuthorIdsWithDecimals | scripts/json_conversion/json_conversion.py:107-129 | The authorId "4.0,5.0" becomes [4, 0, 5, 0]. |
| ConversionFields.PlayUnknownWork | scripts/json_conversion/json_conversion.py:114-121 | A workId of "?" is turned into "unknown" before the integer pass, so that pass raises ValueError. |
| ConversionFields.PlayQuestionInList | scripts/json_conversion/json_conversion.py:107-115 | A non-blank plain play value (not authorId, nbScenes or workId) becomes "unknown" iff it strips to "?", and otherwise its stripped text. An nbScenes cell becomes its split tokens as text, so every "?" token inside the list stays "?", because the list is split before the replacement. |
| ConversionFields.IntsOfSpec | scripts/json_conversion/json_conversion.py:124-129 | A split id list converts iff every token reads as a number. It then gives one integer per token, in order. |
| ConversionFields.LocationsByField | scripts/json_conversion/json_conversion.py:135-146 | The location branch succeeds iff every cell satisfies the location table (placeId as an integer). It then gives one record per row, in order. Any exception is some cell's exception. |
| ConversionFields.AuthorsByField | scripts/json_conversion/json_conversion.py:148-165 | The author branch succeeds iff every cell satisfies the author table (no stripping, authorId as an integer, blank sex → "U"). It then gives one record per row. Any exception is some cell's exception. |
| ConversionFields.AuthorBlankSex | scripts/json_conversion/json_conversion.py:148-162 | Every empty or blank author sex becomes "U". Any other sex is kept as written, unstripped. |
| ConversionFields.AuthorTextUnstripped | scripts/json_conversion/json_conversion.py:148-151 | Every non-blank author cell outside authorId is kept as written, surrounding whitespace included. A blank one outside sex becomes null. |
| ConversionFields.AuthorIdOfDecimal | scripts/json_conversion/json_conversion.py:153-156 | An author id " 7.9 " is read as a float and truncated to 7. |
| ConversionFields.SettingsByField | scripts/json_conversion/json_conversion.py:167-210 | The setting branch succeeds iff every cell satisfies the setting table. It then gives one record per row, in order. In each record coord is moved to OSMLatLon and deleted, and "#N/A" becomes null. Any exception is some cell's exception. |
| ConversionFields.SettingRecord | scripts/json_conversion/json_conversion.py:197-206 | OSMLatLon receives the coord value, or null without one, and coord is gone. Every other key reads as before. The keys keep their order with coord removed; OSMLatLon keeps its place if it was present and goes last otherwise. |
| ConversionFields.SettingPlaceIdWithDecimal | scripts/json_conversion/json_conversion.py:178-190 | The setting placeId "9.0" becomes [9, 0]. |
| ConversionFields.PublishersByField | scripts/json_conversion/json_conversion.py:212-223 | The publisher branch succeeds iff every cell satisfies the publisher table (publisherId and placeId as integers). It then gives one record per row, in order. Any exception is some cell's exception. |
| Text.StripCharacterisation | scripts/json_conversion/json_conversion.py:71 | strip() removes a whitespace prefix and suffix and nothing else, leaving a trimmed text. |
| Text.StripEmptyIffBlank | scripts/json_conversion/json_conversion.py:71 | A text strips to empty iff it is all whitespace, which is the `not v or v.isspace()` test. |
| Text.FloatToIntTruncates | scripts/json_conversion/json_conversion.py:83-86 | In the model, which reads the decimal value exactly, int(float(t)) of an integer text followed by a decimal fraction is that integer: the fraction is truncated. Python agrees whenever the value is exactly representable as a double. |
| Text.ToIntRefusesFraction | scripts/json_conversion/utils/json_conversion_merged.py:65-66 | int() rejects "n.0" with ValueError, where int(float()) reads it as n. |
| ConversionSep.ConvertToJson | scripts/json_conversion/json_conversion_sep.py:32-86 | char_data gives the converted characters under data.characters, or the id pass's exception. play_data gives the converted plays under data.plays. Any other type gives None. |
| ConversionSep.SepCharactersByField | scripts/json_conversion/json_conversion_sep.py:45-66 | The earlier character passes succeed iff every cell satisfies its table (only empty cells → null, 0.0/1.0 → Booleans, ids → integers). They then give one record per row, in order. Any exception is a cell's exception. |
| ConversionSep.SepPlaysByField | scripts/json_conversion/json_conversion_sep.py:68-86 | The earlier play passes cannot raise. Every row is kept and converted by the play table: lists split at ',' only, "?" → "unknown", no id conversion. |
| ConversionSep.SepAgreesOnTrimmedCells | scripts/json_conversion/json_conversion_sep.py:45-66 | On a non-empty cell without surrounding whitespace, the earlier and later character rules agree, apart from the professionalGroup rewrite. |
| ConversionSep.SepKeepsWhitespace | scripts/json_conversion/json_conversion_sep.py:46 | A blank non-empty cell stays text in the earlier converter, where the later one makes it null. |
| ConversionSep.SepTokensRoundTrip | scripts/json_conversion/json_conversion_sep.py:73-77 | The list tokens hold no ','. Joined with ',' they give the cell with its spaces removed, and they number one more than the commas. |
| ConversionMerged.ConvertToJson | scripts/json_conversion/utils/json_conversion_merged.py:35-73 | The join loop gives exactly the merged result: the characters, each joined, under data.characters, or the first exception. |
| ConversionMerged.JoinAllSpec | scripts/json_conversion/utils/json_conversion_merged.py:64-71 | The loop succeeds iff every character's join does. It then gives one joined character per character, in order. |
| ConversionMerged.JoinAllFirstError | scripts/json_conversion/utils/json_conversion_merged.py:64-71 | The loop raises the exception of the first character whose join raises. |
| ConversionMerged.PlaysWithWorkIdSpec | scripts/json_conversion/utils/json_conversion_merged.py:66 | The play scan succeeds iff every play row's workId is integer text. It then keeps exactly the matching rows, in order. |
| ConversionMerged.JoinCharacterSpec | scripts/json_conversion/utils/json_conversion_merged.py:65-71 | Without a matching play the character is unchanged. Otherwise play_info is the raw form of the first matching play row and every other key reads as before. |
| ConversionMerged.NullWorkIdJoinsNothing | scripts/json_conversion/utils/json_conversion_merged.py:65-69 | A character whose workId is null gets no play_info. |
| ConversionMerged.FloatWorkIdRaises | scripts/json_conversion/utils/json_conversion_merged.py:66 | One play row whose workId is float text such as "3.0" makes every character's scan raise. |
| Vis.FilteredCharactersSpec | website/assets/ts/vis.ts:222-244 | filterCharacters keeps exactly the characters passing all four tests, each occurrence of a passing character counted, as a subsequence of the input. |
| Vis.DefaultFiltersKeepAllCharacters | website/assets/ts/vis.ts:10-23 | With every filter at its default "any", every character is kept. |
| Vis.OtherGenderFilter | website/assets/ts/vis.ts:223-229 | The gender filter "O" keeps exactly the characters whose sex is "B", "U", null or "O". A character without a sex property is not kept. |
| Vis.ExactGenderFilter | website/assets/ts/vis.ts:223-229 | Any other gender filter except "any" keeps exactly that sex text. |
| Vis.FilteredPlaysSpec | website/assets/ts/vis.ts:264-279 | filterPlays keeps exactly the plays passing the publisher, author and language tests, each occurrence of a passing play counted, as a subsequence. |
| Vis.NonTextIdsMatchOnlyAny | website/assets/ts/vis.ts:264-279 | A play whose authorId is an array or a number, or whose publisherId is a number, passes only an "any" filter. |
| Vis.GroupPlaysByCharacter | website/assets/ts/vis.ts:324-347 | The nested forEach loops build exactly PlaysByChar of the filtered characters and the plays. |
| Vis.AddCharacterToGroups | website/assets/ts/vis.ts:328-346 | The inner loop pushes the character onto the group each of its plays finds, or opens a new group. |
| Vis.PlaysByCharSpec | website/assets/ts/vis.ts:324-347 | Groups are unique per (workId, lang) and headed by a play some character matches. Every character with a play is in its group, once per matching play, in character order. |
| Vis.OnePlayPerKey | website/assets/ts/vis.ts:327-328 | When plays are unique per (workId, lang), a character matching a play matches exactly one play. |
| Vis.ContributionsUnique | website/assets/ts/vis.ts:338-344 | With unique plays, a group holds each matching character exactly once, in order. |
| Vis.PlaysByCharUnique | website/assets/ts/vis.ts:324-347 | With unique plays, every group lists exactly the characters of its (workId, lang), in order. |
| Vis.CollectCharsInPlays | website/assets/ts/vis.ts:351-359 | The nested loops build exactly CharsInPlays of the filtered plays and the characters. |
| Vis.CharsInPlaysSpec | website/assets/ts/vis.ts:351-359 | The charsByPlay view holds exactly the characters sharing a (workId, lang) with some filtered play. |
| Vis.CharsInPlaysConcat | website/assets/ts/vis.ts:351-359 | The view is the characters of each play as one block, the plays in order. |
| Vis.GetPlayInfoFixedAnswers | website/assets/ts/vis.ts:169-203 | A missing id gives "Unknown" whatever the type. A publisher query gives "". Any other query type gives undefined. |
| Vis.GetPlayInfoNumber | website/assets/ts/vis.ts:183-187 | A numeric id gives the fullName of the first author with that id and language, and undefined when there is none. |
| Vis.AuthorNamesSpec | website/assets/ts/vis.ts:188-197 | The array lookup finds one name per id, in id order, and fails iff some id has no author. |
| Vis.GetPlayInfoArray | website/assets/ts/vis.ts:188-201 | An array id gives the names joined with ", ". When one author is missing, the TypeError is caught and the result is undefined. |
| Vis.GetPlayInfoSingletonArray | website/assets/ts/vis.ts:183-197 | When the bare id gives a text name, a one-element array of that id gives the same name. |
| Vis.GenerateCharacterTemplate | website/assets/ts/vis.ts:88-104 | The $.each loop builds exactly the ul with one li per character, in order. |
| Vis.ListItemsConcat | website/assets/ts/vis.ts:90-100 | The items of two character lists are the two item lists one after the other. |
| Vis.TemplateItems | website/assets/ts/vis.ts:88-104 | The template of a list plus one character is the earlier items followed by that character's item, closed by the ul tag. |
| Vis.CharTextAllFields | website/assets/ts/vis.ts:97 | A character with all four fields set shows them in order, separated by ", ". |
| Vis.CharTextWithoutSex | website/assets/ts/vis.ts:97 | A missing or null sex is dropped with no empty slot between its neighbours. |
| Vis.VisState.constructor | website/assets/ts/vis.ts:5-26 | The globals hold the loaded lists, the default filters, empty filtered lists and the total count. |
| Vis.VisState.FilterCharacters | website/assets/ts/vis.ts:205-256 | filterCharacters assigns the filtered list and its length to the globals and returns the list. Nothing else changes. |
| Vis.VisState.FilterPlays | website/assets/ts/vis.ts:258-288 | filterPlays assigns the filtered list to its global and returns it. Nothing else changes. |
| Vis.VisState.ShowRelations | website/assets/ts/vis.ts:322-364 | "playsByChar" groups the filtered characters' plays. "charsByPlay" collects the characters of the filtered plays. Any other mode builds nothing. |
| MapView.FilterDataSpec | website/assets/js-plugins/map.ts:116-118 | filterData keeps one array per argument. Each keeps exactly the items whose OSMLatLon is not null, as many as there are, as a subsequence, so an item with no OSMLatLon at all is kept. |
| MapView.PublishersOfSpec | website/assets/js-plugins/map.ts:123-127 | The publishers of an item are exactly those with its lang and a placeId in (or equal to) its placeId, as many as there are, in publisher order. |
| MapView.BuildPlayData | website/assets/js-plugins/map.ts:129-140 | The forEach loop builds exactly play1 .. playN, one entry per matching publisher. |
| MapView.PlayKeyFresh | website/assets/js-plugins/map.ts:131 | A later play key is never among the earlier keys, so each assignment adds an entry. |
| MapView.PlayKeyInjective | website/assets/js-plugins/map.ts:131 | Distinct indexes give distinct play keys. |
| MapView.PlayDataKeys | website/assets/js-plugins/map.ts:129-140 | The keys of playData are play1 .. playN in order. |
| MapView.PlayDataGet | website/assets/js-plugins/map.ts:129-140 | playN is the entry of the N-th matching publisher. Neither play0 nor any key past the last publisher exists. |
| MapView.PlayEntryFields | website/assets/js-plugins/map.ts:132-139 | Each of the six entry fields is `\|\| null` of its source: null exactly when the source (playName, playDate, authorNames, publisherName of the publisher; time, settingText of the item) is falsy, and the source value otherwise. |
| MapView.PlayEntryKeys | website/assets/js-plugins/map.ts:132-139 | A play entry has exactly the six keys, in the order the object literal writes them. |
| MapView.ExtendItem | website/assets/js-plugins/map.ts:122-146 | One item is extended with its playData. |
| MapView.ExtendedSpec | website/assets/js-plugins/map.ts:142-145 | The spread keeps every other field. playData is the built object. The keys are the item's, with playData added at the end when it was not there. |
| MapView.ExtendDataSpec | website/assets/js-plugins/map.ts:120-150 | extendData keeps the number and length of the arrays and extends every item in place. |
| MapView.FindPlaceNone | website/assets/js-plugins/map.ts:171-173 | The location search finds nothing iff every location is passed over without an exception. |
| MapView.FindPlaceFound | website/assets/js-plugins/map.ts:171-173 | A found location is the first matching one, every earlier one having been passed over. |
| MapView.FindPlaceThrows | website/assets/js-plugins/map.ts:171-173 | An exception is that of the first includes call that throws, every earlier location having been passed over. |
| MapView.FeatureNameSpec | website/assets/js-plugins/map.ts:166-174 | A location keeps its own name. A setting takes the name of the first matching location, or null when none matches. |
| MapView.ConvertToGeoJSONSpec | website/assets/js-plugins/map.ts:159-199 | Any type but "locations" or "settings" throws. Otherwise there is one feature per item, in order, with the item's lang, playData, the type and the OSMLatLon text, and it throws iff some item's feature does. |
| MapView.MissingCoordsThrow | website/assets/js-plugins/map.ts:116-184 | An item with no OSMLatLon passes filterData but makes convertToGeoJSON throw. |
| MapView.LangCountOfItems | website/assets/js-plugins/map.ts:97-104 | A language's count of converted features is the number of input items in that language. |
| MapView.OnlyOneTypeIff | website/assets/js-plugins/map.ts:398-416 | Exactly one type is active iff one type and not the other has some enabled language with items. |
| MapView.ResetNothingActive | website/assets/js-plugins/map.ts:440-455 | After a reset no type is active. |
| MapView.OneButtonOneType | website/assets/js-plugins/map.ts:380-386 | Enabling one entry with items, from an all-off table, makes its type the only active one. |
| MapView.CreateListSpec | website/assets/js-plugins/map.ts:209-239 | A one-entry list is that entry. Otherwise the list shows a prefix of at most maxItems entries. A "more" entry appears iff entries are hidden, and counts them. |
| MapView.MoreShowsAll | website/assets/js-plugins/map.ts:261 | The "more" handler's call, with the length as the limit, hides nothing. |
| MapView.MapState.constructor | website/assets/js-plugins/map.ts:3-39 | The globals start empty, with every flag off and every count 0. |
| MapView.MapState.SetMap | website/assets/js-plugins/map.ts:69-110 | setMap stores the filtered locations and both extended layers. A conversion exception leaves the counts unchanged. Otherwise every count is its layer's feature count in its language. The flags are unchanged. |
| MapView.MapState.UpdateTypeCounts | website/assets/js-plugins/map.ts:97-104 | The nested loops set every (language, type) count to the number of that layer's features in that language. Nothing else changes. |
| MapView.MapState.SetTypeEnabled | website/assets/js-plugins/map.ts:345-384 | A button sets exactly its own flag. Nothing else changes. |
| MapView.MapState.IsOnlyOneTypeActive | website/assets/js-plugins/map.ts:398-416 | The nested loops return true iff exactly one type has an enabled language with items. |
| MapView.MapState.ResetMapFilters | website/assets/js-plugins/map.ts:440-448 | Every flag is off afterwards, the counts and data unchanged. |

## Left out

- Command-line parsing, reading CSV files and writing JSON files: the converters are modelled from the list of rows `csv.DictReader` yields. Short rows, whose missing cells DictReader fills with None, and long rows, whose extra cells DictReader puts as a list under the key None (on which `v.isspace()` raises AttributeError), are not modelled.
- Text.FloatToInt: only decimal text (sign, digits, optional fraction) is read, and its decimal value is taken exactly and truncated toward zero. Python's `float()` first rounds to the nearest double, and the model does not capture that rounding. Three effects follow: an integer above 2^53 may come out different (`int(float("9007199254740993"))` is 9007199254740992 in Python, 9007199254740993 in the model); a long fraction may round up to the next integer (`int(float("0.99999999999999999"))` is 1 in Python, 0 in the model); and digit text beyond the double range (about 1.8e308) makes Python raise OverflowError, where the model gives an integer. Exponents, `inf`, `nan` and underscores raise ValueError in the model.
- Text.ToInt: `int()` of the merging converter is read on sign and ASCII digits only. Underscores between digits (`int("1_0")`) and non-ASCII Unicode decimal digits, which Python accepts, raise ValueError in the model. The same Unicode digits are also refused by Text.FloatToInt.
- The exact messages of Python exceptions: the model keeps the exception type and a short argument.
- Identity of shared objects: the Python dicts and lists handed out and appended are values in the model. Only the appending to TEMPLATE_MAP's shared lists is kept, as the state of `Conversion.TemplateMap`.
- The DOM, jQuery, Leaflet, MarkerCluster and TomSelect calls: rendering, event handlers, popups and layers are left out. Only the data these functions compute and the globals they assign are modelled.
- fetchData, the ajax calls and promises: the loaded lists are constructor parameters of `Vis.VisState`. getPlayInfo's promise is modelled by the value it resolves to.
- resetFilters and the filter change handler of vis.ts: they only move input values into the filter objects. Where resetFilters assigns the default object itself to the current filters, any later input change also changes the defaults; this aliasing is not modelled.
- Console logging of the caught TypeError in getPlayInfo and of the filtered lists.
- The filter values are taken as text, the type jQuery's `val()` gives.
- The coordinates: `OSMLatLon.split(",")`, parseFloat and the reversal to longitude-first are not modelled, because they are floating point. A feature keeps the OSMLatLon text.
- createList's HTML serialisation: the model describes the list as the visible entries and the hidden count.
- handlePopUpMoreBtn, filterMarkers, addGeoJSONData and enableMapFilterBtns: DOM and Leaflet work. Only the flag assignment of the button handler is modelled (`MapView.MapState.SetTypeEnabled`), plus the limit the "more" button passes (`MapView.MoreShowsAll`).
- `Object.values(publisherData)`: its enumeration order is taken as the given order of a sequence of publishers.
- The d3 chart and timeline files, the compiled map.js and vis.js, and the IEntity type declarations are not part of this model.
