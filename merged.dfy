/**
 * The merging converter of scripts/json_conversion/utils/json_conversion_merged.py:
 * characters normalised as in the earlier converter, then each character
 * joined to the first play row, in play-file order, whose workId reads as the
 * same integer. The embedded play row is the raw CSV row.
 */
module ConversionMerged {
  import opened Wrappers
  import opened Json
  import opened Text
  import opened ConversionSep
  import Seqs

  /** A raw CSV row as a record of text values. */
  function RawRecord(row: Row): Record {
    seq(|row|, j requires 0 <= j < |row| => (row[j].0, Str(row[j].1)))
  }

  /** `int(dct["workId"])` of a raw play row. */
  function PlayWorkId(row: Row): Result<int> {
    match RowGet(row, "workId")
    case None => Err(KeyError("workId"))
    case Some(w) => ToInt(w)
  }

  /** `[dct for dct in play_data if int(dct["workId"]) == play_id]`: the whole list is read, in order. */
  function PlaysWithWorkId(plays: seq<Row>, playId: Value): Result<seq<Row>> {
    if |plays| == 0 then Ok([])
    else
      var n :- PlayWorkId(plays[0]);
      var rest :- PlaysWithWorkId(plays[1..], playId);
      Ok((if Int(n) == playId then [plays[0]] else []) + rest)
  }

  /** The body of the join loop for one character. */
  function JoinCharacter(ch: Record, plays: seq<Row>): Result<Record> {
    var playId :- match Get(ch, "workId") case None => Err(KeyError("workId")) case Some(v) => Ok(v);
    var matches :- PlaysWithWorkId(plays, playId);
    Ok(if |matches| > 0 then Put(ch, "play_info", Obj(RawRecord(matches[0]))) else ch)
  }

  /** The join loop over all characters: the first character that raises stops it. */
  function JoinAll(chars: seq<Record>, plays: seq<Row>): Result<seq<Record>> {
    if |chars| == 0 then Ok([])
    else
      var first :- JoinCharacter(chars[0], plays);
      var rest :- JoinAll(chars[1..], plays);
      Ok([first] + rest)
  }

  /** What convert_to_json of the merging script returns, or raises. */
  function Merged(charData: seq<Row>, playData: seq<Row>): Result<Value> {
    var chars :- SepCharacters(charData);
    var joined :- JoinAll(chars, playData);
    Ok(DataContainer("characters", joined))
  }

  /** convert_to_json of the merging script: the join loop, appending one character at a time. */
  method ConvertToJson(charData: seq<Row>, playData: seq<Row>) returns (result: Result<Value>)
    ensures result == Merged(charData, playData)
  {
    var converted := SepCharacters(charData);
    if converted.Err? {
      return Err(converted.error);
    }
    var chars := converted.value;
    var characters: seq<Record> := [];
    var i := 0;
    while i < |chars|
      invariant 0 <= i <= |chars|
      invariant |characters| == i
      invariant forall j :: 0 <= j < i ==> JoinCharacter(chars[j], playData).Ok?
      invariant forall j :: 0 <= j < i ==> characters[j] == JoinCharacter(chars[j], playData).value
    {
      var joined := JoinCharacter(chars[i], playData);
      if joined.Err? {
        JoinAllFirstError(chars, playData, i);
        return Err(joined.error);
      }
      characters := characters + [joined.value];
      i := i + 1;
    }
    JoinAllSpec(chars, playData);
    assert characters == JoinAll(chars, playData).value;
    return Ok(DataContainer("characters", characters));
  }

  // ---------------------------------------------------------------------------
  // Properties
  // ---------------------------------------------------------------------------

  /** Every character is joined exactly once, in order, and the join succeeds when every character's does. */
  lemma {:induction false} JoinAllSpec(chars: seq<Record>, plays: seq<Row>)
    ensures JoinAll(chars, plays).Ok? <==> forall i :: 0 <= i < |chars| ==> JoinCharacter(chars[i], plays).Ok?
    ensures JoinAll(chars, plays).Ok? ==>
      |JoinAll(chars, plays).value| == |chars| &&
      forall i :: 0 <= i < |chars| ==> JoinAll(chars, plays).value[i] == JoinCharacter(chars[i], plays).value
  {
    if |chars| > 0 {
      JoinAllSpec(chars[1..], plays);
      if JoinCharacter(chars[0], plays).Ok? && JoinAll(chars[1..], plays).Ok? {
        forall i | 0 <= i < |chars| ensures JoinAll(chars, plays).value[i] == JoinCharacter(chars[i], plays).value {
          if i > 0 { assert chars[i] == chars[1..][i - 1]; }
        }
      } else if JoinCharacter(chars[0], plays).Ok? {
        var i :| 0 <= i < |chars[1..]| && !JoinCharacter(chars[1..][i], plays).Ok?;
        assert !JoinCharacter(chars[i + 1], plays).Ok?;
      }
    }
  }

  /** The exception of the join loop is that of the first character that raises. */
  lemma {:induction false} JoinAllFirstError(chars: seq<Record>, plays: seq<Row>, i: nat)
    requires i < |chars|
    requires forall j :: 0 <= j < i ==> JoinCharacter(chars[j], plays).Ok?
    requires JoinCharacter(chars[i], plays).Err?
    ensures JoinAll(chars, plays) == Err(JoinCharacter(chars[i], plays).error)
  {
    if i > 0 {
      forall j | 0 <= j < i - 1 ensures JoinCharacter(chars[1..][j], plays).Ok? {
        assert chars[1..][j] == chars[j + 1];
      }
      JoinAllFirstError(chars[1..], plays, i - 1);
    }
  }

  /** A play row whose workId reads as the integer equal to `playId`. */
  predicate MatchesWork(row: Row, playId: Value) {
    PlayWorkId(row).Ok? && Int(PlayWorkId(row).value) == playId
  }

  /**
   * The play scan reads every play row: it raises unless every row has a
   * workId that is integer text, and then keeps exactly the matching rows, in order.
   */
  lemma {:induction false} PlaysWithWorkIdSpec(plays: seq<Row>, playId: Value)
    ensures PlaysWithWorkId(plays, playId).Ok? <==> forall i :: 0 <= i < |plays| ==> PlayWorkId(plays[i]).Ok?
    ensures PlaysWithWorkId(plays, playId).Ok? ==>
      PlaysWithWorkId(plays, playId).value == Seqs.Filter(plays, (row: Row) => MatchesWork(row, playId))
  {
    if |plays| > 0 {
      PlaysWithWorkIdSpec(plays[1..], playId);
      if PlayWorkId(plays[0]).Ok? && !PlaysWithWorkId(plays[1..], playId).Ok? {
        var i :| 0 <= i < |plays[1..]| && !PlayWorkId(plays[1..][i]).Ok?;
        assert !PlayWorkId(plays[i + 1]).Ok?;
      }
    }
  }

  /**
   * A character gets play_info exactly when some play row matches its workId;
   * it is then the raw form of the first matching row, in play-file order, and
   * every other key of the character reads as before. Without a match the
   * character is unchanged.
   */
  lemma JoinCharacterSpec(ch: Record, plays: seq<Row>)
    requires Get(ch, "workId").Some?
    requires forall i :: 0 <= i < |plays| ==> PlayWorkId(plays[i]).Ok?
    ensures JoinCharacter(ch, plays).Ok?
    ensures var out := JoinCharacter(ch, plays).value;
      var playId := Get(ch, "workId").value;
      ((forall i :: 0 <= i < |plays| ==> !MatchesWork(plays[i], playId)) ==> out == ch) &&
      ((exists i :: 0 <= i < |plays| && MatchesWork(plays[i], playId)) ==>
        (exists k :: 0 <= k < |plays| && MatchesWork(plays[k], playId) &&
          (forall j :: 0 <= j < k ==> !MatchesWork(plays[j], playId)) &&
          Get(out, "play_info") == Some(Obj(RawRecord(plays[k])))) &&
        forall key :: key != "play_info" ==> Get(out, key) == Get(ch, key))
  {
    var playId := Get(ch, "workId").value;
    var p := (row: Row) => MatchesWork(row, playId);
    PlaysWithWorkIdSpec(plays, playId);
    Seqs.FilterFirst(plays, p);
    var matches := Seqs.Filter(plays, p);
    if |matches| > 0 {
      var k :| 0 <= k < |plays| && p(plays[k]) && matches[0] == plays[k] && forall j :: 0 <= j < k ==> !p(plays[j]);
      forall key | key != "play_info" ensures Get(JoinCharacter(ch, plays).value, key) == Get(ch, key) {
        GetPut(ch, "play_info", Obj(RawRecord(matches[0])), key);
      }
      GetPut(ch, "play_info", Obj(RawRecord(matches[0])), "play_info");
    }
  }

  /** A character whose workId is null matches no play, so it gets no play_info. */
  lemma NullWorkIdJoinsNothing(ch: Record, plays: seq<Row>)
    requires Get(ch, "workId") == Some(Null)
    requires forall i :: 0 <= i < |plays| ==> PlayWorkId(plays[i]).Ok?
    ensures JoinCharacter(ch, plays) == Ok(ch)
  {
    JoinCharacterSpec(ch, plays);
  }

  /** A play workId written as float text, such as "3.0", makes int() raise, whatever the character. */
  lemma FloatWorkIdRaises(plays: seq<Row>, playId: Value, i: nat, n: int)
    requires i < |plays| && RowGet(plays[i], "workId") == Some(IntToText(n) + ".0")
    ensures PlaysWithWorkId(plays, playId).Err?
  {
    ToIntRefusesFraction(n);
    PlaysWithWorkIdSpec(plays, playId);
  }
}
