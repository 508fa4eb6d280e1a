/**
 * The data logic of website/assets/ts/vis.ts: the character and play filters,
 * the two relation views, the author-name lookup and the character list
 * template. The module globals these functions read and assign are the
 * fields of VisState.
 */
module Vis {
  import opened Wrappers
  import opened Json
  import opened Text
  import opened Js
  import Seqs

  /** The values of the four character filter inputs; "any" switches a test off. */
  datatype CharFilters = CharFilters(gender: string, normalizedProfession: string, socialClass: string, lang: string)

  /** The values of the three play filters. */
  datatype PlayFilters = PlayFilters(publisher: string, author: string, lang: string)

  const DefaultCharFilters := CharFilters("any", "any", "any", "any")
  const DefaultPlayFilters := PlayFilters("any", "any", "any")

  // ---------------------------------------------------------------------------
  // Filters
  // ---------------------------------------------------------------------------

  /** `filter === "any" || field === filter`. */
  predicate AnyOrEq(filter: string, field: Option<Value>) {
    filter == "any" || StrictEq(field, Some(Str(filter)))
  }

  /** The gender test: "O" (other) also accepts "B", "U" and null. */
  predicate GenderMatches(filter: string, sex: Option<Value>) {
    filter == "any" || (filter == "O" && ArrayIncludes([Str("B"), Str("U"), Null], sex)) ||
    StrictEq(sex, Some(Str(filter)))
  }

  predicate CharacterMatches(f: CharFilters, c: Record) {
    GenderMatches(f.gender, Get(c, "sex")) &&
    AnyOrEq(f.normalizedProfession, Get(c, "normalizedProfession")) &&
    AnyOrEq(f.socialClass, Get(c, "socialClass")) &&
    AnyOrEq(f.lang, Get(c, "lang"))
  }

  predicate PlayMatches(f: PlayFilters, p: Record) {
    AnyOrEq(f.publisher, Get(p, "publisherId")) &&
    AnyOrEq(f.author, Get(p, "authorId")) &&
    AnyOrEq(f.lang, Get(p, "lang"))
  }

  /** `charData.filter(...)` in filterCharacters. */
  function FilteredCharacters(f: CharFilters, data: seq<Record>): seq<Record> {
    Seqs.Filter(data, (c: Record) => CharacterMatches(f, c))
  }

  /** `playData.filter(...)` in filterPlays. */
  function FilteredPlays(f: PlayFilters, data: seq<Record>): seq<Record> {
    Seqs.Filter(data, (p: Record) => PlayMatches(f, p))
  }

  /** filterCharacters keeps exactly the characters passing all four tests, in their order. */
  lemma FilteredCharactersSpec(f: CharFilters, data: seq<Record>)
    ensures forall c :: c in FilteredCharacters(f, data) <==> c in data && CharacterMatches(f, c)
    ensures |FilteredCharacters(f, data)| == Seqs.Count(data, (c: Record) => CharacterMatches(f, c))
    ensures Seqs.IsSubsequence(FilteredCharacters(f, data), data)
  {
    var p := (c: Record) => CharacterMatches(f, c);
    Seqs.FilterSpec(data, p);
    forall c ensures c in FilteredCharacters(f, data) <==> c in data && CharacterMatches(f, c) {
      assert c in Seqs.Filter(data, p) <==> c in data && p(c);
    }
  }

  /** With every character filter at "any", every character is shown. */
  lemma DefaultFiltersKeepAllCharacters(data: seq<Record>)
    ensures FilteredCharacters(DefaultCharFilters, data) == data
  {
    Seqs.FilterAll(data, (c: Record) => CharacterMatches(DefaultCharFilters, c));
  }

  /**
   * With only the gender filter set, to "O", a character is shown exactly when
   * its sex is "B", "U", null or "O" itself; a character without a sex
   * property is not.
   */
  lemma OtherGenderFilter(f: CharFilters, data: seq<Record>)
    requires f == CharFilters("O", "any", "any", "any")
    ensures forall c :: c in FilteredCharacters(f, data) <==>
      c in data && Get(c, "sex") in {Some(Str("B")), Some(Str("U")), Some(Null), Some(Str("O"))}
  {
    FilteredCharactersSpec(f, data);
    forall c | c in data ensures CharacterMatches(f, c) <==> Get(c, "sex") in {Some(Str("B")), Some(Str("U")), Some(Null), Some(Str("O"))} {
      var sex := Get(c, "sex");
      if sex == Some(Null) {
        assert StrictEq(Some([Str("B"), Str("U"), Null][2]), sex);
      } else if sex == Some(Str("B")) {
        assert StrictEq(Some([Str("B"), Str("U"), Null][0]), sex);
      } else if sex == Some(Str("U")) {
        assert StrictEq(Some([Str("B"), Str("U"), Null][1]), sex);
      }
    }
  }

  /** Any other gender filter value but "any" asks for that exact text. */
  lemma ExactGenderFilter(g: string, sex: Option<Value>)
    requires g != "any" && g != "O"
    ensures GenderMatches(g, sex) <==> sex == Some(Str(g))
  {
  }

  /** filterPlays keeps exactly the plays passing the three tests, in their order. */
  lemma FilteredPlaysSpec(f: PlayFilters, data: seq<Record>)
    ensures forall p :: p in FilteredPlays(f, data) <==> p in data && PlayMatches(f, p)
    ensures |FilteredPlays(f, data)| == Seqs.Count(data, (p: Record) => PlayMatches(f, p))
    ensures Seqs.IsSubsequence(FilteredPlays(f, data), data)
  {
    Seqs.FilterSpec(data, (p: Record) => PlayMatches(f, p));
  }

  /**
   * The filter values are text, so a play whose authorId is an array of ids,
   * or a number, passes the author test only when that filter is "any"; the
   * same holds for a numeric publisherId.
   */
  lemma NonTextIdsMatchOnlyAny(f: PlayFilters, data: seq<Record>, p: Record)
    requires p in FilteredPlays(f, data)
    ensures (Get(p, "authorId").Some? && (Get(p, "authorId").value.List? || Get(p, "authorId").value.Int?)) ==> f.author == "any"
    ensures (Get(p, "publisherId").Some? && Get(p, "publisherId").value.Int?) ==> f.publisher == "any"
  {
    FilteredPlaysSpec(f, data);
  }

  // ---------------------------------------------------------------------------
  // Relation views
  // ---------------------------------------------------------------------------

  /** `a.workId === b.workId && a.lang === b.lang`. */
  predicate SameWork(a: Record, b: Record) {
    StrictEq(Get(a, "workId"), Get(b, "workId")) && StrictEq(Get(a, "lang"), Get(b, "lang"))
  }

  lemma SameWorkLaws(a: Record, b: Record, c: Record)
    ensures SameWork(a, b) ==> SameWork(b, a)
    ensures SameWork(a, b) && SameWork(b, c) ==> SameWork(a, c)
  {
    StrictEqLaws(Get(a, "workId"), Get(b, "workId"), Get(c, "workId"));
    StrictEqLaws(Get(a, "lang"), Get(b, "lang"), Get(c, "lang"));
  }

  /**
   * One entry of playsWithChars: the object `{...play, characters}` is the
   * play's record with the characters list added (see GroupRecord).
   */
  datatype PlayGroup = PlayGroup(play: Record, characters: seq<Record>)

  function GroupRecord(g: PlayGroup): Record {
    Put(g.play, "characters", List(seq(|g.characters|, i requires 0 <= i < |g.characters| => Obj(g.characters[i]))))
  }

  /** `playsWithChars.find(p => p.workId === play.workId && p.lang === play.lang)`, as a position. */
  function FindGroup(groups: seq<PlayGroup>, play: Record): (i: nat)
    ensures i <= |groups|
    ensures i < |groups| ==> SameWork(groups[i].play, play)
    ensures forall j :: 0 <= j < i ==> !SameWork(groups[j].play, play)
  {
    if |groups| == 0 then 0 else if SameWork(groups[0].play, play) then 0 else 1 + FindGroup(groups[1..], play)
  }

  /** The plays of one character: `playData.filter(play => play.workId === char.workId && play.lang === char.lang)`. */
  function PlaysOf(plays: seq<Record>, c: Record): seq<Record> {
    Seqs.Filter(plays, (p: Record) => SameWork(p, c))
  }

  /** One step of the inner loop: push onto the matching group, or start a new group. */
  function AddToGroups(groups: seq<PlayGroup>, play: Record, c: Record): seq<PlayGroup> {
    var i := FindGroup(groups, play);
    if i < |groups| then groups[i := PlayGroup(groups[i].play, groups[i].characters + [c])]
    else groups + [PlayGroup(play, [c])]
  }

  function AddPlays(groups: seq<PlayGroup>, plays: seq<Record>, c: Record): seq<PlayGroup>
    decreases |plays|
  {
    if |plays| == 0 then groups
    else AddToGroups(AddPlays(groups, plays[..|plays| - 1], c), plays[|plays| - 1], c)
  }

  /** playsWithChars after the loop over `chars`. */
  function PlaysByChar(chars: seq<Record>, plays: seq<Record>): seq<PlayGroup>
    decreases |chars|
  {
    if |chars| == 0 then []
    else
      var c := chars[|chars| - 1];
      AddPlays(PlaysByChar(chars[..|chars| - 1], plays), PlaysOf(plays, c), c)
  }

  /** The "playsByChar" view: the outer forEach loop of showRelations, over the filtered characters. */
  method GroupPlaysByCharacter(chars: seq<Record>, plays: seq<Record>) returns (groups: seq<PlayGroup>)
    ensures groups == PlaysByChar(chars, plays)
  {
    groups := [];
    var i := 0;
    while i < |chars|
      invariant 0 <= i <= |chars|
      invariant groups == PlaysByChar(chars[..i], plays)
    {
      var c := chars[i];
      groups := AddCharacterToGroups(groups, PlaysOf(plays, c), c);
      assert chars[..i + 1][..i] == chars[..i] && chars[..i + 1][i] == c;
      i := i + 1;
    }
    assert chars[..i] == chars;
  }

  /** The inner forEach loop: each play of the character finds its group and takes the character. */
  method AddCharacterToGroups(start: seq<PlayGroup>, matching: seq<Record>, c: Record) returns (groups: seq<PlayGroup>)
    ensures groups == AddPlays(start, matching, c)
  {
    groups := start;
    var j := 0;
    while j < |matching|
      invariant 0 <= j <= |matching|
      invariant groups == AddPlays(start, matching[..j], c)
    {
      var play := matching[j];
      groups := AddToGroups(groups, play, c);
      assert matching[..j + 1][..j] == matching[..j] && matching[..j + 1][j] == play;
      j := j + 1;
    }
    assert matching[..j] == matching;
  }

  function Repeat(c: Record, n: nat): seq<Record> {
    seq(n, _ => c)
  }

  /** What one character adds to the group of `key`: itself once per play it matches, if it matches `key`. */
  function Contribution(key: Record, plays: seq<Record>, c: Record): seq<Record> {
    if SameWork(key, c) then Repeat(c, |PlaysOf(plays, c)|) else []
  }

  function Contributions(key: Record, plays: seq<Record>, chars: seq<Record>): seq<Record>
    decreases |chars|
  {
    if |chars| == 0 then []
    else Contributions(key, plays, chars[..|chars| - 1]) + Contribution(key, plays, chars[|chars| - 1])
  }

  /** At most one group per (workId, lang). */
  ghost predicate UniqueGroups(groups: seq<PlayGroup>) {
    forall i, j :: 0 <= i < j < |groups| ==> !SameWork(groups[i].play, groups[j].play)
  }

  /** Every group is headed by a play of playData. */
  ghost predicate GroupsFromPlays(groups: seq<PlayGroup>, plays: seq<Record>) {
    forall k :: 0 <= k < |groups| ==> groups[k].play in plays
  }

  /** Some record of `rs` has the (workId, lang) of `key`. */
  ghost predicate Matched(key: Record, rs: seq<Record>) {
    exists i :: 0 <= i < |rs| && SameWork(key, rs[i])
  }

  /** Every group's (workId, lang) is that of some character. */
  ghost predicate GroupsMatched(groups: seq<PlayGroup>, chars: seq<Record>) {
    forall k :: 0 <= k < |groups| ==> Matched(groups[k].play, chars)
  }

  /** Each group lists the characters of its (workId, lang), once per play they match, in character order. */
  ghost predicate GroupsCollect(groups: seq<PlayGroup>, chars: seq<Record>, plays: seq<Record>) {
    forall k :: 0 <= k < |groups| ==> groups[k].characters == Contributions(groups[k].play, plays, chars)
  }

  /** Every character with a play has a group. */
  ghost predicate CharsCovered(groups: seq<PlayGroup>, chars: seq<Record>, plays: seq<Record>) {
    forall i :: 0 <= i < |chars| && |PlaysOf(plays, chars[i])| > 0 ==> FindGroup(groups, chars[i]) < |groups|
  }

  /** What the playsByChar loop keeps true of playsWithChars. */
  ghost predicate GroupsInvariant(groups: seq<PlayGroup>, chars: seq<Record>, plays: seq<Record>) {
    UniqueGroups(groups) && GroupsFromPlays(groups, plays) && GroupsMatched(groups, chars) &&
    GroupsCollect(groups, chars, plays) && CharsCovered(groups, chars, plays)
  }

  /** The position FindGroup gives is pinned down by its contract. */
  lemma FindGroupIs(groups: seq<PlayGroup>, x: Record, i: nat)
    requires i <= |groups|
    requires i < |groups| ==> SameWork(groups[i].play, x)
    requires forall j :: 0 <= j < i ==> !SameWork(groups[j].play, x)
    ensures FindGroup(groups, x) == i
  {
  }

  /** A play of character `c` finds the same group as `c`'s own (workId, lang) would. */
  lemma FindGroupSameKey(groups: seq<PlayGroup>, p: Record, c: Record)
    requires SameWork(p, c)
    ensures FindGroup(groups, p) == FindGroup(groups, c)
  {
    forall j | 0 <= j < |groups| ensures SameWork(groups[j].play, p) <==> SameWork(groups[j].play, c) {
      SameWorkLaws(groups[j].play, p, c);
      SameWorkLaws(groups[j].play, c, p);
      SameWorkLaws(p, c, c);
    }
    FindGroupIs(groups, c, FindGroup(groups, p));
  }

  /** A further play of `c` lands in the group `c` already has. */
  lemma PushExisting(groups: seq<PlayGroup>, c: Record, m: nat, p: Record)
    requires FindGroup(groups, c) < |groups| && SameWork(p, c)
    ensures var i := FindGroup(groups, c);
      AddToGroups(groups[i := PlayGroup(groups[i].play, groups[i].characters + Repeat(c, m))], p, c) ==
      groups[i := PlayGroup(groups[i].play, groups[i].characters + Repeat(c, m + 1))]
  {
    var i := FindGroup(groups, c);
    var g1 := groups[i := PlayGroup(groups[i].play, groups[i].characters + Repeat(c, m))];
    assert forall j :: 0 <= j < |groups| ==> g1[j].play == groups[j].play;
    FindGroupIs(g1, c, i);
    FindGroupSameKey(g1, p, c);
    assert AddToGroups(g1, p, c) == g1[i := PlayGroup(g1[i].play, g1[i].characters + [c])];
    RepeatSnoc(c, m);
    SeqAssoc(groups[i].characters, Repeat(c, m), [c]);
  }

  lemma RepeatSnoc(c: Record, m: nat)
    ensures Repeat(c, m) + [c] == Repeat(c, m + 1)
  {
  }

  /** A further play of `c` lands in the group that `c`'s first play started. */
  lemma PushNew(groups: seq<PlayGroup>, c: Record, m: nat, p0: Record, p: Record)
    requires FindGroup(groups, c) == |groups| && SameWork(p0, c) && SameWork(p, c)
    ensures AddToGroups(groups + [PlayGroup(p0, Repeat(c, m))], p, c) == groups + [PlayGroup(p0, Repeat(c, m + 1))]
  {
    var g1 := groups + [PlayGroup(p0, Repeat(c, m))];
    FindGroupIs(g1, c, |groups|);
    FindGroupSameKey(g1, p, c);
    assert Repeat(c, m) + [c] == Repeat(c, m + 1);
  }

  /** The first play of `c` joins `c`'s group, or starts it. */
  lemma PushFirst(groups: seq<PlayGroup>, c: Record, p: Record)
    requires SameWork(p, c)
    ensures var i := FindGroup(groups, c);
      (i < |groups| ==> AddToGroups(groups, p, c) == groups[i := PlayGroup(groups[i].play, groups[i].characters + Repeat(c, 1))]) &&
      (i == |groups| ==> AddToGroups(groups, p, c) == groups + [PlayGroup(p, Repeat(c, 1))])
  {
    FindGroupSameKey(groups, p, c);
    assert Repeat(c, 1) == [c];
  }

  /**
   * The inner loop for one character: all its plays land in one group, the one
   * of its (workId, lang), which is created by its first play if there is none.
   */
  lemma {:induction false} AddPlaysEffect(groups: seq<PlayGroup>, ms: seq<Record>, c: Record)
    requires forall j :: 0 <= j < |ms| ==> SameWork(ms[j], c)
    ensures var i := FindGroup(groups, c); var after := AddPlays(groups, ms, c);
      (|ms| == 0 ==> after == groups) &&
      (|ms| > 0 && i < |groups| ==>
        after == groups[i := PlayGroup(groups[i].play, groups[i].characters + Repeat(c, |ms|))]) &&
      (|ms| > 0 && i == |groups| ==> after == groups + [PlayGroup(ms[0], Repeat(c, |ms|))])
    decreases |ms|
  {
    if |ms| > 0 {
      var n := |ms|;
      var pre := ms[..n - 1];
      var p := ms[n - 1];
      AddPlaysEffect(groups, pre, c);
      assert AddPlays(groups, ms, c) == AddToGroups(AddPlays(groups, pre, c), p, c);
      if n == 1 {
        PushFirst(groups, c, p);
      } else if FindGroup(groups, c) < |groups| {
        PushExisting(groups, c, n - 1, p);
      } else {
        assert pre[0] == ms[0];
        PushNew(groups, c, n - 1, ms[0], p);
      }
    }
  }

  /** With no matching character among `chars`, a key collects nothing. */
  lemma {:induction false} ContributionsNone(key: Record, plays: seq<Record>, chars: seq<Record>)
    requires forall i :: 0 <= i < |chars| ==> !SameWork(key, chars[i])
    ensures Contributions(key, plays, chars) == []
    decreases |chars|
  {
    if |chars| > 0 {
      ContributionsNone(key, plays, chars[..|chars| - 1]);
    }
  }

  /** A character whose (workId, lang) matches no group besides `k` contributes to no other group. */
  lemma MatchesOneGroup(groups: seq<PlayGroup>, c: Record, k: nat, m: nat)
    requires UniqueGroups(groups)
    requires k < |groups| && m < |groups| && k != m
    requires SameWork(groups[k].play, c)
    ensures !SameWork(groups[m].play, c)
  {
    if SameWork(groups[m].play, c) {
      SameWorkLaws(c, groups[k].play, groups[k].play);
      SameWorkLaws(groups[m].play, c, groups[k].play);
      SameWorkLaws(groups[k].play, groups[m].play, groups[m].play);
    }
  }

  /** A further character leaves every group matched. */
  lemma MatchedExtend(groups: seq<PlayGroup>, chars: seq<Record>, c: Record)
    requires GroupsMatched(groups, chars)
    ensures GroupsMatched(groups, chars + [c])
  {
    var cs := chars + [c];
    forall k | 0 <= k < |groups| ensures Matched(groups[k].play, cs) {
      var j :| 0 <= j < |chars| && SameWork(groups[k].play, chars[j]);
      assert cs[j] == chars[j];
    }
  }

  /** A group found by one play is found again by every play that shares its (workId, lang). */
  lemma FoundBySameKey(groups: seq<PlayGroup>, x: Record, y: Record)
    requires FindGroup(groups, x) < |groups| && SameWork(y, x)
    ensures FindGroup(groups, y) == FindGroup(groups, x)
  {
    FindGroupSameKey(groups, y, x);
  }

  /** A further character that has a group, or no play, leaves every character covered. */
  lemma CoveredExtend(groups: seq<PlayGroup>, chars: seq<Record>, c: Record, plays: seq<Record>)
    requires CharsCovered(groups, chars, plays)
    requires |PlaysOf(plays, c)| == 0 || FindGroup(groups, c) < |groups|
    ensures CharsCovered(groups, chars + [c], plays)
  {
    var cs := chars + [c];
    forall j | 0 <= j < |cs| && |PlaysOf(plays, cs[j])| > 0 ensures FindGroup(groups, cs[j]) < |groups| {
      if j < |chars| {
        assert cs[j] == chars[j];
      }
    }
  }

  /** Changing only the characters of the groups keeps what is said about their plays. */
  lemma SamePlaysKeep(a: seq<PlayGroup>, b: seq<PlayGroup>, chars: seq<Record>, plays: seq<Record>)
    requires |a| == |b| && forall k :: 0 <= k < |a| ==> a[k].play == b[k].play
    requires UniqueGroups(a) && GroupsFromPlays(a, plays) && GroupsMatched(a, chars) && CharsCovered(a, chars, plays)
    ensures UniqueGroups(b) && GroupsFromPlays(b, plays) && GroupsMatched(b, chars) && CharsCovered(b, chars, plays)
  {
    forall k | 0 <= k < |b| ensures Matched(b[k].play, chars) {
      assert Matched(a[k].play, chars);
    }
    forall x ensures FindGroup(b, x) == FindGroup(a, x) {
      FindGroupIs(b, x, FindGroup(a, x));
    }
  }

  /** The collections after a character has joined its existing group `FindGroup(groups, c)`. */
  lemma CollectExisting(groups: seq<PlayGroup>, chars: seq<Record>, c: Record, plays: seq<Record>)
    requires UniqueGroups(groups) && GroupsCollect(groups, chars, plays)
    requires FindGroup(groups, c) < |groups|
    ensures var i := FindGroup(groups, c);
      GroupsCollect(groups[i := PlayGroup(groups[i].play, groups[i].characters + Repeat(c, |PlaysOf(plays, c)|))],
        chars + [c], plays)
  {
    var i := FindGroup(groups, c);
    var after := groups[i := PlayGroup(groups[i].play, groups[i].characters + Repeat(c, |PlaysOf(plays, c)|))];
    var cs := chars + [c];
    assert cs[..|cs| - 1] == chars;
    forall k | 0 <= k < |after| ensures after[k].characters == Contributions(after[k].play, plays, cs) {
      assert Contributions(after[k].play, plays, cs) ==
        Contributions(groups[k].play, plays, chars) + Contribution(groups[k].play, plays, c);
      if k != i {
        MatchesOneGroup(groups, c, i, k);
        assert Contribution(groups[k].play, plays, c) == [];
      }
    }
  }

  /** No group matches `p0`, a play of a character without a group. */
  lemma NewKeyUnmatched(groups: seq<PlayGroup>, c: Record, p0: Record)
    requires FindGroup(groups, c) == |groups| && SameWork(p0, c)
    ensures forall k :: 0 <= k < |groups| ==> !SameWork(groups[k].play, p0) && !SameWork(groups[k].play, c)
  {
    forall k | 0 <= k < |groups| ensures !SameWork(groups[k].play, p0) {
      if SameWork(groups[k].play, p0) {
        SameWorkLaws(groups[k].play, p0, c);
      }
    }
  }

  /** No earlier character matches `p0`, a play of a character without a group. */
  lemma NewKeyNoEarlier(groups: seq<PlayGroup>, chars: seq<Record>, c: Record, p0: Record, plays: seq<Record>)
    requires CharsCovered(groups, chars, plays)
    requires FindGroup(groups, c) == |groups| && SameWork(p0, c) && p0 in plays
    ensures forall j :: 0 <= j < |chars| ==> !SameWork(p0, chars[j])
  {
    NewKeyUnmatched(groups, c, p0);
    forall j | 0 <= j < |chars| ensures !SameWork(p0, chars[j]) {
      if SameWork(p0, chars[j]) {
        Seqs.FilterFirst(plays, (p: Record) => SameWork(p, chars[j]));
        var k := FindGroup(groups, chars[j]);
        SameWorkLaws(p0, chars[j], chars[j]);
        SameWorkLaws(groups[k].play, chars[j], p0);
      }
    }
  }

  /** The new group of a character without one is found by that character, and no earlier group changes. */
  lemma FindInNewGroup(groups: seq<PlayGroup>, c: Record, p0: Record, x: Record, cs: seq<Record>)
    requires FindGroup(groups, c) == |groups| && SameWork(p0, c)
    ensures FindGroup(groups + [PlayGroup(p0, cs)], c) == |groups|
    ensures FindGroup(groups, x) < |groups| ==> FindGroup(groups + [PlayGroup(p0, cs)], x) == FindGroup(groups, x)
  {
    var after := groups + [PlayGroup(p0, cs)];
    SameWorkLaws(p0, c, c);
    FindGroupIs(after, c, |groups|);
    if FindGroup(groups, x) < |groups| {
      FindGroupIs(after, x, FindGroup(groups, x));
    }
  }

  /** A new group for a key no group has keeps the groups unique. */
  lemma UniqueNew(groups: seq<PlayGroup>, c: Record, p0: Record, cs: seq<Record>)
    requires UniqueGroups(groups)
    requires FindGroup(groups, c) == |groups| && SameWork(p0, c)
    ensures UniqueGroups(groups + [PlayGroup(p0, cs)])
  {
    NewKeyUnmatched(groups, c, p0);
  }

  /** The collections after a character whose first play `p0` started a new group. */
  lemma CollectNew(groups: seq<PlayGroup>, chars: seq<Record>, c: Record, p0: Record, plays: seq<Record>)
    requires GroupsCollect(groups, chars, plays) && CharsCovered(groups, chars, plays)
    requires FindGroup(groups, c) == |groups| && SameWork(p0, c) && p0 in plays
    ensures GroupsCollect(groups + [PlayGroup(p0, Repeat(c, |PlaysOf(plays, c)|))], chars + [c], plays)
  {
    var after := groups + [PlayGroup(p0, Repeat(c, |PlaysOf(plays, c)|))];
    var cs := chars + [c];
    assert cs[..|cs| - 1] == chars;
    NewKeyUnmatched(groups, c, p0);
    NewKeyNoEarlier(groups, chars, c, p0, plays);
    ContributionsNone(p0, plays, chars);
    forall k | 0 <= k < |after| ensures after[k].characters == Contributions(after[k].play, plays, cs) {
      assert Contributions(after[k].play, plays, cs) ==
        Contributions(after[k].play, plays, chars) + Contribution(after[k].play, plays, c);
    }
  }

  /** Every group stays matched and every character covered after `p0` started a new group. */
  lemma CoveredNew(groups: seq<PlayGroup>, chars: seq<Record>, c: Record, p0: Record, plays: seq<Record>, x: seq<Record>)
    requires GroupsMatched(groups, chars) && CharsCovered(groups, chars, plays)
    requires FindGroup(groups, c) == |groups| && SameWork(p0, c)
    ensures GroupsMatched(groups + [PlayGroup(p0, x)], chars + [c])
    ensures CharsCovered(groups + [PlayGroup(p0, x)], chars + [c], plays)
  {
    var after := groups + [PlayGroup(p0, x)];
    var cs := chars + [c];
    MatchedExtend(groups, chars, c);
    assert Matched(after[|groups|].play, cs) by {
      assert SameWork(after[|groups|].play, cs[|chars|]);
    }
    forall k | 0 <= k < |after| ensures Matched(after[k].play, cs) {
      if k < |groups| {
        assert after[k] == groups[k];
      }
    }
    forall j | 0 <= j < |cs| && |PlaysOf(plays, cs[j])| > 0 ensures FindGroup(after, cs[j]) < |after| {
      FindInNewGroup(groups, c, p0, cs[j], x);
      if j < |chars| {
        assert cs[j] == chars[j];
      }
    }
  }

  /** The invariant after a character whose first play `p0` started a new group. */
  lemma InvariantNew(groups: seq<PlayGroup>, chars: seq<Record>, c: Record, p0: Record, plays: seq<Record>)
    requires GroupsInvariant(groups, chars, plays)
    requires FindGroup(groups, c) == |groups| && SameWork(p0, c) && p0 in plays
    ensures GroupsInvariant(groups + [PlayGroup(p0, Repeat(c, |PlaysOf(plays, c)|))], chars + [c], plays)
  {
    var x := Repeat(c, |PlaysOf(plays, c)|);
    UniqueNew(groups, c, p0, x);
    CollectNew(groups, chars, c, p0, plays);
    CoveredNew(groups, chars, c, p0, plays, x);
    assert GroupsFromPlays(groups + [PlayGroup(p0, x)], plays);
  }

  /** Every play of a character is a play of playData with the character's (workId, lang). */
  lemma PlaysOfSpec(plays: seq<Record>, c: Record)
    ensures forall j :: 0 <= j < |PlaysOf(plays, c)| ==> PlaysOf(plays, c)[j] in plays && SameWork(PlaysOf(plays, c)[j], c)
  {
    Seqs.FilterSpec(plays, (p: Record) => SameWork(p, c));
  }

  /** The outer loop step, when the character has no play: nothing changes. */
  lemma StepNoPlays(groups: seq<PlayGroup>, chars: seq<Record>, c: Record, plays: seq<Record>)
    requires GroupsInvariant(groups, chars, plays)
    requires |PlaysOf(plays, c)| == 0
    ensures GroupsInvariant(groups, chars + [c], plays)
  {
    var cs := chars + [c];
    assert cs[..|cs| - 1] == chars;
    assert Repeat(c, 0) == [];
    MatchedExtend(groups, chars, c);
    CoveredExtend(groups, chars, c, plays);
  }

  /** The outer loop step, when the character's group already exists. */
  lemma StepExistingGroup(groups: seq<PlayGroup>, chars: seq<Record>, c: Record, plays: seq<Record>)
    requires GroupsInvariant(groups, chars, plays)
    requires |PlaysOf(plays, c)| > 0 && FindGroup(groups, c) < |groups|
    ensures GroupsInvariant(AddPlays(groups, PlaysOf(plays, c), c), chars + [c], plays)
  {
    var ms := PlaysOf(plays, c);
    var i := FindGroup(groups, c);
    PlaysOfSpec(plays, c);
    AddPlaysEffect(groups, ms, c);
    var after := groups[i := PlayGroup(groups[i].play, groups[i].characters + Repeat(c, |ms|))];
    assert AddPlays(groups, ms, c) == after;
    MatchedExtend(groups, chars, c);
    CoveredExtend(groups, chars, c, plays);
    SamePlaysKeep(groups, after, chars + [c], plays);
    CollectExisting(groups, chars, c, plays);
  }

  /** The outer loop step, when the character's first play starts a new group. */
  lemma StepNewGroup(groups: seq<PlayGroup>, chars: seq<Record>, c: Record, plays: seq<Record>)
    requires GroupsInvariant(groups, chars, plays)
    requires |PlaysOf(plays, c)| > 0 && FindGroup(groups, c) == |groups|
    ensures GroupsInvariant(AddPlays(groups, PlaysOf(plays, c), c), chars + [c], plays)
  {
    var ms := PlaysOf(plays, c);
    PlaysOfSpec(plays, c);
    AddPlaysEffect(groups, ms, c);
    InvariantNew(groups, chars, c, ms[0], plays);
  }

  /**
   * The playsByChar view: at most one group per (workId, lang); every group is
   * a play of playData that some character matches; every character with a
   * play is in the group of its (workId, lang), once per play it matches, and
   * each group lists its characters in character order.
   */
  lemma {:induction false} PlaysByCharSpec(chars: seq<Record>, plays: seq<Record>)
    ensures GroupsInvariant(PlaysByChar(chars, plays), chars, plays)
    decreases |chars|
  {
    if |chars| > 0 {
      var pre := chars[..|chars| - 1];
      var c := chars[|chars| - 1];
      PlaysByCharSpec(pre, plays);
      var groups := PlaysByChar(pre, plays);
      assert chars == pre + [c];
      if |PlaysOf(plays, c)| == 0 {
        StepNoPlays(groups, pre, c, plays);
        AddPlaysEffect(groups, PlaysOf(plays, c), c);
      } else if FindGroup(groups, c) < |groups| {
        StepExistingGroup(groups, pre, c, plays);
      } else {
        StepNewGroup(groups, pre, c, plays);
      }
    }
  }

  /** No two plays of playData share a (workId, lang). */
  ghost predicate UniquePlays(plays: seq<Record>) {
    forall i, j :: 0 <= i < j < |plays| ==> !SameWork(plays[i], plays[j])
  }

  /** When plays are unique per (workId, lang), a character matching a play of playData matches exactly that one. */
  lemma {:induction false} OnePlayPerKey(plays: seq<Record>, key: Record, c: Record)
    requires UniquePlays(plays)
    requires key in plays && SameWork(key, c)
    ensures |PlaysOf(plays, c)| == 1
  {
    var p := plays[0];
    var rest := plays[1..];
    assert PlaysOf(plays, c) == (if SameWork(p, c) then [p] else []) + PlaysOf(rest, c);
    assert UniquePlays(rest) by {
      forall i, j | 0 <= i < j < |rest| ensures !SameWork(rest[i], rest[j]) {
        assert rest[i] == plays[i + 1] && rest[j] == plays[j + 1];
      }
    }
    if SameWork(p, c) {
      forall j | 0 <= j < |rest| ensures !SameWork(rest[j], c) {
        assert !SameWork(plays[0], plays[j + 1]);
        if SameWork(rest[j], c) {
          SameWorkLaws(rest[j], c, p);
        }
      }
      Seqs.FilterFirst(rest, (q: Record) => SameWork(q, c));
    } else {
      assert key != p;
      assert key in rest;
      OnePlayPerKey(rest, key, c);
    }
  }

  /** The characters of `chars` that match `key`, in order. */
  function CharactersOf(key: Record, chars: seq<Record>): seq<Record> {
    Seqs.Filter(chars, (c: Record) => SameWork(key, c))
  }

  /** When plays are unique per (workId, lang), a group lists each matching character exactly once. */
  lemma {:induction false} ContributionsUnique(key: Record, plays: seq<Record>, chars: seq<Record>)
    requires UniquePlays(plays) && key in plays
    ensures Contributions(key, plays, chars) == CharactersOf(key, chars)
    decreases |chars|
  {
    if |chars| > 0 {
      var pre := chars[..|chars| - 1];
      var c := chars[|chars| - 1];
      ContributionsUnique(key, plays, pre);
      assert chars == pre + [c];
      Seqs.FilterConcat(pre, [c], (x: Record) => SameWork(key, x));
      if SameWork(key, c) {
        OnePlayPerKey(plays, key, c);
        assert Repeat(c, 1) == [c];
      }
    }
  }

  /** With unique plays, each playsByChar group lists exactly the characters of its (workId, lang), in order. */
  lemma PlaysByCharUnique(chars: seq<Record>, plays: seq<Record>)
    requires UniquePlays(plays)
    ensures forall k :: 0 <= k < |PlaysByChar(chars, plays)| ==>
      PlaysByChar(chars, plays)[k].characters == CharactersOf(PlaysByChar(chars, plays)[k].play, chars)
  {
    var groups := PlaysByChar(chars, plays);
    PlaysByCharSpec(chars, plays);
    forall k | 0 <= k < |groups| ensures groups[k].characters == CharactersOf(groups[k].play, chars) {
      ContributionsUnique(groups[k].play, plays, chars);
    }
  }

  /** The characters of one play: `charData.filter(char => char.workId === play.workId && char.lang === play.lang)`. */
  function CharsOfPlay(chars: seq<Record>, play: Record): seq<Record> {
    Seqs.Filter(chars, (c: Record) => SameWork(c, play))
  }

  /** charsInPlays after the loop over `plays`. */
  function CharsInPlays(plays: seq<Record>, chars: seq<Record>): seq<Record>
    decreases |plays|
  {
    if |plays| == 0 then []
    else CharsInPlays(plays[..|plays| - 1], chars) + CharsOfPlay(chars, plays[|plays| - 1])
  }

  /** The "charsByPlay" view: the nested forEach loops of showRelations. */
  method CollectCharsInPlays(plays: seq<Record>, chars: seq<Record>) returns (out: seq<Record>)
    ensures out == CharsInPlays(plays, chars)
  {
    out := [];
    var i := 0;
    while i < |plays|
      invariant 0 <= i <= |plays|
      invariant out == CharsInPlays(plays[..i], chars)
    {
      var matching := CharsOfPlay(chars, plays[i]);
      ghost var start := out;
      var j := 0;
      while j < |matching|
        invariant 0 <= j <= |matching|
        invariant out == start + matching[..j]
      {
        out := out + [matching[j]];
        assert matching[..j + 1] == matching[..j] + [matching[j]];
        j := j + 1;
      }
      assert matching[..j] == matching;
      assert plays[..i + 1][..i] == plays[..i];
      i := i + 1;
    }
    assert plays[..i] == plays;
  }

  /**
   * The charsByPlay view holds exactly the characters that share a
   * (workId, lang) with some filtered play, and holds the characters of each
   * play as a block, plays in order.
   */
  lemma {:induction false} CharsInPlaysSpec(plays: seq<Record>, chars: seq<Record>, x: Record)
    ensures x in CharsInPlays(plays, chars) <==> x in chars && Matched(x, plays)
    decreases |plays|
  {
    if |plays| > 0 {
      var pre := plays[..|plays| - 1];
      var p := plays[|plays| - 1];
      CharsInPlaysSpec(pre, chars, x);
      CharsOfPlayMember(chars, p, x);
      if Matched(x, plays) && !SameWork(x, p) {
        var i :| 0 <= i < |plays| && SameWork(x, plays[i]);
        assert SameWork(x, pre[i]);
      }
      if Matched(x, pre) {
        var i :| 0 <= i < |pre| && SameWork(x, pre[i]);
        assert SameWork(x, plays[i]);
      }
      if SameWork(x, p) {
        assert SameWork(x, plays[|plays| - 1]);
      }
    }
  }

  lemma CharsOfPlayMember(chars: seq<Record>, play: Record, x: Record)
    ensures x in CharsOfPlay(chars, play) <==> x in chars && SameWork(x, play)
  {
    Seqs.FilterSpec(chars, (c: Record) => SameWork(c, play));
  }

  /** The characters of each play form a block, plays in order. */
  lemma {:induction false} CharsInPlaysConcat(a: seq<Record>, b: seq<Record>, chars: seq<Record>)
    ensures CharsInPlays(a + b, chars) == CharsInPlays(a, chars) + CharsInPlays(b, chars)
    decreases |b|
  {
    if |b| == 0 {
      assert a + b == a;
    } else {
      var b' := b[..|b| - 1];
      var last := CharsOfPlay(chars, b[|b| - 1]);
      CharsInPlaysConcat(a, b', chars);
      assert (a + b)[..|a + b| - 1] == a + b';
      assert (a + b)[|a + b| - 1] == b[|b| - 1];
      assert CharsInPlays(a + b, chars) == CharsInPlays(a + b', chars) + last;
      assert CharsInPlays(b, chars) == CharsInPlays(b', chars) + last;
      SeqAssoc(CharsInPlays(a, chars), CharsInPlays(b', chars), last);
    }
  }

  lemma SeqAssoc<T>(x: seq<T>, y: seq<T>, z: seq<T>)
    ensures (x + y) + z == x + (y + z)
  {
  }

  // ---------------------------------------------------------------------------
  // Author names
  // ---------------------------------------------------------------------------

  predicate IsAuthorOf(a: Record, id: Option<Value>, lang: Option<Value>) {
    StrictEq(Get(a, "authorId"), id) && StrictEq(Get(a, "lang"), lang)
  }

  /** `authorData.find(author => author.authorId === id && author.lang === lang)`. */
  function FindAuthor(authors: seq<Record>, id: Option<Value>, lang: Option<Value>): Option<Record> {
    Seqs.Find(authors, (a: Record) => IsAuthorOf(a, id, lang))
  }

  /** `id.map(authorId => find(...).fullName)`; None when some author is not found (`.fullName` of undefined throws). */
  function AuthorNames(authors: seq<Record>, ids: seq<Value>, lang: Option<Value>): Option<seq<Option<Value>>> {
    if |ids| == 0 then Some([])
    else
      match FindAuthor(authors, Some(ids[0]), lang)
      case None => None
      case Some(a) =>
        match AuthorNames(authors, ids[1..], lang)
        case None => None
        case Some(rest) => Some([Get(a, "fullName")] + rest)
  }

  /**
   * getPlayInfo, with the value its promise resolves to; None is undefined.
   * A TypeError thrown in the author lookup is caught and logged, and the
   * function then falls off its end.
   */
  function GetPlayInfo(authors: seq<Record>, id: Option<Value>, lang: Option<Value>, infoType: string): Option<Value> {
    if id.None? then Some(Str("Unknown"))
    else if infoType == "publisher" then Some(Str(""))
    else if infoType == "author" then
      match id.value
      case Int(_) =>
        (match FindAuthor(authors, id, lang) case None => None case Some(a) => Get(a, "fullName"))
      case List(ids) =>
        (match AuthorNames(authors, ids, lang) case None => None case Some(names) => Some(Str(JoinElements(names, ", "))))
      case _ => None
    else None
  }

  /** A numeric id gives the fullName of the first author with that id and language, and undefined without one. */
  lemma GetPlayInfoNumber(authors: seq<Record>, n: int, lang: Option<Value>)
    ensures (forall k :: 0 <= k < |authors| ==> !IsAuthorOf(authors[k], Some(Int(n)), lang)) ==>
      GetPlayInfo(authors, Some(Int(n)), lang, "author") == None
    ensures (exists k :: 0 <= k < |authors| && IsAuthorOf(authors[k], Some(Int(n)), lang)) ==>
      exists k :: 0 <= k < |authors| && IsAuthorOf(authors[k], Some(Int(n)), lang) &&
        (forall j :: 0 <= j < k ==> !IsAuthorOf(authors[j], Some(Int(n)), lang)) &&
        GetPlayInfo(authors, Some(Int(n)), lang, "author") == Get(authors[k], "fullName")
  {
    Seqs.FindSpec(authors, (a: Record) => IsAuthorOf(a, Some(Int(n)), lang));
  }

  /** AuthorNames finds every id, in id order, or fails when one id has no author. */
  lemma {:induction false} AuthorNamesSpec(authors: seq<Record>, ids: seq<Value>, lang: Option<Value>)
    ensures AuthorNames(authors, ids, lang).Some? <==> forall i :: 0 <= i < |ids| ==> FindAuthor(authors, Some(ids[i]), lang).Some?
    ensures AuthorNames(authors, ids, lang).Some? ==>
      |AuthorNames(authors, ids, lang).value| == |ids| &&
      forall i :: 0 <= i < |ids| ==>
        AuthorNames(authors, ids, lang).value[i] == Get(FindAuthor(authors, Some(ids[i]), lang).value, "fullName")
  {
    if |ids| > 0 {
      AuthorNamesSpec(authors, ids[1..], lang);
      if FindAuthor(authors, Some(ids[0]), lang).Some? {
        if AuthorNames(authors, ids[1..], lang).Some? {
          forall i | 0 <= i < |ids| ensures AuthorNames(authors, ids, lang).value[i] ==
            Get(FindAuthor(authors, Some(ids[i]), lang).value, "fullName") {
            if i > 0 { assert ids[i] == ids[1..][i - 1]; }
          }
        } else {
          var i :| 0 <= i < |ids[1..]| && !FindAuthor(authors, Some(ids[1..][i]), lang).Some?;
          assert ids[1..][i] == ids[i + 1];
        }
      }
    }
  }

  /** An array id gives the authors' names joined with ", ", in id order, and undefined when one is missing. */
  lemma GetPlayInfoArray(authors: seq<Record>, ids: seq<Value>, lang: Option<Value>)
    ensures (exists i :: 0 <= i < |ids| && FindAuthor(authors, Some(ids[i]), lang).None?) ==>
      GetPlayInfo(authors, Some(List(ids)), lang, "author") == None
    ensures (forall i :: 0 <= i < |ids| ==> FindAuthor(authors, Some(ids[i]), lang).Some?) ==>
      GetPlayInfo(authors, Some(List(ids)), lang, "author") ==
        Some(Str(JoinElements(seq(|ids|, i requires 0 <= i < |ids| && FindAuthor(authors, Some(ids[i]), lang).Some? =>
          Get(FindAuthor(authors, Some(ids[i]), lang).value, "fullName")), ", ")))
  {
    AuthorNamesSpec(authors, ids, lang);
    if forall i :: 0 <= i < |ids| ==> FindAuthor(authors, Some(ids[i]), lang).Some? {
      var names := AuthorNames(authors, ids, lang).value;
      assert names == seq(|ids|, i requires 0 <= i < |ids| && FindAuthor(authors, Some(ids[i]), lang).Some? =>
        Get(FindAuthor(authors, Some(ids[i]), lang).value, "fullName"));
    }
  }

  /** A one-element id array names its author exactly as the bare id does, when the name is text. */
  lemma GetPlayInfoSingletonArray(authors: seq<Record>, n: int, lang: Option<Value>, name: string)
    requires GetPlayInfo(authors, Some(Int(n)), lang, "author") == Some(Str(name))
    ensures GetPlayInfo(authors, Some(List([Int(n)])), lang, "author") == Some(Str(name))
  {
    var ids := [Int(n)];
    assert ids[1..] == [];
    assert FindAuthor(authors, Some(Int(n)), lang).Some?;
    var a := FindAuthor(authors, Some(Int(n)), lang).value;
    assert ids[0] == Int(n);
    assert FindAuthor(authors, Some(ids[0]), lang) == Some(a);
    assert AuthorNames(authors, ids[1..], lang) == Some([]);
    assert [Get(a, "fullName")] + [] == [Get(a, "fullName")];
    assert AuthorNames(authors, ids, lang) == Some([Get(a, "fullName")]);
    assert seq(1, i requires 0 <= i < 1 => ElementText([Some(Str(name))][i])) == [name];
  }

  /** The id checks come first: no id gives "Unknown", a publisher query gives "". */
  lemma GetPlayInfoFixedAnswers(authors: seq<Record>, id: Option<Value>, lang: Option<Value>, infoType: string)
    ensures id.None? ==> GetPlayInfo(authors, id, lang, infoType) == Some(Str("Unknown"))
    ensures id.Some? && infoType == "publisher" ==> GetPlayInfo(authors, id, lang, infoType) == Some(Str(""))
    ensures id.Some? && infoType != "publisher" && infoType != "author" ==> GetPlayInfo(authors, id, lang, infoType) == None
  {
  }

  // ---------------------------------------------------------------------------
  // Character list template
  // ---------------------------------------------------------------------------

  /** persName, sex, socialClass and normalizedProfession, each `?? ""`. */
  function CharFields(c: Record): seq<Value> {
    [Coalesce(Get(c, "persName"), Str("")), Coalesce(Get(c, "sex"), Str("")),
     Coalesce(Get(c, "socialClass"), Str("")), Coalesce(Get(c, "normalizedProfession"), Str(""))]
  }

  predicate Shown(v: Value) {
    Truthy(Some(v))
  }

  /** `[name, sex, socialClass, profession].filter(Boolean).join(", ")`. */
  function CharText(c: Record): string {
    var shown := Seqs.Filter(CharFields(c), Shown);
    Join(seq(|shown|, i requires 0 <= i < |shown| => ToText(shown[i])), ", ")
  }

  /** The texts of the characters, in order. */
  function CharTexts(data: seq<Record>): seq<string> {
    seq(|data|, i requires 0 <= i < |data| => CharText(data[i]))
  }

  /** The `<li>` items of the texts, in order. */
  function ListItems(texts: seq<string>): string
    decreases |texts|
  {
    if |texts| == 0 then ""
    else ListItems(texts[..|texts| - 1]) + "<li>" + texts[|texts| - 1] + "</li>"
  }

  function CharacterTemplate(data: seq<Record>): string {
    "<ul class='char'>" + ListItems(CharTexts(data)) + "</ul>"
  }

  /** generateCharacterTemplate: the `$.each` loop appending one item per character. */
  method GenerateCharacterTemplate(data: seq<Record>) returns (html: string)
    ensures html == CharacterTemplate(data)
  {
    ghost var texts := CharTexts(data);
    html := "<ul class='char'>";
    var i := 0;
    while i < |data|
      invariant 0 <= i <= |data|
      invariant html == "<ul class='char'>" + ListItems(texts[..i])
    {
      var charText := CharText(data[i]);
      AppendItem("<ul class='char'>", ListItems(texts[..i]), charText);
      html := html + "<li>" + charText + "</li>";
      assert texts[..i + 1][..i] == texts[..i] && texts[..i + 1][i] == charText;
      i := i + 1;
    }
    assert texts[..i] == texts;
    html := html + "</ul>";
  }

  /** The items of a concatenation are the two item lists one after the other: one item per text, in order. */
  lemma {:induction false} ListItemsConcat(a: seq<string>, b: seq<string>)
    ensures ListItems(a + b) == ListItems(a) + ListItems(b)
    decreases |b|
  {
    if |b| == 0 {
      assert a + b == a;
    } else {
      var b' := b[..|b| - 1];
      assert (a + b)[..|a + b| - 1] == a + b';
      assert (a + b)[|a + b| - 1] == b[|b| - 1];
      ListItemsConcat(a, b');
    }
  }

  lemma AppendItem(head: string, items: string, text: string)
    ensures head + items + "<li>" + text + "</li>" == head + (items + "<li>" + text + "</li>")
  {
  }

  /** The template holds the item of each character, in order, and nothing else between the list tags. */
  lemma TemplateItems(a: seq<Record>, c: Record)
    ensures CharacterTemplate(a + [c]) == "<ul class='char'>" + ListItems(CharTexts(a)) + "<li>" + CharText(c) + "</li></ul>"
  {
    var texts := CharTexts(a + [c]);
    assert texts[..|a|] == CharTexts(a);
    AppendItem("<ul class='char'>", ListItems(CharTexts(a)), CharText(c));
  }

  /** A character with all four fields set to non-empty text shows them in order, separated by ", ". */
  lemma CharTextAllFields(c: Record, name: string, sex: string, socialClass: string, profession: string)
    requires Get(c, "persName") == Some(Str(name)) && name != ""
    requires Get(c, "sex") == Some(Str(sex)) && sex != ""
    requires Get(c, "socialClass") == Some(Str(socialClass)) && socialClass != ""
    requires Get(c, "normalizedProfession") == Some(Str(profession)) && profession != ""
    ensures CharText(c) == name + ", " + sex + ", " + socialClass + ", " + profession
  {
    var fields := CharFields(c);
    assert fields == [Str(name), Str(sex), Str(socialClass), Str(profession)];
    Seqs.FilterAll(fields, Shown);
    var texts := seq(|fields|, i requires 0 <= i < |fields| => ToText(fields[i]));
    assert texts == [name, sex, socialClass, profession];
    JoinFour(name, sex, socialClass, profession);
  }

  lemma JoinFour(a: string, b: string, c: string, d: string)
    ensures Join([a, b, c, d], ", ") == a + ", " + b + ", " + c + ", " + d
  {
    assert [c, d][1..] == [d];
    assert Join([c, d], ", ") == c + ", " + d;
    assert [b, c, d][1..] == [c, d];
    assert Join([b, c, d], ", ") == b + ", " + (c + ", " + d);
    assert [a, b, c, d][1..] == [b, c, d];
    assert Join([a, b, c, d], ", ") == a + ", " + (b + ", " + (c + ", " + d));
  }

  /** A missing or null sex is left out, without an empty slot between its neighbours. */
  lemma CharTextWithoutSex(c: Record, name: string, socialClass: string, profession: string)
    requires Get(c, "persName") == Some(Str(name)) && name != ""
    requires Get(c, "sex") == None || Get(c, "sex") == Some(Null)
    requires Get(c, "socialClass") == Some(Str(socialClass)) && socialClass != ""
    requires Get(c, "normalizedProfession") == Some(Str(profession)) && profession != ""
    ensures CharText(c) == name + ", " + socialClass + ", " + profession
  {
    var fields := CharFields(c);
    assert fields == [Str(name), Str(""), Str(socialClass), Str(profession)];
    DropsEmptySecond(Str(name), Str(socialClass), Str(profession));
    var shown := Seqs.Filter(fields, Shown);
    var texts := seq(|shown|, i requires 0 <= i < |shown| => ToText(shown[i]));
    assert texts == [name, socialClass, profession];
    assert Join(texts[1..], ", ") == socialClass + ", " + profession by {
      assert texts[1..][1..] == [profession];
    }
  }

  lemma DropsEmptySecond(a: Value, b: Value, c: Value)
    requires Shown(a) && Shown(b) && Shown(c)
    ensures Seqs.Filter([a, Str(""), b, c], Shown) == [a, b, c]
  {
    assert [c][1..] == [];
    assert Seqs.Filter([c], Shown) == [c];
    assert [b, c][1..] == [c];
    assert Seqs.Filter([b, c], Shown) == [b, c];
    assert [Str(""), b, c][1..] == [b, c];
    assert Seqs.Filter([Str(""), b, c], Shown) == [b, c];
    assert [a, Str(""), b, c][1..] == [Str(""), b, c];
  }

  // ---------------------------------------------------------------------------
  // Module state
  // ---------------------------------------------------------------------------

  /** The relation view showRelations builds: plays with their characters, or characters of plays. */
  datatype Relations = PlaysWithChars(groups: seq<PlayGroup>) | CharsInPlaysView(chars: seq<Record>) | NoRelations

  /** The module globals of vis.ts that the data functions read and assign. */
  class VisState {
    var charData: seq<Record>
    var playData: seq<Record>
    var authorData: seq<Record>
    var filteredCharData: seq<Record>
    var filteredPlayData: seq<Record>
    var charFilters: CharFilters
    var playFilters: PlayFilters
    var totalShownCharItems: int

    /** The globals once fetchData has stored the loaded character, play and author lists. */
    constructor (chars: seq<Record>, plays: seq<Record>, authors: seq<Record>)
      ensures charData == chars && playData == plays && authorData == authors
      ensures filteredCharData == [] && filteredPlayData == []
      ensures charFilters == DefaultCharFilters && playFilters == DefaultPlayFilters
      ensures totalShownCharItems == |chars|
    {
      charData := chars;
      playData := plays;
      authorData := authors;
      filteredCharData := [];
      filteredPlayData := [];
      charFilters := DefaultCharFilters;
      playFilters := DefaultPlayFilters;
      totalShownCharItems := |chars|;
    }

    /** filterCharacters: assigns the filtered list and its length to the globals and returns the list. */
    method FilterCharacters(data: seq<Record>) returns (r: seq<Record>)
      modifies this
      ensures r == FilteredCharacters(charFilters, data) && filteredCharData == r
      ensures totalShownCharItems == |r|
      ensures charFilters == old(charFilters) && playFilters == old(playFilters)
      ensures charData == old(charData) && playData == old(playData) && authorData == old(authorData)
      ensures filteredPlayData == old(filteredPlayData)
    {
      filteredCharData := FilteredCharacters(charFilters, data);
      totalShownCharItems := |filteredCharData|;
      r := filteredCharData;
    }

    /** filterPlays: assigns the filtered list to its global and returns it. */
    method FilterPlays(data: seq<Record>) returns (r: seq<Record>)
      modifies this
      ensures r == FilteredPlays(playFilters, data) && filteredPlayData == r
      ensures charFilters == old(charFilters) && playFilters == old(playFilters)
      ensures charData == old(charData) && playData == old(playData) && authorData == old(authorData)
      ensures filteredCharData == old(filteredCharData) && totalShownCharItems == old(totalShownCharItems)
    {
      filteredPlayData := FilteredPlays(playFilters, data);
      r := filteredPlayData;
    }

    /** The data part of showRelations: which view, built from which globals. */
    method ShowRelations(viewMode: string) returns (rel: Relations)
      ensures viewMode == "playsByChar" ==> rel == PlaysWithChars(PlaysByChar(filteredCharData, playData))
      ensures viewMode == "charsByPlay" ==> rel == CharsInPlaysView(CharsInPlays(filteredPlayData, charData))
      ensures viewMode != "playsByChar" && viewMode != "charsByPlay" ==> rel == NoRelations
    {
      if viewMode == "playsByChar" {
        var groups := GroupPlaysByCharacter(filteredCharData, playData);
        return PlaysWithChars(groups);
      } else if viewMode == "charsByPlay" {
        var chars := CollectCharsInPlays(filteredPlayData, charData);
        return CharsInPlaysView(chars);
      }
      return NoRelations;
    }
  }
}
