/**
 * The Python text primitives the converters rely on: str.isspace, str.strip,
 * str.replace, str.split and re.split on a character class, and the numeric
 * conversions int(float(s)) and int(s), restricted to plain decimal text.
 */
module Text {
  import opened Wrappers

  /** Python's str.isspace, for one character. */
  predicate IsSpace(c: char) {
    || c == ' '
    || '\t' <= c <= '\r'
    || '\U{1C}' <= c <= '\U{1F}'
    || c == '\U{85}' || c == '\U{A0}' || c == '\U{1680}'
    || '\U{2000}' <= c <= '\U{200A}'
    || c == '\U{2028}' || c == '\U{2029}' || c == '\U{202F}' || c == '\U{205F}' || c == '\U{3000}'
  }

  /** `not v or v.isspace()`: the text is empty or made only of whitespace. */
  predicate IsBlank(s: string) {
    forall i :: 0 <= i < |s| ==> IsSpace(s[i])
  }

  /** No whitespace at either end. */
  predicate Trimmed(s: string) {
    s == [] || (!IsSpace(s[0]) && !IsSpace(s[|s| - 1]))
  }

  function LStrip(s: string): string {
    if |s| > 0 && IsSpace(s[0]) then LStrip(s[1..]) else s
  }

  function RStrip(s: string): string {
    if |s| > 0 && IsSpace(s[|s| - 1]) then RStrip(s[..|s| - 1]) else s
  }

  /** str.strip() with no argument. */
  function Strip(s: string): string {
    RStrip(LStrip(s))
  }

  /** The number of whitespace characters `s` starts with. */
  function LeadingSpaces(s: string): (n: nat)
    ensures n <= |s|
  {
    if |s| > 0 && IsSpace(s[0]) then 1 + LeadingSpaces(s[1..]) else 0
  }

  /** The length of `s` without its trailing whitespace. */
  function KeptLength(s: string): (n: nat)
    ensures n <= |s|
  {
    if |s| > 0 && IsSpace(s[|s| - 1]) then KeptLength(s[..|s| - 1]) else |s|
  }

  lemma BlankConcat(a: string, b: string)
    requires IsBlank(a) && IsBlank(b)
    ensures IsBlank(a + b)
  {
    forall k | 0 <= k < |a + b| ensures IsSpace((a + b)[k]) {
      if k < |a| {
        assert (a + b)[k] == a[k];
      } else {
        assert (a + b)[k] == b[k - |a|];
      }
    }
  }

  lemma {:induction false} LStripDropsBlankPrefix(s: string)
    ensures LStrip(s) == s[LeadingSpaces(s)..] && IsBlank(s[..LeadingSpaces(s)])
    ensures LStrip(s) == [] || !IsSpace(LStrip(s)[0])
    decreases |s|
  {
    if |s| > 0 && IsSpace(s[0]) {
      var n := LeadingSpaces(s[1..]);
      LStripDropsBlankPrefix(s[1..]);
      assert s[1..][n..] == s[n + 1..];
      assert s[..n + 1] == [s[0]] + s[1..][..n];
      BlankConcat([s[0]], s[1..][..n]);
    } else {
      assert s[0..] == s;
    }
  }

  lemma {:induction false} RStripDropsBlankSuffix(s: string)
    ensures RStrip(s) == s[..KeptLength(s)] && IsBlank(s[KeptLength(s)..])
    ensures RStrip(s) == [] || !IsSpace(RStrip(s)[|RStrip(s)| - 1])
    decreases |s|
  {
    if |s| > 0 && IsSpace(s[|s| - 1]) {
      var s' := s[..|s| - 1];
      var j := KeptLength(s');
      RStripDropsBlankSuffix(s');
      assert s'[..j] == s[..j];
      assert s[j..] == s'[j..] + [s[|s| - 1]];
      BlankConcat(s'[j..], [s[|s| - 1]]);
    } else {
      assert s[..|s|] == s;
    }
  }

  lemma RStripKeepsFirst(s: string)
    requires s != [] && !IsSpace(s[0])
    ensures RStrip(s) != [] && RStrip(s)[0] == s[0]
    decreases |s|
  {
    if IsSpace(s[|s| - 1]) {
      RStripKeepsFirst(s[..|s| - 1]);
    }
  }

  /** strip() removes a blank prefix and a blank suffix and leaves text with no whitespace at either end. */
  lemma StripCharacterisation(s: string)
    ensures exists i, j :: 0 <= i <= j <= |s| && Strip(s) == s[i..j] && IsBlank(s[..i]) && IsBlank(s[j..])
    ensures Trimmed(Strip(s))
  {
    StripSlice(s);
    StripIsTrimmed(s);
  }

  lemma StripSlice(s: string)
    ensures exists i, j :: 0 <= i <= j <= |s| && Strip(s) == s[i..j] && IsBlank(s[..i]) && IsBlank(s[j..])
  {
    var l := LStrip(s);
    var i := LeadingSpaces(s);
    var j := KeptLength(l);
    LStripDropsBlankPrefix(s);
    RStripDropsBlankSuffix(l);
    assert l[..j] == s[i..i + j];
    assert l[j..] == s[i + j..];
    assert Strip(s) == s[i..i + j] && IsBlank(s[..i]) && IsBlank(s[i + j..]);
  }

  lemma StripIsTrimmed(s: string)
    ensures Trimmed(Strip(s))
  {
    var l := LStrip(s);
    LStripDropsBlankPrefix(s);
    RStripDropsBlankSuffix(l);
    if l != [] {
      RStripKeepsFirst(l);
    }
  }

  /** Text with no whitespace at either end is its own strip. */
  lemma StripTrimmed(s: string)
    requires Trimmed(s)
    ensures Strip(s) == s
  {
    assert LStrip(s) == s;
  }

  /** strip() is idempotent. */
  lemma StripIdempotent(s: string)
    ensures Strip(Strip(s)) == Strip(s)
  {
    StripCharacterisation(s);
    StripTrimmed(Strip(s));
  }

  /** Text strips to nothing exactly when it is blank. */
  lemma {:induction false} StripEmptyIffBlank(s: string)
    ensures Strip(s) == [] <==> IsBlank(s)
  {
    StripCharacterisation(s);
    var i, j :| 0 <= i <= j <= |s| && Strip(s) == s[i..j] && IsBlank(s[..i]) && IsBlank(s[j..]);
    if Strip(s) == [] {
      assert i == j;
      forall k | 0 <= k < |s| ensures IsSpace(s[k]) {
        if k < i { assert s[k] == s[..i][k]; } else { assert s[k] == s[j..][k - j]; }
      }
    } else {
      assert s[i] == Strip(s)[0];
    }
  }

  /** str.replace(a, b) for single characters. */
  function Replace(s: string, a: char, b: char): string {
    seq(|s|, k requires 0 <= k < |s| => if s[k] == a then b else s[k])
  }

  /** str.replace(c, ""): every occurrence of `c` deleted. */
  function Remove(s: string, c: char): string {
    if |s| == 0 then "" else (if s[0] == c then "" else [s[0]]) + Remove(s[1..], c)
  }

  lemma {:induction false} RemoveDeletesAll(s: string, c: char)
    ensures c !in Remove(s, c)
    ensures c !in s ==> Remove(s, c) == s
  {
    if |s| > 0 {
      RemoveDeletesAll(s[1..], c);
      assert s == [s[0]] + s[1..];
    }
  }

  /**
   * The pieces between separators, as str.split(c) gives them for a single
   * separator and as re.split("[...]") gives them for a character class
   * (no capture group): empty text gives one empty piece.
   */
  function Split(s: string, seps: set<char>): (r: seq<string>)
    ensures |r| >= 1
  {
    if |s| == 0 then [""]
    else
      var rest := Split(s[1..], seps);
      if s[0] in seps then [""] + rest else [[s[0]] + rest[0]] + rest[1..]
  }

  /** str.join: the parts separated by `sep`. */
  function Join(parts: seq<string>, sep: string): string {
    if |parts| == 0 then ""
    else if |parts| == 1 then parts[0]
    else parts[0] + sep + Join(parts[1..], sep)
  }

  /** Number of characters of `s` that belong to `cs`. */
  function CountIn(s: string, cs: set<char>): nat {
    if |s| == 0 then 0 else (if s[0] in cs then 1 else 0) + CountIn(s[1..], cs)
  }

  /** Joining the pieces of a split on one character gives back the text. */
  lemma {:induction false} JoinSplit(s: string, c: char)
    ensures Join(Split(s, {c}), [c]) == s
  {
    if |s| > 0 {
      var rest := Split(s[1..], {c});
      JoinSplit(s[1..], c);
      if s[0] == c {
        assert Split(s, {c}) == [""] + rest;
        assert ([""] + rest)[1..] == rest;
      } else {
        assert Split(s, {c}) == [[s[0]] + rest[0]] + rest[1..];
        if |rest| == 1 {
          assert Join(rest, [c]) == rest[0];
        } else {
          assert ([[s[0]] + rest[0]] + rest[1..])[1..] == rest[1..];
          assert Join(rest, [c]) == rest[0] + [c] + Join(rest[1..], [c]);
        }
      }
    }
  }

  /** No piece contains a separator, and there is one piece more than there are separators. */
  lemma {:induction false} SplitPieces(s: string, seps: set<char>)
    ensures |Split(s, seps)| == CountIn(s, seps) + 1
    ensures forall p, ch :: p in Split(s, seps) && ch in p ==> ch !in seps
  {
    if |s| > 0 {
      var rest := Split(s[1..], seps);
      SplitPieces(s[1..], seps);
      if s[0] !in seps {
        forall p, ch | p in Split(s, seps) && ch in p ensures ch !in seps {
          if p == [s[0]] + rest[0] {
            assert ch == s[0] || ch in rest[0];
          } else {
            assert p in rest[1..];
          }
        }
      }
    }
  }

  /** Splitting on ',' and '.' is replacing '.' by ',' and splitting on ','. */
  lemma {:induction false} SplitOnCommaOrPeriod(s: string)
    ensures Split(s, {',', '.'}) == Split(Replace(s, '.', ','), {','})
  {
    if |s| > 0 {
      SplitOnCommaOrPeriod(s[1..]);
      assert Replace(s, '.', ',')[1..] == Replace(s[1..], '.', ',');
    }
  }

  /** Text with no separator in front of `s` only lengthens the first piece. */
  lemma {:induction false} SplitPrefix(a: string, s: string, seps: set<char>)
    requires forall i :: 0 <= i < |a| ==> a[i] !in seps
    ensures Split(a + s, seps) == [a + Split(s, seps)[0]] + Split(s, seps)[1..]
  {
    if |a| == 0 {
      assert a + s == s;
      assert a + Split(s, seps)[0] == Split(s, seps)[0];
      assert [Split(s, seps)[0]] + Split(s, seps)[1..] == Split(s, seps);
    } else {
      SplitPrefix(a[1..], s, seps);
      assert (a + s)[1..] == a[1..] + s;
      assert [a[0]] + (a[1..] + Split(s, seps)[0]) == a + Split(s, seps)[0];
    }
  }

  /** Splitting joined pieces that hold no separator gives the pieces back. */
  lemma {:induction false} SplitJoin(parts: seq<string>, c: char)
    requires |parts| >= 1
    requires forall i, j :: 0 <= i < |parts| && 0 <= j < |parts[i]| ==> parts[i][j] != c
    ensures Split(Join(parts, [c]), {c}) == parts
  {
    if |parts| == 1 {
      SplitPrefix(parts[0], "", {c});
      assert parts[0] + "" == parts[0];
    } else {
      var rest := Join(parts[1..], [c]);
      SplitJoin(parts[1..], c);
      assert Join(parts, [c]) == parts[0] + ([c] + rest);
      SplitPrefix(parts[0], [c] + rest, {c});
      assert ([c] + rest)[1..] == rest;
      assert parts[0] + "" == parts[0];
      assert parts == [parts[0]] + parts[1..];
    }
  }

  predicate IsDigit(c: char) {
    '0' <= c <= '9'
  }

  predicate AllDigits(s: string) {
    forall k :: 0 <= k < |s| ==> IsDigit(s[k])
  }

  /** The number a string of decimal digits denotes. */
  function DigitsValue(s: string): nat
    requires AllDigits(s)
    decreases |s|
  {
    if |s| == 0 then 0 else DigitsValue(s[..|s| - 1]) * 10 + (s[|s| - 1] as int - '0' as int)
  }

  function DigitChar(d: nat): char
    requires d < 10
  {
    ('0' as int + d) as char
  }

  /** Decimal text of a natural number, without leading zeros (Python str/JavaScript String). */
  function NatToText(n: nat): string
    decreases n
  {
    if n < 10 then [DigitChar(n)] else NatToText(n / 10) + [DigitChar(n % 10)]
  }

  /** Decimal text of an integer, with a leading '-' when negative. */
  function IntToText(i: int): string {
    if i < 0 then "-" + NatToText(-i) else NatToText(i)
  }

  /** Index of the first `c` in `s`, or |s| when there is none. */
  function IndexOf(s: string, c: char): (k: nat)
    ensures k <= |s|
    ensures k < |s| ==> s[k] == c
    ensures forall j :: 0 <= j < k ==> s[j] != c
  {
    if |s| == 0 then 0 else if s[0] == c then 0 else 1 + IndexOf(s[1..], c)
  }

  /** An optional leading sign: whether it is '-', and the rest. */
  function SplitSign(t: string): (bool, string) {
    if |t| > 0 && (t[0] == '-' || t[0] == '+') then (t[0] == '-', t[1..]) else (false, t)
  }

  function Signed(negative: bool, n: nat): int {
    if negative then -(n as int) else n
  }

  /**
   * Python int(float(s)) on decimal text: surrounding whitespace, an optional
   * sign, digits with an optional fraction part and at least one digit in all.
   * The fraction is dropped, so the result is truncated toward zero. Any other
   * text raises ValueError.
   */
  function FloatToInt(s: string): Result<int> {
    var (negative, body) := SplitSign(Strip(s));
    var k := IndexOf(body, '.');
    var whole := body[..k];
    var fraction := if k < |body| then body[k + 1..] else "";
    if AllDigits(whole) && AllDigits(fraction) && |whole| + |fraction| > 0
    then Ok(Signed(negative, DigitsValue(whole)))
    else Err(ValueError(s))
  }

  /** Python int(s) on decimal text: surrounding whitespace, an optional sign and digits; no fraction. */
  function ToInt(s: string): Result<int> {
    var (negative, body) := SplitSign(Strip(s));
    if |body| > 0 && AllDigits(body) then Ok(Signed(negative, DigitsValue(body))) else Err(ValueError(s))
  }

  lemma {:induction false} NatToTextDigits(n: nat)
    ensures |NatToText(n)| > 0 && AllDigits(NatToText(n))
    ensures DigitsValue(NatToText(n)) == n
    decreases n
  {
    if n >= 10 {
      NatToTextDigits(n / 10);
      var t := NatToText(n / 10) + [DigitChar(n % 10)];
      assert t[..|t| - 1] == NatToText(n / 10);
    }
  }

  lemma IntToTextShape(i: int)
    ensures Trimmed(IntToText(i))
    ensures '.' !in IntToText(i)
    ensures SplitSign(IntToText(i)) == (i < 0, NatToText(if i < 0 then -i else i))
  {
    var n := if i < 0 then -i else i;
    NatToTextDigits(n);
    var t := NatToText(n);
    assert IsDigit(t[0]) && IsDigit(t[|t| - 1]);
    if i < 0 {
      assert ("-" + t)[1..] == t;
    }
  }

  /** int(float(...)) reads back the decimal text of any integer. */
  lemma FloatToIntReadsIntText(i: int)
    ensures FloatToInt(IntToText(i)) == Ok(i)
  {
    var n := if i < 0 then -i else i;
    NatToTextDigits(n);
    IntToTextShape(i);
    StripTrimmed(IntToText(i));
    var body := NatToText(n);
    assert IndexOf(body, '.') == |body|;
    assert body[..|body|] == body;
  }

  /** Text made of the decimal text of `i` and a suffix that does not end in whitespace. */
  lemma IntTextWithSuffix(i: int, suffix: string)
    requires suffix != [] && !IsSpace(suffix[|suffix| - 1])
    ensures Strip(IntToText(i) + suffix) == IntToText(i) + suffix
    ensures SplitSign(IntToText(i) + suffix) == (i < 0, NatToText(if i < 0 then -i else i) + suffix)
  {
    IntTextWithSuffixTrimmed(i, suffix);
    IntTextWithSuffixSign(i, suffix);
  }

  lemma IntTextWithSuffixTrimmed(i: int, suffix: string)
    requires suffix != [] && !IsSpace(suffix[|suffix| - 1])
    ensures Strip(IntToText(i) + suffix) == IntToText(i) + suffix
  {
    var n := if i < 0 then -i else i;
    NatToTextDigits(n);
    IntToTextShape(i);
    var t := IntToText(i) + suffix;
    var c := IntToText(i)[0];
    assert IsDigit(c) || c == '-';
    assert !IsSpace(c);
    assert t[0] == c;
    assert t[|t| - 1] == suffix[|suffix| - 1];
    StripTrimmed(t);
  }

  lemma IntTextWithSuffixSign(i: int, suffix: string)
    ensures SplitSign(IntToText(i) + suffix) == (i < 0, NatToText(if i < 0 then -i else i) + suffix)
  {
    var n := if i < 0 then -i else i;
    NatToTextDigits(n);
    IntToTextShape(i);
    var t := IntToText(i) + suffix;
    if i < 0 {
      assert t == "-" + (NatToText(n) + suffix);
    } else {
      assert IsDigit(t[0]);
    }
  }

  /** float() of a sign, digits, a '.' and digits. */
  lemma FloatToIntOfParts(s: string, negative: bool, whole: string, fraction: string)
    requires SplitSign(Strip(s)) == (negative, whole + "." + fraction)
    requires AllDigits(whole) && AllDigits(fraction) && |whole| > 0
    ensures FloatToInt(s) == Ok(Signed(negative, DigitsValue(whole)))
  {
    var body := whole + "." + fraction;
    assert body[|whole|] == '.';
    assert IndexOf(body, '.') == |whole|;
    assert body[..|whole|] == whole;
    assert body[|whole| + 1..] == fraction;
  }

  /** int(float(...)) drops any fraction: "3.0", "3.75" and "-3.7" give 3, 3 and -3. */
  lemma FloatToIntTruncates(i: int, fraction: string)
    requires AllDigits(fraction)
    ensures FloatToInt(IntToText(i) + "." + fraction) == Ok(i)
  {
    var n := if i < 0 then -i else i;
    var suffix := "." + fraction;
    var t := IntToText(i) + suffix;
    assert t == IntToText(i) + "." + fraction;
    assert suffix[|suffix| - 1] == '.' || IsDigit(suffix[|suffix| - 1]);
    IntTextWithSuffix(i, suffix);
    NatToTextDigits(n);
    assert NatToText(n) + suffix == NatToText(n) + "." + fraction;
    FloatToIntOfParts(t, i < 0, NatToText(n), fraction);
  }

  /** int(...) reads back the decimal text of any integer. */
  lemma ToIntReadsIntText(i: int)
    ensures ToInt(IntToText(i)) == Ok(i)
  {
    var n := if i < 0 then -i else i;
    NatToTextDigits(n);
    IntToTextShape(i);
    StripTrimmed(IntToText(i));
  }

  /** int(...) refuses float text such as "3.0", which int(float(...)) accepts. */
  lemma ToIntRefusesFraction(i: int)
    ensures ToInt(IntToText(i) + ".0") == Err(ValueError(IntToText(i) + ".0"))
    ensures FloatToInt(IntToText(i) + ".0") == Ok(i)
  {
    var n := if i < 0 then -i else i;
    var t := IntToText(i) + ".0";
    IntTextWithSuffix(i, ".0");
    NatToTextDigits(n);
    var body := NatToText(n) + ".0";
    assert !IsDigit(body[|NatToText(n)|]);
    assert !AllDigits(SplitSign(Strip(t)).1);
    FloatToIntTruncates(i, "0");
    assert IntToText(i) + "." + "0" == t;
  }
}
