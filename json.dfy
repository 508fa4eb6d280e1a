/**
 * JSON values and records. A record is an ordered list of (key, value) pairs,
 * because both Python dicts and JavaScript objects keep insertion order, and
 * key position is visible in the written JSON.
 */
module Json {
  import opened Wrappers

  datatype Value =
    | Null
    | Str(s: string)
    | Bool(b: bool)
    | Int(i: int)
    | List(items: seq<Value>)
    | Obj(fields: seq<(string, Value)>)

  type Record = seq<(string, Value)>

  /** One row as csv.DictReader yields it: column name to cell text, in header order. */
  type Row = seq<(string, string)>

  function Keys(r: Record): seq<string> {
    seq(|r|, i requires 0 <= i < |r| => r[i].0)
  }

  function RowKeys(row: Row): seq<string> {
    seq(|row|, i requires 0 <= i < |row| => row[i].0)
  }

  /** Position of key `k`, or |r| when `k` is not a key. */
  function KeyIndex(r: Record, k: string): (i: nat)
    ensures i <= |r|
    ensures i < |r| ==> r[i].0 == k
    ensures forall j :: 0 <= j < i ==> r[j].0 != k
  {
    if |r| == 0 then 0 else if r[0].0 == k then 0 else 1 + KeyIndex(r[1..], k)
  }

  /** `d.get(k)` / `obj.k`: the value under `k`, None when absent (undefined in JavaScript). */
  function Get(r: Record, k: string): Option<Value> {
    var i := KeyIndex(r, k);
    if i < |r| then Some(r[i].1) else None
  }

  /** The cell of column `k` in a raw row, None when the row has no such column. */
  function RowGet(row: Row, k: string): Option<string> {
    if |row| == 0 then None else if row[0].0 == k then Some(row[0].1) else RowGet(row[1..], k)
  }

  /** `d[k] = v` / `{...d, k: v}`: an existing key keeps its place, a new key goes last. */
  function Put(r: Record, k: string, v: Value): Record {
    var i := KeyIndex(r, k);
    if i < |r| then r[i := (k, v)] else r + [(k, v)]
  }

  /** `{k2: v for k2, v in d.items() if k2 != k}`. */
  function Delete(r: Record, k: string): Record {
    if |r| == 0 then [] else (if r[0].0 == k then [] else [r[0]]) + Delete(r[1..], k)
  }

  /** The keys `ks` without `k`, the others in their order. */
  function Without(ks: seq<string>, k: string): seq<string> {
    if |ks| == 0 then [] else (if ks[0] == k then [] else [ks[0]]) + Without(ks[1..], k)
  }

  /** `{k: f(k, v) for k, v in d.items()}`. */
  function MapFields(r: Record, f: (string, Value) -> Value): Record {
    seq(|r|, i requires 0 <= i < |r| => (r[i].0, f(r[i].0, r[i].1)))
  }

  /**
   * A list comprehension whose element expression can raise: the first element,
   * in order, whose computation fails decides the exception.
   */
  function TryMap<A, B>(xs: seq<A>, f: A -> Result<B>): Result<seq<B>> {
    if |xs| == 0 then Ok([])
    else
      var y :- f(xs[0]);
      var ys :- TryMap(xs[1..], f);
      Ok([y] + ys)
  }

  /** `{k: f(k, v) for k, v in d.items()}` when `f` can raise. */
  function TryFields(r: Record, f: (string, Value) -> Result<Value>): Result<Record> {
    TryMap(r, (p: (string, Value)) => match f(p.0, p.1) case Ok(v) => Ok((p.0, v)) case Err(e) => Err(e))
  }

  /** A result list, wrapped as the single-key container `{key: [...]}`. */
  function Container(key: string, records: seq<Record>): Value {
    Obj([(key, List(seq(|records|, i requires 0 <= i < |records| => Obj(records[i]))))])
  }

  /** TryMap succeeds exactly when every element succeeds, and then maps each element in place. */
  lemma {:induction false} TryMapSpec<A, B>(xs: seq<A>, f: A -> Result<B>)
    ensures TryMap(xs, f).Ok? <==> forall i :: 0 <= i < |xs| ==> f(xs[i]).Ok?
    ensures TryMap(xs, f).Ok? ==>
      |TryMap(xs, f).value| == |xs| && forall i :: 0 <= i < |xs| ==> TryMap(xs, f).value[i] == f(xs[i]).value
  {
    if |xs| > 0 {
      TryMapSpec(xs[1..], f);
      if f(xs[0]).Ok? && TryMap(xs[1..], f).Ok? {
        var ys := TryMap(xs[1..], f).value;
        assert TryMap(xs, f).value == [f(xs[0]).value] + ys;
        forall i | 0 <= i < |xs| ensures TryMap(xs, f).value[i] == f(xs[i]).value {
          if i > 0 { assert xs[i] == xs[1..][i - 1]; }
        }
      } else if f(xs[0]).Ok? {
        var i :| 0 <= i < |xs[1..]| && !f(xs[1..][i]).Ok?;
        assert !f(xs[i + 1]).Ok?;
      }
    }
  }

  /** When TryMap fails, its exception is that of the first failing element. */
  lemma {:induction false} TryMapFirstError<A, B>(xs: seq<A>, f: A -> Result<B>)
    requires TryMap(xs, f).Err?
    ensures exists i :: 0 <= i < |xs| && f(xs[i]) == Err(TryMap(xs, f).error) &&
                        forall j :: 0 <= j < i ==> f(xs[j]).Ok?
  {
    if f(xs[0]).Ok? {
      TryMapFirstError(xs[1..], f);
      var i :| 0 <= i < |xs[1..]| && f(xs[1..][i]) == Err(TryMap(xs[1..], f).error) &&
        forall j :: 0 <= j < i ==> f(xs[1..][j]).Ok?;
      assert f(xs[i + 1]) == Err(TryMap(xs, f).error);
      forall j | 0 <= j < i + 1 ensures f(xs[j]).Ok? {
        if j > 0 { assert xs[j] == xs[1..][j - 1]; }
      }
    }
  }

  /** TryFields succeeds exactly when every field succeeds, and then keeps every key in place. */
  lemma TryFieldsSpec(r: Record, f: (string, Value) -> Result<Value>)
    ensures TryFields(r, f).Ok? <==> forall i :: 0 <= i < |r| ==> f(r[i].0, r[i].1).Ok?
    ensures TryFields(r, f).Ok? ==>
      |TryFields(r, f).value| == |r| &&
      forall i :: 0 <= i < |r| ==> TryFields(r, f).value[i] == (r[i].0, f(r[i].0, r[i].1).value)
  {
    var g := (p: (string, Value)) => match f(p.0, p.1) case Ok(v) => Ok((p.0, v)) case Err(e) => Err(e);
    TryMapSpec(r, g);
    assert forall i :: 0 <= i < |r| ==> (g(r[i]).Ok? <==> f(r[i].0, r[i].1).Ok?);
  }

  /** When TryFields fails, its exception is that of the first failing field. */
  lemma TryFieldsFirstError(r: Record, f: (string, Value) -> Result<Value>)
    requires TryFields(r, f).Err?
    ensures exists j :: 0 <= j < |r| && f(r[j].0, r[j].1) == Err(TryFields(r, f).error) &&
                        forall j' :: 0 <= j' < j ==> f(r[j'].0, r[j'].1).Ok?
  {
    var g := (p: (string, Value)) => match f(p.0, p.1) case Ok(v) => Ok((p.0, v)) case Err(e) => Err(e);
    TryMapFirstError(r, g);
    var j :| 0 <= j < |r| && g(r[j]) == Err(TryMap(r, g).error) && forall j' :: 0 <= j' < j ==> g(r[j']).Ok?;
    assert f(r[j].0, r[j].1) == Err(TryFields(r, f).error);
  }

  /** Reading back a key just written gives the written value, and other keys are untouched. */
  lemma GetPut(r: Record, k: string, v: Value, k': string)
    ensures Get(Put(r, k, v), k) == Some(v)
    ensures k' != k ==> Get(Put(r, k, v), k') == Get(r, k')
    ensures Keys(Put(r, k, v)) == if k in Keys(r) then Keys(r) else Keys(r) + [k]
  {
    var i := KeyIndex(r, k);
    var r' := Put(r, k, v);
    if i < |r| {
      assert r' == r[i := (k, v)];
      var m := KeyIndex(r', k);
      assert r'[i].0 == k;
      assert forall j :: 0 <= j < i ==> r'[j] == r[j];
      assert m == i;
      assert k in Keys(r) by { assert Keys(r)[i] == k; }
      if k' != k {
        KeyIndexAgree(r, r', k');
      }
    } else {
      assert k !in Keys(r);
      KeyIndexOfAppend(r, k, v, k);
      if k' != k {
        KeyIndexOfAppend(r, k, v, k');
      }
    }
    assert Keys(r') == if k in Keys(r) then Keys(r) else Keys(r) + [k];
  }

  /** Two records with the same keys, and equal pairs wherever the key is `k`, agree on `k`. */
  lemma {:induction false} KeyIndexAgree(r: Record, r': Record, k: string)
    requires |r| == |r'|
    requires forall j :: 0 <= j < |r| ==> r[j].0 == r'[j].0
    requires forall j :: 0 <= j < |r| && r[j].0 == k ==> r[j] == r'[j]
    ensures KeyIndex(r, k) == KeyIndex(r', k)
    ensures Get(r, k) == Get(r', k)
  {
    if |r| > 0 && r[0].0 != k {
      KeyIndexAgree(r[1..], r'[1..], k);
    }
  }

  lemma {:induction false} KeyIndexOfAppend(r: Record, k: string, v: Value, k': string)
    requires KeyIndex(r, k) == |r|
    ensures Get(r + [(k, v)], k) == Some(v)
    ensures k' != k ==> Get(r + [(k, v)], k') == Get(r, k')
  {
    if |r| > 0 {
      assert (r + [(k, v)])[1..] == r[1..] + [(k, v)];
      KeyIndexOfAppend(r[1..], k, v, k');
    }
  }

  /** After Delete the key is gone, every other key reads as before, and the other keys keep their order. */
  lemma {:induction false} GetDelete(r: Record, k: string, k': string)
    ensures Get(Delete(r, k), k) == None
    ensures k' != k ==> Get(Delete(r, k), k') == Get(r, k')
    ensures k !in Keys(Delete(r, k))
  {
    if |r| > 0 {
      GetDelete(r[1..], k, k');
      var rest := Delete(r[1..], k);
      if r[0].0 != k {
        assert Delete(r, k) == [r[0]] + rest;
        assert ([r[0]] + rest)[1..] == rest;
        assert Keys(Delete(r, k)) == [r[0].0] + Keys(rest);
      } else {
        assert Delete(r, k) == rest;
      }
    }
  }

  /** The value at a position whose key no earlier pair has is what Get reads for that key. */
  lemma GetAt(r: Record, i: nat)
    requires i < |r| && forall j :: 0 <= j < i ==> r[j].0 != r[i].0
    ensures Get(r, r[i].0) == Some(r[i].1)
  {
  }

  /** Delete drops the key from the key list and keeps every other key in its place. */
  lemma {:induction false} KeysDelete(r: Record, k: string)
    ensures Keys(Delete(r, k)) == Without(Keys(r), k)
  {
    if |r| > 0 {
      KeysDelete(r[1..], k);
      assert Keys(r)[1..] == Keys(r[1..]);
      if r[0].0 != k {
        assert Keys([r[0]] + Delete(r[1..], k)) == [r[0].0] + Keys(Delete(r[1..], k));
      }
    }
  }

  /** Without removes exactly `k`, and leaves a list without `k` as it is. */
  lemma {:induction false} WithoutSpec(ks: seq<string>, k: string, x: string)
    ensures x in Without(ks, k) <==> x in ks && x != k
    ensures k !in ks ==> Without(ks, k) == ks
  {
    if |ks| > 0 {
      WithoutSpec(ks[1..], k, x);
      assert ks == [ks[0]] + ks[1..];
    }
  }

  /** Mapping over the values keeps the keys, in order. */
  lemma MapFieldsKeys(r: Record, f: (string, Value) -> Value)
    ensures Keys(MapFields(r, f)) == Keys(r)
  {
  }
}
