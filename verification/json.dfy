/** Parsed JSON values as JavaScript sees them: truthiness, the own
    properties `Object.keys`/`Object.entries` enumerate, and property reads
    that throw on `undefined` and `null`. Only own properties are modelled:
    a read never reaches the prototype chain. */
module Json {
  import opened Wrappers
  import opened Exceptions

  /** A value `JSON.parse` can produce. An object's members are listed in the
      order JavaScript enumerates them, which is also the order every
      transformation below preserves. */
  datatype JValue =
    | JNull
    | JBool(b: bool)
    | JNum(n: real)
    | JStr(s: string)
    | JArr(items: seq<JValue>)
    | JObj(members: seq<(string, JValue)>)

  /** JavaScript truthiness of a possibly `undefined` (None) value: `undefined`,
      `null`, `false`, `0` and `""` are falsy; arrays and objects, even empty
      ones, are truthy. */
  predicate Truthy(v: Option<JValue>)
  {
    match v
    case None => false
    case Some(JNull) => false
    case Some(JBool(b)) => b
    case Some(JNum(n)) => n != 0.0
    case Some(JStr(s)) => s != ""
    case Some(JArr(_)) => true
    case Some(JObj(_)) => true
  }

  /** `undefined` or `null`: the values whose properties cannot be read. */
  predicate Nullish(v: Option<JValue>)
  {
    v.None? || v.value.JNull?
  }

  /** The keys of an ordered list of entries, in order. */
  function Keys<V>(entries: seq<(string, V)>): seq<string>
  {
    seq(|entries|, i requires 0 <= i < |entries| => entries[i].0)
  }

  /** The keys of a non-empty list: the first entry's key, then the rest's. */
  lemma KeysCons<V>(entries: seq<(string, V)>)
    requires |entries| > 0
    ensures Keys(entries) == [entries[0].0] + Keys(entries[1..])
  {
  }

  /** The value under the first entry with key `key`, if any. */
  function Lookup<V>(entries: seq<(string, V)>, key: string): (r: Option<V>)
    ensures r.Some? <==> key in Keys(entries)
    ensures r.Some? ==> (key, r.value) in entries
  {
    if |entries| == 0 then None
    else if entries[0].0 == key then
      assert Keys(entries)[0] == key;
      Some(entries[0].1)
    else
      var r := Lookup(entries[1..], key);
      assert Keys(entries) == [entries[0].0] + Keys(entries[1..]);
      r
  }

  /** The decimal digit `d` as a character. */
  function DigitChar(d: nat): char
    requires d < 10
  {
    ('0' as int + d) as char
  }

  /** The canonical decimal spelling of `n`, which is how JavaScript names the
      index properties of arrays and strings. */
  function IndexKey(n: nat): (k: string)
    ensures |k| > 0
    ensures (n < 10) == (|k| == 1)
    decreases n
  {
    if n < 10 then [DigitChar(n)] else IndexKey(n / 10) + [DigitChar(n % 10)]
  }

  /** The own enumerable properties of a non-null value, in enumeration order:
      an object's members; an array's items and a string's one-character
      substrings under their decimal indices; nothing for booleans and numbers. */
  function OwnProperties(v: JValue): seq<(string, JValue)>
  {
    match v
    case JObj(ms) => ms
    case JArr(xs) => seq(|xs|, i requires 0 <= i < |xs| => (IndexKey(i), xs[i]))
    case JStr(s) => seq(|s|, i requires 0 <= i < |s| => (IndexKey(i), JStr([s[i]])))
    case _ => []
  }

  /** `Object.keys(v)` / `Object.entries(v)`: throws on `undefined` and `null`. */
  function Entries(v: Option<JValue>): (r: Result<seq<(string, JValue)>, Exception>)
    ensures r.Failure? <==> Nullish(v)
    ensures r.Failure? ==> r.error == ConvertNullish
    ensures r.Success? ==> r.value == OwnProperties(v.value)
  {
    match v
    case None => Failure(ConvertNullish)
    case Some(JNull) => Failure(ConvertNullish)
    case Some(x) => Success(OwnProperties(x))
  }

  /** The property read `v.key`: throws on `undefined` and `null`, and
      otherwise yields the own property, or `undefined` (None) if there is none. */
  function Get(v: Option<JValue>, key: string): (r: Result<Option<JValue>, Exception>)
    ensures r.Failure? <==> Nullish(v)
    ensures r.Success? ==> r.value == Lookup(OwnProperties(v.value), key)
  {
    match v
    case None => Failure(ReadOfNullish(false, key))
    case Some(JNull) => Failure(ReadOfNullish(true, key))
    case Some(x) => Success(Lookup(OwnProperties(x), key))
  }

  /** The chained read `v.path[0].path[1]...`, throwing at the first step that
      reads a property of `undefined` or `null`. */
  function Resolve(v: Option<JValue>, path: seq<string>): Result<Option<JValue>, Exception>
    decreases |path|
  {
    if |path| == 0 then Success(v)
    else
      var next :- Get(v, path[0]);
      Resolve(next, path[1..])
  }

  /** The read succeeded and produced a value whose properties can be read. */
  predicate Defined(r: Result<Option<JValue>, Exception>)
  {
    r.Success? && !Nullish(r.value)
  }

  /** Index keys name distinct properties: distinct indices are spelled differently. */
  lemma {:induction false} IndexKeyInjective(m: nat, n: nat)
    requires m != n
    ensures IndexKey(m) != IndexKey(n)
    decreases m + n
  {
    if m >= 10 && n >= 10 {
      var km, kn := IndexKey(m), IndexKey(n);
      if m / 10 != n / 10 {
        IndexKeyInjective(m / 10, n / 10);
        assert km[..|km| - 1] == IndexKey(m / 10);
        assert kn[..|kn| - 1] == IndexKey(n / 10);
      } else {
        assert km[|km| - 1] == DigitChar(m % 10);
        assert kn[|kn| - 1] == DigitChar(n % 10);
      }
    }
  }

  /** No key is listed twice. `JSON.parse` keeps one member per key, so every
      object it produces has this shape. */
  predicate DistinctKeys<V>(entries: seq<(string, V)>)
  {
    forall i, j :: 0 <= i < j < |entries| ==> entries[i].0 != entries[j].0
  }

  /** Among distinct keys, the lookup of an entry's key finds that entry. */
  lemma {:induction false} LookupAt<V>(entries: seq<(string, V)>, i: nat)
    requires DistinctKeys(entries) && i < |entries|
    ensures Lookup(entries, entries[i].0) == Some(entries[i].1)
    decreases i
  {
    if i > 0 {
      assert entries[0].0 != entries[i].0;
      assert DistinctKeys(entries[1..]) by {
        forall a, b | 0 <= a < b < |entries[1..]|
          ensures entries[1..][a].0 != entries[1..][b].0
        {
          assert entries[1..][a] == entries[a + 1] && entries[1..][b] == entries[b + 1];
        }
      }
      LookupAt(entries[1..], i - 1);
      assert entries[1..][i - 1] == entries[i];
    }
  }

  /** Arrays and strings enumerate distinct index keys. */
  lemma IndexKeysDistinct(v: JValue)
    requires !v.JObj?
    ensures DistinctKeys(OwnProperties(v))
  {
    forall i, j | 0 <= i < j < |OwnProperties(v)|
      ensures OwnProperties(v)[i].0 != OwnProperties(v)[j].0
    {
      IndexKeyInjective(i, j);
    }
  }

  /** Reading back a key that `Object.keys` enumerated yields the value
      `Object.entries` pairs with it, for any value `JSON.parse` produces. */
  lemma ReadEnumeratedKey(v: JValue, i: nat)
    requires i < |OwnProperties(v)|
    requires v.JObj? ==> DistinctKeys(v.members)
    ensures Get(Some(v), OwnProperties(v)[i].0) == Success(Some(OwnProperties(v)[i].1))
  {
    if !v.JObj? {
      IndexKeysDistinct(v);
    }
    LookupAt(OwnProperties(v), i);
  }
}
