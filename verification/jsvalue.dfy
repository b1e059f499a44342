/**
 JavaScript values as the client sees them after `res.json()`: a JSON tree,
 plus the two pieces of JavaScript semantics the client leans on everywhere,
 optional chaining (`a?.b?.c`, where a missing step yields `undefined`) and
 truthiness (`if (!x)`, `x || fallback`, `filter(Boolean)`).
 */
module JsValue {
  import Text

  /** `None` stands for JavaScript's `undefined` (or a `null` reference). */
  datatype Option<+T> = None | Some(value: T) {
    function GetOr(default: T): T {
      match this
      case Some(v) => v
      case None => default
    }
  }

  datatype Json =
    | JNull
    | JBool(b: bool)
    | JNum(n: int)
    | JStr(s: string)
    | JArr(items: seq<Json>)
    | JObj(fields: map<string, Json>)

  /** JavaScript truthiness of a possibly-undefined value. */
  predicate Truthy(v: Option<Json>) {
    match v
    case None => false
    case Some(JNull) => false
    case Some(JBool(b)) => b
    case Some(JNum(n)) => n != 0
    case Some(JStr(s)) => s != ""
    case Some(JArr(_)) => true
    case Some(JObj(_)) => true
  }

  /** `x || fallback` */
  function Or(x: Option<Json>, fallback: Option<Json>): (r: Option<Json>)
    ensures Truthy(x) ==> r == x
    ensures !Truthy(x) ==> r == fallback
  {
    if Truthy(x) then x else fallback
  }

  /** `o?.key`: a property read that yields undefined on anything but an object holding the key. */
  function Get(o: Option<Json>, key: string): (r: Option<Json>)
    ensures r.Some? <==> (o.Some? && o.value.JObj? && key in o.value.fields)
    ensures r.Some? ==> r.value == o.value.fields[key]
  {
    match o
    case Some(JObj(f)) => if key in f then Some(f[key]) else None
    case _ => None
  }

  /** `o?.k1?.k2?...`: optional chaining along a path of keys. */
  function Path(o: Option<Json>, keys: seq<string>): Option<Json>
    decreases |keys|
  {
    if |keys| == 0 then o else Path(Get(o, keys[0]), keys[1..])
  }

  /** A two-step chain `o?.a?.b` is two property reads. */
  lemma PathPair(o: Option<Json>, a: string, b: string)
    ensures Path(o, [a, b]) == Get(Get(o, a), b)
  {
    assert [a, b][1..] == [b];
    assert [b][1..] == [];
    calc {
      Path(o, [a, b]);
      Path(Get(o, a), [b]);
      Path(Get(Get(o, a), b), []);
    }
  }

  /** A property read on a plain object, `undefined` when the key is absent. */
  function Lookup(m: map<string, Json>, key: string): (r: Option<Json>)
    ensures r.Some? <==> key in m
  {
    if key in m then Some(m[key]) else None
  }

  /**
   `{...m, [key]: v}`. Writing `undefined` is modelled as removing the key:
   a later read gives `undefined` either way.
   */
  function Assign(m: map<string, Json>, key: string, v: Option<Json>): (r: map<string, Json>)
    ensures Lookup(r, key) == v
    ensures forall k :: k != key ==> Lookup(r, k) == Lookup(m, k)
  {
    match v
    case Some(x) => m[key := x]
    case None => m - {key}
  }

  /** Two objects that answer every property read alike are the same object. */
  lemma LookupExtensional(a: map<string, Json>, b: map<string, Json>)
    requires forall k :: Lookup(a, k) == Lookup(b, k)
    ensures a == b
  {
    forall k ensures k in a <==> k in b {
      assert Lookup(a, k).Some? <==> Lookup(b, k).Some?;
    }
    forall k | k in a ensures a[k] == b[k] {
      assert Lookup(a, k) == Lookup(b, k);
    }
  }

  /** Of two writes to the same key, the second wins. */
  lemma AssignTwice(m: map<string, Json>, key: string, v: Option<Json>, w: Option<Json>)
    ensures Assign(Assign(m, key, v), key, w) == Assign(m, key, w)
  {
    var a, b := Assign(Assign(m, key, v), key, w), Assign(m, key, w);
    forall k ensures Lookup(a, k) == Lookup(b, k) {
    }
    LookupExtensional(a, b);
  }

  /** The properties `{...items}` gives a list: index `i` under the name `String(i)`. */
  function IndexFields(items: seq<Json>): map<string, Json> {
    Text.DigitsInjective();
    map i | 0 <= i < |items| :: Text.Digits(i) := items[i]
  }

  /** A string spreads as the list of its one-character strings. */
  function Chars(s: string): (r: seq<Json>)
    ensures |r| == |s|
    ensures forall i :: 0 <= i < |s| ==> r[i] == JStr([s[i]])
  {
    seq(|s|, i requires 0 <= i < |s| => JStr([s[i]]))
  }

  /**
   `{...x}` for a value spread into an object literal: an object gives its
   fields; a list or a string gives one property per index, named
   `String(i)` and holding the element or the one-character string; any other
   value gives nothing.
   */
  function FieldsOf(v: Option<Json>): map<string, Json> {
    match v
    case Some(JObj(f)) => f
    case Some(JArr(items)) => IndexFields(items)
    case Some(JStr(s)) => IndexFields(Chars(s))
    case _ => map[]
  }

  /** The index properties are exactly `String(0)` to `String(n - 1)`, each holding its element. */
  lemma IndexFieldsLookup(items: seq<Json>)
    ensures forall i :: 0 <= i < |items| ==> Lookup(IndexFields(items), Text.Digits(i)) == Some(items[i])
    ensures forall k :: k in IndexFields(items) ==> exists i :: 0 <= i < |items| && k == Text.Digits(i)
  {
    Text.DigitsInjective();
    var m := IndexFields(items);
    forall i | 0 <= i < |items| ensures Lookup(m, Text.Digits(i)) == Some(items[i]) {
      assert Text.Digits(i) in m;
    }
  }

  /** What each kind of value contributes when spread into an object literal. */
  lemma SpreadKeys(v: Option<Json>)
    ensures v.Some? && v.value.JObj? ==> FieldsOf(v) == v.value.fields
    ensures v.Some? && v.value.JArr? ==>
      && (forall i :: 0 <= i < |v.value.items| ==> Lookup(FieldsOf(v), Text.Digits(i)) == Some(v.value.items[i]))
      && (forall k :: k in FieldsOf(v) ==> exists i :: 0 <= i < |v.value.items| && k == Text.Digits(i))
    ensures v.Some? && v.value.JStr? ==>
      && (forall i :: 0 <= i < |v.value.s| ==> Lookup(FieldsOf(v), Text.Digits(i)) == Some(JStr([v.value.s[i]])))
      && (forall k :: k in FieldsOf(v) ==> exists i :: 0 <= i < |v.value.s| && k == Text.Digits(i))
    ensures v.None? || v.value.JNull? || v.value.JBool? || v.value.JNum? ==> FieldsOf(v) == map[]
  {
    match v
    case Some(JArr(items)) => IndexFieldsLookup(items);
    case Some(JStr(s)) => IndexFieldsLookup(Chars(s));
    case _ =>
  }
}
