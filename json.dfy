/**
 * Decoded JSON values as `webtest.go` compares them with `equalJSON`:
 * nested objects are compared key by key, every other value by the text
 * `fmt.Sprintf("%v", v)` gives for it.
 */
module Json {

  /**
   * A value as `encoding/json` decodes it into `any`. A number carries the
   * text `%v` prints for it; Go's float formatting is not part of this model.
   */
  datatype Json =
    | Object(fields: map<string, Json>)
    | Array(items: seq<Json>)
    | Str(s: string)
    | Number(text: string)
    | Bool(b: bool)
    | Null

  /** Byte-wise (code point) order of strings, the order `%v` prints map keys in. */
  predicate Below(a: string, b: string) {
    if a == [] then b != []
    else if b == [] then false
    else a[0] < b[0] || (a[0] == b[0] && Below(a[1..], b[1..]))
  }

  /** Different strings are ordered one way or the other. */
  lemma {:induction false} BelowTotal(a: string, b: string)
    requires a != b
    ensures Below(a, b) || Below(b, a)
  {
    if a != [] && b != [] && a[0] == b[0] {
      assert a == [a[0]] + a[1..] && b == [b[0]] + b[1..];
      BelowTotal(a[1..], b[1..]);
    }
  }

  lemma {:induction false} BelowTransitive(a: string, b: string, c: string)
    requires Below(a, b) && Below(b, c)
    ensures Below(a, c)
  {
    if a != [] && a[0] == b[0] && b[0] == c[0] {
      BelowTransitive(a[1..], b[1..], c[1..]);
    }
  }

  /** Two strings are never below each other. */
  lemma {:induction false} BelowAsymmetric(a: string, b: string)
    ensures !(Below(a, b) && Below(b, a))
  {
    if a != [] && b != [] && a[0] == b[0] {
      BelowAsymmetric(a[1..], b[1..]);
    }
  }

  /** `k` is the least string of `keys`. */
  predicate IsLeast(k: string, keys: set<string>) {
    k in keys && forall y :: y in keys ==> y == k || Below(k, y)
  }

  /** A finite non-empty set of strings has a least element. */
  lemma {:induction false} LeastExists(keys: set<string>)
    requires keys != {}
    ensures exists k :: IsLeast(k, keys)
    decreases |keys|
  {
    var x :| x in keys;
    if keys != {x} {
      LeastExists(keys - {x});
      var m :| IsLeast(m, keys - {x});
      if Below(x, m) {
        forall y | y in keys && y != x ensures Below(x, y) {
          if y != m { BelowTransitive(x, m, y); }
        }
        assert IsLeast(x, keys);
      } else {
        BelowTotal(x, m);
        assert IsLeast(m, keys);
      }
    } else {
      assert IsLeast(x, keys);
    }
  }

  /** There is only one least element. */
  lemma LeastUnique(keys: set<string>)
    ensures forall k, k' :: IsLeast(k, keys) && IsLeast(k', keys) ==> k == k'
  {
    forall k, k' | IsLeast(k, keys) && IsLeast(k', keys) ensures k == k' {
      BelowAsymmetric(k, k');
    }
  }

  /** Every string of `ks` is below every later one. */
  predicate Ascending(ks: seq<string>) {
    forall i, j :: 0 <= i < j < |ks| ==> Below(ks[i], ks[j])
  }

  /** The keys of a map in the order `%v` prints them: ascending, each once. */
  function SortedKeys(keys: set<string>): (r: seq<string>)
    ensures |r| == |keys|
    ensures forall k :: k in r <==> k in keys
    ensures Ascending(r)
    decreases |keys|
  {
    if keys == {} then []
    else
      LeastExists(keys);
      LeastUnique(keys);
      var k :| IsLeast(k, keys);
      var rest := SortedKeys(keys - {k});
      assert forall y :: y in rest ==> Below(k, y);
      [k] + rest
  }

  /** `%v` of a decoded JSON value. */
  function Render(j: Json): string
    decreases j, 1
  {
    match j
    case Object(m) => "map[" + RenderEntries(j, SortedKeys(m.Keys)) + "]"
    case Array(xs) => "[" + RenderItems(j, xs) + "]"
    case Str(s) => s
    case Number(t) => t
    case Bool(b) => if b then "true" else "false"
    case Null => "<nil>"
  }

  /** `k:v` for each key of an object, space separated. */
  function RenderEntries(parent: Json, keys: seq<string>): string
    requires parent.Object? && forall k :: k in keys ==> k in parent.fields
    decreases parent, 0, |keys|
  {
    if keys == [] then ""
    else
      var entry := keys[0] + ":" + Render(parent.fields[keys[0]]);
      if |keys| == 1 then entry else entry + " " + RenderEntries(parent, keys[1..])
  }

  /** The elements of an array, space separated. */
  function RenderItems(parent: Json, xs: seq<Json>): string
    requires parent.Array? && forall x :: x in xs ==> x in parent.items
    decreases parent, 0, |xs|
  {
    if xs == [] then ""
    else
      assert xs[0] in xs;
      if |xs| == 1 then Render(xs[0])
      else Render(xs[0]) + " " + RenderItems(parent, xs[1..])
  }

  /**
   * `equalJSON(a, b)`: same number of keys, every key of `a` present in `b`,
   * and the values equal as `ValueEqual` says.
   */
  predicate EqualJson(a: map<string, Json>, b: map<string, Json>)
    decreases Object(a), 0
  {
    |a| == |b| && forall k :: k in a ==> k in b && ValueEqual(a[k], b[k])
  }

  /** A nested object in `a` needs an equal object in `b`; any other value compares by `%v`. */
  predicate ValueEqual(x: Json, y: Json)
    decreases x, 1
  {
    match x
    case Object(fx) => y.Object? && EqualJson(fx, y.fields)
    case _ => Render(x) == Render(y)
  }

  /** `equalJSON` holds exactly when both maps have the same keys and pairwise equal values. */
  lemma EqualJsonSameKeys(a: map<string, Json>, b: map<string, Json>)
    ensures EqualJson(a, b) <==> a.Keys == b.Keys && forall k :: k in a ==> ValueEqual(a[k], b[k])
  {
    if EqualJson(a, b) {
      assert a.Keys <= b.Keys;
      assert |b.Keys - a.Keys| == |b.Keys| - |a.Keys| == 0;
    }
    if a.Keys == b.Keys {
      assert |a| == |a.Keys| == |b.Keys| == |b|;
    }
  }

  /** Every decoded object equals itself. */
  lemma {:induction false} EqualJsonReflexive(a: map<string, Json>)
    ensures EqualJson(a, a)
    decreases Object(a)
  {
    forall k | k in a ensures ValueEqual(a[k], a[k]) {
      if a[k].Object? {
        EqualJsonReflexive(a[k].fields);
      }
    }
  }

  /**
   * Leaves compare by their rendering: a number equals the string of its
   * text, either way round, so a field holding 19.99 equals one holding "19.99".
   */
  lemma NumberEqualsItsText()
    ensures forall t :: ValueEqual(Number(t), Str(t)) && ValueEqual(Str(t), Number(t))
    ensures EqualJson(map["price" := Number("19.99")], map["price" := Str("19.99")])
  {
  }

  /**
   * `equalJSON` is not symmetric: a string that reads like `%v` of an empty
   * object equals that object on the right, but an object on the left needs
   * an object on the right.
   */
  lemma EqualJsonNotSymmetric()
    ensures EqualJson(map["x" := Str("map[]")], map["x" := Object(map[])])
    ensures !EqualJson(map["x" := Object(map[])], map["x" := Str("map[]")])
  {
    var e: map<string, Json> := map[];
    assert SortedKeys(e.Keys) == [];
    assert Render(Object(e)) == "map[]";
    var a := map["x" := Object(e)];
    var b := map["x" := Str("map[]")];
    assert "x" in a && !ValueEqual(a["x"], b["x"]);
  }
}
