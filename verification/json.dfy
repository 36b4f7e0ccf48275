/**
 * Parsed JSON values and the lenient accessors of Android's `org.json`
 * (`optString`, `optBoolean`, `optJSONObject`, `optJSONArray`) that every
 * message decoder of the client relies on. Numbers are integers; parsing and
 * printing JSON text are outside the model, except that the text a nested
 * array or object turns into is a function parameter `render`.
 */
module Json {
  import opened Wrappers
  import opened Text

  datatype Json =
    | JNull
    | JBool(b: bool)
    | JNum(n: int)
    | JStr(s: string)
    | JArr(items: seq<Json>)
    | JObj(fields: map<string, Json>)

  type Object = map<string, Json>

  /** How a nested array or object is printed when read as a string. */
  type Render = Json -> string

  /**
   * `optString(key, fallback)`: a missing key gives the fallback (which may
   * be null); any present value is converted to text, so JSON `null` becomes
   * the four letters "null".
   */
  function OptString(o: Object, key: string, fallback: Option<string>, render: Render): (r: Option<string>)
    ensures key !in o ==> r == fallback
    ensures key in o ==> r.Some?
    ensures key in o && o[key].JStr? ==> r == Some(o[key].s)
  {
    if key !in o then fallback
    else match o[key]
      case JStr(s) => Some(s)
      case JNull => Some("null")
      case JBool(b) => Some(if b then "true" else "false")
      case JNum(n) => Some(IntToString(n))
      case _ => Some(render(o[key]))
  }

  /** `optString(key, fallback)` with a non-null fallback never yields null. */
  function OptStringOr(o: Object, key: string, fallback: string, render: Render): (r: string)
    ensures key !in o ==> r == fallback
    ensures key in o && o[key].JStr? ==> r == o[key].s
  {
    OptString(o, key, Some(fallback), render).value
  }

  /**
   * `optBoolean(key, fallback)`: a boolean, or a string equal to "true" or
   * "false" ignoring case; anything else gives the fallback.
   */
  function OptBoolean(o: Object, key: string, fallback: bool): (r: bool)
    ensures key in o && o[key].JBool? ==> r == o[key].b
    ensures key !in o ==> r == fallback
  {
    if key !in o then fallback
    else match o[key]
      case JBool(b) => b
      case JStr(s) => if Lower(s) == "true" then true else if Lower(s) == "false" then false else fallback
      case _ => fallback
  }

  /** `optJSONObject(key)`: the value when it is an object, otherwise null. */
  function OptObject(o: Object, key: string): (r: Option<Object>)
    ensures r.Some? <==> key in o && o[key].JObj?
    ensures r.Some? ==> r.value == o[key].fields
  {
    if key in o && o[key].JObj? then Some(o[key].fields) else None
  }

  /** `optJSONArray(key)`: the value when it is an array, otherwise null. */
  function OptArray(o: Object, key: string): (r: Option<seq<Json>>)
    ensures r.Some? <==> key in o && o[key].JArr?
    ensures r.Some? ==> r.value == o[key].items
  {
    if key in o && o[key].JArr? then Some(o[key].items) else None
  }

  /**
   * The objects of an array in order, skipping every other element, as a loop
   * over `optJSONObject(i)` that ignores nulls does.
   */
  function ObjectsOf(items: seq<Json>): (r: seq<Object>)
    ensures |r| <= |items|
    ensures forall i :: 0 <= i < |r| ==> JObj(r[i]) in items
    ensures forall o :: JObj(o) in items ==> o in r
    ensures |items| == 1 && items[0].JObj? ==> r == [items[0].fields]
    ensures |items| == 1 && !items[0].JObj? ==> r == []
  {
    if |items| == 0 then []
    else
      var rest := ObjectsOf(items[1..]);
      assert forall i :: 0 <= i < |rest| ==> JObj(rest[i]) in items[1..];
      assert forall o :: JObj(o) in items ==> JObj(o) == items[0] || JObj(o) in items[1..] by {
        forall o | JObj(o) in items ensures JObj(o) == items[0] || JObj(o) in items[1..] {
          var i :| 0 <= i < |items| && items[i] == JObj(o);
          if i > 0 {
            assert items[1..][i - 1] == JObj(o);
          }
        }
      }
      if items[0].JObj? then [items[0].fields] + rest else rest
  }

  /** The loop over a concatenation collects the objects of each part, in order. */
  lemma {:induction false} ObjectsOfAppend(a: seq<Json>, b: seq<Json>)
    ensures ObjectsOf(a + b) == ObjectsOf(a) + ObjectsOf(b)
    decreases |a|
  {
    if |a| > 0 {
      assert (a + b)[1..] == a[1..] + b;
      ObjectsOfAppend(a[1..], b);
    } else {
      assert a + b == b;
    }
  }

  /** An array holding only objects gives all of them back. */
  lemma {:induction false} ObjectsOfObjects(os: seq<Object>)
    ensures ObjectsOf(seq(|os|, i requires 0 <= i < |os| => JObj(os[i]))) == os
    decreases |os|
  {
    var items := seq(|os|, i requires 0 <= i < |os| => JObj(os[i]));
    if |os| > 0 {
      assert items[1..] == seq(|os| - 1, i requires 0 <= i < |os| - 1 => JObj(os[1..][i]));
      ObjectsOfObjects(os[1..]);
      assert ObjectsOf(items) == [os[0]] + ObjectsOf(items[1..]);
    }
  }

  /** Adding a field only when a value is present, as `if (x != null) json.put(k, x)` does. */
  function PutOpt(o: Object, key: string, v: Option<string>): (r: Object)
    ensures v.Some? ==> r == o[key := JStr(v.value)]
    ensures v.None? ==> r == o
  {
    if v.Some? then o[key := JStr(v.value)] else o
  }

  /** Every other field is left as it was by `PutOpt`. */
  lemma PutOptKeeps(o: Object, key: string, v: Option<string>, other: string)
    requires other != key
    ensures other in PutOpt(o, key, v) <==> other in o
    ensures other in o ==> PutOpt(o, key, v)[other] == o[other]
  {
  }

  /** `JSONObject.put(key, s)` with a Java string that may be null: null removes the key. */
  function PutNullable(o: Object, key: string, v: Option<string>): (r: Object)
    ensures v.Some? ==> r == o[key := JStr(v.value)]
    ensures v.None? ==> key !in r && forall k :: k in o && k != key ==> k in r && r[k] == o[k]
  {
    if v.Some? then o[key := JStr(v.value)] else o - {key}
  }

  /** Reading back a field written with `PutOpt` gives the written value, or the fallback when absent. */
  lemma OptStringPutOpt(o: Object, key: string, v: Option<string>, fallback: Option<string>, render: Render)
    requires key !in o
    ensures OptString(PutOpt(o, key, v), key, fallback, render) == if v.Some? then v else fallback
  {
  }
}
