/** JSON values as `JSON.parse` produces them, and JavaScript's `String(v)`
    conversion of such a value. `JSON.parse` itself is foreign code: the model
    takes it as an oracle (`Parser`) that either yields the parsed object or
    throws (None). */
module Json {
  import opened Wrappers
  import opened Strings

  /** A parsed JSON value. A number is kept as the text `String(n)` gives for
      it, since the model never computes with numbers. */
  datatype Json =
    | JNull
    | JBool(b: bool)
    | JNumber(text: string)
    | JString(s: string)
    | JArray(items: seq<Json>)
    | JObject(members: map<string, Json>)

  /** `JSON.parse` applied to a text that starts with `{` and ends with `}`:
      when it does not throw, the result is an object. */
  type Parser = string -> Option<map<string, Json>>

  /** What every JSON parser does with the empty object text. */
  predicate ParsesEmptyObject(parse: Parser) {
    parse("{}") == Some(map[])
  }

  /** `String(v)` for a JSON value: a string is itself, null and the
      booleans are their keywords, a number its own text, an object
      `[object Object]`, and an array its elements joined by commas. */
  function ToJsString(v: Json): (r: string)
    ensures v.JString? ==> r == v.s
    ensures v.JNull? ==> r == "null"
    ensures v.JBool? ==> r == (if v.b then "true" else "false")
    ensures v.JNumber? ==> r == v.text
    ensures v.JObject? ==> r == "[object Object]"
    ensures v.JArray? ==> r == Join(ElementStrings(v.items), ",")
    decreases v
  {
    match v
    case JNull => "null"
    case JBool(b) => if b then "true" else "false"
    case JNumber(text) => text
    case JString(s) => s
    case JArray(items) => Join(ElementStrings(items), ",")
    case JObject(_) => "[object Object]"
  }

  /** `Array.prototype.join` renders a null element as the empty string and
      every other element with `String`. */
  function ElementStrings(items: seq<Json>): (r: seq<string>)
    ensures |r| == |items|
    decreases items
  {
    if |items| == 0 then []
    else [if items[0].JNull? then "" else ToJsString(items[0])] + ElementStrings(items[1..])
  }

  /** The array elements' strings of an array of strings are those strings. */
  lemma {:induction false} StringElements(xs: seq<string>)
    ensures ElementStrings(seq(|xs|, k requires 0 <= k < |xs| => JString(xs[k]))) == xs
  {
    if |xs| > 0 {
      var items := seq(|xs|, k requires 0 <= k < |xs| => JString(xs[k]));
      assert items[1..] == seq(|xs[1..]|, k requires 0 <= k < |xs[1..]| => JString(xs[1..][k]));
      StringElements(xs[1..]);
    }
  }

  /** An array of strings is rendered as those strings joined by commas. */
  lemma StringArrayRendering(xs: seq<string>)
    ensures ToJsString(JArray(seq(|xs|, k requires 0 <= k < |xs| => JString(xs[k])))) == Join(xs, ",")
  {
    StringElements(xs);
  }
}
