/**
 * The request and response shapes the handlers share: multipart parts, the
 * parsed query string, JSON values decoded from a part, and HTTP errors.
 */
module Http {
  import opened JsValues

  type Bytes = seq<bv8>

  /** An HTTP error reply: its status code and its status message. */
  datatype HttpError = HttpError(status: nat, message: string)

  datatype Result<+T> = Ok(value: T) | Err(error: HttpError)

  /**
   * What the framework replies when a handler lets an error escape that is not
   * an HTTP error of its own making (a failed parse or an exception thrown by
   * a library).
   */
  const Unhandled := HttpError(500, "Internal Server Error")

  /**
   * One part of a multipart body. The framework always attaches a buffer to
   * a part, possibly empty (an empty buffer is still truthy), so a part is
   * present exactly when it carries data.
   */
  datatype Part = Part(name: Option<string>, data: Bytes)

  /** `parts.find(f => f.name === name)`: the first part with that name. */
  function FindPart(parts: seq<Part>, name: string): (r: Option<Part>)
    ensures r.None? <==> forall i :: 0 <= i < |parts| ==> parts[i].name != Some(name)
    ensures r.Some? ==> exists i :: 0 <= i < |parts| && parts[i] == r.value && r.value.name == Some(name)
                                    && forall j :: 0 <= j < i ==> parts[j].name != Some(name)
  {
    if parts == [] then None
    else if parts[0].name == Some(name) then Some(parts[0])
    else
      var r := FindPart(parts[1..], name);
      assert forall i :: 1 <= i < |parts| ==> parts[i] == parts[1..][i - 1];
      r
  }

  /** `parts.filter(f => f.name === name && f.data)`: all parts with that name, in order. */
  function PartsNamed(parts: seq<Part>, name: string): (r: seq<Part>)
    ensures |r| <= |parts|
    ensures forall p :: p in r <==> p in parts && p.name == Some(name)
  {
    if parts == [] then []
    else (if parts[0].name == Some(name) then [parts[0]] else []) + PartsNamed(parts[1..], name)
  }

  /** Filtering keeps submission order: it distributes over concatenation. */
  lemma {:induction false} PartsNamedAppend(a: seq<Part>, b: seq<Part>, name: string)
    ensures PartsNamed(a + b, name) == PartsNamed(a, name) + PartsNamed(b, name)
  {
    if a == [] {
      assert a + b == b;
    } else {
      assert (a + b)[0] == a[0];
      assert (a + b)[1..] == a[1..] + b;
      PartsNamedAppend(a[1..], b, name);
    }
  }

  function DataOf(parts: seq<Part>): (r: seq<Bytes>)
    ensures |r| == |parts| && forall i :: 0 <= i < |parts| ==> r[i] == parts[i].data
  {
    seq(|parts|, i requires 0 <= i < |parts| => parts[i].data)
  }

  /**
   * A value of the parsed query string: a key given once is a string, a key
   * given several times is an array of strings.
   */
  datatype QueryValue = One(text: string) | Many(items: seq<string>)

  type Query = map<string, QueryValue>

  /** `items.join(sep)`. */
  function Join(items: seq<string>, sep: string): string {
    if items == [] then ""
    else if |items| == 1 then items[0]
    else items[0] + sep + Join(items[1..], sep)
  }

  /** `String(v)`: an array is written as its items joined by commas. */
  function QueryValueText(v: QueryValue): string {
    match v
    case One(t) => t
    case Many(items) => Join(items, ",")
  }

  /** `query[key]?.toString()`. */
  function QueryText(query: Query, key: string): (r: Option<string>)
    ensures r.None? <==> key !in query
  {
    if key in query then Some(QueryValueText(query[key])) else None
  }

  /** `typeof query[key] === 'string' ? query[key] : undefined`. */
  function QueryString(query: Query, key: string): (r: Option<string>)
    ensures r.Some? <==> key in query && query[key].One?
  {
    if key in query && query[key].One? then Some(query[key].text) else None
  }

  /** `text || fallback` on an optional string: absent and empty both give the fallback. */
  function OrElse(text: Option<string>, fallback: string): (r: string)
    ensures text.Some? && text.value != "" ==> r == text.value
    ensures text.None? || text.value == "" ==> r == fallback
  {
    if text.Some? && text.value != "" then text.value else fallback
  }

  /** Whether `query[key]` is truthy: present and not the empty string (an array is always truthy). */
  predicate QueryTruthy(query: Query, key: string) {
    key in query && query[key] != One("")
  }

  /**
   * What `JSON.parse` gives for a text part, as far as the handlers look at
   * it: a syntax error, an array of integers, or a value that is not an array.
   */
  datatype Json = Malformed | IntArray(items: seq<int>) | NotArray
}
