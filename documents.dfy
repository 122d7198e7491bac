/** The parsed forms of response bodies, as far as the client inspects them:
    Newtonsoft JSON tokens and the nodes of an `XmlDocument`. Parsing text into
    these trees is done by foreign libraries and is an input of the model
    (see `Transport.Codec`); what is defined here is how the client navigates
    them, including the exceptions the navigation raises. */
module Documents {
  import opened Common

  /** A JSON token. Every primitive value (string, number, boolean) is kept as
      the text `Value<string>()` returns for it; `JNull` is a JSON `null`. */
  datatype Json =
    | JNull
    | JValue(text: string)
    | JArray(items: seq<Json>)
    | JObject(props: seq<JProperty>)

  datatype JProperty = JProperty(name: string, value: Json)

  /** The value of the first property named `key`, or `None` (C# null). */
  function Lookup(props: seq<JProperty>, key: string): (r: Option<Json>)
    ensures r.None? <==> forall i :: 0 <= i < |props| ==> props[i].name != key
    ensures r.Some? ==> exists i :: 0 <= i < |props| && props[i].name == key && props[i].value == r.value
  {
    if |props| == 0 then None
    else if props[0].name == key then Some(props[0].value)
    else
      var r := Lookup(props[1..], key);
      assert r.Some? ==> exists i :: 1 <= i < |props| && props[i].name == key && props[i].value == r.value by {
        if r.Some? {
          var j :| 0 <= j < |props[1..]| && props[1..][j].name == key && props[1..][j].value == r.value;
          assert props[j + 1] == props[1..][j];
        }
      }
      r
  }

  /** `token[key]` on a `JToken`: a property value or null on an object; an
      `ArgumentException` on an array; an `InvalidOperationException` on a value. */
  function Index(token: Json, key: string): Result<Option<Json>>
  {
    match token
    case JObject(props) => Success(Lookup(props, key))
    case JArray(_) => Failure(InvalidArgument)
    case _ => Failure(InvalidOperation)
  }

  /** `(JArray)t`: a null token stays null, a token of another shape cannot
      be cast. */
  function AsArray(t: Option<Json>): Result<Option<seq<Json>>>
  {
    match t
    case None => Success(None)
    case Some(JArray(items)) => Success(Some(items))
    case Some(_) => Failure(InvalidCast)
  }

  /** `t!.Value<string>()`: the text of a value, null for a JSON null; a null
      token is refused as an argument, a container cannot be cast. */
  function ValueString(t: Option<Json>): Result<Option<string>>
  {
    match t
    case None => Failure(ArgumentNull)
    case Some(JNull) => Success(None)
    case Some(JValue(text)) => Success(Some(text))
    case Some(_) => Failure(InvalidCast)
  }

  /** `DeserializeObject<JArray>(body)`: a body that is JSON `null` yields a
      null array; any other non-array is rejected by the serializer as not
      compatible with the expected type. */
  function ToJArray(j: Json): (r: Result<Option<seq<Json>>>)
    ensures r.Success? <==> j.JArray? || j.JNull?
    ensures j.JArray? ==> r == Success(Some(j.items))
    ensures j.JNull? ==> r == Success(None)
    ensures r.Failure? ==> r.error == JsonSerialization
  {
    match j
    case JArray(items) => Success(Some(items))
    case JNull => Success(None)
    case _ => Failure(JsonSerialization)
  }

  /** A sequence handed to a LINQ operator (`Select`, `Where`): a null source
      throws `ArgumentNullException`. */
  function LinqSource<T>(a: Option<seq<T>>): Result<seq<T>>
  {
    if a.None? then Failure(ArgumentNull) else Success(a.value)
  }

  /** A sequence enumerated by `foreach`: a null one throws
      `NullReferenceException`. */
  function LoopSource<T>(a: Option<seq<T>>): Result<seq<T>>
  {
    if a.None? then Failure(NullReference) else Success(a.value)
  }

  /** `DeserializeObject<JObject>(body)` with the result dereferenced: a body
      that is JSON `null` yields a null object, any other non-object is
      rejected by the serializer. */
  function ToJObject(j: Json): (r: Result<seq<JProperty>>)
    ensures r.Success? <==> j.JObject?
    ensures j.JObject? ==> r == Success(j.props)
    ensures j.JNull? ==> r == Failure(NullReference)
    ensures !j.JObject? && !j.JNull? ==> r == Failure(JsonSerialization)
  {
    match j
    case JObject(props) => Success(props)
    case JNull => Failure(NullReference)
    case _ => Failure(JsonSerialization)
  }

  /** `(JToken)DeserializeObject(body)`: the untyped call yields a token for an
      object or an array, null for JSON `null`, and a boxed primitive for any
      other value, which the cast rejects. */
  function ToJToken(j: Json): (r: Result<Option<Json>>)
    ensures j.JValue? <==> r == Failure(InvalidCast)
    ensures j.JNull? <==> r == Success(None)
    ensures j.JObject? || j.JArray? <==> r == Success(Some(j))
  {
    match j
    case JNull => Success(None)
    case JValue(_) => Failure(InvalidCast)
    case _ => Success(Some(j))
  }

  // ---------------------------------------------------------------------------
  // XML

  /** A node of an `XmlDocument`: an element with its attributes and children,
      or any other node (declaration, text, comment), whose `Attributes` is null
      and which has no children. */
  datatype XmlNode =
    | Element(name: string, attributes: seq<XmlAttribute>, children: seq<XmlNode>)
    | Other(text: string)

  datatype XmlAttribute = XmlAttribute(name: string, value: string)

  /** The top-level nodes of a document, the XML declaration first if present. */
  type XmlDocument = seq<XmlNode>

  /** `xml.LastChild`. */
  function LastChild(doc: XmlDocument): Option<XmlNode>
  {
    if |doc| == 0 then None else Some(doc[|doc| - 1])
  }

  /** `node.ChildNodes`, which is what enumerating a node visits. */
  function ChildNodes(node: XmlNode): seq<XmlNode>
  {
    if node.Element? then node.children else []
  }

  /** `xml.ChildNodes.Item(1)!.Attributes![0].InnerXml`: the first attribute of
      the second top-level node, where the post-count endpoints put the count. */
  function CountAttribute(doc: XmlDocument): Result<string>
  {
    if |doc| < 2 then Failure(NullReference)
    else match doc[1]
      case Other(_) => Failure(NullReference)
      case Element(_, attributes, _) =>
        if |attributes| == 0 then Failure(IndexOutOfRange) else Success(attributes[0].value)
  }
}
