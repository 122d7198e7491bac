/** The related-tag search (`Search/Related/ABooru.cs`): one request whose
    answer is an object, and the array inside it that holds the tags. */
module RelatedSearch {
  import opened Common
  import opened Uris
  import opened Documents
  import opened Records
  import opened Capabilities
  import opened Query
  import opened Transport
  import opened Client

  /** The name of the tag argument: `query` on Danbooru, `tags` elsewhere. */
  function RelatedKey(format: UrlFormat): string
  {
    if format == Danbooru then "query" else "tags"
  }

  /** The token that holds the related tags: the `tags` member on Danbooru,
      the value of the first member elsewhere (`Properties().First()` throws
      on an object without members). */
  function RelatedToken(format: UrlFormat, content: seq<JProperty>): Result<Option<Json>>
  {
    if format == Danbooru then Success(Lookup(content, "tags"))
    else if |content| == 0 then Failure(InvalidOperation)
    else Success(Lookup(content, content[0].name))
  }

  /** The answer object, its tag array and every element of it decoded. */
  function DecodeRelated(codec: Codec, format: UrlFormat, json: Result<Json>): Result<seq<RelatedTag>>
  {
    var j :- json;
    var content :- ToJObject(j);
    var token :- RelatedToken(format, content);
    var arr :- AsArray(token);
    var items :- LinqSource(arr);
    DecodeAll(codec.related, items)
  }

  /** `GetRelatedAsync(tag)`: the related-tag gate, then the null check on the
      tag, then one request on the related endpoint. */
  function GetRelated(b: Booru, send: Send, codec: Codec, tag: Option<string>): (c: Call<seq<RelatedTag>>)
    ensures !Has(b.options, RelatedApi) ==> c == Refused(FeatureUnavailable)
    ensures Has(b.options, RelatedApi) && tag.None? ==> c == Refused(ArgumentNull)
    ensures Has(b.options, RelatedApi) && tag.Some? && b.relatedUrl.None? ==> c == Refused(NullReference)
    ensures Has(b.options, RelatedApi) && tag.Some? && b.relatedUrl.Some? ==>
      var url := UrlToString(CreateUrl(b.relatedUrl.value, [RelatedKey(b.format) + "=" + tag.value]));
      c.sent == [url] && c.result == DecodeRelated(codec, b.format, FetchJson(send, codec, url).result)
  {
    if !Has(b.options, RelatedApi) then Refused(FeatureUnavailable)
    else if tag.None? then Refused(ArgumentNull)
    else if b.relatedUrl.None? then Refused(NullReference)
    else
      var json := FetchJson(send, codec, UrlToString(CreateUrl(b.relatedUrl.value, [RelatedKey(b.format) + "=" + tag.value])));
      Call(json.sent, DecodeRelated(codec, b.format, json.result))
  }

  /** On Danbooru the tags are the `tags` member wherever it sits; elsewhere
      they are the first member, whatever its name, and an empty object is an
      invalid operation. */
  lemma RelatedTokenSelection(format: UrlFormat, content: seq<JProperty>, value: Json)
    ensures format == Danbooru && JProperty("tags", value) in content
            && (forall i :: 0 <= i < |content| && content[i].name == "tags" ==> content[i].value == value)
            ==> RelatedToken(format, content) == Success(Some(value))
    ensures format == Danbooru && (forall i :: 0 <= i < |content| ==> content[i].name != "tags")
            ==> RelatedToken(format, content) == Success(None)
    ensures format != Danbooru && |content| > 0 ==> RelatedToken(format, content) == Success(Some(content[0].value))
    ensures format != Danbooru && |content| == 0 ==> RelatedToken(format, content) == Failure(InvalidOperation)
  {
  }

  /** When the selected token is an array, the search yields one related tag
      per element, in order, or the first element that cannot be decoded;
      a missing token is a null LINQ source and any other token a bad cast. */
  lemma DecodeRelatedArray(codec: Codec, format: UrlFormat, content: seq<JProperty>)
    requires RelatedToken(format, content).Success?
    ensures var token := RelatedToken(format, content).value;
      var r := DecodeRelated(codec, format, Success(JObject(content)));
      && (token.None? ==> r == Failure(ArgumentNull))
      && (token.Some? && !token.value.JArray? ==> r == Failure(InvalidCast))
      && (token.Some? && token.value.JArray? && r.Success? ==>
            |r.value| == |token.value.items|
            && forall i :: 0 <= i < |r.value| ==> codec.related(token.value.items[i]) == Success(r.value[i]))
  {
  }

  /** An answer that is not an object never yields tags: JSON `null`
      deserializes to a null object, which is dereferenced; an array or a
      primitive is rejected by the serializer. */
  lemma DecodeRelatedNotObject(codec: Codec, format: UrlFormat, j: Json)
    requires !j.JObject?
    ensures DecodeRelated(codec, format, Success(j)) == Failure(if j.JNull? then NullReference else JsonSerialization)
  {
  }
}
