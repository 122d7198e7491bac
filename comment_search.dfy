/** Comment searches (`Search/Comment/ABooru.cs`): the comments of one post,
    selected by post id where the booru answers with more, or stamped with it
    where the answer lacks it; and the latest comments, unfiltered. */
module CommentSearch {
  import opened Common
  import opened Text
  import opened Uris
  import opened Documents
  import opened Records
  import opened Capabilities
  import opened Query
  import opened Transport
  import opened Client

  /** The comments that belong to post `postId`, in their original order. */
  function OnPost(comments: seq<Comment>, postId: int): seq<Comment>
  {
    Filter((c: Comment) => c.postId == postId, comments)
  }

  /** Every item decoded, then only the comments on `postId` kept; the first
      item that cannot be decoded fails the whole search. */
  function CommentsForPost<X>(decode: X -> Result<Comment>, items: seq<X>, postId: int): Result<seq<Comment>>
  {
    var all :- DecodeAll(decode, items);
    Success(OnPost(all, postId))
  }

  /** The selection keeps exactly the comments on the post: every result is
      on it, and each decoded comment on it is kept as often as it occurs. */
  lemma CommentsForPostSelects<X>(decode: X -> Result<Comment>, items: seq<X>, postId: int, x: Comment)
    requires CommentsForPost(decode, items, postId).Success?
    ensures var r := CommentsForPost(decode, items, postId).value;
      var all := DecodeAll(decode, items).value;
      && (forall i :: 0 <= i < |r| ==> r[i].postId == postId)
      && multiset(r)[x] == (if x.postId == postId then multiset(all)[x] else 0)
  {
    FilterMultiset((c: Comment) => c.postId == postId, DecodeAll(decode, items).value, x);
  }

  /** The search fails exactly when some item cannot be decoded. */
  lemma CommentsForPostFails<X>(decode: X -> Result<Comment>, items: seq<X>, postId: int)
    ensures CommentsForPost(decode, items, postId).Failure?
            <==> exists i :: 0 <= i < |items| && decode(items[i]).Failure?
  {
    DecodeAllSucceeds(decode, items);
  }

  /** A selection over two runs of comments is the two selections in order. */
  lemma OnPostConcat(a: seq<Comment>, b: seq<Comment>, postId: int)
    ensures OnPost(a + b, postId) == OnPost(a, postId) + OnPost(b, postId)
  {
    FilterConcat((c: Comment) => c.postId == postId, a, b);
  }

  /** `results.AddRange(... where result.PostID == postId ...)`: one item at a
      time, decoded and kept if it is on the post. */
  method CollectComments<X>(decode: X -> Result<Comment>, items: seq<X>, postId: int)
    returns (r: Result<seq<Comment>>)
    ensures r == CommentsForPost(decode, items, postId)
  {
    var results: seq<Comment> := [];
    var i := 0;
    while i < |items|
      invariant 0 <= i <= |items|
      invariant DecodeAll(decode, items[..i]).Success?
      invariant results == OnPost(DecodeAll(decode, items[..i]).value, postId)
    {
      var comment := decode(items[i]);
      DecodeAllStep(decode, items, i);
      if comment.Failure? {
        DecodeAllPrefixFailure(decode, items, i + 1);
        return Failure(comment.error);
      }
      OnPostConcat(DecodeAll(decode, items[..i]).value, [comment.value], postId);
      if comment.value.postId == postId {
        results := results + [comment.value];
      }
      i := i + 1;
    }
    assert items[..i] == items;
    return Success(results);
  }

  /** `results.AddRange(from node in xml.LastChild select ...)`: every item
      decoded, in order. */
  method CollectAll<X>(decode: X -> Result<Comment>, items: seq<X>) returns (r: Result<seq<Comment>>)
    ensures r == DecodeAll(decode, items)
  {
    var results: seq<Comment> := [];
    var i := 0;
    while i < |items|
      invariant 0 <= i <= |items|
      invariant DecodeAll(decode, items[..i]) == Success(results)
    {
      var comment := decode(items[i]);
      DecodeAllStep(decode, items, i);
      if comment.Failure? {
        DecodeAllPrefixFailure(decode, items, i + 1);
        return Failure(comment.error);
      }
      results := results + [comment.value];
      i := i + 1;
    }
    assert items[..i] == items;
    return Success(results);
  }

  /** The children of the XML answer's last node, as the comment query
      enumerates them: a missing node is a null LINQ source. */
  function XmlCommentNodes(doc: Result<XmlDocument>): Result<seq<XmlNode>>
  {
    var d :- doc;
    var last := LastChild(d);
    if last.None? then Failure(ArgumentNull) else Success(ChildNodes(last.value))
  }

  /** The elements of the JSON array answer, as `Select` enumerates them. */
  function JsonCommentItems(json: Result<Json>): Result<seq<Json>>
  {
    var j :- json;
    var arr :- ToJArray(j);
    LinqSource(arr)
  }

  /** `DeserializeObject<JToken>(body)["comments"]`, cast to an array and
      enumerated. Deserialized as a `JToken`, a JSON `null` body is a null
      value token rather than a C# null, so it is indexed like any value. */
  function CommentsMember(json: Result<Json>): Result<seq<Json>>
  {
    var j :- json;
    var member :- Index(j, "comments");
    var arr :- AsArray(member);
    LinqSource(arr)
  }

  /** What each shape of JSON answer gives the comment searches: an array
      answer lists its elements (`JsonCommentItems`), an object answer its
      `comments` array (`CommentsMember`). The array search rejects an object
      or a primitive through the serializer and enumerates JSON `null` as a
      null source; the member search refuses a string key on an array, reads
      no member of a value or `null`, and enumerates a missing member as a
      null source. */
  lemma CommentAnswerShapes(j: Json, props: seq<JProperty>)
    ensures j.JArray? ==> JsonCommentItems(Success(j)) == Success(j.items)
    ensures j.JNull? ==> JsonCommentItems(Success(j)) == Failure(ArgumentNull)
    ensures j.JObject? || j.JValue? ==> JsonCommentItems(Success(j)) == Failure(JsonSerialization)
    ensures j.JArray? ==> CommentsMember(Success(j)) == Failure(InvalidArgument)
    ensures j.JNull? || j.JValue? ==> CommentsMember(Success(j)) == Failure(InvalidOperation)
    ensures Lookup(props, "comments").None? ==> CommentsMember(Success(JObject(props))) == Failure(ArgumentNull)
    ensures Lookup(props, "comments").Some? && Lookup(props, "comments").value.JArray? ==>
              CommentsMember(Success(JObject(props))) == Success(Lookup(props, "comments").value.items)
    ensures Lookup(props, "comments").Some? && !Lookup(props, "comments").value.JArray? ==>
              CommentsMember(Success(JObject(props))) == Failure(InvalidCast)
  {
  }

  /** The post-id argument of the comment search: `search[post_id]=` on
      Danbooru, `post_id=` elsewhere. */
  function PostIdArgument(format: UrlFormat, postId: int): string
  {
    SearchArg(format, "post_id") + IntToString(postId)
  }

  /** Philomena: the comments member of a search on `q=:<id>`, decoded. */
  function PhilomenaComments(b: Booru, send: Send, codec: Codec, postId: int): (c: Call<seq<Comment>>)
    requires b.format == Philomena
    ensures b.commentUrl.None? ==> c == Refused(NullReference)
    ensures b.commentUrl.Some? ==>
      var url := UrlToString(CreateUrl(b.commentUrl.value, ["q=:" + IntToString(postId)]));
      && c.sent == [url]
      && (!IsSuccessStatus(send(url).status) ==> c.result == Failure(GetJson(send(url)).error))
      && (IsSuccessStatus(send(url).status) ==>
            c.result == (var items :- CommentsMember(codec.parseJson(send(url).body)); DecodeAll(codec.jsonComment, items)))
  {
    if b.commentUrl.None? then Refused(NullReference)
    else
      var arg := SearchArg(b.format, "q") + ":" + IntToString(postId);
      PhilomenaSearchKey(IntToString(postId));
      var json := FetchJson(send, codec, UrlToString(CreateUrl(b.commentUrl.value, [arg])));
      Call(json.sent, var items :- CommentsMember(json.result); DecodeAll(codec.jsonComment, items))
  }

  // A proof step kept separate so that its callers stay cheap to verify.
  lemma PhilomenaSearchKey(id: string)
    ensures SearchArg(Philomena, "q") + ":" + id == "q=:" + id
  {
  }

  /** Booru-on-Rails: the post's own comment path; its answer carries no post
      id, so every decoded comment is given `postId`. */
  function RailsComments(b: Booru, send: Send, codec: Codec, postId: int): (c: Call<seq<Comment>>)
    ensures var url := b.baseUrl + "api/v3/posts/" + IntToString(postId) + "/comments";
      && c.sent == [url]
      && (!IsSuccessStatus(send(url).status) ==> c.result == Failure(GetJson(send(url)).error))
      && (IsSuccessStatus(send(url).status) ==>
            var decoded := (var items :- CommentsMember(codec.parseJson(send(url).body)); DecodeAll(codec.jsonComment, items));
            && c.result.Success? == decoded.Success?
            && (decoded.Failure? ==> c.result.error == decoded.error)
            && (decoded.Success? ==> c.result.value == Reattach(decoded.value, postId)
                                     && OnPost(c.result.value, postId) == c.result.value))
  {
    var json := FetchJson(send, codec, b.baseUrl + "api/v3/posts/" + IntToString(postId) + "/comments");
    var decoded := (var items :- CommentsMember(json.result); DecodeAll(codec.jsonComment, items));
    if decoded.Failure? then Call(json.sent, Failure(decoded.error))
    else
      ReattachOnPost(decoded.value, postId);
      Call(json.sent, Success(Reattach(decoded.value, postId)))
  }

  /** `new SearchResult(x.CommentID, postId, x.AuthorID, x.Creation, x.AuthorName, x.Body)`
      for each comment. */
  function Reattach(comments: seq<Comment>, postId: int): (r: seq<Comment>)
    ensures |r| == |comments|
    ensures forall i :: 0 <= i < |r| ==> r[i] == comments[i].(postId := postId)
  {
    seq(|comments|, i requires 0 <= i < |comments| =>
      Comment(comments[i].commentId, postId, comments[i].authorId, comments[i].creation,
              comments[i].authorName, comments[i].body))
  }

  /** Stamping keeps the number of comments and every field but the post id,
      and the result is entirely on the post. */
  lemma ReattachOnPost(comments: seq<Comment>, postId: int)
    ensures var r := Reattach(comments, postId);
      && OnPost(r, postId) == r
      && forall i :: 0 <= i < |r| ==>
           r[i].commentId == comments[i].commentId && r[i].authorId == comments[i].authorId
           && r[i].creation == comments[i].creation && r[i].authorName == comments[i].authorName
           && r[i].body == comments[i].body && r[i].postId == postId
  {
    FilterAll((c: Comment) => c.postId == postId, Reattach(comments, postId));
  }

  /** `GetCommentsAsync(postId)`. */
  method GetComments(b: Booru, send: Send, codec: Codec, postId: int) returns (c: Call<seq<Comment>>)
    ensures !Has(b.options, CommentApi) ==> c == Refused(FeatureUnavailable)
    ensures Has(b.options, CommentApi) && b.format == Philomena ==> c == PhilomenaComments(b, send, codec, postId)
    ensures Has(b.options, CommentApi) && b.format == BooruOnRails ==> c == RailsComments(b, send, codec, postId)
    ensures Has(b.options, CommentApi) && !IsPhilomenaFamily(b.format) ==>
      if b.commentUrl.None? then c == Refused(NullReference)
      else
        var url := UrlToString(CreateUrl(b.commentUrl.value, [PostIdArgument(b.format, postId)]));
        if CommentsUseXml(b.options) then
          var xml := FetchXml(send, codec, url);
          c.sent == xml.sent
          && c.result == (var nodes :- XmlCommentNodes(xml.result); CommentsForPost(codec.xmlComment, nodes, postId))
        else
          var json := FetchJson(send, codec, url);
          c.sent == json.sent
          && c.result == (var items :- JsonCommentItems(json.result); CommentsForPost(codec.jsonComment, items, postId))
  {
    if !Has(b.options, CommentApi) {
      return Refused(FeatureUnavailable);
    }
    if b.format == Philomena {
      return PhilomenaComments(b, send, codec, postId);
    } else if b.format == BooruOnRails {
      return RailsComments(b, send, codec, postId);
    }
    if b.commentUrl.None? {
      return Refused(NullReference);
    }
    var url := UrlToString(CreateUrl(b.commentUrl.value, [PostIdArgument(b.format, postId)]));
    if CommentsUseXml(b.options) {
      var xml := FetchXml(send, codec, url);
      var nodes := XmlCommentNodes(xml.result);
      if nodes.Failure? {
        return Call(xml.sent, Failure(nodes.error));
      }
      var results := CollectComments(codec.xmlComment, nodes.value, postId);
      return Call(xml.sent, results);
    } else {
      var json := FetchJson(send, codec, url);
      var items := JsonCommentItems(json.result);
      if items.Failure? {
        return Call(json.sent, Failure(items.error));
      }
      var results := CollectComments(codec.jsonComment, items.value, postId);
      return Call(json.sent, results);
    }
  }

  /** The post-id argument names the post under the search key of the format,
      and distinct posts give distinct arguments. */
  lemma PostIdArgumentInjective(format: UrlFormat, id1: int, id2: int)
    ensures format == Danbooru ==> PostIdArgument(format, id1) == "search[post_id]=" + IntToString(id1)
    ensures format != Danbooru ==> PostIdArgument(format, id1) == "post_id=" + IntToString(id1)
    ensures PostIdArgument(format, id1) == PostIdArgument(format, id2) ==> id1 == id2
  {
    PostIdKey(format);
    var key := SearchArg(format, "post_id");
    if PostIdArgument(format, id1) == PostIdArgument(format, id2) {
      Unwrap(key, IntToString(id1), IntToString(id2), "");
      IntToStringInjective(id1, id2);
    }
  }

  // A proof step kept separate so that its callers stay cheap to verify.
  lemma PostIdKey(format: UrlFormat)
    ensures SearchArg(format, "post_id") == if format == Danbooru then "search[post_id]=" else "post_id="
  {
  }

  /** `GetLastCommentsAsync()`: the last-comment gate, the comment endpoint
      with no argument, and every comment decoded, unfiltered. */
  method GetLastComments(b: Booru, send: Send, codec: Codec) returns (c: Call<seq<Comment>>)
    ensures !Has(b.options, LastCommentApi) ==> c == Refused(FeatureUnavailable)
    ensures Has(b.options, LastCommentApi) ==>
      if b.commentUrl.None? then c == Refused(NullReference)
      else
        var url := UrlToString(CreateUrl(b.commentUrl.value, []));
        if CommentsUseXml(b.options) then
          var xml := FetchXml(send, codec, url);
          c.sent == xml.sent
          && c.result == (var nodes :- LastCommentNodes(xml.result); DecodeAll(codec.xmlComment, nodes))
        else
          var json := FetchJson(send, codec, url);
          c.sent == json.sent
          && c.result == (var items :- JsonCommentItems(json.result); DecodeAll(codec.jsonComment, items))
  {
    if !Has(b.options, LastCommentApi) {
      return Refused(FeatureUnavailable);
    }
    if b.commentUrl.None? {
      return Refused(NullReference);
    }
    var url := UrlToString(CreateUrl(b.commentUrl.value, []));
    if CommentsUseXml(b.options) {
      var xml := FetchXml(send, codec, url);
      var nodes := LastCommentNodes(xml.result);
      if nodes.Failure? {
        return Call(xml.sent, Failure(nodes.error));
      }
      var results := CollectAll(codec.xmlComment, nodes.value);
      return Call(xml.sent, results);
    } else {
      var json := FetchJson(send, codec, url);
      var items := JsonCommentItems(json.result);
      if items.Failure? {
        return Call(json.sent, Failure(items.error));
      }
      return Call(json.sent, DecodeAll(codec.jsonComment, items.value));
    }
  }

  /** `xml.LastChild!.ChildNodes`: the list is sized from the last node, which
      must exist. */
  function LastCommentNodes(doc: Result<XmlDocument>): Result<seq<XmlNode>>
  {
    var d :- doc;
    var last := LastChild(d);
    if last.None? then Failure(NullReference) else Success(ChildNodes(last.value))
  }
}
