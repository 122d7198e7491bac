/** The wiki search (`Search/Wiki/ABooru.cs`): one request, then a walk over
    the answer for the first entry whose title is exactly the query. */
module WikiSearch {
  import opened Common
  import opened Uris
  import opened Documents
  import opened Records
  import opened Capabilities
  import opened Query
  import opened Transport
  import opened Client

  /** `token["title"]!.Value<string>() == query`: indexing a non-object and
      reading a missing or non-value title raise; a JSON `null` title matches
      no query. */
  function TitleMatches(token: Json, query: string): Result<bool>
  {
    var title :- Index(token, "title");
    var text :- ValueString(title);
    Success(text == Some(query))
  }

  /** The first entry whose title matches, the error raised while comparing
      an earlier title, or none. */
  function FindTitle(items: seq<Json>, query: string): (r: Result<Option<Json>>)
    ensures r.Success? && r.value.Some? ==>
      exists k :: 0 <= k < |items| && items[k] == r.value.value && TitleMatches(items[k], query) == Success(true)
                  && forall j :: 0 <= j < k ==> TitleMatches(items[j], query) == Success(false)
    ensures r.Success? && r.value.None? ==> forall j :: 0 <= j < |items| ==> TitleMatches(items[j], query) == Success(false)
    ensures r.Failure? ==>
      exists k :: 0 <= k < |items| && TitleMatches(items[k], query) == Failure(r.error)
                  && forall j :: 0 <= j < k ==> TitleMatches(items[j], query) == Success(false)
  {
    if |items| == 0 then Success(None)
    else
      var m := TitleMatches(items[0], query);
      if m.Failure? then Failure(m.error)
      else if m.value then Success(Some(items[0]))
      else
        var rest := FindTitle(items[1..], query);
        assert forall j :: 1 <= j < |items| ==> items[j] == items[1..][j - 1];
        if rest.Success? && rest.value.Some? then
          var k :| 0 <= k < |items[1..]| && items[1..][k] == rest.value.value && TitleMatches(items[1..][k], query) == Success(true)
                   && forall j :: 0 <= j < k ==> TitleMatches(items[1..][j], query) == Success(false);
          assert items[k + 1] == rest.value.value;
          rest
        else if rest.Failure? then
          var k :| 0 <= k < |items[1..]| && TitleMatches(items[1..][k], query) == Failure(rest.error)
                   && forall j :: 0 <= j < k ==> TitleMatches(items[1..][j], query) == Success(false);
          assert TitleMatches(items[k + 1], query) == Failure(rest.error);
          rest
        else rest
  }

  /** The answer array walked for the query's entry, which is then decoded;
      no entry with that title is `InvalidTags`. */
  function WikiResult(codec: Codec, json: Result<Json>, query: string): Result<WikiEntry>
  {
    var j :- json;
    var arr :- ToJArray(j);
    var items :- LoopSource(arr);
    var found :- FindTitle(items, query);
    if found.None? then Failure(InvalidTags) else codec.wiki(found.value)
  }

  /** The title argument: `search[title]=` on Danbooru, `query=` elsewhere. */
  function WikiArgument(format: UrlFormat, query: string): string
  {
    SearchArg(format, if format == Danbooru then "title" else "query") + query
  }

  /** `GetWikiAsync(query)`: the wiki gate, the null check on the query, one
      request, then the entries in order until a title equals the query. */
  method GetWiki(b: Booru, send: Send, codec: Codec, query: Option<string>) returns (c: Call<WikiEntry>)
    ensures !Has(b.options, WikiApi) ==> c == Refused(FeatureUnavailable)
    ensures Has(b.options, WikiApi) && query.None? ==> c == Refused(ArgumentNull)
    ensures Has(b.options, WikiApi) && query.Some? && b.wikiUrl.None? ==> c == Refused(NullReference)
    ensures Has(b.options, WikiApi) && query.Some? && b.wikiUrl.Some? ==>
      var url := UrlToString(CreateUrl(b.wikiUrl.value, [WikiArgument(b.format, query.value)]));
      c.sent == [url] && c.result == WikiResult(codec, FetchJson(send, codec, url).result, query.value)
  {
    if !Has(b.options, WikiApi) {
      return Refused(FeatureUnavailable);
    }
    if query.None? {
      return Refused(ArgumentNull);
    }
    if b.wikiUrl.None? {
      return Refused(NullReference);
    }
    var json := FetchJson(send, codec, UrlToString(CreateUrl(b.wikiUrl.value, [WikiArgument(b.format, query.value)])));
    if json.result.Failure? {
      return Call(json.sent, Failure(json.result.error));
    }
    var arr := ToJArray(json.result.value);
    if arr.Failure? {
      return Call(json.sent, Failure(arr.error));
    }
    var items := LoopSource(arr.value);
    if items.Failure? {
      return Call(json.sent, Failure(items.error));
    }
    var tokens := items.value;
    var i := 0;
    while i < |tokens|
      invariant 0 <= i <= |tokens|
      invariant FindTitle(tokens[i..], query.value) == FindTitle(tokens, query.value)
    {
      assert tokens[i..][1..] == tokens[i + 1..];
      var m := TitleMatches(tokens[i], query.value);
      if m.Failure? {
        return Call(json.sent, Failure(m.error));
      }
      if m.value {
        return Call(json.sent, codec.wiki(tokens[i]));
      }
      i := i + 1;
    }
    return Call(json.sent, Failure(InvalidTags));
  }

  /** Entries after the first match are never looked at, whatever they hold. */
  lemma {:induction false} FindTitleIgnoresLater(items: seq<Json>, later: seq<Json>, query: string)
    requires FindTitle(items, query).Success? && FindTitle(items, query).value.Some?
    ensures FindTitle(items + later, query) == FindTitle(items, query)
  {
    assert (items + later)[0] == items[0];
    if TitleMatches(items[0], query) != Success(true) {
      assert (items + later)[1..] == items[1..] + later;
      FindTitleIgnoresLater(items[1..], later, query);
    }
  }

  /** Entries before the match whose titles differ from the query only
      delay it: the result is that of the remaining entries. */
  lemma {:induction false} FindTitleSkipsMismatches(skipped: seq<Json>, rest: seq<Json>, query: string)
    requires forall j :: 0 <= j < |skipped| ==> TitleMatches(skipped[j], query) == Success(false)
    ensures FindTitle(skipped + rest, query) == FindTitle(rest, query)
  {
    if |skipped| > 0 {
      assert (skipped + rest)[0] == skipped[0];
      assert (skipped + rest)[1..] == skipped[1..] + rest;
      FindTitleSkipsMismatches(skipped[1..], rest, query);
    } else {
      assert skipped + rest == rest;
    }
  }

  /** The match is exact: an entry is found only when its title is the query
      itself, and an answer with no such title is `InvalidTags`. */
  lemma WikiResultExact(codec: Codec, items: seq<Json>, query: string)
    ensures WikiResult(codec, Success(JArray(items)), query) == Failure(InvalidTags)
            <==> FindTitle(items, query) == Success(None)
                 || (exists t :: FindTitle(items, query) == Success(Some(t)) && codec.wiki(t) == Failure(InvalidTags))
                 || FindTitle(items, query) == Failure(InvalidTags)
    ensures FindTitle(items, query).Success? && FindTitle(items, query).value.Some? ==>
      Index(FindTitle(items, query).value.value, "title") == Success(Some(JValue(query)))
  {
    var r := FindTitle(items, query);
    if r.Success? && r.value.Some? {
      var t := r.value.value;
      assert TitleMatches(t, query) == Success(true);
    }
  }
}
