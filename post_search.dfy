/** Post searches (`Search/Post/ABooru.cs`): the tag pre-processing shared by
    the searches, the choice of URL and arguments per format, the clamp of the
    random offset, and the rating letters. Every search returns the requests
    it sends, in order, and the result or the first error. */
module PostSearch {
  import opened Common
  import opened Text
  import opened Uris
  import opened Documents
  import opened Records
  import opened Capabilities
  import opened Query
  import opened Transport
  import opened Client

  /** The most tags a `NoMoreThan2Tags` booru accepts. */
  const LimitedTagsSearchCount := 2
  /** The largest random offset bound on a `LimitOf20000` booru. */
  const IncreasedPostLimitCount := 20001

  /** `GetLimit(quantity)`. */
  function GetLimit(format: UrlFormat, quantity: int): string
  {
    (if IsPhilomenaFamily(format) then "per_page=" else "limit=") + IntToString(quantity)
  }

  // A proof step kept separate so that its callers stay cheap to verify.
  /** The limit argument holds no argument delimiter and no `?`. */
  lemma GetLimitNoDelimiter(format: UrlFormat, quantity: int)
    ensures '&' !in GetLimit(format, quantity) && '$' !in GetLimit(format, quantity) && '?' !in GetLimit(format, quantity)
  {
    IntToStringNoDelimiter(quantity);
  }

  /** The key is `per_page=` on the Philomena family and `limit=` elsewhere,
      and the quantity can be read back: distinct quantities give distinct
      arguments. */
  lemma GetLimitInjective(format: UrlFormat, n: int, m: int)
    ensures StartsWith(GetLimit(format, n), "per_page=") <==> IsPhilomenaFamily(format)
    ensures StartsWith(GetLimit(format, n), "limit=") <==> !IsPhilomenaFamily(format)
    ensures GetLimit(format, n) == GetLimit(format, m) ==> n == m
  {
    var key := if IsPhilomenaFamily(format) then "per_page=" else "limit=";
    assert GetLimit(format, n) == key + IntToString(n);
    assert GetLimit(format, m) == key + IntToString(m);
    assert GetLimit(format, n)[..|key|] == key;
    assert GetLimit(format, n)[0] == key[0];
    if GetLimit(format, n) == GetLimit(format, m) {
      assert IntToString(n) == GetLimit(format, n)[|key|..] == IntToString(m);
      IntToStringInjective(n, m);
    }
  }

  // ---------------------------------------------------------------------------
  // Tags

  /** `tagsArg?.Where(tag => !string.IsNullOrWhiteSpace(tag)).ToArray() ?? []`:
      a null array is empty; null, empty and blank tags are dropped. */
  function FilterTags(tagsArg: Option<seq<Option<string>>>): (r: seq<string>)
    ensures tagsArg.None? ==> r == []
    ensures tagsArg.Some? ==> |r| <= |tagsArg.value|
    ensures forall i :: 0 <= i < |r| ==> !IsNullOrWhiteSpace(Some(r[i]))
  {
    if tagsArg.None? then [] else KeepTags(tagsArg.value)
  }

  function KeepTags(tags: seq<Option<string>>): (r: seq<string>)
    ensures |r| <= |tags|
    ensures forall i :: 0 <= i < |r| ==> !IsNullOrWhiteSpace(Some(r[i]))
  {
    if |tags| == 0 then []
    else (if IsNullOrWhiteSpace(tags[0]) then [] else [tags[0].value]) + KeepTags(tags[1..])
  }

  /** The filter keeps the order: it works tag by tag, and a tag survives
      exactly when it is not null or blank. */
  lemma {:induction false} KeepTagsConcat(a: seq<Option<string>>, b: seq<Option<string>>)
    ensures KeepTags(a + b) == KeepTags(a) + KeepTags(b)
  {
    if |a| > 0 {
      KeepTagsConcat(a[1..], b);
      assert (a + b)[1..] == a[1..] + b;
    } else {
      assert a + b == b;
    }
  }

  lemma KeepTagsSingle(t: Option<string>)
    ensures KeepTags([t]) == if IsNullOrWhiteSpace(t) then [] else [t.value]
  {
    assert [t][1..] == [];
  }

  /** Tags that are all present and not blank pass unchanged. */
  lemma {:induction false} KeepTagsAll(tags: seq<string>)
    ensures KeepTags(seq(|tags|, i requires 0 <= i < |tags| => Some(tags[i]))) == tags
            <==> forall i :: 0 <= i < |tags| ==> !IsNullOrWhiteSpace(Some(tags[i]))
  {
    var wrapped := seq(|tags|, i requires 0 <= i < |tags| => Some(tags[i]));
    if |tags| > 0 {
      KeepTagsAll(tags[1..]);
      var rest := seq(|tags[1..]|, i requires 0 <= i < |tags[1..]| => Some(tags[1..][i]));
      assert |wrapped[1..]| == |rest|;
      forall i | 0 <= i < |rest| ensures wrapped[1..][i] == rest[i] {
        assert wrapped[1..][i] == wrapped[i + 1] == Some(tags[i + 1]);
      }
      assert wrapped[1..] == rest;
      if IsNullOrWhiteSpace(Some(tags[0])) {
        assert |KeepTags(wrapped)| <= |wrapped[1..]| < |tags|;
      } else {
        assert KeepTags(wrapped) == [tags[0]] + KeepTags(wrapped[1..]);
        if KeepTags(wrapped) == tags {
          assert KeepTags(wrapped[1..]) == tags[1..];
        }
        if forall i :: 0 <= i < |tags| ==> !IsNullOrWhiteSpace(Some(tags[i])) {
          assert forall i :: 0 <= i < |tags[1..]| ==> !IsNullOrWhiteSpace(Some(tags[1..][i])) by {
            forall i | 0 <= i < |tags[1..]| ensures !IsNullOrWhiteSpace(Some(tags[1..][i])) {
              assert tags[1..][i] == tags[i + 1];
            }
          }
          assert [tags[0]] + tags[1..] == tags;
        }
      }
    }
  }

  /** The two-tag gate: `TooManyTags` exactly when the booru takes at most two
      tags and more remain. */
  function CheckTags(options: Options, tags: seq<string>): (r: Option<Error>)
    ensures r.Some? <==> NoMoreThanTwoTags(options) && |tags| > LimitedTagsSearchCount
    ensures r.Some? ==> r.value == TooManyTags
  {
    if NoMoreThanTwoTags(options) && |tags| > LimitedTagsSearchCount then Some(TooManyTags) else None
  }

  // ---------------------------------------------------------------------------
  // Fetching posts

  /** `GetSearchResultFromUrlAsync(url)`: one request, the body parsed, the
      first post selected and decoded. */
  function FetchPost(send: Send, codec: Codec, url: string): (c: Call<Post>)
    ensures c.sent == [url]
    ensures !IsSuccessStatus(send(url).status) ==> c.result == Failure(GetJson(send(url)).error)
    ensures IsSuccessStatus(send(url).status) && codec.parseJson(send(url).body).Failure? ==>
              c.result == Failure(codec.parseJson(send(url).body).error)
    ensures IsSuccessStatus(send(url).status) && codec.parseJson(send(url).body).Success? ==>
              var first := codec.firstPost(codec.parseJson(send(url).body).value);
              c.result == if first.Failure? then Failure(first.error) else codec.post(first.value)
  {
    var json := FetchJson(send, codec, url);
    Call(json.sent, DecodeFirstPost(codec, json.result))
  }

  function DecodeFirstPost(codec: Codec, json: Result<Json>): Result<Post>
  {
    var j :- json;
    var first :- codec.firstPost(j);
    codec.post(first)
  }

  /** `GetSearchResultsFromUrlAsync(url)`: one request, the body parsed and
      decoded as a list of posts. */
  function FetchPosts(send: Send, codec: Codec, url: string): (c: Call<seq<Post>>)
    ensures c.sent == [url]
    ensures !IsSuccessStatus(send(url).status) ==> c.result == Failure(GetJson(send(url)).error)
    ensures IsSuccessStatus(send(url).status) && codec.parseJson(send(url).body).Failure? ==>
              c.result == Failure(codec.parseJson(send(url).body).error)
    ensures IsSuccessStatus(send(url).status) && codec.parseJson(send(url).body).Success? ==>
              c.result == codec.posts(codec.parseJson(send(url).body).value)
  {
    var json := FetchJson(send, codec, url);
    Call(json.sent, if json.result.Failure? then Failure(json.result.error) else codec.posts(json.result.value))
  }

  // ---------------------------------------------------------------------------
  // By MD5, by id, count

  /** `GetPostByMd5Async(md5)`. */
  function GetPostByMd5(b: Booru, send: Send, codec: Codec, md5: Option<string>): (c: Call<Post>)
    ensures !Has(b.options, PostByMd5Api) ==> c == Refused(FeatureUnavailable)
    ensures Has(b.options, PostByMd5Api) && md5.None? ==> c == Refused(ArgumentNull)
    ensures Has(b.options, PostByMd5Api) && md5.Some? ==>
              c == FetchPost(send, codec, UrlToString(CreateUrl(b.imageUrl, [GetLimit(b.format, 1), "md5=" + md5.value])))
  {
    if !Has(b.options, PostByMd5Api) then Refused(FeatureUnavailable)
    else if md5.None? then Refused(ArgumentNull)
    else FetchPost(send, codec, UrlToString(CreateUrl(b.imageUrl, [GetLimit(b.format, 1), "md5=" + md5.value])))
  }

  /** Away from gelbooru.com, the MD5 request keeps the image endpoint's path
      and its query is the endpoint's own pieces, the limit of one post and
      the digest, when the digest holds no argument delimiter. */
  lemma PostByMd5Arguments(url: Url, format: UrlFormat, md5: string)
    requires '?' !in url.path
    requires Delimiter(url) !in md5
    requires var args := [GetLimit(format, 1), "md5=" + md5];
      !Contains(UrlToString(Url(url.path, BuildQuery(url, args))), "gelbooru.com")
    ensures var sent := CreateUrl(url, [GetLimit(format, 1), "md5=" + md5]);
      && sent.path == url.path
      && Split(QueryText(sent), Delimiter(url))
         == (if |QueryText(url)| > 0 then Split(QueryText(url), Delimiter(url)) else []) + [GetLimit(format, 1), "md5=" + md5]
  {
    var d := Delimiter(url);
    GetLimitNoDelimiter(format, 1);
    assert d == '&' || d == '$';
    assert d !in "md5=" + md5;
    CreateUrlAppends(url, [GetLimit(format, 1), "md5=" + md5]);
  }

  /** The URL `GetPostByIdAsync` requests for post `id`. */
  function PostByIdUrl(b: Booru, id: int): string
  {
    match b.format
    case Danbooru => b.baseUrl + "posts/" + IntToString(id) + ".json"
    case Philomena => b.baseUrl + "api/v1/json/images/" + IntToString(id)
    case BooruOnRails => b.baseUrl + "api/v3/posts/" + IntToString(id)
    case PostIndexJson => UrlToString(b.imageUrl) + "?tags=id:" + IntToString(id)
    case _ => UrlToString(CreateUrl(b.imageUrl, [GetLimit(b.format, 1), "id=" + IntToString(id)]))
  }

  /** `GetPostByIdAsync(id)`: the gate, then one request. */
  function GetPostById(b: Booru, send: Send, codec: Codec, id: int): (c: Call<Post>)
    ensures !Has(b.options, PostByIdApi) ==> c == Refused(FeatureUnavailable)
    ensures Has(b.options, PostByIdApi) ==> c == FetchPost(send, codec, PostByIdUrl(b, id))
  {
    if !Has(b.options, PostByIdApi) then Refused(FeatureUnavailable)
    else FetchPost(send, codec, PostByIdUrl(b, id))
  }

  /** On the formats with a path per post, distinct ids are requested at
      distinct URLs. */
  lemma PostByIdUrlInjective(b: Booru, id1: int, id2: int)
    requires b.format in {Danbooru, Philomena, BooruOnRails, PostIndexJson}
    requires PostByIdUrl(b, id1) == PostByIdUrl(b, id2)
    ensures id1 == id2
  {
    var s1, s2 := IntToString(id1), IntToString(id2);
    match b.format {
      case Danbooru =>
        assert b.baseUrl + "posts/" + s1 + ".json" == b.baseUrl + "posts/" + s2 + ".json";
        Unwrap(b.baseUrl + "posts/", s1, s2, ".json");
      case Philomena =>
        assert b.baseUrl + "api/v1/json/images/" + s1 + "" == b.baseUrl + "api/v1/json/images/" + s2 + "";
        Unwrap(b.baseUrl + "api/v1/json/images/", s1, s2, "");
      case BooruOnRails =>
        assert b.baseUrl + "api/v3/posts/" + s1 + "" == b.baseUrl + "api/v3/posts/" + s2 + "";
        Unwrap(b.baseUrl + "api/v3/posts/", s1, s2, "");
      case PostIndexJson =>
        assert UrlToString(b.imageUrl) + "?tags=id:" + s1 + "" == UrlToString(b.imageUrl) + "?tags=id:" + s2 + "";
        Unwrap(UrlToString(b.imageUrl) + "?tags=id:", s1, s2, "");
    }
    IntToStringInjective(id1, id2);
  }

  // A proof step kept separate so that its callers stay cheap to verify.
  /** No digit string and no search key holds an argument delimiter. */
  lemma IntToStringNoDelimiter(i: int)
    ensures '&' !in IntToString(i) && '$' !in IntToString(i) && '?' !in IntToString(i)
  {
  }

  /** On the index.php and Sankaku formats, away from gelbooru.com, the query
      of the by-id request ends with the limit and the id arguments. */
  lemma PostByIdArguments(b: Booru, id: int)
    requires b.format in {IndexPhp, Sankaku}
    requires '?' !in b.imageUrl.path
    requires var args := [GetLimit(b.format, 1), "id=" + IntToString(id)];
      !Contains(UrlToString(Url(b.imageUrl.path, BuildQuery(b.imageUrl, args))), "gelbooru.com")
    ensures var sent := CreateUrl(b.imageUrl, [GetLimit(b.format, 1), "id=" + IntToString(id)]);
      && UrlToString(sent) == PostByIdUrl(b, id)
      && sent.path == b.imageUrl.path
      && Split(QueryText(sent), Delimiter(b.imageUrl))
         == (if |QueryText(b.imageUrl)| > 0 then Split(QueryText(b.imageUrl), Delimiter(b.imageUrl)) else [])
            + [GetLimit(b.format, 1), "id=" + IntToString(id)]
  {
    var args := [GetLimit(b.format, 1), "id=" + IntToString(id)];
    IntToStringNoDelimiter(1);
    IntToStringNoDelimiter(id);
    assert GetLimit(b.format, 1) == "limit=" + IntToString(1);
    CreateUrlAppends(b.imageUrl, args);
  }

  /** `GetPostCountAsync(tags)`: the gate, the tag filter and the two-tag
      gate, then the count: the `total` member of the JSON answer on the
      Philomena family, the first attribute of the XML answer elsewhere.
      Without an XML endpoint, `CreateUrl` dereferences the null URI. */
  function GetPostCount(b: Booru, send: Send, codec: Codec, tagsArg: Option<seq<Option<string>>>): (c: Call<int>)
    ensures !Has(b.options, PostCountApi) ==> c == Refused(FeatureUnavailable)
    ensures Has(b.options, PostCountApi) && CheckTags(b.options, FilterTags(tagsArg)).Some? ==>
              c == Refused(TooManyTags)
    ensures Has(b.options, PostCountApi) && CheckTags(b.options, FilterTags(tagsArg)).None? && IsPhilomenaFamily(b.format) ==>
              var url := UrlToString(CreateUrl(b.imageUrl, [GetLimit(b.format, 1), TagsToString(b.format, Some(FilterTags(tagsArg)))]));
              c.sent == [url] && c.result == JsonCount(codec, FetchJson(send, codec, url).result)
    ensures (Has(b.options, PostCountApi) && CheckTags(b.options, FilterTags(tagsArg)).None? && !IsPhilomenaFamily(b.format)
             && b.imageUrlXml.None?) ==> c == Refused(NullReference)
    ensures (Has(b.options, PostCountApi) && CheckTags(b.options, FilterTags(tagsArg)).None? && !IsPhilomenaFamily(b.format)
             && b.imageUrlXml.Some?) ==>
              var url := UrlToString(CreateUrl(b.imageUrlXml.value, [GetLimit(b.format, 1), TagsToString(b.format, Some(FilterTags(tagsArg)))]));
              c.sent == [url] && c.result == XmlCount(codec, FetchXml(send, codec, url).result)
  {
    if !Has(b.options, PostCountApi) then Refused(FeatureUnavailable)
    else
      var tags := FilterTags(tagsArg);
      if CheckTags(b.options, tags).Some? then Refused(TooManyTags)
      else
        var args := [GetLimit(b.format, 1), TagsToString(b.format, Some(tags))];
        if IsPhilomenaFamily(b.format) then
          var json := FetchJson(send, codec, UrlToString(CreateUrl(b.imageUrl, args)));
          Call(json.sent, JsonCount(codec, json.result))
        else if b.imageUrlXml.None? then Refused(NullReference)
        else
          var xml := FetchXml(send, codec, UrlToString(CreateUrl(b.imageUrlXml.value, args)));
          Call(xml.sent, XmlCount(codec, xml.result))
  }

  /** `((JToken)DeserializeObject(body))!["total"]!.Value<int>()`. */
  function JsonCount(codec: Codec, json: Result<Json>): Result<int>
  {
    var j :- json;
    var token :- ToJToken(j);
    if token.None? then Failure(NullReference)
    else
      var total :- Index(token.value, "total");
      ValueInt(codec, total)
  }

  /** `int.Parse(xml.ChildNodes.Item(1)!.Attributes![0].InnerXml)`. */
  function XmlCount(codec: Codec, xml: Result<XmlDocument>): Result<int>
  {
    var doc :- xml;
    var text :- CountAttribute(doc);
    codec.parseInt(text)
  }

  /** The count read from each kind of answer: the `total` value of a JSON
      object, parsed (a missing member is a null argument, a container cannot
      be cast; a JSON `null` answer is dereferenced, a primitive answer cannot
      be cast to a token, an array answer refuses a string key); the first
      attribute of the document's second node, parsed (a missing node or an
      attribute-less node is dereferenced, an element without attributes is
      indexed out of range). */
  lemma PostCountSources(codec: Codec, props: seq<JProperty>, text: string, items: seq<Json>, doc: XmlDocument)
    ensures JsonCount(codec, Success(JNull)) == Failure(NullReference)
    ensures JsonCount(codec, Success(JValue(text))) == Failure(InvalidCast)
    ensures JsonCount(codec, Success(JArray(items))) == Failure(InvalidArgument)
    ensures Lookup(props, "total").None? ==> JsonCount(codec, Success(JObject(props))) == Failure(ArgumentNull)
    ensures Lookup(props, "total").Some? && Lookup(props, "total").value.JValue? ==>
              JsonCount(codec, Success(JObject(props))) == codec.parseInt(Lookup(props, "total").value.text)
    ensures Lookup(props, "total").Some? && !Lookup(props, "total").value.JValue? ==>
              JsonCount(codec, Success(JObject(props))) == Failure(InvalidCast)
    ensures (|doc| < 2 || doc[1].Other?) ==> XmlCount(codec, Success(doc)) == Failure(NullReference)
    ensures |doc| >= 2 && doc[1].Element? && |doc[1].attributes| == 0 ==>
              XmlCount(codec, Success(doc)) == Failure(IndexOutOfRange)
    ensures |doc| >= 2 && doc[1].Element? && |doc[1].attributes| > 0 ==>
              XmlCount(codec, Success(doc)) == codec.parseInt(doc[1].attributes[0].value)
  {
  }

  /** Without the XML endpoint (a format other than index.php and
      post/index.json outside the Philomena family) the count fails with
      `NullReferenceException` before any request. */
  lemma GetPostCountWithoutXml(b: Booru, send: Send, codec: Codec, tagsArg: Option<seq<Option<string>>>)
    requires b.Valid()
    requires b.format in {Danbooru, Sankaku}
    requires Has(b.options, PostCountApi) && CheckTags(b.options, FilterTags(tagsArg)).None?
    ensures GetPostCount(b, send, codec, tagsArg) == Refused(NullReference)
  {
    ResolveXmlUrl(b.domain, b.format, b.options);
  }

  // ---------------------------------------------------------------------------
  // Random posts

  /** The bound of the random offset: a count of zero means the tags match
      nothing; on a `LimitOf20000` booru the bound is clamped to 20001; a
      negative bound is refused by `Random.Next(0, max)`. */
  function RandomBound(options: Options, count: int): (r: Result<int>)
    ensures count == 0 ==> r == Failure(InvalidTags)
    ensures count < 0 ==> r == Failure(ArgumentOutOfRange)
    ensures count > 0 <==> r.Success?
    ensures r.Success? ==> 0 < r.value <= count
    ensures r.Success? && SearchIncreasedPostLimit(options) ==> r.value <= IncreasedPostLimitCount
    ensures r.Success? && (r.value < count) ==> SearchIncreasedPostLimit(options) && r.value == IncreasedPostLimitCount
  {
    if count == 0 then Failure(InvalidTags)
    else
      var max := if SearchIncreasedPostLimit(options) && count > IncreasedPostLimitCount then IncreasedPostLimitCount else count;
      if max < 0 then Failure(ArgumentOutOfRange) else Success(max)
  }

  /** The arguments of the single random-post request on every branch but the
      two index.php ones that go through an extra request. */
  function RandomPostArgs(b: Booru, tagString: string, auth: Auth): seq<string>
  {
    if b.format == IndexPhp then
      [GetLimit(b.format, 1), tagString, "sort=random", "api_key=" + auth.passwordHash, "user_id=" + auth.userId]
    else if IsPhilomenaFamily(b.format) || NoMoreThanTwoTags(b.options) then
      [GetLimit(b.format, 1), tagString, "random=true", "login=" + auth.userId, "api_key=" + auth.passwordHash]
    else
      [GetLimit(b.format, 1), tagString, "order=random", "login=" + auth.userId, "api_key=" + auth.passwordHash]
  }

  /** Outside index.php, away from gelbooru.com, the server receives the
      endpoint's own query pieces and then the limit, the tag argument as one
      piece, the ordering and the credentials: `random=true` on the Philomena
      family and on two-tag boorus (where an `order:random` tag would use up
      one of the two tags), `order=random` elsewhere. */
  lemma RandomPostArgsReceived(b: Booru, tags: seq<string>, auth: Auth)
    requires b.format != IndexPhp
    requires '?' !in b.imageUrl.path
    requires var args := RandomPostArgs(b, TagsToString(b.format, Some(tags)), auth);
      !Contains(UrlToString(Url(b.imageUrl.path, BuildQuery(b.imageUrl, args))), "gelbooru.com")
    requires Delimiter(b.imageUrl) !in auth.userId && Delimiter(b.imageUrl) !in auth.passwordHash
    ensures var tagString := TagsToString(b.format, Some(tags));
      var sent := CreateUrl(b.imageUrl, RandomPostArgs(b, tagString, auth));
      var endpoint := if |QueryText(b.imageUrl)| > 0 then Split(QueryText(b.imageUrl), Delimiter(b.imageUrl)) else [];
      && sent.path == b.imageUrl.path
      && (IsPhilomenaFamily(b.format) || NoMoreThanTwoTags(b.options) ==>
            Split(QueryText(sent), Delimiter(b.imageUrl))
            == endpoint + [GetLimit(b.format, 1), tagString, "random=true", "login=" + auth.userId, "api_key=" + auth.passwordHash])
      && (!IsPhilomenaFamily(b.format) && !NoMoreThanTwoTags(b.options) ==>
            Split(QueryText(sent), Delimiter(b.imageUrl))
            == endpoint + [GetLimit(b.format, 1), tagString, "order=random", "login=" + auth.userId, "api_key=" + auth.passwordHash])
  {
    var tagString := TagsToString(b.format, Some(tags));
    var d := Delimiter(b.imageUrl);
    var order := if IsPhilomenaFamily(b.format) || NoMoreThanTwoTags(b.options) then "random=true" else "order=random";
    var args := [GetLimit(b.format, 1), tagString, order, "login=" + auth.userId, "api_key=" + auth.passwordHash];
    assert RandomPostArgs(b, tagString, auth) == args;
    assert d == '&' || d == '$';
    ArgumentsAvoid(d, b.format, tags, order, auth);
    CreateUrlAppends(b.imageUrl, args);
  }

  /** None of the random-post arguments holds the delimiter when the
      credentials do not. */
  lemma ArgumentsAvoid(d: char, format: UrlFormat, tags: seq<string>, order: string, auth: Auth)
    requires d == '&' || d == '$'
    requires order in {"random=true", "order=random"}
    requires d !in auth.userId && d !in auth.passwordHash
    ensures var args := [GetLimit(format, 1), TagsToString(format, Some(tags)), order, "login=" + auth.userId, "api_key=" + auth.passwordHash];
      forall i :: 0 <= i < |args| ==> d !in args[i]
  {
    var tagString := TagsToString(format, Some(tags));
    var limitArg := GetLimit(format, 1);
    GetLimitNoDelimiter(format, 1);
    TagsToStringNoDelimiter(format, Some(tags));
    OrderingsNoDelimiter(d);
    CredentialsNoDelimiter(d, auth);
    var args := [limitArg, tagString, order, "login=" + auth.userId, "api_key=" + auth.passwordHash];
    forall i | 0 <= i < |args|
      ensures d !in args[i]
    {
      if i < 3 {
        assert args[i] in {limitArg, tagString, order};
      }
    }
  }

  /** `GetRandomPostAsync(tags)`: no capability gate; the tag filter and the
      two-tag gate, then one of five request plans. `next(lo, hi)` is the
      random generator; the credentials are read when the request is built. */
  function GetRandomPost(b: Booru, send: Send, codec: Codec, next: (int, int) -> int,
                         tagsArg: Option<seq<Option<string>>>): (c: Call<Post>)
    reads b
    ensures CheckTags(b.options, FilterTags(tagsArg)).Some? ==> c == Refused(TooManyTags)
    ensures CheckTags(b.options, FilterTags(tagsArg)).None? && b.format == IndexPhp && !b.isGelbooru ==>
      var tagString := TagsToString(b.format, Some(FilterTags(tagsArg)));
      c == if |FilterTags(tagsArg)| == 0 then RandomByRedirect(b, send, codec, tagString)
           else RandomByOffset(b, send, codec, next, tagString)
  {
    var tags := FilterTags(tagsArg);
    if CheckTags(b.options, tags).Some? then Refused(TooManyTags)
    else
      var tagString := TagsToString(b.format, Some(tags));
      if b.format == IndexPhp && b.isGelbooru then
        if b.auth.None? then Refused(NullReference)
        else FetchPost(send, codec, UrlToString(CreateUrl(b.imageUrl, RandomPostArgs(b, tagString, b.auth.value))))
      else if b.format == IndexPhp && |tags| == 0 then
        RandomByRedirect(b, send, codec, tagString)
      else if b.format == IndexPhp then
        RandomByOffset(b, send, codec, next, tagString)
      else if b.auth.None? then Refused(NullReference)
      else FetchPost(send, codec, UrlToString(CreateUrl(b.imageUrl, RandomPostArgs(b, tagString, b.auth.value))))
  }

  /** index.php without tags: the random page redirects to a post, whose id is
      then requested. A failed status is not mapped to the client's own
      errors here. */
  function RandomByRedirect(b: Booru, send: Send, codec: Codec, tagString: string): (c: Call<Post>)
    ensures |c.sent| >= 1 && c.sent[0] == b.baseUrl + "index.php?page=post&s=random&tags=" + tagString
    ensures var resp := send(c.sent[0]);
      && (!IsSuccessStatus(resp.status) ==> c == Call([c.sent[0]], Failure(HttpError(resp.status))))
      && (IsSuccessStatus(resp.status) ==>
            var id := if resp.redirectId.Some? then resp.redirectId.value else "";
            var second := UrlToString(CreateUrl(b.imageUrl, [GetLimit(b.format, 1), "id=" + id]));
            c.sent == [c.sent[0], second] && c.result == FetchPost(send, codec, second).result)
  {
    var first := b.baseUrl + "index.php?page=post&s=random&tags=" + tagString;
    var resp := send(first);
    if !IsSuccessStatus(resp.status) then Call([first], Failure(HttpError(resp.status)))
    else
      var id := if resp.redirectId.Some? then resp.redirectId.value else "";
      var post := FetchPost(send, codec, UrlToString(CreateUrl(b.imageUrl, [GetLimit(b.format, 1), "id=" + id])));
      Call([first] + post.sent, post.result)
  }

  /** index.php with tags: the XML count of matching posts bounds a random
      offset `pid`, and the post at that offset is requested. */
  function RandomByOffset(b: Booru, send: Send, codec: Codec, next: (int, int) -> int, tagString: string): (c: Call<Post>)
    ensures b.imageUrlXml.None? ==> c == Refused(NullReference)
    ensures b.imageUrlXml.Some? ==>
      var countUrl := UrlToString(CreateUrl(b.imageUrlXml.value, [GetLimit(b.format, 1), tagString]));
      var count := XmlCount(codec, FetchXml(send, codec, countUrl).result);
      && 1 <= |c.sent| <= 2 && c.sent[0] == countUrl
      && (count.Failure? ==> c == Call([countUrl], Failure(count.error)))
      && (count.Success? && RandomBound(b.options, count.value).Failure? ==>
            c == Call([countUrl], Failure(RandomBound(b.options, count.value).error)))
      && (|c.sent| == 2 ==> count.Success? && RandomBound(b.options, count.value).Success?)
      && (count.Success? && RandomBound(b.options, count.value).Success? ==>
            var pageUrl := UrlToString(CreateUrl(b.imageUrl, OffsetArgs(b, tagString, next(0, RandomBound(b.options, count.value).value))));
            c.sent == [countUrl, pageUrl] && c.result == FetchPost(send, codec, pageUrl).result)
  {
    if b.imageUrlXml.None? then Refused(NullReference)
    else
      var countUrl := UrlToString(CreateUrl(b.imageUrlXml.value, [GetLimit(b.format, 1), tagString]));
      var xml := FetchXml(send, codec, countUrl);
      var count := XmlCount(codec, xml.result);
      if count.Failure? then Call(xml.sent, Failure(count.error))
      else
        var bound := RandomBound(b.options, count.value);
        if bound.Failure? then Call(xml.sent, Failure(bound.error))
        else
          var post := FetchPost(send, codec, UrlToString(CreateUrl(b.imageUrl, OffsetArgs(b, tagString, next(0, bound.value)))));
          Call(xml.sent + post.sent, post.result)
  }

  function OffsetArgs(b: Booru, tagString: string, pid: int): seq<string>
  {
    [GetLimit(b.format, 1), tagString, "pid=" + IntToString(pid)]
  }

  /** With a generator that respects its bounds, the offset requested lies in
      [0, bound) and so below the number of matching posts, and below 20001 on
      a `LimitOf20000` booru. */
  lemma RandomOffsetInRange(options: Options, next: (int, int) -> int, count: int)
    requires forall lo, hi :: lo < hi ==> lo <= next(lo, hi) < hi
    requires RandomBound(options, count).Success?
    ensures var pid := next(0, RandomBound(options, count).value);
      && 0 <= pid < count
      && (SearchIncreasedPostLimit(options) ==> pid < IncreasedPostLimitCount)
  {
    var bound := RandomBound(options, count).value;
    assert 0 <= next(0, bound) < bound;
  }

  /** The Gelbooru template and the non-index.php formats send one request,
      built from `RandomPostArgs`, and need credentials. */
  lemma GetRandomPostPlan(b: Booru, send: Send, codec: Codec, next: (int, int) -> int,
                          tagsArg: Option<seq<Option<string>>>)
    requires CheckTags(b.options, FilterTags(tagsArg)).None?
    requires b.format != IndexPhp || b.isGelbooru
    ensures var c := GetRandomPost(b, send, codec, next, tagsArg);
      && (b.auth.None? ==> c == Refused(NullReference))
      && (b.auth.Some? ==>
            c == FetchPost(send, codec, UrlToString(CreateUrl(b.imageUrl,
                   RandomPostArgs(b, TagsToString(b.format, Some(FilterTags(tagsArg))), b.auth.value)))))
  {
  }

  /** On gelbooru.com the `sort=random` argument never reaches the server as
      `&sort=random`: the rewrite turns it into a random-order tag appended to
      the tag argument. */
  lemma GelbooruRandomRewritten(b: Booru, tags: seq<string>, auth: Auth)
    requires b.format == IndexPhp
    requires Delimiter(b.imageUrl) == '&'
    requires var args := RandomPostArgs(b, TagsToString(b.format, Some(tags)), auth);
      Contains(UrlToString(Url(b.imageUrl.path, BuildQuery(b.imageUrl, args))), "gelbooru.com")
    ensures var tagString := TagsToString(b.format, Some(tags));
      var sent := UrlToString(CreateUrl(b.imageUrl, RandomPostArgs(b, tagString, auth)));
      && !Contains(sent, "&sort=random")
      && Contains(sent, "&" + tagString + "+sort:random")
  {
    var tagString := TagsToString(b.format, Some(tags));
    var args := RandomPostArgs(b, tagString, auth);
    CreateUrlGelbooru(b.imageUrl, args);
    TagsToStringNoDelimiter(b.format, Some(tags));
    assert tagString[..5] == "tags=";
    assert args == [GetLimit(b.format, 1), tagString, "sort=random"] + args[3..];
    CreateUrlGelbooruTag(b.imageUrl, GetLimit(b.format, 1), tagString, args[3..]);
  }

  /** `GetRandomPostsAsync(limit, tags)`: the gate, the tag filter and the
      two-tag gate, then one request whose URL depends on the format. */
  function GetRandomPosts(b: Booru, send: Send, codec: Codec, limit: int,
                          tagsArg: Option<seq<Option<string>>>): (c: Call<seq<Post>>)
    ensures !Has(b.options, MultipleRandomApi) ==> c == Refused(FeatureUnavailable)
    ensures Has(b.options, MultipleRandomApi) && CheckTags(b.options, FilterTags(tagsArg)).Some? ==>
              c == Refused(TooManyTags)
    ensures Has(b.options, MultipleRandomApi) && CheckTags(b.options, FilterTags(tagsArg)).None? ==>
              c == FetchPosts(send, codec, RandomPostsUrl(b.imageUrl, b.format, b.options, limit, TagsToString(b.format, Some(FilterTags(tagsArg)))))
  {
    if !Has(b.options, MultipleRandomApi) then Refused(FeatureUnavailable)
    else
      var tags := FilterTags(tagsArg);
      if CheckTags(b.options, tags).Some? then Refused(TooManyTags)
      else FetchPosts(send, codec, RandomPostsUrl(b.imageUrl, b.format, b.options, limit, TagsToString(b.format, Some(tags))))
  }

  /** The URL of the multi-random request on the image endpoint `url`: on
      index.php and on boorus without the two-tag limit, a random-order tag
      appended to the printed URL; on the Philomena family a `sf=random`
      argument; on two-tag boorus a `random=true` argument, which does not use
      up a tag. */
  function RandomPostsUrl(url: Url, format: UrlFormat, options: Options, limit: int, tagString: string): string
  {
    var base := [GetLimit(format, limit), tagString];
    match format
    case IndexPhp => UrlToString(CreateUrl(url, base)) + "+sort:random"
    case Philomena => UrlToString(CreateUrl(url, base + ["sf=random"]))
    case BooruOnRails => UrlToString(CreateUrl(url, base + ["sf=random"]))
    case _ =>
      if NoMoreThanTwoTags(options) then UrlToString(CreateUrl(url, base + ["random=true"]))
      else UrlToString(CreateUrl(url, base)) + "+order:random"
  }

  /** The multi-random request as the server receives it, away from
      gelbooru.com: the endpoint's own query pieces, the limit, and then
      either the tag argument with a random-order tag appended to it
      (index.php, and boorus without the two-tag limit, where the ordering
      costs a tag), or the tag argument followed by a `sf=random` (Philomena
      family) or `random=true` (two-tag boorus) argument. */
  lemma RandomPostsReceived(url: Url, format: UrlFormat, options: Options, limit: int, tags: seq<string>)
    requires '?' !in url.path
    requires var tagString := TagsToString(format, Some(tags));
      var received :=
        if format == IndexPhp then [GetLimit(format, limit), tagString + "+sort:random"]
        else if IsPhilomenaFamily(format) then [GetLimit(format, limit), tagString, "sf=random"]
        else if NoMoreThanTwoTags(options) then [GetLimit(format, limit), tagString, "random=true"]
        else [GetLimit(format, limit), tagString + "+order:random"];
      !Contains(UrlToString(Url(url.path, BuildQuery(url, received))), "gelbooru.com")
    ensures var tagString := TagsToString(format, Some(tags));
      var sent := ParseUrl(RandomPostsUrl(url, format, options, limit, tagString));
      var pieces := Split(QueryText(sent), Delimiter(url));
      var endpoint := if |QueryText(url)| > 0 then Split(QueryText(url), Delimiter(url)) else [];
      && sent.path == url.path
      && (format == IndexPhp ==> pieces == endpoint + [GetLimit(format, limit), tagString + "+sort:random"])
      && (IsPhilomenaFamily(format) ==> pieces == endpoint + [GetLimit(format, limit), tagString, "sf=random"])
      && (format != IndexPhp && !IsPhilomenaFamily(format) && NoMoreThanTwoTags(options) ==>
            pieces == endpoint + [GetLimit(format, limit), tagString, "random=true"])
      && (format != IndexPhp && !IsPhilomenaFamily(format) && !NoMoreThanTwoTags(options) ==>
            pieces == endpoint + [GetLimit(format, limit), tagString + "+order:random"])
  {
    var tagString := TagsToString(format, Some(tags));
    var limitArg := GetLimit(format, limit);
    GetLimitNoDelimiter(format, limit);
    TagsToStringNoDelimiter(format, Some(tags));
    var d := Delimiter(url);
    assert d == '&' || d == '$';
    OrderingsNoDelimiter(d);
    var base := [limitArg, tagString];
    var text := RandomPostsUrl(url, format, options, limit, tagString);
    if format == IndexPhp {
      assert text == UrlToString(CreateUrl(url, base)) + "+sort:random";
      CreateUrlSuffixReceived(url, limitArg, tagString, "+sort:random");
    } else if IsPhilomenaFamily(format) {
      assert base + ["sf=random"] == [limitArg, tagString, "sf=random"];
      assert text == UrlToString(CreateUrl(url, [limitArg, tagString, "sf=random"]));
      CreateUrlThreeReceived(url, limitArg, tagString, "sf=random");
    } else if NoMoreThanTwoTags(options) {
      assert base + ["random=true"] == [limitArg, tagString, "random=true"];
      assert text == UrlToString(CreateUrl(url, [limitArg, tagString, "random=true"]));
      CreateUrlThreeReceived(url, limitArg, tagString, "random=true");
    } else {
      assert text == UrlToString(CreateUrl(url, base)) + "+order:random";
      CreateUrlSuffixReceived(url, limitArg, tagString, "+order:random");
    }
  }

  // A proof step kept separate so that its callers stay cheap to verify.
  /** The credential arguments hold a delimiter only when the credentials do. */
  lemma CredentialsNoDelimiter(d: char, auth: Auth)
    requires d == '&' || d == '$'
    requires d !in auth.userId && d !in auth.passwordHash
    ensures d !in "login=" + auth.userId && d !in "api_key=" + auth.passwordHash
  {
  }

  // A proof step kept separate so that its callers stay cheap to verify.
  /** No random-ordering argument or tag holds an argument delimiter. */
  lemma OrderingsNoDelimiter(d: char)
    requires d == '&' || d == '$'
    ensures d !in "+sort:random" && d !in "+order:random" && d !in "sf=random" && d !in "random=true"
    ensures d !in "order=random"
  {
  }

  // ---------------------------------------------------------------------------
  // Last posts

  /** `GetLastPostsAsync(tags)`: no gate and no filter; the tags as given,
      where a null tag cannot be escaped. */
  function GetLastPosts(b: Booru, send: Send, codec: Codec, tagsArg: Option<seq<Option<string>>>): (c: Call<seq<Post>>)
    ensures RawTags(tagsArg).Failure? <==> c == Refused(ArgumentNull) && tagsArg.Some?
    ensures RawTags(tagsArg).Success? ==>
              c == FetchPosts(send, codec, UrlToString(CreateUrl(b.imageUrl, [TagsToString(b.format, RawTags(tagsArg).value)])))
  {
    var tags := RawTags(tagsArg);
    if tags.Failure? then Refused(tags.error)
    else FetchPosts(send, codec, UrlToString(CreateUrl(b.imageUrl, [TagsToString(b.format, tags.value)])))
  }

  /** `GetLastPostsAsync(limit, tags)`: the literal `limit=` key on every
      format, then the raw tags. */
  function GetLastPostsLimit(b: Booru, send: Send, codec: Codec, limit: int,
                             tagsArg: Option<seq<Option<string>>>): (c: Call<seq<Post>>)
    ensures RawTags(tagsArg).Failure? <==> c == Refused(ArgumentNull) && tagsArg.Some?
    ensures RawTags(tagsArg).Success? ==>
              c == FetchPosts(send, codec, UrlToString(CreateUrl(b.imageUrl, ["limit=" + IntToString(limit), TagsToString(b.format, RawTags(tagsArg).value)])))
  {
    var tags := RawTags(tagsArg);
    if tags.Failure? then Refused(tags.error)
    else FetchPosts(send, codec, UrlToString(CreateUrl(b.imageUrl, ["limit=" + IntToString(limit), TagsToString(b.format, tags.value)])))
  }

  /** Away from gelbooru.com, the last-posts requests keep the image
      endpoint's path, and their query is the endpoint's own pieces followed
      by the tag argument, after a literal `limit=` argument when a limit is
      given. */
  lemma LastPostsArguments(url: Url, format: UrlFormat, limit: int, tags: Option<seq<string>>)
    requires '?' !in url.path
    requires !Contains(UrlToString(Url(url.path, BuildQuery(url, [TagsToString(format, tags)]))), "gelbooru.com")
    requires var args := ["limit=" + IntToString(limit), TagsToString(format, tags)];
      !Contains(UrlToString(Url(url.path, BuildQuery(url, args))), "gelbooru.com")
    ensures var endpoint := if |QueryText(url)| > 0 then Split(QueryText(url), Delimiter(url)) else [];
      var plain := CreateUrl(url, [TagsToString(format, tags)]);
      var limited := CreateUrl(url, ["limit=" + IntToString(limit), TagsToString(format, tags)]);
      && plain.path == url.path
      && Split(QueryText(plain), Delimiter(url)) == endpoint + [TagsToString(format, tags)]
      && limited.path == url.path
      && Split(QueryText(limited), Delimiter(url)) == endpoint + ["limit=" + IntToString(limit), TagsToString(format, tags)]
  {
    var tagString := TagsToString(format, tags);
    var limitArg := "limit=" + IntToString(limit);
    TagsToStringNoDelimiter(format, tags);
    IntToStringNoDelimiter(limit);
    assert Delimiter(url) == '&' || Delimiter(url) == '$';
    assert Delimiter(url) !in limitArg;
    CreateUrlAppends(url, [tagString]);
    CreateUrlAppends(url, [limitArg, tagString]);
  }

  /** The unfiltered tag array: `Uri.EscapeDataString(null)` throws
      `ArgumentNullException` as soon as the array holds a null tag, unless
      the array is empty. */
  function RawTags(tagsArg: Option<seq<Option<string>>>): (r: Result<Option<seq<string>>>)
    ensures r.Failure? <==> tagsArg.Some? && exists i :: 0 <= i < |tagsArg.value| && tagsArg.value[i].None?
    ensures r.Failure? ==> r.error == ArgumentNull
    ensures r.Success? && tagsArg.Some? ==>
              r.value.Some? && |r.value.value| == |tagsArg.value|
              && forall i :: 0 <= i < |tagsArg.value| ==> tagsArg.value[i] == Some(r.value.value[i])
    ensures r.Success? && tagsArg.None? ==> r.value.None?
  {
    if tagsArg.None? then Success(None)
    else
      var tags := Present(tagsArg.value);
      if tags.None? then Failure(ArgumentNull) else Success(Some(tags.value))
  }

  /** All the strings, when none is null. */
  function Present(tags: seq<Option<string>>): (r: Option<seq<string>>)
    ensures r.None? <==> exists i :: 0 <= i < |tags| && tags[i].None?
    ensures r.Some? ==> |r.value| == |tags| && forall i :: 0 <= i < |tags| ==> tags[i] == Some(r.value[i])
  {
    if |tags| == 0 then Some([])
    else
      var rest := Present(tags[1..]);
      if tags[0].None? then None
      else if rest.None? then
        var k :| 0 <= k < |tags[1..]| && tags[1..][k].None?;
        assert tags[k + 1].None?;
        None
      else
        assert forall i :: 1 <= i < |tags| ==> tags[i] == tags[1..][i - 1];
        Some([tags[0].value] + rest.value)
  }

  // ---------------------------------------------------------------------------
  // Ratings

  /** `GetRating(c)`: the rating letters, case-insensitively. */
  function GetRating(c: char): Result<Rating>
  {
    match LowerChar(c)
    case 'g' => Success(General)
    case 's' => Success(Safe)
    case 'q' => Success(Questionable)
    case 'e' => Success(Explicit)
    case _ => Failure(InvalidArgument)
  }

  /** The letter of each rating. */
  function RatingLetter(r: Rating): char
  {
    match r
    case General => 'g'
    case Safe => 's'
    case Questionable => 'q'
    case Explicit => 'e'
  }

  /** Every rating is read back from its letter, in either case, and a letter
      is accepted exactly when it is one of `g`, `s`, `q`, `e` in either case. */
  lemma GetRatingRoundTrip(r: Rating, c: char)
    ensures GetRating(RatingLetter(r)) == Success(r)
    ensures GetRating((RatingLetter(r) as int - 32) as char) == Success(r)
    ensures GetRating(c).Success? <==> c in "gsqeGSQE"
    ensures GetRating(c).Success? ==> RatingLetter(GetRating(c).value) == LowerChar(c)
  {
  }
}
