/** The client object (`ABooru`): its dialect descriptor, the endpoint URLs its
    constructor resolves once from the domain, the format and the options, and
    the credentials callers may set at any time. */
module Client {
  import opened Common
  import opened Text
  import opened Uris
  import opened Capabilities
  import opened Query

  /** `BooruAuth`: the user id and the password hash or API key. */
  datatype Auth = Auth(userId: string, passwordHash: string)

  /** The endpoint fields of a client; `None` is a null `Uri`. */
  datatype Endpoints = Endpoints(
    baseUrl: string,
    imageUrl: Url,
    imageUrlXml: Option<Url>,
    tagUrl: Url,
    wikiUrl: Option<Url>,
    relatedUrl: Option<Url>,
    commentUrl: Option<Url>,
    autocompleteUrl: Url)

  /** The post resource: Philomena names none. */
  function PostResource(format: UrlFormat): string
  {
    if format == Philomena then "" else "post"
  }

  function WikiResource(format: UrlFormat): string
  {
    if format == Danbooru then "wiki_page" else "wiki"
  }

  /** The XML twin of the post endpoint, derived from its printed form. */
  function XmlImageUrl(format: UrlFormat, imageUrl: Url): Option<Url>
  {
    if format == IndexPhp then Some(ParseUrl(ReplaceAll(UrlToString(imageUrl), "json=1", "json=0")))
    else if format == PostIndexJson then Some(ParseUrl(ReplaceAll(UrlToString(imageUrl), "index.json", "index.xml")))
    else None
  }

  function RelatedEndpoint(baseUrl: string, format: UrlFormat): Url
  {
    if format == Danbooru then QueryUrl(baseUrl, format, "related_tag")
    else QueryUrl(baseUrl, format, "tag", "related")
  }

  /** The autocomplete endpoint the constructor leaves in place: chosen by the
      format alone. */
  function AutocompleteEndpoint(baseUrl: string, format: UrlFormat): Url
  {
    match format
    case IndexPhp => ParseUrl(baseUrl + "autocomplete.php")
    case Danbooru => ParseUrl(baseUrl + "tags/autocomplete.json")
    case _ => QueryUrl(baseUrl, format, "autocomplete")
  }

  /** The endpoints a client built from `domain`, `format` and `options` holds. */
  function Resolve(domain: string, format: UrlFormat, options: Options): Endpoints
  {
    var base := BaseUrl(domain, options);
    var image := QueryUrl(base, format, PostResource(format));
    Endpoints(
      base,
      image,
      XmlImageUrl(format, image),
      QueryUrl(base, format, "tag"),
      if Has(options, WikiApi) then Some(QueryUrl(base, format, WikiResource(format))) else None,
      if Has(options, RelatedApi) then Some(RelatedEndpoint(base, format)) else None,
      if Has(options, CommentApi) then Some(QueryUrl(base, format, "comment")) else None,
      AutocompleteEndpoint(base, format))
  }

  class Booru {
    const options: Options
    const format: UrlFormat
    /** Whether the client is the Gelbooru template (`this is Template.Gelbooru`). */
    const isGelbooru: bool
    ghost const domain: string

    const baseUrl: string
    const imageUrl: Url
    const imageUrlXml: Option<Url>
    const tagUrl: Url
    const wikiUrl: Option<Url>
    const relatedUrl: Option<Url>
    const commentUrl: Option<Url>
    const autocompleteUrl: Url

    /** `Auth`: settable by callers at any time, read when a request is built. */
    var auth: Option<Auth>

    /** The endpoints are the ones resolved from the client's own descriptor. */
    ghost predicate Valid()
    {
      var e := Resolve(domain, format, options);
      && baseUrl == e.baseUrl
      && imageUrl == e.imageUrl
      && imageUrlXml == e.imageUrlXml
      && tagUrl == e.tagUrl
      && wikiUrl == e.wikiUrl
      && relatedUrl == e.relatedUrl
      && commentUrl == e.commentUrl
      && autocompleteUrl == e.autocompleteUrl
    }

    /** `ABooru(domain, format, options)`: the fields in the order the source
        assigns them, including the conditional assignments and the final
        overwrite of the autocomplete endpoint. */
    constructor(domain: string, format: UrlFormat, options: Options, isGelbooru: bool)
      ensures this.domain == domain && this.format == format && this.options == options
      ensures this.isGelbooru == isGelbooru
      ensures Valid()
      ensures auth == None
    {
      ghost var e := Resolve(domain, format, options);
      this.domain := domain;
      this.isGelbooru := isGelbooru;
      this.options := options;
      var base := BaseUrl(domain, options);
      assert base == e.baseUrl;
      baseUrl := base;
      this.format := format;
      var image := QueryUrl(base, format, PostResource(format));
      assert image == e.imageUrl;
      imageUrl := image;
      imageUrlXml := XmlImageUrl(format, image);
      assert XmlImageUrl(format, image) == e.imageUrlXml;
      tagUrl := QueryUrl(base, format, "tag");
      assert QueryUrl(base, format, "tag") == e.tagUrl;
      var wiki := None;
      if Has(options, WikiApi) {
        wiki := Some(QueryUrl(base, format, WikiResource(format)));
      }
      assert wiki == e.wikiUrl;
      wikiUrl := wiki;
      var related := None;
      if Has(options, RelatedApi) {
        related := Some(RelatedEndpoint(base, format));
      }
      assert related == e.relatedUrl;
      relatedUrl := related;
      var comment := None;
      if Has(options, CommentApi) {
        comment := Some(QueryUrl(base, format, "comment"));
      }
      assert comment == e.commentUrl;
      commentUrl := comment;
      // Unset until the API check; the format switch below then overwrites
      // whatever the check chose.
      var autocomplete: Url;
      if Has(options, AutocompleteApi) {
        autocomplete := if format == IndexPhp then ParseUrl(base + "autocomplete.php")
                        else QueryUrl(base, format, "autocomplete");
      }
      match format {
        case IndexPhp =>
          autocomplete := ParseUrl(base + "autocomplete.php");
        case Danbooru =>
          autocomplete := ParseUrl(base + "tags/autocomplete.json");
        case _ =>
          autocomplete := QueryUrl(base, format, "autocomplete");
      }
      assert autocomplete == e.autocompleteUrl;
      autocompleteUrl := autocomplete;
      new;
      auth := None;
    }

    /** The `Auth` setter. */
    method SetAuth(credentials: Option<Auth>)
      modifies this
      ensures auth == credentials
    {
      auth := credentials;
    }
  }

  // ---------------------------------------------------------------------------
  // Properties of the resolved endpoints.

  /** The wiki, related and comment endpoints exist exactly when their API is
      on. */
  lemma ResolveOptionalEndpoints(domain: string, format: UrlFormat, options: Options)
    ensures Resolve(domain, format, options).wikiUrl.Some? <==> Has(options, WikiApi)
    ensures Resolve(domain, format, options).relatedUrl.Some? <==> Has(options, RelatedApi)
    ensures Resolve(domain, format, options).commentUrl.Some? <==> Has(options, CommentApi)
  {
  }

  /** The autocomplete endpoint depends on the format and the scheme only,
      whatever the autocomplete bit says. */
  lemma ResolveAutocompleteIgnoresOptions(domain: string, format: UrlFormat, options: Options, other: Options)
    requires UsesHttp(other) == UsesHttp(options)
    ensures Resolve(domain, format, options).autocompleteUrl == Resolve(domain, format, other).autocompleteUrl
  {
    assert BaseUrl(domain, options) == BaseUrl(domain, other);
  }

  /** On index.php boorus the related endpoint is the tag endpoint: the
      sub-resource is ignored. */
  lemma ResolveIndexPhpRelated(domain: string, options: Options)
    requires NoRelated !in options
    ensures Resolve(domain, IndexPhp, options).relatedUrl == Some(Resolve(domain, IndexPhp, options).tagUrl)
  {
  }

  /** The XML post endpoint is the JSON one with `json=1` turned into
      `json=0` (index.php) or `index.json` into `index.xml` (post/index.json),
      and there is none for the other formats. The replacement runs over the
      whole URL, so the text before the pattern must not hold it itself. */
  lemma ResolveXmlUrl(domain: string, format: UrlFormat, options: Options)
    ensures var e := Resolve(domain, format, options);
      var post := PostResource(format);
      && (format == IndexPhp && !Contains(e.baseUrl + "index.php?page=dapi&s=" + post + "&q=index&", "json=1") ==>
            e.imageUrlXml == Some(ParseUrl(e.baseUrl + "index.php?page=dapi&s=" + post + "&q=index&" + "json=0")))
      && (format == PostIndexJson && !Contains(e.baseUrl + post + "/", "index.json") ==>
            e.imageUrlXml == Some(ParseUrl(e.baseUrl + post + "/" + "index.xml")))
      && (format != IndexPhp && format != PostIndexJson ==> e.imageUrlXml.None?)
  {
    var base := BaseUrl(domain, options);
    var post := PostResource(format);
    if format == IndexPhp && !Contains(base + "index.php?page=dapi&s=" + post + "&q=index&", "json=1") {
      XmlUrlIndexPhp(base, post);
    } else if format == PostIndexJson && !Contains(base + post + "/", "index.json") {
      XmlUrlPostIndexJson(base, post);
    }
  }

  /** The index.php XML endpoint of resource `q`. */
  lemma {:induction false} XmlUrlIndexPhp(base: string, q: string)
    requires !Contains(base + "index.php?page=dapi&s=" + q + "&q=index&", "json=1")
    ensures XmlImageUrl(IndexPhp, QueryUrl(base, IndexPhp, q))
         == Some(ParseUrl(base + "index.php?page=dapi&s=" + q + "&q=index&" + "json=0"))
  {
    var front := base + "index.php?page=dapi&s=" + q + "&q=index&";
    assert "&q=index&json=1" == "&q=index&" + "json=1";
    assert base + CreateQueryString(IndexPhp, q) == front + "json=1";
    assert front[|front| - 1] == '&';
    ReplaceAfterClean(front, "json=1", "json=1", "json=0");
    assert ReplaceAll("json=1", "json=1", "json=0") == "json=0" by {
      assert StartsWith("json=1", "json=1");
      assert "json=1"[6..] == "";
    }
  }

  /** The post/index.json XML endpoint of resource `q`. */
  lemma {:induction false} XmlUrlPostIndexJson(base: string, q: string)
    requires !Contains(base + q + "/", "index.json")
    ensures XmlImageUrl(PostIndexJson, QueryUrl(base, PostIndexJson, q))
         == Some(ParseUrl(base + q + "/" + "index.xml"))
  {
    var front := base + q + "/";
    assert "index" + ".json" == "index.json";
    assert base + CreateQueryString(PostIndexJson, q) == front + "index.json";
    assert front[|front| - 1] == '/';
    ReplaceAfterClean(front, "index.json", "index.json", "index.xml");
    assert ReplaceAll("index.json", "index.json", "index.xml") == "index.xml" by {
      assert StartsWith("index.json", "index.json");
      assert "index.json"[10..] == "";
    }
  }

  /** Distinct resources of one format have distinct endpoints. */
  lemma QueryUrlInjective(base: string, format: UrlFormat, q1: string, q2: string)
    ensures QueryUrl(base, format, q1) == QueryUrl(base, format, q2) ==> q1 == q2
  {
    var s1, s2 := CreateQueryString(format, q1), CreateQueryString(format, q2);
    if QueryUrl(base, format, q1) == QueryUrl(base, format, q2) {
      assert base + s1 == UrlToString(QueryUrl(base, format, q1));
      assert s1 == (base + s1)[|base|..];
      assert s2 == (base + s2)[|base|..];
      CreateQueryStringInjective(format, q1, q2, "index");
    }
  }

  /** The post, tag, comment and wiki endpoints of a client are pairwise
      distinct, in every format. */
  lemma ResolveEndpointsDistinct(domain: string, format: UrlFormat, options: Options)
    ensures var e := Resolve(domain, format, options);
      && e.imageUrl != e.tagUrl
      && (e.commentUrl.Some? ==> e.commentUrl.value != e.imageUrl && e.commentUrl.value != e.tagUrl)
      && (e.wikiUrl.Some? ==> e.wikiUrl.value != e.imageUrl && e.wikiUrl.value != e.tagUrl)
      && (e.wikiUrl.Some? && e.commentUrl.Some? ==> e.wikiUrl.value != e.commentUrl.value)
  {
    var base := BaseUrl(domain, options);
    var post, wiki := PostResource(format), WikiResource(format);
    QueryUrlInjective(base, format, post, "tag");
    QueryUrlInjective(base, format, "comment", post);
    QueryUrlInjective(base, format, "comment", "tag");
    QueryUrlInjective(base, format, wiki, post);
    QueryUrlInjective(base, format, wiki, "tag");
    QueryUrlInjective(base, format, wiki, "comment");
  }
}
