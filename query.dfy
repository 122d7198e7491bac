/** The query builder of the client (`Booru/ABooru.cs`): the base URL, the
    per-format endpoint paths (`CreateQueryString`), the joining of query
    arguments (`CreateUrl`), the tag argument (`TagsToString`) and the search
    argument key (`SearchArg`). */
module Query {
  import opened Common
  import opened Text
  import opened Uris
  import opened Capabilities

  /** `BaseUrl`: `new Uri("http" + (useHttp ? "" : "s") + "://" + domain)`,
      printed with the trailing `/` that `Uri` adds to an empty path. */
  function BaseUrl(domain: string, options: Options): string
  {
    "http" + (if UsesHttp(options) then "" else "s") + "://" + domain + "/"
  }

  /** The scheme is `http` exactly when `UseHttp` is set, `https` otherwise. */
  lemma BaseUrlScheme(domain: string, options: Options)
    ensures StartsWith(BaseUrl(domain, options), "http://") <==> UsesHttp(options)
    ensures StartsWith(BaseUrl(domain, options), "https://") <==> !UsesHttp(options)
  {
    var b := BaseUrl(domain, options);
    if UsesHttp(options) {
      assert b[..7] == "http://";
      assert b[4] == ':';
    } else {
      assert b[..8] == "https://";
      assert b[4] == 's';
    }
  }

  /** `CreateQueryString`: the path, relative to the base URL, of the endpoint
      for resource `query` (and sub-resource `squery`) in each URL format. */
  function CreateQueryString(format: UrlFormat, query: string, squery: string := "index"): string
  {
    match format
    case PostIndexJson => query + "/" + squery + ".json"
    case IndexPhp => "index.php?page=dapi&s=" + query + "&q=index&json=1"
    case Danbooru => if query == "related_tag" then query + ".json" else query + "s.json"
    case Sankaku => if query == "wiki" then query else query + "s"
    case Philomena => "api/v1/json/search/" + query + (if query == "" then "" else "s")
    case BooruOnRails => "api/v3/search/" + query + "s"
  }

  /** `new Uri(BaseUrl + CreateQueryString(...))`. */
  function QueryUrl(baseUrl: string, format: UrlFormat, query: string, squery: string := "index"): Url
  {
    ParseUrl(baseUrl + CreateQueryString(format, query, squery))
  }

  lemma Unwrap(a: string, x: string, y: string, b: string)
    requires a + x + b == a + y + b
    ensures x == y
  {
    assert |x| == |y|;
    assert x == (a + x + b)[|a|..|a| + |x|];
  }

  /** A regular path `q + suffix` never equals a special one that ends
      differently at the suffix's first position. */
  lemma SuffixDiffers(q: string, suffix: string, special: string)
    requires |suffix| > 0 && |special| >= |suffix| && special[|special| - |suffix|] != suffix[0]
    ensures q + suffix != special
  {
    if |q| + |suffix| == |special| {
      assert (q + suffix)[|q|] == suffix[0];
    }
  }

  /** Within one format (and sub-resource), distinct resources get distinct
      endpoint paths: none of the special cases collides with a regular one. */
  lemma CreateQueryStringInjective(format: UrlFormat, q1: string, q2: string, squery: string)
    requires CreateQueryString(format, q1, squery) == CreateQueryString(format, q2, squery)
    ensures q1 == q2
  {
    var p1, p2 := CreateQueryString(format, q1, squery), CreateQueryString(format, q2, squery);
    match format
    case PostIndexJson =>
      assert p1 == "" + q1 + ("/" + squery + ".json") && p2 == "" + q2 + ("/" + squery + ".json");
      Unwrap("", q1, q2, "/" + squery + ".json");
    case IndexPhp =>
      Unwrap("index.php?page=dapi&s=", q1, q2, "&q=index&json=1");
    case Danbooru =>
      if q1 == "related_tag" && q2 != "related_tag" {
        SuffixDiffers(q2, "s.json", "related_tag.json");
      } else if q1 != "related_tag" && q2 == "related_tag" {
        SuffixDiffers(q1, "s.json", "related_tag.json");
      } else if q1 != "related_tag" {
        assert p1 == "" + q1 + "s.json" && p2 == "" + q2 + "s.json";
        Unwrap("", q1, q2, "s.json");
      }
    case Sankaku =>
      if q1 == "wiki" && q2 != "wiki" {
        SuffixDiffers(q2, "s", "wiki");
      } else if q1 != "wiki" && q2 == "wiki" {
        SuffixDiffers(q1, "s", "wiki");
      } else if q1 != "wiki" {
        assert p1 == "" + q1 + "s" && p2 == "" + q2 + "s";
        Unwrap("", q1, q2, "s");
      }
    case Philomena =>
      if q1 != "" && q2 != "" {
        Unwrap("api/v1/json/search/", q1, q2, "s");
      } else {
        assert |p1| == |p2|;
      }
    case BooruOnRails =>
      Unwrap("api/v3/search/", q1, q2, "s");
  }

  // ---------------------------------------------------------------------------
  // CreateUrl

  /** The argument delimiter: `$` for a URL on danbooru.donmai.us, `&` otherwise. */
  function Delimiter(url: Url): char
  {
    if Contains(UrlToString(url), "danbooru.donmai.us") then '$' else '&'
  }

  /** The query text of a URL, empty when it has none. */
  function QueryText(url: Url): string
  {
    if url.query.Some? then url.query.value else ""
  }

  /** The query `CreateUrl` gives its `UriBuilder`: the old query, the
      delimiter and the arguments joined by it, or the arguments alone when
      there was no query; an empty text means no query. */
  function BuildQuery(url: Url, args: seq<string>): Option<string>
  {
    var delim := Delimiter(url);
    var joined := Join(delim, args);
    var q := if |QueryText(url)| > 0 then QueryText(url) + [delim] + joined else joined;
    if q == "" then None else Some(q)
  }

  /** `CreateUrl(url, args)`: appends the arguments to the query; on
      gelbooru.com every `&sort=random` of the result becomes `+sort:random`. */
  function CreateUrl(url: Url, args: seq<string>): Url
  {
    var text := UrlToString(Url(url.path, BuildQuery(url, args)));
    if Contains(text, "gelbooru.com") then ParseUrl(ReplaceAll(text, "&sort=random", "+sort:random"))
    else ParseUrl(text)
  }

  /** Away from gelbooru.com, the new query is the old one followed by the
      arguments: splitting it on the delimiter gives the old pieces (none when
      there was no query) and then exactly the arguments. With no argument at
      all this leaves a trailing delimiter after a previous query. */
  lemma CreateUrlAppends(url: Url, args: seq<string>)
    requires '?' !in url.path
    requires !Contains(UrlToString(Url(url.path, BuildQuery(url, args))), "gelbooru.com")
    requires |args| > 0
    requires forall i :: 0 <= i < |args| ==> Delimiter(url) !in args[i]
    ensures CreateUrl(url, args).path == url.path
    ensures Split(QueryText(CreateUrl(url, args)), Delimiter(url))
         == (if |QueryText(url)| > 0 then Split(QueryText(url), Delimiter(url)) else []) + args
  {
    var d := Delimiter(url);
    ParseUrlToString(Url(url.path, BuildQuery(url, args)));
    SplitJoin(d, args);
    if |QueryText(url)| > 0 {
      SplitConcat(QueryText(url), Join(d, args), d);
    }
  }

  /** Text appended to the printed URL lands in the last argument: away from
      gelbooru.com, printing `CreateUrl(url, [a, t])` and appending `s` gives
      the URL `CreateUrl` builds when the last argument is `t + s`. */
  lemma CreateUrlSuffix(url: Url, a: string, t: string, s: string)
    requires !Contains(UrlToString(Url(url.path, BuildQuery(url, [a, t + s]))), "gelbooru.com")
    ensures UrlToString(CreateUrl(url, [a, t])) + s == UrlToString(CreateUrl(url, [a, t + s]))
  {
    var d := Delimiter(url);
    assert [a, t] == [a] + [t] && [a, t + s] == [a] + [t + s];
    JoinCons(d, a, [t]);
    JoinCons(d, a, [t + s]);
    BuildQueryText(url, [a, t]);
    BuildQueryText(url, [a, t + s]);
    var pre := if |QueryText(url)| > 0 then QueryText(url) + [d] else [];
    var plain := UrlToString(Url(url.path, BuildQuery(url, [a, t])));
    SeqAssoc(url.path + "?", pre, a + [d] + t, s);
    assert UrlToString(Url(url.path, BuildQuery(url, [a, t + s]))) == plain + s;
    NotContainsPrefix(plain, s, "gelbooru.com");
    CreateUrlPlain(url, [a, t]);
    CreateUrlPlain(url, [a, t + s]);
  }

  // A proof step kept separate so that its callers stay cheap to verify.
  /** Away from gelbooru.com, `CreateUrl` prints as the text it parsed. */
  lemma CreateUrlPlain(url: Url, args: seq<string>)
    requires !Contains(UrlToString(Url(url.path, BuildQuery(url, args))), "gelbooru.com")
    ensures UrlToString(CreateUrl(url, args)) == UrlToString(Url(url.path, BuildQuery(url, args)))
  {
  }

  /** With no previous query and no argument, `CreateUrl` leaves the URL
      without a query; after a previous query it leaves a trailing delimiter. */
  lemma CreateUrlNoArgs(url: Url)
    requires '?' !in url.path
    requires !Contains(UrlToString(Url(url.path, BuildQuery(url, []))), "gelbooru.com")
    ensures |QueryText(url)| == 0 ==> CreateUrl(url, []) == Url(url.path, None)
    ensures |QueryText(url)| > 0 ==> CreateUrl(url, []) == Url(url.path, Some(QueryText(url) + [Delimiter(url)]))
  {
    ParseUrlToString(Url(url.path, BuildQuery(url, [])));
    assert QueryText(url) + [Delimiter(url)] + Join(Delimiter(url), []) == QueryText(url) + [Delimiter(url)];
  }

  /** On gelbooru.com no `&sort=random` survives in the URL `CreateUrl` builds. */
  lemma CreateUrlGelbooru(url: Url, args: seq<string>)
    requires Contains(UrlToString(Url(url.path, BuildQuery(url, args))), "gelbooru.com")
    ensures !Contains(UrlToString(CreateUrl(url, args)), "&sort=random")
  {
    ReplaceAllComplete(UrlToString(Url(url.path, BuildQuery(url, args))), "&sort=random", "+sort:random");
  }

  /** On gelbooru.com a `sort=random` argument that follows the tag argument
      reaches the server as a random-order tag appended to that argument. */
  lemma CreateUrlGelbooruTag(url: Url, first: string, tagString: string, rest: seq<string>)
    requires Delimiter(url) == '&'
    requires |rest| > 0
    requires |tagString| > 0 && tagString[0] != 's' && '&' !in tagString
    requires Contains(UrlToString(Url(url.path, BuildQuery(url, [first, tagString, "sort=random"] + rest))), "gelbooru.com")
    ensures Contains(UrlToString(CreateUrl(url, [first, tagString, "sort=random"] + rest)), "&" + tagString + "+sort:random")
  {
    var args := [first, tagString, "sort=random"] + rest;
    var pat, rep := "&sort=random", "+sort:random";
    SortRandomPattern();
    var tail := ['&'] + Join('&', rest);
    var pre := if |QueryText(url)| > 0 then QueryText(url) + ['&'] else [];
    var x := url.path + "?" + pre + first;
    var z := ['&'] + tagString + pat + tail;
    GelbooruRandomText(url, first, tagString, rest);
    ReplaceAfterPiece(x, tagString, tail, pat, rep);
    ContainsMiddle(ReplaceAll(x, pat, rep), [pat[0]] + tagString + rep, ReplaceAll(tail, pat, rep));
  }

  /** The text `CreateUrl` builds from an `&`-delimited URL and arguments
      with `sort=random` third. */
  lemma GelbooruRandomText(url: Url, first: string, tagString: string, rest: seq<string>)
    requires Delimiter(url) == '&'
    requires |rest| > 0
    ensures var pre := if |QueryText(url)| > 0 then QueryText(url) + ['&'] else [];
      UrlToString(Url(url.path, BuildQuery(url, [first, tagString, "sort=random"] + rest)))
      == (url.path + "?" + pre + first) + (['&'] + tagString + "&sort=random" + (['&'] + Join('&', rest)))
  {
    var args := [first, tagString, "sort=random"] + rest;
    var pre := if |QueryText(url)| > 0 then QueryText(url) + ['&'] else [];
    var z := ['&'] + tagString + "&sort=random" + (['&'] + Join('&', rest));
    SortRandomPattern();
    JoinThree('&', first, tagString, "sort=random", rest);
    assert Join('&', args) == first + z;
    BuildQueryText(url, args);
    SeqAssoc(url.path + "?", pre, first, z);
  }

  // A proof step kept separate so that its callers stay cheap to verify.
  lemma SeqAssoc<T>(a: seq<T>, b: seq<T>, c: seq<T>, d: seq<T>)
    ensures a + (b + (c + d)) == (a + b + c) + d
  {
  }

  // A proof step kept separate so that its callers stay cheap to verify.
  /** The text of a URL with arguments appended: the path, `?`, the old query
      and a delimiter when there was one, then the joined arguments. */
  lemma BuildQueryText(url: Url, args: seq<string>)
    requires |Join(Delimiter(url), args)| > 0
    ensures var pre := if |QueryText(url)| > 0 then QueryText(url) + [Delimiter(url)] else [];
      UrlToString(Url(url.path, BuildQuery(url, args))) == url.path + "?" + (pre + Join(Delimiter(url), args))
  {
  }

  // A proof step kept separate so that its callers stay cheap to verify.
  /** The pattern the gelbooru.com rewrite looks for starts with the only
      `&` it holds, followed by the `s` of `sort=random`. */
  lemma SortRandomPattern()
    ensures "&sort=random" == ['&'] + "sort=random"
    ensures "&sort=random"[0] == '&' && "&sort=random"[1] == 's'
    ensures '&' !in "&sort=random"[1..]
  {
  }

  /** Joining three parts and a non-empty rest puts a separator between each. */
  lemma JoinThree(sep: char, a: string, b: string, c: string, rest: seq<string>)
    requires |rest| > 0
    ensures Join(sep, [a, b, c] + rest) == a + ([sep] + b + ([sep] + c) + ([sep] + Join(sep, rest)))
  {
    var p3 := [c] + rest;
    var p2 := [b] + p3;
    assert [a, b, c] + rest == [a] + p2;
    JoinCons(sep, c, rest);
    JoinCons(sep, b, p3);
    JoinCons(sep, a, p2);
    SeqRegroup(a, [sep], b, c, Join(sep, rest));
  }

  // A proof step kept separate so that its callers stay cheap to verify.
  lemma SeqRegroup<T>(a: seq<T>, s: seq<T>, b: seq<T>, c: seq<T>, j: seq<T>)
    ensures a + s + (b + s + (c + s + j)) == a + (s + b + (s + c) + (s + j))
  {
  }

  // A proof step kept separate so that its callers stay cheap to verify.
  lemma JoinCons(sep: char, p: string, rest: seq<string>)
    requires |rest| > 0
    ensures Join(sep, [p] + rest) == p + [sep] + Join(sep, rest)
  {
    assert ([p] + rest)[1..] == rest;
  }

  /** The server's view of a printed two-argument URL with text appended:
      the old pieces, the first argument, and the second with the text. */
  lemma CreateUrlSuffixReceived(url: Url, a: string, t: string, s: string)
    requires '?' !in url.path
    requires !Contains(UrlToString(Url(url.path, BuildQuery(url, [a, t + s]))), "gelbooru.com")
    requires Delimiter(url) !in a && Delimiter(url) !in t && Delimiter(url) !in s
    ensures var sent := ParseUrl(UrlToString(CreateUrl(url, [a, t])) + s);
      && sent.path == url.path
      && Split(QueryText(sent), Delimiter(url))
         == (if |QueryText(url)| > 0 then Split(QueryText(url), Delimiter(url)) else []) + [a, t + s]
  {
    CreateUrlSuffix(url, a, t, s);
    ParseUrlToString(CreateUrl(url, [a, t + s]));
    CreateUrlAppends(url, [a, t + s]);
  }

  /** The server's view of a printed three-argument URL. */
  lemma CreateUrlThreeReceived(url: Url, a: string, t: string, e: string)
    requires '?' !in url.path
    requires !Contains(UrlToString(Url(url.path, BuildQuery(url, [a, t, e]))), "gelbooru.com")
    requires Delimiter(url) !in a && Delimiter(url) !in t && Delimiter(url) !in e
    ensures var sent := ParseUrl(UrlToString(CreateUrl(url, [a, t, e])));
      && sent.path == url.path
      && Split(QueryText(sent), Delimiter(url))
         == (if |QueryText(url)| > 0 then Split(QueryText(url), Delimiter(url)) else []) + [a, t, e]
  {
    ParseUrlToString(CreateUrl(url, [a, t, e]));
    CreateUrlAppends(url, [a, t, e]);
  }

  // A proof step kept separate so that its callers stay cheap to verify.
  /** A replacement at the front puts the replacement's first character there. */
  lemma ReplaceAllHead(t: string, pat: string, rep: string)
    requires |pat| > 0 && |rep| > 0 && StartsWith(t, pat)
    ensures |ReplaceAll(t, pat, rep)| > 0 && ReplaceAll(t, pat, rep)[0] == rep[0]
  {
  }

  /** A string that starts with `w` after replacement started with `w` before,
      when the replacement's first character is not in `w`. */
  lemma {:induction false} ReplacePrefix(t: string, w: string, pat: string, rep: string)
    requires |pat| > 0 && |rep| > 0 && rep[0] !in w
    requires StartsWith(ReplaceAll(t, pat, rep), w)
    ensures StartsWith(t, w)
    decreases |t|
  {
    if StartsWith(t, pat) {
      ReplaceAllHead(t, pat, rep);
    } else if |t| > 0 && |w| > 0 {
      var r' := ReplaceAll(t[1..], pat, rep);
      assert ReplaceAll(t, pat, rep) == [t[0]] + r';
      assert StartsWith(r', w[1..]) by {
        assert r'[..|w| - 1] == ReplaceAll(t, pat, rep)[1..|w|];
      }
      ReplacePrefix(t[1..], w[1..], pat, rep);
      assert t[..|w|] == [t[0]] + t[1..][..|w| - 1];
    }
  }

  /** No occurrence of `pat` starts inside `x`, so one in `x + y` lies in `y`. */
  lemma {:induction false} NotContainsConcat(x: string, y: string, pat: string)
    requires |pat| > 0 && pat[0] !in x && !Contains(y, pat)
    ensures !Contains(x + y, pat)
  {
    if |x| == 0 {
      assert x + y == y;
    } else {
      assert (x + y)[0] == x[0];
      assert (x + y)[1..] == x[1..] + y;
      NotContainsConcat(x[1..], y, pat);
    }
  }

  /** `string.Replace` leaves no occurrence of the pattern when pattern and
      replacement share no first character with each other. */
  lemma {:induction false} ReplaceAllComplete(s: string, pat: string, rep: string)
    requires |pat| > 0 && |rep| > 0 && rep[0] !in pat && pat[0] !in rep
    ensures !Contains(ReplaceAll(s, pat, rep), pat)
    decreases |s|
  {
    if StartsWith(s, pat) {
      ReplaceAllComplete(s[|pat|..], pat, rep);
      NotContainsConcat(rep, ReplaceAll(s[|pat|..], pat, rep), pat);
    } else if |s| > 0 {
      var r' := ReplaceAll(s[1..], pat, rep);
      ReplaceAllComplete(s[1..], pat, rep);
      if StartsWith([s[0]] + r', pat) {
        assert s[0] == pat[0];
        assert StartsWith(r', pat[1..]) by {
          assert r'[..|pat| - 1] == ([s[0]] + r')[1..|pat|];
        }
        ReplacePrefix(s[1..], pat[1..], pat, rep);
      }
      assert ([s[0]] + r')[1..] == r';
    }
  }

  // ---------------------------------------------------------------------------
  // Tags and search arguments

  /** The separator between tags: `,` for the Philomena family, `+` otherwise. */
  function TagSeparator(format: UrlFormat): char
  {
    if IsPhilomenaFamily(format) then ',' else '+'
  }

  /** The key of the tag argument: `q=` for the Philomena family, `tags=` otherwise. */
  function TagKey(format: UrlFormat): string
  {
    if IsPhilomenaFamily(format) then "q=" else "tags="
  }

  /** `tags.Select(Uri.EscapeDataString)`. */
  function EscapeAll(tags: seq<string>): seq<string>
  {
    seq(|tags|, i requires 0 <= i < |tags| => EscapeDataString(tags[i]))
  }

  /** `TagsToString(tags)`; `None` is a null array. */
  function TagsToString(format: UrlFormat, tags: Option<seq<string>>): string
  {
    if tags.None? || |tags.value| == 0 then
      (if IsPhilomenaFamily(format) then "q=id.gte:0" else "tags=")
    else
      TagKey(format) + ToLower(Join(TagSeparator(format), EscapeAll(tags.value)))
  }

  /** Lower-casing a join lower-cases each part. */
  lemma {:induction false} ToLowerJoin(sep: char, parts: seq<string>)
    requires LowerChar(sep) == sep
    ensures ToLower(Join(sep, parts)) == Join(sep, seq(|parts|, i requires 0 <= i < |parts| => ToLower(parts[i])))
  {
    var lowered := seq(|parts|, i requires 0 <= i < |parts| => ToLower(parts[i]));
    if |parts| > 1 {
      ToLowerJoin(sep, parts[1..]);
      ToLowerConcat(parts[0] + [sep], Join(sep, parts[1..]));
      ToLowerConcat(parts[0], [sep]);
      assert lowered[1..] == seq(|parts[1..]|, i requires 0 <= i < |parts[1..]| => ToLower(parts[1..][i]));
    }
  }

  // A proof step kept separate so that its callers stay cheap to verify.
  /** Escaped text, lower-cased, holds no tag separator, argument delimiter
      or `?`. */
  lemma LowerEscapedAvoids(e: string)
    requires forall k :: 0 <= k < |e| ==> IsEscapedChar(e[k])
    ensures ',' !in ToLower(e) && '+' !in ToLower(e)
    ensures '&' !in ToLower(e) && '$' !in ToLower(e) && '?' !in ToLower(e)
  {
    assert forall k :: 0 <= k < |e| ==> IsEscapedChar(ToLower(e)[k]);
  }

  /** The tag argument holds no argument delimiter and no `?`, whatever the
      tags: it can travel as one piece of a query. */
  lemma TagsToStringNoDelimiter(format: UrlFormat, tags: Option<seq<string>>)
    ensures var t := TagsToString(format, tags);
      '&' !in t && '$' !in t && '?' !in t
  {
    if tags.Some? && |tags.value| > 0 {
      TagsToStringSplits(format, tags.value);
    }
  }

  /** A non-empty tag list becomes the key followed by the escaped, lower-cased
      tags joined by the separator, and splitting on the separator recovers
      each tag's escaped, lower-cased form: no escaped tag holds a separator,
      an argument delimiter or a `?`. */
  lemma TagsToStringSplits(format: UrlFormat, tags: seq<string>)
    requires |tags| > 0
    ensures var body := TagsToString(format, Some(tags))[|TagKey(format)|..];
      && TagsToString(format, Some(tags)) == TagKey(format) + body
      && Split(body, TagSeparator(format))
         == seq(|tags|, i requires 0 <= i < |tags| => ToLower(EscapeDataString(tags[i])))
      && '&' !in body && '$' !in body && '?' !in body
  {
    var sep := TagSeparator(format);
    var escaped := EscapeAll(tags);
    var lowered := seq(|escaped|, i requires 0 <= i < |escaped| => ToLower(escaped[i]));
    ToLowerJoin(sep, escaped);
    forall i | 0 <= i < |lowered|
      ensures sep !in lowered[i] && '&' !in lowered[i] && '$' !in lowered[i] && '?' !in lowered[i]
    {
      LowerEscapedAvoids(escaped[i]);
    }
    SplitJoin(sep, lowered);
    JoinAvoids(sep, lowered, '&');
    JoinAvoids(sep, lowered, '$');
    JoinAvoids(sep, lowered, '?');
    assert lowered == seq(|tags|, i requires 0 <= i < |tags| => ToLower(EscapeDataString(tags[i])));
  }

  /** `SearchArg(value)`: `search[value]=` on Danbooru, `value=` elsewhere. */
  function SearchArg(format: UrlFormat, value: string): string
  {
    if format == Danbooru then "search[" + value + "]=" else value + "="
  }
}
