# BooruSharp dialect layer in Dafny

BooruSharp is a C# client for image boards ("boorus"). One abstract client,
`ABooru`, serves six server dialects (`UrlFormat`: PostIndexJson, IndexPhp,
Danbooru, Sankaku, Philomena, BooruOnRails), tuned by a set of `BooruOptions`
flags. This project models the layer that adapts the client to a dialect. That
layer covers:

- which capabilities a client has;
- which endpoints the constructor resolves;
- how a query URL is assembled (tags, limits, search arguments, the `&` or `$`
  delimiter, the gelbooru.com rewrite);
- which request each search sends;
- how the answer is checked and filtered: status mapping, the entity pre-pass
  before XML parsing, the random-offset clamp, rating letters, comment
  selection and post-id stamping, exact-title wiki lookup and related-tag array
  selection.

The network, the JSON and XML parsers and the per-booru decoders are inputs:

- `send: string -> Response` answers each request URL.
- A `Codec` holds the parsers and decoders as function values.

Every search returns a `Call(sent, result)`:

- `sent` lists the request URLs in order, so "refused before any request" reads
  `sent == []`;
- `result` is the value or the typed error (`FeatureUnavailable`, `TooManyTags`,
  `InvalidTags`, `AuthentificationRequired`, `HttpError(code)`, `ArgumentNull`
  and the other .NET exceptions the code raises).

The C# null is `Option.None`. The exception each null dereference raises
follows the code:

- LINQ over a null source raises `ArgumentNull`;
- `foreach` over null and a dereferenced member access raise `NullReference`;
- a null `Uri` given to `CreateUrl` raises `NullReference`, since its `ToString()`
  runs before anything else;
- a null tag or query rejected by `ThrowIfNull` raises `ArgumentNull`.

A well-formed JSON body of the wrong top-level shape fails by how it is read:

- a typed `DeserializeObject<JArray>` or `DeserializeObject<JObject>` rejects it
  (`JsonSerialization`), and turns JSON `null` into a C# null;
- a `DeserializeObject<JToken>` keeps JSON `null` as a value token, which
  refuses a member lookup (`InvalidOperation`);
- the untyped `DeserializeObject` cast to `JToken` rejects a primitive
  (`InvalidCast`).

Modules follow the source:

| module | file |
|---|---|
| Common, Text, Uris, Documents, Records | shared values and the .NET library behaviour relied on |
| Capabilities, Query, Transport, Client | `Booru/ABooru.cs` |
| PostSearch | `Search/Post/ABooru.cs` |
| CommentSearch | `Search/Comment/ABooru.cs` |
| RelatedSearch | `Search/Related/ABooru.cs` |
| WikiSearch | `Search/Wiki/ABooru.cs` |

The client is a class (`Client.Booru`):

- the endpoint fields are constants, assigned step by step in the constructor,
  including the overwrite of the autocomplete URL;
- `auth` is the one field callers change afterwards.

The comment searches and the wiki search accumulate or scan in loops, so they
are methods proved against specification functions. The rest is functions.

The model follows the code where it differs from the documentation comments:

- The XML pre-pass replaces every `&letters;` by `letters`. `HtmlDecode` runs
  on the literal `"$1"`, so nothing is decoded.
- The autocomplete endpoint depends only on the format. The `switch` after the
  `HasAutocompleteAPI` test overwrites whatever that test chose.

## Model

| member | source | states |
|---|---|---|
| Capabilities.HasGovernedByGate | BooruSharp/Booru/ABooru.cs:67-118 | each `Has*API` depends only on its own `No*` bit (adding or removing another bit changes nothing); setting the bit turns the API off, clearing it turns it on (for last comments, when `NoComment` is also clear) |
| Capabilities.LastCommentNeedsComment | BooruSharp/Booru/ABooru.cs:87-88 | `HasSearchLastComment` holds iff neither `NoComment` nor `NoLastComments` is set, so it implies `HasCommentAPI` |
| Query.BaseUrlScheme | BooruSharp/Booru/ABooru.cs:183-184 | the base URL starts with `http://` iff `UseHttp` is set, and with `https://` otherwise |
| Query.CreateQueryStringInjective | BooruSharp/Booru/ABooru.cs:228-262 | within one format, two resources with the same sub-query give the same endpoint only if they are the same resource (Danbooru `related_tag`/`s.json`, Sankaku `wiki`, Philomena's empty query, IndexPhp's `dapi&s=`) |
| Client.QueryUrlInjective | BooruSharp/Booru/ABooru.cs:228-262 | distinct resources resolve to distinct endpoint URLs on every format |
| Client.Booru.constructor | BooruSharp/Booru/ABooru.cs:177-226 | the constructor assigns each endpoint in source order and leaves the client `Valid()`: every field equals the resolution of (domain, format, options); `Auth` starts null |
| Client.Booru.SetAuth | BooruSharp/Booru/ABooru.cs:355 | the `Auth` setter replaces the credentials and nothing else |
| Client.ResolveOptionalEndpoints | BooruSharp/Booru/ABooru.cs:197-208 | the wiki, related and comment endpoints are set iff their API is on |
| Client.ResolveAutocompleteIgnoresOptions | BooruSharp/Booru/ABooru.cs:210-225 | the final autocomplete URL is the same for any two option sets that agree on `UseHttp`, whatever `HasAutocompleteAPI` says |
| Client.ResolveIndexPhpRelated | BooruSharp/Booru/ABooru.cs:202-205 | on IndexPhp the related endpoint is the tag endpoint (the sub-query is ignored) |
| Client.ResolveXmlUrl | BooruSharp/Booru/ABooru.cs:186-193 | the XML image URL is the image URL with `json=1` turned into `json=0` on IndexPhp, and `index.json` into `index.xml` on PostIndexJson; it is null on every other format |
| Client.XmlUrlIndexPhp | BooruSharp/Booru/ABooru.cs:188-189 | the `json=1`→`json=0` replacement on an IndexPhp endpoint rewrites only its final argument |
| Client.XmlUrlPostIndexJson | BooruSharp/Booru/ABooru.cs:190-191 | the `index.json`→`index.xml` replacement on a PostIndexJson endpoint rewrites only its file name |
| Client.ResolveEndpointsDistinct | BooruSharp/Booru/ABooru.cs:186-208 | image, tag, wiki and comment endpoints are pairwise distinct |
| Query.CreateUrlAppends | BooruSharp/Booru/ABooru.cs:311-332 | away from gelbooru.com, the path is kept and the new query, split on the delimiter, is the old query's pieces followed by the arguments |
| Query.CreateUrlNoArgs | BooruSharp/Booru/ABooru.cs:319-320 | with no arguments, an empty query stays empty and a non-empty one gains a trailing delimiter |
| Query.CreateUrlGelbooru | BooruSharp/Booru/ABooru.cs:328-329 | on gelbooru.com no `&sort=random` survives the rewrite |
| Query.CreateUrlGelbooruTag | BooruSharp/Booru/ABooru.cs:311-331 | on gelbooru.com, a `sort=random` argument right after a tag argument reaches the server as `+sort:random` appended to that tag argument |
| Query.CreateUrlSuffix | BooruSharp/Booru/ABooru.cs:311-331 | away from gelbooru.com, text appended to the printed URL of a two-argument request is the same as appending it to the last argument |
| Query.CreateUrlSuffixReceived | BooruSharp/Booru/ABooru.cs:311-331 | away from gelbooru.com, the printed URL with a suffix appended, read back, keeps the path and splits into the endpoint's pieces, the first argument, and the second argument with the suffix |
| Query.CreateUrlThreeReceived | BooruSharp/Booru/ABooru.cs:311-331 | away from gelbooru.com, a three-argument URL read back keeps the path and splits into the endpoint's pieces followed by the three arguments |
| Query.ReplaceAllComplete | BooruSharp/Booru/ABooru.cs:329 | a replacement whose text cannot recreate the pattern leaves no occurrence of it |
| Query.ToLowerJoin | BooruSharp/Booru/ABooru.cs:342 | lower-casing the joined tags lower-cases each tag (the separators are unaffected) |
| Query.TagsToStringNoDelimiter | BooruSharp/Booru/ABooru.cs:334-343 | the tag argument never holds `&`, `$` or `?`, with or without tags |
| Query.TagsToStringSplits | BooruSharp/Booru/ABooru.cs:334-343 | non-empty tags give the key (`q=` or `tags=`) and a body that splits on `,` (Philomena family) or `+` into exactly the lower-cased escaped tags, with no `&`, `$` or `?` in it |
| Transport.GetJson | BooruSharp/Booru/ABooru.cs:265-283 | 422 is `TooManyTags`, 403 is `AuthentificationRequired`, any other non-2xx status is an HTTP error, and a success returns the body unchanged |
| Transport.FetchJson | BooruSharp/Booru/ABooru.cs:285-288 | exactly one request; a refused status fails with its mapped error; otherwise the body is parsed as JSON |
| Transport.FetchXml | BooruSharp/Booru/ABooru.cs:290-302 | exactly one request; the body is parsed as XML after the entity pre-pass |
| Transport.EntityLength | BooruSharp/Booru/ABooru.cs:295 | a match of `&[a-zA-Z]+;` at the front: `&`, one or more ASCII letters, `;` |
| Transport.EntityLengthMatch | BooruSharp/Booru/ABooru.cs:295 | `&`, a non-empty run of ASCII letters and `;` at the front is always found, with exactly its length, so the length is nonzero exactly when such a match starts the text |
| Transport.StripEntitiesEntity | BooruSharp/Booru/ABooru.cs:295 | text with no `&` before an entity is kept, the entity becomes its name |
| Transport.StripEntitiesNoAmpersand | BooruSharp/Booru/ABooru.cs:295 | text without `&` is unchanged |
| Transport.StripEntitiesDoesNotDecode | BooruSharp/Booru/ABooru.cs:295 | `&amp;lt;` becomes `amplt;`: the pre-pass strips markers, it does not decode, and it does not rescan its output |
| Transport.StripEntitiesKeepsText | BooruSharp/Booru/ABooru.cs:295 | apart from `&` and `;`, every character is kept, in order |
| Transport.StripEntitiesShortens | BooruSharp/Booru/ABooru.cs:295 | the output is never longer, and is strictly shorter when a match is present |
| Transport.DecodeAll | BooruSharp/Search/Related/ABooru.cs:33 | `Select(decode).ToArray()`: one result per item in order, or the error of the first item that fails |
| Transport.DecodeAllSucceeds | BooruSharp/Search/Related/ABooru.cs:33 | decoding all items succeeds iff every item decodes |
| PostSearch.GetLimitInjective | BooruSharp/Search/Post/ABooru.cs:14 | the limit argument starts with `per_page=` exactly on the Philomena family and `limit=` elsewhere, and determines the quantity |
| PostSearch.FilterTags | BooruSharp/Search/Post/ABooru.cs:69-71 | null tags become empty; no blank tag survives |
| PostSearch.KeepTagsConcat | BooruSharp/Search/Post/ABooru.cs:70 | the tag filter distributes over concatenation, so it keeps order |
| PostSearch.KeepTagsSingle | BooruSharp/Search/Post/ABooru.cs:70 | a single tag is dropped iff it is null, empty or white space |
| PostSearch.KeepTagsAll | BooruSharp/Search/Post/ABooru.cs:70 | the filter leaves a list unchanged iff none of its tags is blank |
| PostSearch.CheckTags | BooruSharp/Search/Post/ABooru.cs:73-74 | `TooManyTags` iff `NoMoreThan2Tags` is set and more than two tags remain |
| PostSearch.FetchPost | BooruSharp/Search/Post/ABooru.cs:217-225 | one request on the given URL; a refused status fails with its mapped error (`TooManyTags`, `AuthentificationRequired`, `HttpError`), a body the parser rejects with the parser's error, otherwise the first post selected from the body and decoded, or the first error of the two |
| PostSearch.FetchPosts | BooruSharp/Search/Post/ABooru.cs:227-235 | one request on the given URL; a refused status fails with its mapped error, a body the parser rejects with the parser's error, otherwise the posts decoded from the parsed body |
| PostSearch.PostByMd5Arguments | BooruSharp/Search/Post/ABooru.cs:29 | away from gelbooru.com the MD5 request keeps the endpoint's path, and its query splits into the endpoint's pieces, the limit of one post and `md5=<digest>` |
| PostSearch.GetPostByMd5 | BooruSharp/Search/Post/ABooru.cs:24-31 | gate first (no request), then null md5 is `ArgumentNull`, then exactly the `FetchPost` of the image endpoint with `limit`/`per_page` 1 and `md5=` (so a refused status is `TooManyTags`, `AuthentificationRequired` or `HttpError`, and a success is the decoded answer) |
| PostSearch.GetPostById | BooruSharp/Search/Post/ABooru.cs:40-53 | gate first, then exactly the `FetchPost` of the per-format by-id URL (so a refused status is `TooManyTags`, `AuthentificationRequired` or `HttpError`, and a success is the decoded answer) |
| PostSearch.PostByIdUrlInjective | BooruSharp/Search/Post/ABooru.cs:46-49 | on Danbooru (`posts/<id>.json`), Philomena (`api/v1/json/images/<id>`), BooruOnRails (`api/v3/posts/<id>`) and PostIndexJson (`?tags=id:<id>`) the URL determines the id |
| PostSearch.PostByIdArguments | BooruSharp/Search/Post/ABooru.cs:51 | on the other formats the request is the image endpoint with `limit=1` and `id=<id>` appended to its query |
| PostSearch.GetPostCount | BooruSharp/Search/Post/ABooru.cs:64-89 | gate (`FeatureUnavailable`), then the two-tag check (`TooManyTags`), both with no request; then exactly one request with the limit 1 and the tag argument: on the image endpoint with the result read from the JSON `total` on the Philomena family, on the XML endpoint with the result read from the count attribute elsewhere; a null XML endpoint is `NullReference` with no request |
| PostSearch.PostCountSources | BooruSharp/Search/Post/ABooru.cs:79-87 | the count is the parsed `total` value of a JSON object (missing member `ArgumentNull`, container member `InvalidCast`; a JSON `null` answer `NullReference`, a primitive answer `InvalidCast`, an array answer `InvalidArgument`), or the parsed first attribute of the document's second node (no such node `NullReference`, no attribute `IndexOutOfRange`) |
| PostSearch.GetPostCountWithoutXml | BooruSharp/Search/Post/ABooru.cs:85 | on Danbooru and Sankaku the XML endpoint is null, so the count fails with `NullReference` and sends nothing |
| PostSearch.RandomBound | BooruSharp/Search/Post/ABooru.cs:127-132 | a count of 0 is `InvalidTags`; a positive count is the bound unless the increased limit clamps it to 20001 |
| PostSearch.RandomOffsetInRange | BooruSharp/Search/Post/ABooru.cs:130-132 | the `pid` offset drawn lies in [0, count) and below 20001 under the increased limit |
| PostSearch.RandomPostArgsReceived | BooruSharp/Search/Post/ABooru.cs:135-141 | outside index.php, the request keeps the image endpoint's path and its query splits into the endpoint's pieces, then `limit`/`per_page` 1, the tag argument, `random=true` (Philomena family or `NoMoreThan2Tags`) or `order=random` (otherwise), `login=<user>` and `api_key=<hash>` |
| PostSearch.GetRandomPost | BooruSharp/Search/Post/ABooru.cs:99-133 | no capability gate; too many tags are refused before any request; outside the Gelbooru template, index.php goes through the redirect without tags and through the offset with tags |
| PostSearch.GetRandomPostPlan | BooruSharp/Search/Post/ABooru.cs:111-141 | for the Gelbooru template and every format but index.php: `NullReference` with no request when no credentials are set, otherwise exactly the `FetchPost` of the image endpoint with the random-post arguments (so a refused status is `TooManyTags`, `AuthentificationRequired` or `HttpError`, and a success is the decoded answer) |
| PostSearch.RandomByRedirect | BooruSharp/Search/Post/ABooru.cs:116-120 | IndexPhp without tags: the random page first; a refused status there is `HttpError` with no second request; otherwise the post whose id the redirect carried is requested, and its `FetchPost` result is the result |
| PostSearch.RandomByOffset | BooruSharp/Search/Post/ABooru.cs:123-133 | IndexPhp with tags: a null XML endpoint is `NullReference`; otherwise the count request on the XML endpoint comes first; a count that fails, or is 0 (`InvalidTags`), stops there with that error; otherwise exactly one more request, on the image endpoint with `pid=` the offset drawn below the clamped bound, and its post is the result |
| PostSearch.GelbooruRandomRewritten | BooruSharp/Search/Post/ABooru.cs:114 | on gelbooru.com the Gelbooru random request carries no `&sort=random`; the ordering reaches the server as `+sort:random` appended to the tag argument |
| PostSearch.GetRandomPosts | BooruSharp/Search/Post/ABooru.cs:155-167 | gate, then the two-tag check, then exactly the `FetchPosts` of the multi-random URL (so a refused status is `TooManyTags`, `AuthentificationRequired` or `HttpError`, and a success is the decoded answer) |
| PostSearch.RandomPostsReceived | BooruSharp/Search/Post/ABooru.cs:170-186 | the request keeps the image endpoint's path, and its query splits into the endpoint's pieces, the limit, then: the tag argument with `+sort:random` appended (IndexPhp); the tag argument and `sf=random` (Philomena family); the tag argument and `random=true` (`NoMoreThan2Tags`); the tag argument with `+order:random` appended (otherwise) |
| PostSearch.RawTags | BooruSharp/Search/Post/ABooru.cs:199 | raw tags are passed unfiltered; a null element is an `ArgumentNull` from `EscapeDataString` |
| PostSearch.Present | BooruSharp/Search/Post/ABooru.cs:199 | the tags are kept as given iff none is null |
| PostSearch.GetLastPosts | BooruSharp/Search/Post/ABooru.cs:197-200 | a null tag is `ArgumentNull` with no request; otherwise exactly the `FetchPosts` of the image endpoint with the raw tags and no limit (so a refused status is `TooManyTags`, `AuthentificationRequired` or `HttpError`, and a success is the decoded answer) |
| PostSearch.LastPostsArguments | BooruSharp/Search/Post/ABooru.cs:197-215 | away from gelbooru.com the last-posts requests keep the endpoint's path, and their query splits into the endpoint's pieces followed by the tag argument, after `limit=<n>` when a limit is given |
| PostSearch.GetLastPostsLimit | BooruSharp/Search/Post/ABooru.cs:212-215 | a null tag is `ArgumentNull` with no request; otherwise exactly the `FetchPosts` of the image endpoint with a literal `limit=` (not the per-format key) and the raw tags (so a refused status is `TooManyTags`, `AuthentificationRequired` or `HttpError`, and a success is the decoded answer) |
| PostSearch.GetRatingRoundTrip | BooruSharp/Search/Post/ABooru.cs:240-251 | `g`/`s`/`q`/`e` in either case map to General/Safe/Questionable/Explicit and back; every other character is an argument error |
| CommentSearch.CommentsForPostSelects | BooruSharp/Search/Comment/ABooru.cs:45-50 | every comment returned is on the post, and each decoded comment on the post is kept exactly as often as it occurs |
| CommentSearch.CommentsForPostFails | BooruSharp/Search/Comment/ABooru.cs:45-50 | the comment search fails iff some item cannot be decoded |
| CommentSearch.OnPostConcat | BooruSharp/Search/Comment/ABooru.cs:50 | the post-id filter distributes over concatenation, so input order is kept |
| CommentSearch.CollectComments | BooruSharp/Search/Comment/ABooru.cs:40-53 | the `AddRange` loop returns exactly the decoded comments on the post, in order, or the first decoding error |
| CommentSearch.CollectAll | BooruSharp/Search/Comment/ABooru.cs:73-76 | the last-comments loop returns every decoded comment, in order, or the first decoding error |
| CommentSearch.Reattach | BooruSharp/Search/Comment/ABooru.cs:34 | each Rails comment is the same comment with its post id replaced |
| CommentSearch.ReattachOnPost | BooruSharp/Search/Comment/ABooru.cs:32-34 | Rails results are all on the post, as many as decoded, with id, author, creation, name and body unchanged |
| CommentSearch.PhilomenaComments | BooruSharp/Search/Comment/ABooru.cs:26-29 | a null comment endpoint is `NullReference` with no request; otherwise one request on the comment endpoint with `q=:<id>`; a refused status fails with its mapped error; a success is the answer's `comments` array decoded |
| CommentSearch.RailsComments | BooruSharp/Search/Comment/ABooru.cs:32-34 | one request on `<base>api/v3/posts/<id>/comments`; a refused status fails with its mapped error; a success is the `comments` array decoded, each comment stamped with the post id, so every result is on the post |
| CommentSearch.CommentAnswerShapes | BooruSharp/Search/Comment/ABooru.cs:29-50 | an array answer lists its elements and an object answer its `comments` array; an object or primitive where an array is expected is `JsonSerialization`, JSON `null` a null LINQ source (`ArgumentNull`); a member lookup on an array is `InvalidArgument`, on a value or `null` `InvalidOperation`; a missing `comments` member is `ArgumentNull`, a non-array one `InvalidCast` |
| CommentSearch.GetComments | BooruSharp/Search/Comment/ABooru.cs:19-55 | gate first; Philomena and Booru-on-Rails as `PhilomenaComments` and `RailsComments` state; elsewhere a null comment endpoint is `NullReference` with no request; other formats send `post_id` through `SearchArg` and keep the comments on the post, from XML or JSON |
| CommentSearch.PostIdArgumentInjective | BooruSharp/Search/Comment/ABooru.cs:38 | the argument is `search[post_id]=<id>` on Danbooru and `post_id=<id>` elsewhere, and it determines the id |
| CommentSearch.GetLastComments | BooruSharp/Search/Comment/ABooru.cs:63-81 | last-comment gate; a null comment endpoint is `NullReference` with no request; the comment endpoint with no argument; every comment decoded unfiltered; a missing XML root is a null dereference |
| RelatedSearch.GetRelated | BooruSharp/Search/Related/ABooru.cs:19-34 | gate before the null check, null tag is `ArgumentNull`, a null related endpoint `NullReference`, both with no request; then one request with `query=` (Danbooru) or `tags=` and the tag |
| RelatedSearch.RelatedTokenSelection | BooruSharp/Search/Related/ABooru.cs:29-31 | the tags are the `tags` member on Danbooru, the first member elsewhere; an empty object is an invalid operation |
| RelatedSearch.DecodeRelatedArray | BooruSharp/Search/Related/ABooru.cs:29-33 | an array token yields one related tag per element in order; a missing token is `ArgumentNull`, a non-array a bad cast |
| RelatedSearch.DecodeRelatedNotObject | BooruSharp/Search/Related/ABooru.cs:27 | an answer that is not an object yields no tags: JSON `null` becomes a null object that is dereferenced (`NullReference`), an array or a primitive is rejected by the serializer (`JsonSerialization`) |
| WikiSearch.FindTitle | BooruSharp/Search/Wiki/ABooru.cs:27-29 | the entry found is the first whose title equals the query; no entry means no title matched; an error is the first raised while comparing |
| WikiSearch.GetWiki | BooruSharp/Search/Wiki/ABooru.cs:19-32 | gate first, null query is `ArgumentNull`, a null wiki endpoint `NullReference`, both with no request; then one request with `search[title]=` (Danbooru) or `query=`, then the scan's result |
| WikiSearch.FindTitleIgnoresLater | BooruSharp/Search/Wiki/ABooru.cs:27-29 | entries after the first match are never looked at |
| WikiSearch.FindTitleSkipsMismatches | BooruSharp/Search/Wiki/ABooru.cs:27-29 | entries whose title differs from the query are skipped |
| WikiSearch.WikiResultExact | BooruSharp/Search/Wiki/ABooru.cs:27-31 | the match is exact (the found entry's title is the query itself); no match, the empty array included, is `InvalidTags` |
| Text.FilterConcat | BooruSharp/Search/Comment/ABooru.cs:45-50 | LINQ `Where` distributes over concatenation |
| Text.FilterMultiset | BooruSharp/Search/Comment/ABooru.cs:45-50 | `Where` keeps each element satisfying the predicate as often as it occurs and drops the others |
| Text.SplitJoin | BooruSharp/Booru/ABooru.cs:320 | splitting a `string.Join` on its separator gives back the parts when none contains it |
| Text.IntToStringInjective | BooruSharp/Search/Post/ABooru.cs:46-51 | the decimal rendering of an integer determines it |
| Uris.ParseUrl | BooruSharp/Booru/ABooru.cs:331 | a URL text splits into path and query at the first `?` and prints back unchanged |
| Uris.ParseUrlToString | BooruSharp/Booru/ABooru.cs:326-331 | printing a URL and reading it back gives the same URL |
| Uris.EscapeDataStringIdentity | BooruSharp/Booru/ABooru.cs:342 | escaping leaves a tag unchanged iff it holds only unreserved characters |
| Documents.ToJArray | BooruSharp/Search/Wiki/ABooru.cs:25 | `DeserializeObject<JArray>`: an array answer gives its elements, JSON `null` a null array, anything else `JsonSerialization` |
| Documents.ToJObject | BooruSharp/Search/Related/ABooru.cs:27 | `DeserializeObject<JObject>` then dereferenced: an object answer gives its members, JSON `null` is `NullReference`, anything else `JsonSerialization` |
| Documents.ToJToken | BooruSharp/Search/Post/ABooru.cs:80 | `(JToken)DeserializeObject`: an object or array answer is kept, JSON `null` is a null token, a primitive is `InvalidCast` |

## Left out

- Network I/O is an input. This covers `HttpClient`, `SendAsync`/`GetAsync`, `PreRequest`, the User-Agent header and `ServicePointManager`. A request is its URL and the answer a `Response`. Redirect following in `GetRandomIdAsync` is the response's `redirectId`. `EnsureSuccessStatusCode` on the redirect request is the same status test.
- The async orchestration is absent. Each search is one function or method.
- `CheckAvailabilityAsync` is a bare HEAD request with no decision in it, so it is not modelled.
- The tag search, tag-by-id, autocomplete and favourite operations are not part of this model.
- `ThreadSafeRandom` is the `next` parameter. `RandomOffsetInRange` assumes only that it stays within its bounds.
- Newtonsoft JSON parsing, `XmlDocument.LoadXml`, `int.Parse` and the per-booru decoders are the `Codec` inputs. The base class's decoders throw `FeatureUnavailable`, and the subclasses that override them are not part of this model.
- `Uri` normalisation and `AbsoluteUri` escaping are not modelled. A URL is its text split at the first `?`.
- `Uri.EscapeDataString` is modelled on Unicode scalar values. Lone surrogates cannot occur in Dafny strings.
- `ToLowerInvariant` and `char.ToLower` are modelled on ASCII letters only. Other letters are left unchanged.
- `Console` colour and `WriteLine` calls in `CreateUrl` are not modelled. They are debug output only.
- `_unixTime` and `DateTime` fields are not modelled.
- Integers are unbounded. Ids, limits and counts are C# `int`, and overflow in them is not modelled.
- `CreateQueryString`'s `default` branch returns `BaseUrl`. It is unreachable for the six formats, so it is not modelled.
- `Auth` strings are non-null. A null `Auth` object itself is modelled as `NullReference`.
- Client.ResolveXmlUrl: states the rewrite only when the text before the last argument (IndexPhp) or the file name (PostIndexJson) does not itself contain the pattern. A domain containing `json=1` or `index.json` would also be rewritten there by the C# `Replace`.
- PostSearch.RandomPostArgsReceived: states the request as received only away from gelbooru.com and when the credentials hold no argument delimiter. A delimiter inside a credential would split it into extra pieces.
- PostSearch.RandomPostsReceived: states the request as received only away from gelbooru.com, where the `&sort=random` rewrite does not apply.
- PostSearch.GelbooruRandomRewritten: states the Gelbooru template's request only on gelbooru.com with the `&` delimiter. On another host the template's `sort=random` is sent as a plain argument, as `CreateUrlAppends` states.
- PostSearch.PostByMd5Arguments: states the request as received only away from gelbooru.com and for a digest without the argument delimiter. A hexadecimal digest never holds one.
