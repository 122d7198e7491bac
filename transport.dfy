/** One request as the client sees it (`GetJsonAsync`, `GetXmlAsync`,
    `GetRandomIdAsync` in `Booru/ABooru.cs`): the status-code mapping, the
    entity pre-pass applied to XML bodies, and the foreign parsers and
    per-booru decoders, which are inputs of the model. */
module Transport {
  import opened Common
  import opened Text
  import opened Documents
  import opened Records

  /** What the server answers to one GET: the status code, the body, and the
      `id` query parameter of the URL the request was finally redirected to. */
  datatype Response = Response(status: int, body: string, redirectId: Option<string>)

  /** The network: the response to a GET of a URL. */
  type Send = string -> Response

  /** `EnsureSuccessStatusCode` accepts exactly the 2xx codes. */
  predicate IsSuccessStatus(status: int)
  {
    200 <= status <= 299
  }

  /** The status switch of `GetJsonAsync`: 422 and 403 have their own
      exceptions, every other code outside 2xx is an HTTP error, and a
      successful body is returned as it is. */
  function GetJson(resp: Response): (r: Result<string>)
    ensures r.Success? <==> IsSuccessStatus(resp.status)
    ensures r.Success? ==> r.value == resp.body
    ensures resp.status == 422 ==> r == Failure(TooManyTags)
    ensures resp.status == 403 ==> r == Failure(AuthentificationRequired)
    ensures !IsSuccessStatus(resp.status) && resp.status != 422 && resp.status != 403 ==>
              r == Failure(HttpError(resp.status))
  {
    if resp.status == 422 then Failure(TooManyTags)
    else if resp.status == 403 then Failure(AuthentificationRequired)
    else if IsSuccessStatus(resp.status) then Success(resp.body)
    else Failure(HttpError(resp.status))
  }

  // ---------------------------------------------------------------------------
  // The entity pre-pass of `GetXmlAsync`. The replacement template is
  // `HtmlDecode("$1")`, which is the literal `$1`: every match of
  // `&([a-zA-Z]+);` is replaced by its letters, no entity is decoded.

  predicate IsAsciiLetter(c: char)
  {
    ('a' <= c <= 'z') || ('A' <= c <= 'Z')
  }

  /** The length of the run of ASCII letters at the front of `s`. */
  function LetterRun(s: string): (k: nat)
    ensures k <= |s|
    ensures forall i :: 0 <= i < k ==> IsAsciiLetter(s[i])
    ensures k < |s| ==> !IsAsciiLetter(s[k])
  {
    if |s| > 0 && IsAsciiLetter(s[0]) then 1 + LetterRun(s[1..]) else 0
  }

  /** The length of the match of `&([a-zA-Z]+);` at the front of `s`, or 0
      when there is none. The letter class is greedy and `;` is not a letter,
      so a match takes the whole run of letters. */
  function EntityLength(s: string): (n: nat)
    ensures n == 0 || (3 <= n <= |s| && s[0] == '&' && s[n - 1] == ';')
    ensures n > 0 ==> forall i :: 1 <= i < n - 1 ==> IsAsciiLetter(s[i])
  {
    if |s| > 0 && s[0] == '&' then
      var k := LetterRun(s[1..]);
      if k > 0 && k + 1 < |s| && s[k + 1] == ';' then k + 2 else 0
    else 0
  }

  /** `Regex.Replace(xml, "&([a-zA-Z]+);", "$1")`: leftmost matches, scanned
      left to right without overlap. */
  function StripEntities(s: string): string
    decreases |s|
  {
    if |s| == 0 then ""
    else
      var n := EntityLength(s);
      if n > 0 then s[1..n - 1] + StripEntities(s[n..])
      else [s[0]] + StripEntities(s[1..])
  }

  /** A body without `&` passes through unchanged. */
  lemma {:induction false} StripEntitiesNoAmpersand(s: string)
    requires '&' !in s
    ensures StripEntities(s) == s
    decreases |s|
  {
    if |s| > 0 {
      StripEntitiesNoAmpersand(s[1..]);
      assert [s[0]] + s[1..] == s;
    }
  }

  /** Every match at the front is found, whatever follows it: `&`, a
      non-empty run of ASCII letters and `;` give a match of exactly that
      length. Together with the contract of `EntityLength`, a nonzero length
      holds exactly when the text starts with such a match. */
  lemma EntityLengthMatch(name: string, post: string)
    requires |name| > 0 && forall i :: 0 <= i < |name| ==> IsAsciiLetter(name[i])
    ensures EntityLength(['&'] + name + [';'] + post) == |name| + 2
  {
    var s := ['&'] + name + [';'] + post;
    var rest := [';'] + post;
    assert s[1..] == name + rest;
    LetterRunPrefix(name, rest);
    assert s[|name| + 1] == ';';
  }

  /** An entity at the front is replaced by its name. */
  lemma StripEntitiesFront(name: string, post: string)
    requires |name| > 0 && forall i :: 0 <= i < |name| ==> IsAsciiLetter(name[i])
    ensures StripEntities(['&'] + name + [';'] + post) == name + StripEntities(post)
  {
    var s := ['&'] + name + [';'] + post;
    EntityLengthMatch(name, post);
    assert s[1..|name| + 1] == name;
    assert s[|name| + 2..] == post;
  }

  /** An entity after text without `&` is replaced by its name. */
  lemma {:induction false} StripEntitiesEntity(pre: string, name: string, post: string)
    requires '&' !in pre
    requires |name| > 0 && forall i :: 0 <= i < |name| ==> IsAsciiLetter(name[i])
    ensures StripEntities(pre + (['&'] + name + [';'] + post)) == pre + name + StripEntities(post)
    decreases |pre|
  {
    var e := ['&'] + name + [';'] + post;
    if |pre| == 0 {
      assert pre + e == e;
      assert pre + name == name;
      StripEntitiesFront(name, post);
    } else {
      assert pre + e == [pre[0]] + (pre[1..] + e);
      StripEntitiesPlain(pre[0], pre[1..] + e);
      StripEntitiesEntity(pre[1..], name, post);
      var tail := StripEntities(post);
      assert [pre[0]] + (pre[1..] + name + tail) == pre + name + tail;
    }
  }

  /** A character other than `&` is copied. */
  lemma StripEntitiesPlain(c: char, t: string)
    requires c != '&'
    ensures StripEntities([c] + t) == [c] + StripEntities(t)
  {
    assert ([c] + t)[1..] == t;
  }

  lemma {:induction false} LetterRunPrefix(name: string, rest: string)
    requires forall i :: 0 <= i < |name| ==> IsAsciiLetter(name[i])
    requires |rest| > 0 && !IsAsciiLetter(rest[0])
    ensures LetterRun(name + rest) == |name|
  {
    if |name| > 0 {
      assert (name + rest)[1..] == name[1..] + rest;
      LetterRunPrefix(name[1..], rest);
    } else {
      assert name + rest == rest;
    }
  }

  /** The pre-pass does not decode and runs once: a doubly escaped entity
      such as `&amp;quot;` becomes `ampquot;`, neither `&quot;` nor `"`. */
  lemma StripEntitiesDoesNotDecode(outer: string, inner: string)
    requires |outer| > 0 && forall i :: 0 <= i < |outer| ==> IsAsciiLetter(outer[i])
    requires forall i :: 0 <= i < |inner| ==> IsAsciiLetter(inner[i])
    ensures StripEntities(['&'] + outer + [';'] + (inner + [';'])) == outer + inner + [';']
  {
    var post := inner + [';'];
    StripEntitiesFront(outer, post);
    assert forall i :: 0 <= i < |post| ==> post[i] != '&';
    StripEntitiesNoAmpersand(post);
    assert outer + post == outer + inner + [';'];
  }

  // The two steps of the scan, as unfolding steps for the proofs below.

  lemma StripEntitiesMatch(s: string)
    requires EntityLength(s) > 0
    ensures StripEntities(s) == s[1..EntityLength(s) - 1] + StripEntities(s[EntityLength(s)..])
  {
  }

  lemma StripEntitiesNoMatch(s: string)
    requires |s| > 0 && EntityLength(s) == 0
    ensures StripEntities(s) == [s[0]] + StripEntities(s[1..])
  {
  }

  /** The text with every `&` and `;` removed. */
  function Unmarked(s: string): (r: string)
    ensures '&' !in r && ';' !in r
  {
    if |s| == 0 then ""
    else (if s[0] == '&' || s[0] == ';' then "" else [s[0]]) + Unmarked(s[1..])
  }

  lemma {:induction false} UnmarkedConcat(a: string, b: string)
    ensures Unmarked(a + b) == Unmarked(a) + Unmarked(b)
  {
    if |a| > 0 {
      assert (a + b)[1..] == a[1..] + b;
      UnmarkedConcat(a[1..], b);
    } else {
      assert a + b == b;
    }
  }

  /** Letters are kept by `Unmarked`. */
  lemma {:induction false} UnmarkedLetters(name: string)
    requires forall i :: 0 <= i < |name| ==> IsAsciiLetter(name[i])
    ensures Unmarked(name) == name
  {
    if |name| > 0 {
      UnmarkedLetters(name[1..]);
      assert [name[0]] + name[1..] == name;
    }
  }

  /** Removing the markers from a text that starts with an entity leaves its
      name followed by the rest of the text, unmarked. */
  lemma UnmarkedEntity(s: string)
    requires EntityLength(s) > 0
    ensures Unmarked(s) == s[1..EntityLength(s) - 1] + Unmarked(s[EntityLength(s)..])
  {
    var n := EntityLength(s);
    var name, rest := s[1..n - 1], s[n..];
    assert s[1..] == name + ([s[n - 1]] + rest);
    assert ([s[n - 1]] + rest)[1..] == rest;
    UnmarkedConcat(name, [s[n - 1]] + rest);
    UnmarkedLetters(name);
  }

  /** Only the `&` and `;` around entity names are removed: the characters
      that are neither are kept, all of them and in order. */
  lemma {:induction false} StripEntitiesKeepsText(s: string)
    ensures Unmarked(StripEntities(s)) == Unmarked(s)
    decreases |s|
  {
    if |s| > 0 {
      var n := EntityLength(s);
      if n > 0 {
        var name, rest := s[1..n - 1], s[n..];
        StripEntitiesKeepsText(rest);
        StripEntitiesMatch(s);
        UnmarkedConcat(name, StripEntities(rest));
        UnmarkedLetters(name);
        UnmarkedEntity(s);
      } else {
        StripEntitiesKeepsText(s[1..]);
        StripEntitiesNoMatch(s);
      }
    }
  }

  /** The pre-pass never lengthens a body, and shortens every one with an entity. */
  lemma {:induction false} StripEntitiesShortens(s: string)
    ensures |StripEntities(s)| <= |s|
    ensures EntityLength(s) > 0 ==> |StripEntities(s)| < |s|
    decreases |s|
  {
    if |s| > 0 {
      var n := EntityLength(s);
      if n > 0 {
        StripEntitiesShortens(s[n..]);
      } else {
        StripEntitiesShortens(s[1..]);
      }
    }
  }

  // ---------------------------------------------------------------------------
  // Foreign parsers and the per-booru decoders.

  /** `JsonConvert.DeserializeObject`, `XmlDocument.LoadXml`, `int.Parse` and
      the virtual decoders a concrete booru overrides (the base class throws
      `FeatureUnavailable` from each). */
  datatype Codec = Codec(
    parseJson: string -> Result<Json>,
    parseXml: string -> Result<XmlDocument>,
    parseInt: string -> Result<int>,
    firstPost: Json -> Result<Json>,
    post: Json -> Result<Post>,
    posts: Json -> Result<seq<Post>>,
    jsonComment: Json -> Result<Comment>,
    xmlComment: XmlNode -> Result<Comment>,
    related: Json -> Result<RelatedTag>,
    wiki: Json -> Result<WikiEntry>)

  /** `GetJsonAsync(url)` followed by `JsonConvert.DeserializeObject`. */
  function FetchJson(send: Send, codec: Codec, url: string): (c: Call<Json>)
    ensures c.sent == [url]
    ensures !IsSuccessStatus(send(url).status) ==> c.result == Failure(GetJson(send(url)).error)
    ensures IsSuccessStatus(send(url).status) ==> c.result == codec.parseJson(send(url).body)
  {
    var body := GetJson(send(url));
    Call([url], if body.Failure? then Failure(body.error) else codec.parseJson(body.value))
  }

  /** `GetXmlAsync(url)`: the body, stripped of entity markers, parsed as XML. */
  function FetchXml(send: Send, codec: Codec, url: string): (c: Call<XmlDocument>)
    ensures c.sent == [url]
    ensures !IsSuccessStatus(send(url).status) ==> c.result == Failure(GetJson(send(url)).error)
    ensures IsSuccessStatus(send(url).status) ==> c.result == codec.parseXml(StripEntities(send(url).body))
  {
    var body := GetJson(send(url));
    Call([url], if body.Failure? then Failure(body.error) else codec.parseXml(StripEntities(body.value)))
  }

  /** `token!.Value<int>()`: a null token is refused as an argument, a JSON
      null or a container cannot become an integer, a value is parsed. */
  function ValueInt(codec: Codec, t: Option<Json>): Result<int>
  {
    match t
    case None => Failure(ArgumentNull)
    case Some(JValue(text)) => codec.parseInt(text)
    case Some(_) => Failure(InvalidCast)
  }

  /** `items.Select(decode).ToArray()`: one result per item, in order, or the
      first failure. */
  function DecodeAll<X, T>(decode: X -> Result<T>, items: seq<X>): (r: Result<seq<T>>)
    ensures r.Success? ==> |r.value| == |items|
    ensures r.Success? ==> forall i :: 0 <= i < |items| ==> decode(items[i]) == Success(r.value[i])
    ensures r.Failure? ==> exists k :: 0 <= k < |items| && decode(items[k]) == Failure(r.error)
                                      && forall j :: 0 <= j < k ==> decode(items[j]).Success?
  {
    if |items| == 0 then Success([])
    else
      var init := DecodeAll(decode, items[..|items| - 1]);
      if init.Failure? then
        var front := items[..|items| - 1];
        var k :| 0 <= k < |front| && decode(front[k]) == Failure(init.error)
                 && forall j :: 0 <= j < k ==> decode(front[j]).Success?;
        assert items[k] == front[k];
        assert forall j :: 0 <= j < k ==> items[j] == front[j];
        Failure(init.error)
      else
        var last := decode(items[|items| - 1]);
        if last.Failure? then
          assert forall j :: 0 <= j < |items| - 1 ==> items[j] == items[..|items| - 1][j];
          Failure(last.error)
        else
          assert forall j :: 0 <= j < |items| - 1 ==> items[j] == items[..|items| - 1][j];
          Success(init.value + [last.value])
  }

  /** Decoding succeeds exactly when every item decodes. */
  lemma DecodeAllSucceeds<X, T>(decode: X -> Result<T>, items: seq<X>)
    ensures DecodeAll(decode, items).Success? <==> forall i :: 0 <= i < |items| ==> decode(items[i]).Success?
  {
    var r := DecodeAll(decode, items);
    if r.Failure? {
      var k :| 0 <= k < |items| && decode(items[k]) == Failure(r.error);
    }
  }

  /** Decoding one more item after a successful prefix extends the result
      or stops at that item's error. */
  lemma DecodeAllStep<X, T>(decode: X -> Result<T>, items: seq<X>, i: nat)
    requires i < |items| && DecodeAll(decode, items[..i]).Success?
    ensures decode(items[i]).Failure? ==> DecodeAll(decode, items[..i + 1]) == Failure(decode(items[i]).error)
    ensures decode(items[i]).Success? ==>
              DecodeAll(decode, items[..i + 1]) == Success(DecodeAll(decode, items[..i]).value + [decode(items[i]).value])
  {
    assert items[..i + 1][..i] == items[..i];
  }

  /** Once a prefix fails, the whole sequence fails with the same error: the
      first failing item decides. */
  lemma {:induction false} DecodeAllPrefixFailure<X, T>(decode: X -> Result<T>, items: seq<X>, k: nat)
    requires k <= |items| && DecodeAll(decode, items[..k]).Failure?
    ensures DecodeAll(decode, items) == DecodeAll(decode, items[..k])
    decreases |items| - k
  {
    if k < |items| {
      var front := items[..|items| - 1];
      assert front[..k] == items[..k];
      DecodeAllPrefixFailure(decode, front, k);
    } else {
      assert items[..k] == items;
    }
  }
}
