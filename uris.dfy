/** Absolute URIs as the client builds them: the text before the first `?`
    and the optional query after it, with `new Uri(text)` and `ToString()` as
    mutual inverses, and `Uri.EscapeDataString` for tag values. */
module Uris {
  import opened Common
  import opened Text

  /** A URI split at its first `?`; `query` is `None` when there is no `?`. */
  datatype Url = Url(path: string, query: Option<string>)

  /** `Uri.ToString()`. */
  function UrlToString(u: Url): string
  {
    u.path + (match u.query case None => "" case Some(q) => "?" + q)
  }

  /** Position of the first `c` in `s`, or `|s|` when there is none. */
  function IndexOf(s: string, c: char): (k: nat)
    ensures k <= |s|
    ensures c !in s[..k]
    ensures k < |s| ==> s[k] == c
  {
    if |s| == 0 then 0
    else if s[0] == c then 0
    else 1 + IndexOf(s[1..], c)
  }

  /** `new Uri(text)`: splits at the first `?`; printing it gives the text back. */
  function ParseUrl(s: string): (u: Url)
    ensures '?' !in u.path
    ensures UrlToString(u) == s
  {
    var k := IndexOf(s, '?');
    if k == |s| then
      assert s[..k] == s;
      Url(s, None)
    else
      assert s[..k] + "?" + s[k + 1..] == s;
      Url(s[..k], Some(s[k + 1..]))
  }

  /** Printing a URI whose path holds no `?` and parsing the text gives it back. */
  lemma ParseUrlToString(u: Url)
    requires '?' !in u.path
    ensures ParseUrl(UrlToString(u)) == u
  {
    var s := UrlToString(u);
    assert s[..|u.path|] == u.path;
    var k := IndexOf(s, '?');
    if u.query.Some? {
      assert s[|u.path|] == '?';
      assert s[k + 1..] == u.query.value;
    }
  }

  // ---------------------------------------------------------------------------
  // `Uri.EscapeDataString`: the unreserved characters of RFC 3986 (letters,
  // digits, `-`, `_`, `.`, `~`) are kept; every other character is replaced
  // by the percent-encoded bytes of its UTF-8 encoding, in upper-case hex.

  predicate IsUnreserved(c: char)
  {
    ('A' <= c <= 'Z') || ('a' <= c <= 'z') || ('0' <= c <= '9') || c == '-' || c == '_' || c == '.' || c == '~'
  }

  /** The characters `EscapeDataString` can produce. */
  predicate IsEscapedChar(c: char)
  {
    IsUnreserved(c) || c == '%'
  }

  function HexDigit(d: nat): (c: char)
    requires d < 16
    ensures IsUnreserved(c)
  {
    "0123456789ABCDEF"[d]
  }

  /** `%XX` for one byte. */
  function PercentByte(b: nat): (r: string)
    requires b < 256
    ensures |r| == 3 && r[0] == '%' && forall i :: 0 <= i < |r| ==> IsEscapedChar(r[i])
  {
    ['%', HexDigit(b / 16), HexDigit(b % 16)]
  }

  /** The UTF-8 bytes of one Unicode scalar value. */
  function Utf8(c: char): (bytes: seq<nat>)
    ensures 1 <= |bytes| <= 4
    ensures forall i :: 0 <= i < |bytes| ==> bytes[i] < 256
  {
    var n := c as int;
    if n < 0x80 then [n]
    else if n < 0x800 then [0xC0 + n / 0x40, 0x80 + n % 0x40]
    else if n < 0x10000 then [0xE0 + n / 0x1000, 0x80 + (n / 0x40) % 0x40, 0x80 + n % 0x40]
    else [0xF0 + n / 0x40000, 0x80 + (n / 0x1000) % 0x40, 0x80 + (n / 0x40) % 0x40, 0x80 + n % 0x40]
  }

  function PercentBytes(bytes: seq<nat>): (r: string)
    requires forall i :: 0 <= i < |bytes| ==> bytes[i] < 256
    ensures |r| == 3 * |bytes|
    ensures forall i :: 0 <= i < |r| ==> IsEscapedChar(r[i])
  {
    if |bytes| == 0 then "" else PercentByte(bytes[0]) + PercentBytes(bytes[1..])
  }

  function EscapeChar(c: char): (r: string)
    ensures forall i :: 0 <= i < |r| ==> IsEscapedChar(r[i])
    ensures IsUnreserved(c) ==> r == [c]
    ensures !IsUnreserved(c) ==> |r| >= 3
  {
    if IsUnreserved(c) then [c] else PercentBytes(Utf8(c))
  }

  /** `Uri.EscapeDataString`: its output is made of unreserved characters and
      `%` only, so it never holds a query delimiter or a tag separator. */
  function EscapeDataString(s: string): (r: string)
    ensures forall i :: 0 <= i < |r| ==> IsEscapedChar(r[i])
    ensures |r| >= |s|
  {
    if |s| == 0 then "" else EscapeChar(s[0]) + EscapeDataString(s[1..])
  }

  /** Escaping leaves a string unchanged exactly when all of it is unreserved. */
  lemma {:induction false} EscapeDataStringIdentity(s: string)
    ensures EscapeDataString(s) == s <==> forall i :: 0 <= i < |s| ==> IsUnreserved(s[i])
  {
    if |s| > 0 {
      EscapeDataStringIdentity(s[1..]);
      if IsUnreserved(s[0]) {
        assert [s[0]] + s[1..] == s;
        if EscapeDataString(s) == s {
          assert EscapeDataString(s[1..]) == s[1..];
        }
      } else {
        assert |EscapeDataString(s)| >= 3 + |s[1..]| > |s|;
      }
    }
  }
}
