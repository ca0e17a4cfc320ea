/**
  The address a document is fetched from. An address that starts with
  `http` is used as given; any other is a path under the repository's
  `public/` folder: one leading '/' is dropped, the rest is encoded with
  `encodeURIComponent`, every `%2F` in the result is turned back into '/',
  and the raw-content base address is put in front.
 */
module DocumentUrl {

  const Base: string := "https://raw.githubusercontent.com/karthikeyanasha24/pdf-packet-6/main/public/"

  /** The characters `encodeURIComponent` leaves as they are. */
  predicate Unreserved(c: char)
  {
    || 'A' <= c <= 'Z' || 'a' <= c <= 'z' || '0' <= c <= '9'
    || c == '-' || c == '_' || c == '.' || c == '!' || c == '~' || c == '*' || c == '\'' || c == '(' || c == ')'
  }

  /** The UTF-8 encoding of a Unicode scalar value. */
  function Utf8(cp: nat): (r: seq<nat>)
    requires cp <= 0x10FFFF
    ensures 1 <= |r| <= 4 && forall i :: 0 <= i < |r| ==> r[i] < 256
    ensures cp < 0x80 <==> |r| == 1
    ensures |r| == 1 ==> r[0] == cp
    ensures |r| > 1 ==> forall i :: 0 <= i < |r| ==> r[i] >= 0x80
  {
    if cp < 0x80 then [cp]
    else if cp < 0x800 then [0xC0 + cp / 64, 0x80 + cp % 64]
    else if cp < 0x10000 then [0xE0 + cp / 4096, 0x80 + (cp / 64) % 64, 0x80 + cp % 64]
    else [0xF0 + cp / 262144, 0x80 + (cp / 4096) % 64, 0x80 + (cp / 64) % 64, 0x80 + cp % 64]
  }

  /** An upper-case hexadecimal digit. */
  function HexDigit(d: nat): (c: char)
    requires d < 16
    ensures c != '%' && (d == 2 <==> c == '2') && (d == 15 <==> c == 'F')
  {
    "0123456789ABCDEF"[d]
  }

  /** `%XY` for each byte. */
  function Percent(bytes: seq<nat>): (r: string)
    requires forall i :: 0 <= i < |bytes| ==> bytes[i] < 256
    ensures |r| == 3 * |bytes|
  {
    if bytes == [] then []
    else ['%', HexDigit(bytes[0] / 16), HexDigit(bytes[0] % 16)] + Percent(bytes[1..])
  }

  /** How `encodeURIComponent` writes one character. */
  function EncodeChar(c: char): string
  {
    if Unreserved(c) then [c] else Percent(Utf8(c as nat))
  }

  /** `encodeURIComponent` of a well-formed string. */
  function EncodeComponent(s: string): string
  {
    if s == [] then [] else EncodeChar(s[0]) + EncodeComponent(s[1..])
  }

  /** The global, left-to-right replacement of `%2F` by `/`. */
  function RestoreSlashes(s: string): (r: string)
    ensures |r| <= |s|
  {
    if |s| >= 3 && s[..3] == "%2F" then "/" + RestoreSlashes(s[3..])
    else if s == [] then []
    else [s[0]] + RestoreSlashes(s[1..])
  }

  /** The path encoded as a whole: `encodeURIComponent`, then `%2F` restored. */
  function EncodePath(path: string): string
  {
    RestoreSlashes(EncodeComponent(path))
  }

  /** The address fetched for a document's `url` field. */
  function FullUrl(url: string): (r: string)
    ensures "http" <= url ==> r == url
    ensures !("http" <= url) ==> Base <= r
  {
    if "http" <= url then url
    else
      var cleanPath := if |url| > 0 && url[0] == '/' then url[1..] else url;
      Base + EncodePath(cleanPath)
  }

  /** The reference encoding: each character on its own, a slash kept as it is, every other one as `encodeURIComponent` writes it. */
  function EncodeKeepingSlashes(s: string): string
  {
    if s == [] then [] else (if s[0] == '/' then "/" else EncodeChar(s[0])) + EncodeKeepingSlashes(s[1..])
  }

  /**
    Restoring `%2F` after encoding the whole path is the same as keeping the
    path's slashes and encoding every other character: no other character's
    encoding contains `%2F`, and no `%2F` straddles two encodings.
   */
  lemma {:induction false} EncodePathKeepsSlashes(path: string)
    ensures EncodePath(path) == EncodeKeepingSlashes(path)
  {
    if path != [] {
      var c := path[0];
      var rest := EncodeComponent(path[1..]);
      EncodePathKeepsSlashes(path[1..]);
      assert EncodeComponent(path) == EncodeChar(c) + rest;
      if c == '/' {
        assert EncodeChar(c) == "%2F";
        assert (EncodeChar(c) + rest)[..3] == "%2F";
        assert (EncodeChar(c) + rest)[3..] == rest;
      } else if Unreserved(c) {
        assert ([c] + rest)[1..] == rest;
      } else {
        var bytes := Utf8(c as nat);
        assert bytes[0] != 0x2F;
        RestorePercent(bytes, rest);
      }
    }
  }

  /** Percent-encoded bytes other than 0x2F pass through the `%2F` replacement untouched. */
  lemma {:induction false} RestorePercent(bytes: seq<nat>, rest: string)
    requires forall i :: 0 <= i < |bytes| ==> bytes[i] < 256 && bytes[i] != 0x2F
    ensures RestoreSlashes(Percent(bytes) + rest) == Percent(bytes) + RestoreSlashes(rest)
  {
    if bytes == [] {
      assert Percent(bytes) + rest == rest;
    } else {
      var b := bytes[0];
      assert !(b / 16 == 2 && b % 16 == 15);
      var esc := ['%', HexDigit(b / 16), HexDigit(b % 16)];
      var mid := Percent(bytes[1..]);
      assert Percent(bytes) == esc + mid;
      RestorePercent(bytes[1..], rest);
      EscapeStep(esc[1], esc[2], mid + rest);
      Reassociate(esc, mid, rest, RestoreSlashes(rest));
    }
  }

  /** The two ways of bracketing two concatenations around a changing tail agree. */
  lemma Reassociate(a: string, b: string, c: string, d: string)
    ensures (a + b) + c == a + (b + c) && a + (b + d) == (a + b) + d
  {
  }

  /** An escape other than `%2F` passes through the replacement. */
  lemma EscapeStep(hi: char, lo: char, t: string)
    requires hi != '%' && lo != '%' && !(hi == '2' && lo == 'F')
    ensures RestoreSlashes(['%', hi, lo] + t) == ['%', hi, lo] + RestoreSlashes(t)
  {
    var u := [lo] + t;
    var v := [hi] + u;
    var s := ['%'] + v;
    PassThrough(lo, t);
    PassThrough(hi, u);
    assert s == ['%', hi, lo] + t;
    assert s[..3] != "%2F" by {
      assert s[1] == hi && s[2] == lo;
    }
    assert s[1..] == v;
  }

  /** A character other than '%' cannot start a `%2F`, so it passes through the replacement. */
  lemma PassThrough(c: char, t: string)
    requires c != '%'
    ensures RestoreSlashes([c] + t) == [c] + RestoreSlashes(t)
  {
    var s := [c] + t;
    assert s[0] == c;
    assert s[1..] == t;
  }

  /** Only one leading slash is dropped: a path starting with two keeps the second, encoded as a slash. */
  lemma OneSlashDropped(p: string)
    ensures FullUrl("//" + p) == Base + "/" + EncodePath(p)
  {
    var url := "//" + p;
    assert url[1..] == "/" + p;
    EncodePathKeepsSlashes("/" + p);
    EncodePathKeepsSlashes(p);
    assert ("/" + p)[1..] == p;
  }

  /** A relative path that does not start with a slash gets the same address with one leading slash added. */
  lemma LeadingSlashOptional(p: string)
    requires !("http" <= p) && (p == [] || p[0] != '/')
    ensures FullUrl("/" + p) == FullUrl(p)
  {
    assert ("/" + p)[1..] == p;
  }

  /** Non-`http` addresses are encoded into unreserved characters, slashes and `%XY` escapes, with no space left in them. */
  lemma {:induction false} EncodedHasNoSpace(s: string)
    ensures ' ' !in EncodeKeepingSlashes(s)
  {
    if s != [] {
      EncodedHasNoSpace(s[1..]);
      if s[0] != '/' && !Unreserved(s[0]) {
        PercentHasNoSpace(Utf8(s[0] as nat));
      }
    }
  }

  lemma {:induction false} PercentHasNoSpace(bytes: seq<nat>)
    requires forall i :: 0 <= i < |bytes| ==> bytes[i] < 256
    ensures ' ' !in Percent(bytes)
  {
    if bytes != [] {
      PercentHasNoSpace(bytes[1..]);
      assert " " != [HexDigit(bytes[0] / 16)] && " " != [HexDigit(bytes[0] % 16)];
    }
  }
}
