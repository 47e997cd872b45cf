/**
 * Form encoding of query strings as Python's `urllib.parse.urlencode` does it
 * with its default `quote_plus`: every byte outside the unreserved set of
 * section 2.3 of RFC 3986 is percent-encoded as in section 2.1 (two upper-case
 * hexadecimal digits), except the space, which is written `+`. Pairs are
 * written `key=value` and joined with `&`.
 *
 * Beside the encoder stands a strict decoder that accepts exactly the three
 * kinds of token (unreserved character, `%XX`, `+`); the two are tied by the
 * round-trip lemmas below.
 */
module UrlCodec {
  import opened Wrappers
  import opened Text

  newtype uint8 = x: int | 0 <= x < 256

  /** Section 2.3 of RFC 3986: ALPHA / DIGIT / "-" / "." / "_" / "~". */
  predicate IsUnreserved(c: char)
  {
    ('A' <= c <= 'Z') || ('a' <= c <= 'z') || ('0' <= c <= '9')
    || c == '-' || c == '.' || c == '_' || c == '~'
  }

  /** A character that may appear in the output of `QuotePlus`. */
  predicate IsFormChar(c: char)
  {
    IsUnreserved(c) || c == '%' || c == '+'
  }

  function HexDigit(d: nat): (c: char)
    requires d < 16
    ensures IsUnreserved(c)
  {
    "0123456789ABCDEF"[d]
  }

  /** Either case of hexadecimal digit, as Python's `unquote` accepts. */
  function HexValue(c: char): Option<nat>
  {
    if '0' <= c <= '9' then Some((c as int) - ('0' as int))
    else if 'A' <= c <= 'F' then Some((c as int) - ('A' as int) + 10)
    else if 'a' <= c <= 'f' then Some((c as int) - ('a' as int) + 10)
    else None
  }

  lemma HexValueOfDigit(d: nat)
    requires d < 16
    ensures HexValue(HexDigit(d)) == Some(d)
  {
  }

  /** The text `quote_plus` emits for one byte. */
  function QuoteByte(b: uint8): (s: string)
    ensures 1 <= |s| <= 3
    ensures forall k :: 0 <= k < |s| ==> IsFormChar(s[k])
  {
    if IsUnreserved(b as char) then [b as char]
    else if b == 32 then "+"
    else ['%', HexDigit((b / 16) as nat), HexDigit((b % 16) as nat)]
  }

  /** `quote_plus(s)` for the UTF-8 bytes `bs` of `s`, with no extra safe characters. */
  function QuotePlus(bs: seq<uint8>): string
  {
    if |bs| == 0 then "" else QuoteByte(bs[0]) + QuotePlus(bs[1..])
  }

  /** The encoding holds only unreserved characters, `%` and `+` (so no `&`,
      `=` or space), and takes one to three characters per byte. */
  lemma {:induction false} QuotePlusChars(bs: seq<uint8>)
    ensures forall k :: 0 <= k < |QuotePlus(bs)| ==> IsFormChar(QuotePlus(bs)[k])
    ensures |bs| <= |QuotePlus(bs)| <= 3 * |bs|
  {
    if |bs| > 0 {
      QuotePlusChars(bs[1..]);
      var head, tail := QuoteByte(bs[0]), QuotePlus(bs[1..]);
      assert QuotePlus(bs) == head + tail;
      forall k | 0 <= k < |head| + |tail| ensures IsFormChar((head + tail)[k]) {
        if k >= |head| {
          assert (head + tail)[k] == tail[k - |head|];
        }
      }
    }
  }

  /** An encoded value never holds a raw `&`, `=` or space. */
  lemma QuotedNoDelimiters(bs: seq<uint8>)
    ensures '&' !in QuotePlus(bs) && '=' !in QuotePlus(bs) && ' ' !in QuotePlus(bs)
  {
    QuotePlusChars(bs);
  }

  function Prepend(b: uint8, rest: Option<seq<uint8>>): Option<seq<uint8>>
  {
    if rest.Some? then Some([b] + rest.value) else None
  }

  /** The strict byte decoder of `quote_plus` output: anything but an unreserved
      character, `+` or a complete `%XX` escape is rejected. */
  function UnquotePlus(s: string): Option<seq<uint8>>
    decreases |s|
  {
    if |s| == 0 then Some([])
    else if s[0] == '+' then Prepend(32, UnquotePlus(s[1..]))
    else if s[0] == '%' then
      if |s| >= 3 && HexValue(s[1]).Some? && HexValue(s[2]).Some? then
        Prepend((16 * HexValue(s[1]).value + HexValue(s[2]).value) as uint8, UnquotePlus(s[3..]))
      else None
    else if IsUnreserved(s[0]) then Prepend(s[0] as int as uint8, UnquotePlus(s[1..]))
    else None
  }

  lemma UnquoteQuoteByte(b: uint8, rest: string)
    ensures UnquotePlus(QuoteByte(b) + rest) == Prepend(b, UnquotePlus(rest))
  {
    var s := QuoteByte(b) + rest;
    if IsUnreserved(b as char) {
      assert s[1..] == rest;
    } else if b == 32 {
      assert s[1..] == rest;
    } else {
      var hi, lo := (b / 16) as nat, (b % 16) as nat;
      HexValueOfDigit(hi);
      HexValueOfDigit(lo);
      assert s[1] == HexDigit(hi) && s[2] == HexDigit(lo);
      assert s[3..] == rest;
    }
  }

  /** Decoding an encoded byte string gives the byte string back. */
  lemma {:induction false} UnquoteQuote(bs: seq<uint8>)
    ensures UnquotePlus(QuotePlus(bs)) == Some(bs)
  {
    if |bs| > 0 {
      UnquoteQuote(bs[1..]);
      UnquoteQuoteByte(bs[0], QuotePlus(bs[1..]));
      assert [bs[0]] + bs[1..] == bs;
    }
  }

  // ---------------------------------------------------------------------------
  // ASCII text as bytes, for the fixed keys and for `str(page - 1)`.

  predicate IsAscii(s: string)
  {
    forall c :: c in s ==> c < 128 as char
  }

  /** Every character is unreserved. */
  predicate AllUnreserved(s: string)
  {
    forall c :: c in s ==> IsUnreserved(c)
  }

  /** The UTF-8 encoding of an ASCII string: one byte per character. */
  function AsciiBytes(s: string): (bs: seq<uint8>)
    requires IsAscii(s)
    ensures |bs| == |s|
  {
    seq(|s|, k requires 0 <= k < |s| => assert s[k] in s; s[k] as int as uint8)
  }

  /** Text made only of unreserved characters passes through `quote_plus` unchanged. */
  lemma {:induction false} QuotePlusUnreserved(s: string)
    requires AllUnreserved(s)
    ensures IsAscii(s) && QuotePlus(AsciiBytes(s)) == s
  {
    if |s| > 0 {
      assert s[0] in s;
      assert forall c :: c in s[1..] ==> c in s;
      QuotePlusUnreserved(s[1..]);
      assert AsciiBytes(s)[1..] == AsciiBytes(s[1..]);
      assert [s[0]] + s[1..] == s;
    }
  }

  // ---------------------------------------------------------------------------
  // `urlencode` over an ordered list of pairs, and its reader.

  type Pair = (seq<uint8>, seq<uint8>)

  /** One `key=value` piece of a query string, from already-quoted texts. */
  function Assign(key: string, value: string): string
  {
    key + "=" + value
  }

  /** `quote_plus(key) + "=" + quote_plus(value)`. */
  function EncodePair(p: Pair): string
  {
    Assign(QuotePlus(p.0), QuotePlus(p.1))
  }

  /** The `key=value` pieces, one per pair, in order. */
  function EncodedPieces(params: seq<Pair>): (pieces: seq<string>)
    ensures |pieces| == |params|
  {
    seq(|params|, k requires 0 <= k < |params| => EncodePair(params[k]))
  }

  /** `urlencode(params)` for params given in iteration order. */
  function UrlEncode(params: seq<Pair>): string
  {
    Join(EncodedPieces(params), '&')
  }

  /** The text before the first `sep` and the text after it. */
  function SplitFirst(s: string, sep: char): Option<(string, string)>
  {
    if |s| == 0 then None
    else if s[0] == sep then Some(("", s[1..]))
    else
      var r := SplitFirst(s[1..], sep);
      if r.Some? then Some(([s[0]] + r.value.0, r.value.1)) else None
  }

  lemma {:induction false} SplitFirstAt(a: string, sep: char, b: string)
    requires sep !in a
    ensures SplitFirst(a + [sep] + b, sep) == Some((a, b))
  {
    var s := a + [sep] + b;
    if |a| == 0 {
      assert s[1..] == b;
    } else {
      assert s[1..] == a[1..] + [sep] + b;
      SplitFirstAt(a[1..], sep, b);
      assert [a[0]] + a[1..] == a;
    }
  }

  /** Reads one `key=value` piece. */
  function DecodePair(piece: string): Option<Pair>
  {
    var kv := SplitFirst(piece, '=');
    if kv.None? then None
    else
      var k := UnquotePlus(kv.value.0);
      var v := UnquotePlus(kv.value.1);
      if k.Some? && v.Some? then Some((k.value, v.value)) else None
  }

  function DecodePairs(pieces: seq<string>): Option<seq<Pair>>
  {
    if |pieces| == 0 then Some([])
    else
      var p := DecodePair(pieces[0]);
      var rest := DecodePairs(pieces[1..]);
      if p.Some? && rest.Some? then Some([p.value] + rest.value) else None
  }

  /** Reads a query string back into its ordered pairs. */
  function ParseQuery(q: string): Option<seq<Pair>>
  {
    if q == "" then Some([]) else DecodePairs(Split(q, '&'))
  }

  lemma EncodePairNoAmpersand(p: Pair)
    ensures '&' !in EncodePair(p) && '=' in EncodePair(p)
  {
    QuotePlusChars(p.0);
    QuotePlusChars(p.1);
    assert EncodePair(p)[|QuotePlus(p.0)|] == '=';
  }

  lemma DecodeEncodePair(p: Pair)
    ensures DecodePair(EncodePair(p)) == Some(p)
  {
    var k, v := QuotePlus(p.0), QuotePlus(p.1);
    QuotePlusChars(p.0);
    assert '=' !in k;
    assert EncodePair(p) == k + ['='] + v;
    SplitFirstAt(k, '=', v);
    UnquoteQuote(p.0);
    UnquoteQuote(p.1);
  }

  lemma {:induction false} DecodePairsEncoded(params: seq<Pair>)
    ensures DecodePairs(EncodedPieces(params)) == Some(params)
  {
    var pieces := EncodedPieces(params);
    if |params| > 0 {
      DecodeEncodePair(params[0]);
      DecodePairsEncoded(params[1..]);
      assert pieces[1..] == EncodedPieces(params[1..]);
      assert [params[0]] + params[1..] == params;
    }
  }

  /** `urlencode` loses nothing: the query string reads back to the same pairs, in order. */
  lemma ParseQueryUrlEncode(params: seq<Pair>)
    ensures ParseQuery(UrlEncode(params)) == Some(params)
  {
    var pieces := EncodedPieces(params);
    if |params| > 0 {
      forall k | 0 <= k < |pieces| ensures '&' !in pieces[k] {
        EncodePairNoAmpersand(params[k]);
      }
      EncodePairNoAmpersand(params[0]);
      assert '=' in pieces[0];
      assert |Join(pieces, '&')| > 0 by {
        if |pieces| > 1 {
          assert Join(pieces, '&') == pieces[0] + ['&'] + Join(pieces[1..], '&');
        }
      }
      SplitJoin(pieces, '&');
    }
    DecodePairsEncoded(params);
  }
}
