/**
 * Base64 over bytes (section 4 of RFC 4648) and its URL-safe, unpadded variant
 * (section 5 of RFC 4648), as the JWT helper and the password-hash format use them.
 * Decoding accepts both alphabets, as the runtime's decoder does.
 */
module Base64 {
  import opened Wrappers

  type Byte = bv8

  /** The character for a 6-bit value: A-Z, a-z, 0-9, then '+' '/' or, URL-safe, '-' '_'. */
  function CharOf(url: bool, i: nat): (c: char)
    requires i < 64
    ensures c != '=' && c != '.' && c != '$'
    ensures url ==> c != '+' && c != '/'
  {
    if i < 26 then ('A' as int + i) as char
    else if i < 52 then ('a' as int + i - 26) as char
    else if i < 62 then ('0' as int + i - 52) as char
    else if i == 62 then (if url then '-' else '+')
    else (if url then '_' else '/')
  }

  /** The 6-bit value of a character of either alphabet. */
  function IndexOf(c: char): (r: Option<nat>)
    ensures r.Some? ==> r.value < 64
  {
    if 'A' <= c <= 'Z' then Some(c as int - 'A' as int)
    else if 'a' <= c <= 'z' then Some(c as int - 'a' as int + 26)
    else if '0' <= c <= '9' then Some(c as int - '0' as int + 52)
    else if c == '+' || c == '-' then Some(62)
    else if c == '/' || c == '_' then Some(63)
    else None
  }

  lemma IndexOfCharOf(url: bool, i: nat)
    requires i < 64
    ensures IndexOf(CharOf(url, i)) == Some(i)
  {
  }

  /** The 6 bits that start `shift` bits up. */
  function SixBits(n: bv24, shift: bv24): (i: bv24)
    requires shift <= 18
    ensures i < 64
  {
    (n >> shift) & 63
  }

  /** The same 6-bit group as a number. */
  function Six(n: bv24, shift: bv24): (i: nat)
    requires shift <= 18
    ensures i < 64 && i as bv24 == SixBits(n, shift)
  {
    SixBits(n, shift) as nat
  }

  function Pack(a: Byte, b: Byte, c: Byte): bv24
  {
    (a as bv24 << 16) | (b as bv24 << 8) | (c as bv24)
  }

  function Unpack(i0: nat, i1: nat, i2: nat, i3: nat): bv24
    requires i0 < 64 && i1 < 64 && i2 < 64 && i3 < 64
  {
    UnpackBits(i0 as bv24, i1 as bv24, i2 as bv24, i3 as bv24)
  }

  function UnpackBits(i0: bv24, i1: bv24, i2: bv24, i3: bv24): bv24
  {
    (i0 << 18) | (i1 << 12) | (i2 << 6) | i3
  }

  /** The four characters for three bytes. */
  function Quad(url: bool, a: Byte, b: Byte, c: Byte): (q: string)
    ensures |q| == 4
    ensures forall k :: 0 <= k < 4 ==> q[k] != '=' && q[k] != '.' && q[k] != '$'
    ensures url ==> forall k :: 0 <= k < 4 ==> q[k] != '+' && q[k] != '/'
  {
    var n := Pack(a, b, c);
    [CharOf(url, Six(n, 18)), CharOf(url, Six(n, 12)), CharOf(url, Six(n, 6)), CharOf(url, Six(n, 0))]
  }

  /** The two characters for a last single byte. */
  function Single(url: bool, a: Byte): (q: string)
    ensures |q| == 2
    ensures forall k :: 0 <= k < 2 ==> q[k] != '=' && q[k] != '.' && q[k] != '$'
    ensures url ==> forall k :: 0 <= k < 2 ==> q[k] != '+' && q[k] != '/'
  {
    var n := Pack(a, 0, 0);
    [CharOf(url, Six(n, 18)), CharOf(url, Six(n, 12))]
  }

  /** The three characters for a last pair of bytes. */
  function Pair(url: bool, a: Byte, b: Byte): (q: string)
    ensures |q| == 3
    ensures forall k :: 0 <= k < 3 ==> q[k] != '=' && q[k] != '.' && q[k] != '$'
    ensures url ==> forall k :: 0 <= k < 3 ==> q[k] != '+' && q[k] != '/'
  {
    var n := Pack(a, b, 0);
    [CharOf(url, Six(n, 18)), CharOf(url, Six(n, 12)), CharOf(url, Six(n, 6))]
  }

  /** Encoding without padding: four characters per three bytes, two or three for a shorter tail. */
  function Encode(url: bool, b: seq<Byte>): (s: string)
    ensures |b| > 0 ==> |s| > 0
    ensures forall k :: 0 <= k < |s| ==> s[k] != '=' && s[k] != '.' && s[k] != '$'
    ensures url ==> forall k :: 0 <= k < |s| ==> s[k] != '+' && s[k] != '/'
    decreases |b|
  {
    if |b| == 0 then ""
    else if |b| == 1 then Single(url, b[0])
    else if |b| == 2 then Pair(url, b[0], b[1])
    else
      Quad(url, b[0], b[1], b[2]) + Encode(url, b[3..])
  }

  /** Decoding of unpadded text; a lone trailing character carries no whole byte and is dropped. */
  function DecodeChars(s: string): Option<seq<Byte>>
    decreases |s|
  {
    if |s| <= 1 then Some([])
    else if IndexOf(s[0]).None? || IndexOf(s[1]).None? then None
    else if |s| == 2 then
      var n := Unpack(IndexOf(s[0]).value, IndexOf(s[1]).value, 0, 0);
      Some([(n >> 16) as Byte])
    else if IndexOf(s[2]).None? then None
    else if |s| == 3 then
      var n := Unpack(IndexOf(s[0]).value, IndexOf(s[1]).value, IndexOf(s[2]).value, 0);
      Some([(n >> 16) as Byte, ((n >> 8) & 0xFF) as Byte])
    else if IndexOf(s[3]).None? then None
    else
      var rest := DecodeChars(s[4..]);
      if rest.None? then None
      else Some(GroupBytes(IndexOf(s[0]).value, IndexOf(s[1]).value, IndexOf(s[2]).value, IndexOf(s[3]).value) + rest.value)
  }

  /** The three bytes four 6-bit values carry. */
  function GroupBytes(i0: nat, i1: nat, i2: nat, i3: nat): seq<Byte>
    requires i0 < 64 && i1 < 64 && i2 < 64 && i3 < 64
  {
    var n := Unpack(i0, i1, i2, i3);
    [(n >> 16) as Byte, ((n >> 8) & 0xFF) as Byte, (n & 0xFF) as Byte]
  }

  lemma GroupBits(a: Byte, b: Byte, c: Byte)
    ensures var n := Pack(a, b, c);
      var m := UnpackBits(SixBits(n, 18), SixBits(n, 12), SixBits(n, 6), SixBits(n, 0));
      (m >> 16) as Byte == a && ((m >> 8) & 0xFF) as Byte == b && (m & 0xFF) as Byte == c
  {
  }

  lemma GroupRoundTrip(a: Byte, b: Byte, c: Byte)
    ensures var n := Pack(a, b, c);
      GroupBytes(Six(n, 18), Six(n, 12), Six(n, 6), Six(n, 0)) == [a, b, c]
  {
    GroupBits(a, b, c);
  }

  lemma PairRoundTrip(a: Byte, b: Byte)
    ensures var n := Pack(a, b, 0);
      var m := Unpack(Six(n, 18), Six(n, 12), Six(n, 6), 0);
      (m >> 16) as Byte == a && ((m >> 8) & 0xFF) as Byte == b
  {
    var n := Pack(a, b, 0);
    assert Unpack(Six(n, 18), Six(n, 12), Six(n, 6), 0) == UnpackBits(SixBits(n, 18), SixBits(n, 12), SixBits(n, 6), 0);
  }

  lemma SingleRoundTrip(a: Byte)
    ensures var n := Pack(a, 0, 0);
      var m := Unpack(Six(n, 18), Six(n, 12), 0, 0);
      (m >> 16) as Byte == a
  {
    var n := Pack(a, 0, 0);
    assert Unpack(Six(n, 18), Six(n, 12), 0, 0) == UnpackBits(SixBits(n, 18), SixBits(n, 12), 0, 0);
  }

  lemma DecodeOne(url: bool, a: Byte)
    ensures DecodeChars(Encode(url, [a])) == Some([a])
  {
    var n := Pack(a, 0, 0);
    IndexOfCharOf(url, Six(n, 18));
    IndexOfCharOf(url, Six(n, 12));
    SingleRoundTrip(a);
  }

  lemma DecodeTwo(url: bool, a: Byte, b: Byte)
    ensures DecodeChars(Encode(url, [a, b])) == Some([a, b])
  {
    var n := Pack(a, b, 0);
    IndexOfCharOf(url, Six(n, 18));
    IndexOfCharOf(url, Six(n, 12));
    IndexOfCharOf(url, Six(n, 6));
    PairRoundTrip(a, b);
  }

  lemma DecodeStep(s: string)
    requires |s| >= 4
    requires forall k :: 0 <= k < 4 ==> IndexOf(s[k]).Some?
    requires DecodeChars(s[4..]).Some?
    ensures DecodeChars(s) ==
      Some(GroupBytes(IndexOf(s[0]).value, IndexOf(s[1]).value, IndexOf(s[2]).value, IndexOf(s[3]).value)
           + DecodeChars(s[4..]).value)
  {
    assert IndexOf(s[0]).Some? && IndexOf(s[1]).Some? && IndexOf(s[2]).Some? && IndexOf(s[3]).Some?;
  }

  lemma QuadDecodes(url: bool, a: Byte, b: Byte, c: Byte)
    ensures var q := Quad(url, a, b, c);
      (forall k :: 0 <= k < 4 ==> IndexOf(q[k]).Some?)
      && GroupBytes(IndexOf(q[0]).value, IndexOf(q[1]).value, IndexOf(q[2]).value, IndexOf(q[3]).value) == [a, b, c]
  {
    var n := Pack(a, b, c);
    IndexOfCharOf(url, Six(n, 18));
    IndexOfCharOf(url, Six(n, 12));
    IndexOfCharOf(url, Six(n, 6));
    IndexOfCharOf(url, Six(n, 0));
    GroupRoundTrip(a, b, c);
  }

  lemma DecodeGroup(url: bool, b: seq<Byte>)
    requires |b| >= 3
    requires DecodeChars(Encode(url, b[3..])).Some?
    ensures DecodeChars(Encode(url, b)) == Some(b[..3] + DecodeChars(Encode(url, b[3..])).value)
  {
    var s := Encode(url, b);
    var q := Quad(url, b[0], b[1], b[2]);
    assert s == q + Encode(url, b[3..]);
    assert s[4..] == Encode(url, b[3..]);
    assert s[..4] == q;
    QuadDecodes(url, b[0], b[1], b[2]);
    assert b[..3] == [b[0], b[1], b[2]];
    DecodeStep(s);
  }

  /** Decoding inverts encoding, in either alphabet. */
  lemma {:induction false} DecodeEncode(url: bool, b: seq<Byte>)
    ensures DecodeChars(Encode(url, b)) == Some(b)
    decreases |b|
  {
    if |b| == 1 {
      DecodeOne(url, b[0]);
      assert b == [b[0]];
    } else if |b| == 2 {
      DecodeTwo(url, b[0], b[1]);
      assert b == [b[0], b[1]];
    } else if |b| >= 3 {
      DecodeEncode(url, b[3..]);
      DecodeGroup(url, b);
      assert b == b[..3] + b[3..];
    }
  }

  /* ---------- padded standard Base64 ---------- */

  /** `buf.toString('base64')`: the standard alphabet, padded with '=' to a multiple of four. */
  function EncodePadded(b: seq<Byte>): (s: string)
    ensures forall k :: 0 <= k < |s| ==> s[k] != '$'
  {
    var e := Encode(false, b);
    e + if |b| % 3 == 1 then "==" else if |b| % 3 == 2 then "=" else ""
  }

  /** The text without its trailing '=' characters. */
  function StripPadding(s: string): (r: string)
    ensures |r| <= |s| && r == s[..|r|]
    decreases |s|
  {
    if s != [] && s[|s| - 1] == '=' then StripPadding(s[..|s| - 1]) else s
  }

  /** `Buffer.from(s, 'base64')`: trailing padding is ignored. */
  function DecodePadded(s: string): Option<seq<Byte>>
  {
    DecodeChars(StripPadding(s))
  }

  /** Stripping removes exactly a tail of '=' from text that does not end in '='. */
  lemma {:induction false} StripAddedPadding(e: string, pad: string)
    requires e == [] || e[|e| - 1] != '='
    requires forall k :: 0 <= k < |pad| ==> pad[k] == '='
    ensures StripPadding(e + pad) == e
    decreases |pad|
  {
    if pad == [] {
      assert e + pad == e;
    } else {
      var t := e + pad;
      assert t[..|t| - 1] == e + pad[..|pad| - 1];
      StripAddedPadding(e, pad[..|pad| - 1]);
    }
  }

  lemma PaddedRoundTrip(b: seq<Byte>)
    ensures DecodePadded(EncodePadded(b)) == Some(b)
  {
    var e := Encode(false, b);
    StripAddedPadding(e, if |b| % 3 == 1 then "==" else if |b| % 3 == 2 then "=" else "");
    DecodeEncode(false, b);
  }

  /* ---------- the JWT helper's URL-safe form ---------- */

  /** The '=' characters that bring a length up to a multiple of four. */
  function Padding(n: nat): (pad: string)
    ensures forall k :: 0 <= k < |pad| ==> pad[k] == '='
    ensures (n + |pad|) % 4 == 0
  {
    if n % 4 == 0 then "" else seq(4 - n % 4, _ => '=')
  }

  /**
   * b64urlDecodeToBuf: pad to a multiple of four and decode. The decoder reads '-' and
   * '_' as '+' and '/', so the helper's character replacement needs no separate step.
   */
  function UrlDecode(s: string): Option<seq<Byte>>
  {
    DecodePadded(s + Padding(|s|))
  }

  /** Decoding the URL-safe encoding gives back the bytes. */
  lemma UrlRoundTrip(b: seq<Byte>)
    ensures UrlDecode(Encode(true, b)) == Some(b)
  {
    var e := Encode(true, b);
    StripAddedPadding(e, Padding(|e|));
    DecodeEncode(true, b);
  }
}
