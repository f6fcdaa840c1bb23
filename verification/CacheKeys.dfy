// How a cache key becomes text: gob bytes in standard base64, or "/" when gob refuses the key.
module CacheKeys {
  import opened Base

  type byte = x: int | 0 <= x < 256

  // A key is its gob encoding, absent when gob cannot encode it.
  datatype Key = Key(gob: Option<seq<byte>>)

  function Base64Char(i: int): char
    requires 0 <= i < 64
  {
    if i < 26 then 'A' + i as char
    else if i < 52 then 'a' + (i - 26) as char
    else if i < 62 then '0' + (i - 52) as char
    else if i == 62 then '+' else '/'
  }

  function ByteAt(b: seq<byte>, i: nat): byte {
    if i < |b| then b[i] else 0
  }

  // Up to three bytes make four characters, padded with '='.
  function Group(b: seq<byte>): (s: string)
    ensures |s| == 4
  {
    var (x, y, z) := (ByteAt(b, 0), ByteAt(b, 1), ByteAt(b, 2));
    [Base64Char(x / 4), Base64Char(x % 4 * 16 + y / 16),
     if |b| > 1 then Base64Char(y % 16 * 4 + z / 64) else '=',
     if |b| > 2 then Base64Char(z % 64) else '=']
  }

  // base64.StdEncoding.EncodeToString.
  function Base64(b: seq<byte>): (s: string)
    ensures |s| % 4 == 0
  {
    if b == [] then "" else if |b| <= 3 then Group(b) else Group(b[..3]) + Base64(b[3..])
  }

  function KeyText(key: Key): string {
    match key.gob case Some(b) => Base64(b) case None => "/"
  }

  /* ---- the decoding of section 4 of RFC 4648 ---- */

  // The six bits a character stands for; padding stands for none.
  function SixBits(c: char): (i: int)
    ensures 0 <= i < 64
  {
    if 'A' <= c <= 'Z' then c as int - 'A' as int
    else if 'a' <= c <= 'z' then c as int - 'a' as int + 26
    else if '0' <= c <= '9' then c as int - '0' as int + 52
    else if c == '+' then 62
    else if c == '/' then 63
    else 0
  }

  // Four characters, most significant first, are a 24-bit number.
  function GroupNumber(s: string): nat
    requires |s| == 4
  {
    262144 * SixBits(s[0]) + 4096 * SixBits(s[1]) + 64 * SixBits(s[2]) + SixBits(s[3])
  }

  // One byte of it before "==", two before "=", three otherwise.
  function GroupBytes(s: string): seq<byte>
    requires |s| == 4
  {
    var n := GroupNumber(s);
    var (x, y, z) := (n / 65536, n / 256 % 256, n % 256);
    if s[2] == '=' then [x] else if s[3] == '=' then [x, y] else [x, y, z]
  }

  function Decoded(s: string): seq<byte> {
    if |s| < 4 then [] else GroupBytes(s[..4]) + Decoded(s[4..])
  }

  lemma CharStandsFor(i: int)
    requires 0 <= i < 64
    ensures SixBits(Base64Char(i)) == i && Base64Char(i) != '='
  {
  }

  lemma SameNumber(x: int, y: int, z: int)
    ensures 262144 * (x / 4) + 4096 * (x % 4 * 16 + y / 16) + 64 * (y % 16 * 4 + z / 64) + z % 64 == 65536 * x + 256 * y + z
  {
  }

  lemma ThreeBytes(x: byte, y: byte, z: byte)
    ensures var n: int := 65536 * x + 256 * y + z; n / 65536 == x && n / 256 % 256 == y && n % 256 == z
  {
    var n: int := 65536 * x + 256 * y + z;
    assert n / 256 == 256 * x + y;
  }

  // The number is the bytes', and the bits that no byte fills are zero.
  lemma GroupNumberIs(b: seq<byte>)
    requires 1 <= |b| <= 3
    ensures var x: int, y: int, z: int := b[0], if |b| > 1 then b[1] else 0, if |b| > 2 then b[2] else 0;
      GroupNumber(Group(b)) == 65536 * x + 256 * y + z
  {
    var (x, y, z) := (ByteAt(b, 0), ByteAt(b, 1), ByteAt(b, 2));
    CharStandsFor(x / 4);
    CharStandsFor(x % 4 * 16 + y / 16);
    CharStandsFor(y % 16 * 4 + z / 64);
    CharStandsFor(z % 64);
    SameNumber(x, y, z);
  }

  lemma GroupDecodes(b: seq<byte>)
    requires 1 <= |b| <= 3
    ensures GroupBytes(Group(b)) == b
  {
    var (x, y, z) := (ByteAt(b, 0), ByteAt(b, 1), ByteAt(b, 2));
    GroupNumberIs(b);
    ThreeBytes(x, y, z);
    CharStandsFor(y % 16 * 4 + z / 64);
    CharStandsFor(z % 64);
  }

  lemma {:induction false} Base64Decodes(b: seq<byte>)
    ensures Decoded(Base64(b)) == b
  {
    if b == [] {
    } else if |b| <= 3 {
      GroupDecodes(b);
      assert Base64(b)[..4] == Group(b) && Base64(b)[4..] == "";
    } else {
      GroupDecodes(b[..3]);
      Base64Decodes(b[3..]);
      assert Base64(b)[..4] == Group(b[..3]) && Base64(b)[4..] == Base64(b[3..]);
    }
  }

  lemma Base64IsInjective(a: seq<byte>, b: seq<byte>)
    requires Base64(a) == Base64(b)
    ensures a == b
  {
    Base64Decodes(a);
    Base64Decodes(b);
  }

  // Two keys have the same text exactly when their encodings agree or both fail to encode.
  lemma SameTextIffSameGob(k: Key, k': Key)
    ensures KeyText(k) == KeyText(k') <==> k.gob == k'.gob
    ensures if k.gob.Some? then Decoded(KeyText(k)) == k.gob.value else KeyText(k) == "/"
  {
    if k.gob.Some? { Base64Decodes(k.gob.value); }
    match (k.gob, k'.gob)
    case (Some(a), Some(b)) =>
      if KeyText(k) == KeyText(k') { Base64IsInjective(a, b); }
    case (Some(a), None) =>
    case (None, Some(b)) =>
    case (None, None) =>
  }
}
