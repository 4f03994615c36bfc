/** The byte-level primitives of the persistence engine: unsigned 32-bit words and
    length-prefixed strings, uncompressed, little-endian host order. */
module EngineCodec {
  import opened Wrappers

  const WORD := 0x1_0000_0000

  datatype Error = ShortRead | BadLength | NoStartMarker | NoEndMarker | UnknownClass(name: bytes)

  function PutWord(n: nat): (r: bytes)
    ensures |r| == 4
  {
    LittleEndian(n, 4)
  }

  function GetWord(s: bytes): (r: Result<(nat, bytes), Error>)
    ensures r.Ok? <==> |s| >= 4
    ensures r.Ok? ==> r.value.1 == s[4..]
  {
    if |s| < 4 then Err(ShortRead)
    else
      Ok((s[0] as int + 0x100 * s[1] as int + 0x1_0000 * s[2] as int + 0x100_0000 * s[3] as int, s[4..]))
  }

  lemma Digits(n: nat)
    ensures LittleEndian(n, 4) == [n % 256, n / 0x100 % 256, n / 0x1_0000 % 256, n / 0x100_0000 % 256]
  {
    var a, b, c := n / 0x100, n / 0x1_0000, n / 0x100_0000;
    assert a / 0x100 == b && b / 0x100 == c;
    assert LittleEndian(c, 1) == [c % 256] && LittleEndian(b, 2) == [b % 256, c % 256];
    assert LittleEndian(a, 3) == [a % 256, b % 256, c % 256];
  }

  lemma DigitSum(n: nat)
    ensures n % 256 + 0x100 * (n / 0x100 % 256) + 0x1_0000 * (n / 0x1_0000 % 256)
          + 0x100_0000 * (n / 0x100_0000 % 256) == n % WORD
  {
    var a, b, c := n / 0x100, n / 0x1_0000, n / 0x100_0000;
    var d := c / 256;
    assert n == n % 256 + 0x100 * a;
    assert a == a % 256 + 0x100 * b;
    assert b == b % 256 + 0x100 * c;
    assert c == c % 256 + 0x100 * d;
    assert n == n % 256 + 0x100 * (a % 256) + 0x1_0000 * (b % 256) + 0x100_0000 * (c % 256) + WORD * d;
  }

  lemma WordRoundTrip(n: nat, tail: bytes)
    ensures GetWord(PutWord(n) + tail) == Ok((n % WORD, tail))
  {
    Digits(n);
    DigitSum(n);
    assert (PutWord(n) + tail)[4..] == tail;
  }

  // C-string view of a buffer: everything before the first NUL.
  function UpToNul(s: bytes): (r: bytes)
    ensures r <= s
    ensures 0 !in r
    ensures r == s <==> 0 !in s
  {
    if s == [] || s[0] == 0 then [] else [s[0]] + UpToNul(s[1..])
  }

  function PutString(s: bytes): bytes {
    var len := |s| % WORD;
    PutWord(len) + s[..len]
  }

  // A length word of all ones makes the buffer size len + 1 wrap to zero.
  function GetString(s: bytes): (r: Result<(bytes, bytes), Error>)
    ensures r.Ok? ==> |r.value.1| <= |s| - 4
  {
    var (len, rest) :- GetWord(s);
    if len == WORD - 1 then Err(BadLength)
    else if |rest| < len then Err(ShortRead)
    else Ok((UpToNul(rest[..len]), rest[len..]))
  }

  // Strings the format carries faithfully.
  ghost predicate Portable(s: bytes) {
    |s| < WORD - 1 && 0 !in s
  }

  // A string survives the stream exactly when it has no NUL and its length fits the length word.
  lemma StringRoundTrip(s: bytes, tail: bytes)
    ensures GetString(PutString(s) + tail) == Ok((s, tail)) <==> Portable(s)
  {
    var len := |s| % WORD;
    var body := s[..len] + tail;
    assert PutString(s) + tail == PutWord(len) + body;
    WordRoundTrip(len, body);
    assert body[..len] == s[..len] && body[len..] == tail;
    if |s| < WORD {
      assert s[..len] == s;
    } else {
      assert |s[..len]| < |s|;
    }
  }
}
