// The chunked transfer coding: what dt_uhttpd_utils.c writes, and a reader for it after
// section 4.1 of RFC 7230.
module ChunkedCoding {
  import opened Bytes

  const CRLF: Data := [13, 10]

  const MSGHEAD := 4096 // UH_LIMIT_MSGHEAD, the most a chunk holds

  // snprintf with %X
  function HexDigit(d: nat): (c: Byte)
    requires d < 16
  {
    if d < 10 then 48 + d else 55 + d
  }

  function Hex(n: nat): (h: Data)
    ensures |h| > 0
  {
    if n < 16 then [HexDigit(n)] else Hex(n / 16) + [HexDigit(n % 16)]
  }

  function Chunk(d: Data): Data {
    Hex(|d|) + CRLF + d + CRLF
  }

  const LAST_CHUNK: Data := Hex(0) + CRLF + CRLF

  // Content cut into chunks of at most MSGHEAD bytes.
  function Chunks(d: Data): Data {
    if d == [] then []
    else
      var n := Min(|d|, MSGHEAD);
      Chunk(d[..n]) + Chunks(d[n..])
  }

  // The wire form of a body: chunked, or as it is for versions up to 1.0.
  function Body(d: Data, chunked: bool): Data {
    if chunked then Chunks(d) + LAST_CHUNK else d
  }

  // A chunk holds at most 4096 octets.
  lemma CutAt4096(d: Data)
    requires |d| > 4096
    ensures Body(d, true) == Chunk(d[..4096]) + Body(d[4096..], true)
  {
    hide Chunk;
    BodyStep(d, 4096);
  }

  lemma UpperCase(d: nat)
    requires d < 16
    ensures HexDigit(d) == "0123456789ABCDEF"[d] as nat
  {
  }

  function Octets(text: string): Data
    requires forall k :: 0 <= k < |text| ==> text[k] as int < 256
  {
    seq(|text|, k requires 0 <= k < |text| => text[k] as int)
  }

  // The text "hello" as it goes over the wire.
  lemma OnTheWire()
    ensures Body(Octets("hello"), true) == Octets("5\r\nhello\r\n0\r\n\r\n")
  {
    hide Hex;
    var d := Octets("hello");
    ShortHex(5);
    ShortHex(0);
    assert d[..5] == d && d[5..] == [];
    assert Chunks(d) == Chunk(d) + Chunks([]);
    assert Chunk(d) == [53] + CRLF + d + CRLF;
  }

  lemma ShortHex(n: nat)
    requires n < 10
    ensures Hex(n) == [48 + n]
  {
  }

  lemma ChunkParts(data: Data)
    ensures Chunk(data) == Hex(|data|) + CRLF + data + CRLF
  {
  }

  lemma HexLength(n: nat)
    ensures n < 0x10 ==> |Hex(n)| == 1
    ensures n < 0x100 ==> |Hex(n)| <= 2
    ensures n < 0x1000 ==> |Hex(n)| <= 3
    ensures n < 0x10000 ==> |Hex(n)| <= 4
  {
  }

  // ---- the reader ----

  function HexValue(c: Byte): (v: Option<nat>)
    ensures v.Some? ==> v.value < 16
  {
    if 48 <= c < 58 then Some(c - 48)
    else if 65 <= c < 71 then Some(c - 55)
    else if 97 <= c < 103 then Some(c - 87)
    else None
  }

  // The number of hexadecimal digits at the front.
  function DigitCount(s: Data): (k: nat)
    ensures k <= |s| && forall i :: 0 <= i < k ==> HexValue(s[i]).Some?
  {
    if s == [] || HexValue(s[0]).None? then 0 else 1 + DigitCount(s[1..])
  }

  function ReadHex(s: Data): nat
    requires forall i :: 0 <= i < |s| ==> HexValue(s[i]).Some?
  {
    if s == [] then 0 else 16 * ReadHex(s[..|s| - 1]) + HexValue(s[|s| - 1]).value
  }

  // chunked-body = *chunk last-chunk CRLF; the result is the data and what follows it.
  function Decode(s: Data): Option<(Data, Data)>
    decreases |s|
  {
    var k := DigitCount(s);
    if k == 0 || !(CRLF <= s[k..]) then None
    else
      var n, rest := ReadHex(s[..k]), s[k + 2..];
      if n == 0 then (if CRLF <= rest then Some(([], rest[2..])) else None)
      else if |rest| < n || !(CRLF <= rest[n..]) then None
      else
        match Decode(rest[n + 2..])
        case None => None
        case Some((data, after)) => Some((rest[..n] + data, after))
  }

  lemma HexDigitValue(d: nat)
    requires d < 16
    ensures HexValue(HexDigit(d)) == Some(d)
  {
  }

  lemma {:induction false} ReadHexHex(n: nat)
    ensures forall i :: 0 <= i < |Hex(n)| ==> HexValue(Hex(n)[i]).Some?
    ensures ReadHex(Hex(n)) == n
  {
    if n < 16 {
      HexDigitValue(n);
      assert Hex(n)[..0] == [];
    } else {
      ReadHexHex(n / 16);
      HexDigitValue(n % 16);
      var h := Hex(n / 16);
      assert (h + [HexDigit(n % 16)])[..|h|] == h;
    }
  }

  lemma {:induction false} DigitCountOf(h: Data, tail: Data)
    requires forall i :: 0 <= i < |h| ==> HexValue(h[i]).Some?
    requires tail != [] && HexValue(tail[0]).None?
    ensures DigitCount(h + tail) == |h|
  {
    if h == [] {
      assert h + tail == tail;
    } else {
      assert (h + tail)[1..] == h[1..] + tail;
      DigitCountOf(h[1..], tail);
    }
  }

  // A size line at the front is found whole, and what follows it is the rest.
  lemma SizeLine(n: nat, after: Data)
    ensures var s := Hex(n) + CRLF + after;
            var k := DigitCount(s);
            0 < k == |Hex(n)| && ReadHex(s[..k]) == n && CRLF <= s[k..] && s[k + 2..] == after
  {
    hide Hex, ReadHex, DigitCount, HexValue;
    var h, tail := Hex(n), CRLF + after;
    ReadHexHex(n);
    CrIsNoDigit();
    DigitCountOf(h, tail);
    assert h + CRLF + after == h + tail;
    assert (h + tail)[..|h|] == h && (h + tail)[|h|..] == tail;
    assert (h + tail)[|h| + 2..] == tail[2..] == after;
  }

  lemma CrIsNoDigit()
    ensures HexValue(13).None?
  {
  }

  // One chunk at the front is read back as its data.
  lemma DecodeChunk(d: Data, tail: Data)
    requires d != []
    ensures Decode(Chunk(d) + tail) == match Decode(tail)
                                       case None => None
                                       case Some((data, after)) => Some((d + data, after))
  {
    hide Hex, ReadHex, DigitCount, HexValue, Chunk;
    SizeLine(|d|, d + CRLF + tail);
    ChunkRest(d, tail);
  }

  lemma ChunkRest(d: Data, tail: Data)
    ensures Chunk(d) + tail == Hex(|d|) + CRLF + (d + CRLF + tail)
    ensures var rest := d + CRLF + tail;
            CRLF <= rest[|d|..] && rest[..|d|] == d && rest[|d| + 2..] == tail
  {
    hide Hex;
    Parts(d, CRLF, tail);
    Regrouped(Hex(|d|), CRLF, d, CRLF, tail);
  }

  lemma Parts(a: Data, b: Data, c: Data)
    ensures var s := a + b + c;
            b <= s[|a|..] && s[..|a|] == a && s[|a| + |b|..] == c
  {
    assert (a + b + c)[|a|..] == b + c;
  }

  lemma Regrouped(a: Data, b: Data, c: Data, d: Data, e: Data)
    ensures a + b + c + d + e == a + b + (c + d + e)
  {
  }

  lemma DecodeLast(tail: Data)
    ensures Decode(LAST_CHUNK + tail) == Some(([], tail))
  {
    hide Hex, ReadHex, DigitCount, HexValue;
    var rest := CRLF + tail;
    SizeLine(0, rest);
    assert LAST_CHUNK + tail == Hex(0) + CRLF + rest;
    assert rest[2..] == tail;
  }

  // A reader of the chunked coding gets the content back, and stops where it ends.
  lemma {:induction false} DecodeBody(d: Data, tail: Data)
    ensures Decode(Body(d, true) + tail) == Some((d, tail))
    decreases |d|
  {
    hide Decode, Chunk, Body;
    if d == [] {
      BodyOfNothing();
      DecodeLast(tail);
    } else {
      var n := Min(|d|, MSGHEAD);
      DecodeBody(d[n..], tail);
      BodyStep(d, n);
      assert Chunk(d[..n]) + Body(d[n..], true) + tail == Chunk(d[..n]) + (Body(d[n..], true) + tail);
      DecodeChunk(d[..n], Body(d[n..], true) + tail);
      assert d[..n] + d[n..] == d;
    }
  }

  lemma BodyOfNothing()
    ensures Body([], true) == LAST_CHUNK
  {
    hide Chunk;
  }

  lemma BodyStep(d: Data, n: nat)
    requires n == Min(|d|, MSGHEAD) > 0
    ensures Body(d, true) == Chunk(d[..n]) + Body(d[n..], true)
  {
    hide Hex, Chunk;
  }
}
