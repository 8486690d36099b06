// c/b64.c: the base64 filter, a stream encoder with line breaks and a decoder that
// discards everything outside the alphabet.
module Base64 {
  import opened Bytes

  type Sextet = x: int | 0 <= x < 64

  const NEWLINE: Byte := 10
  const PAD: Byte := 61

  // ---- the two tables (lines 228-233), row by row ------------------------

  function Upper(): string { "ABCDEFGHIJKLM" + "NOPQRSTUVWXYZ" }

  function Lower(): string { "abcdefghijklm" + "nopqrstuvwxyz" }

  function Digits(): string { "0123456789" }

  function Cb64(): string { Upper() + Lower() + Digits() + "+/" }

  function UpperValues(): string { ">?@ABCDEFGHIJ" + "KLMNOPQRSTUVW" }

  function LowerValues(): string { "XYZ[\\]^_`abcd" + "efghijklmnopq" }

  function DigitValues(): string { "rstuvwxyz{" }

  function Cd64(): string {
    ("|$$$}" + DigitValues()) + ("$$$$$$$" + UpperValues()) + ("$$$$$$" + LowerValues())
  }

  // Table 1 of section 4 of RFC 4648.
  function Letter(x: Sextet): Byte {
    if x < 26 then 65 + x else if x < 52 then 71 + x
    else if x < 62 then x - 4 else if x == 62 then 43 else 47
  }

  // Its inverse, one too high; zero for a byte outside the alphabet.
  function Value(c: Byte): (v: nat)
    ensures v <= 64
  {
    if 65 <= c <= 90 then c - 64 else if 97 <= c <= 122 then c - 70
    else if 48 <= c <= 57 then c + 5 else if c == 43 then 63 else if c == 47 then 64 else 0
  }

  lemma AlphabetIsExact(c: Byte, x: Sextet)
    ensures Value(c) == x + 1 <==> c == Letter(x)
  {
  }

  lemma RowsOfCb64(x: nat)
    requires x < 26
    ensures |Upper()| == 26 && Upper()[x] as nat == 65 + x
    ensures |Lower()| == 26 && Lower()[x] as nat == 97 + x
    ensures |Digits()| == 10 && (x < 10 ==> Digits()[x] as nat == 48 + x)
  {
  }

  lemma Cb64IsAlphabet(x: Sextet)
    ensures |Cb64()| == 64 && Cb64()[x] as nat == Letter(x)
  {
    hide Upper, Lower, Digits;
    RowsOfCb64(if x < 26 then x else if x < 52 then x - 26 else if x < 62 then x - 52 else 0);
  }

  lemma RowsOfCd64(x: nat)
    requires x < 26
    ensures |UpperValues()| == 26 && UpperValues()[x] as nat == 62 + x
    ensures |LowerValues()| == 26 && LowerValues()[x] as nat == 88 + x
    ensures |DigitValues()| == 10 && (x < 10 ==> DigitValues()[x] as nat == 114 + x)
  {
  }

  // Lines 362-365: the value read off the second table.
  lemma Cd64IsAlphabet(c: Byte)
    ensures |Cd64()| == 80
    ensures Value(c) == if c < 43 || c > 122 || Cd64()[c - 43] == '$' then 0 else Cd64()[c - 43] as int - 61
  {
    hide UpperValues, LowerValues, DigitValues;
    var row := if 65 <= c <= 90 then c - 65 else if 97 <= c <= 122 then c - 97
               else if 48 <= c <= 57 then c - 48 else 0;
    RowsOfCd64(row);
  }

  // ---- section 4 of RFC 4648 -----------------------------------------------

  // A 24-bit group, read as four sextets and as three octets.
  function Quads(n: nat): (q: seq<Sextet>)
    requires n < 0x100_0000
    ensures |q| == 4
  {
    [n / 64 / 64 / 64, n / 64 / 64 % 64, n / 64 % 64, n % 64]
  }

  function Triples(n: nat): (t: Data)
    requires n < 0x100_0000
    ensures |t| == 3
  {
    [n / 256 / 256, n / 256 % 256, n % 256]
  }

  function Octet(s: Data, k: nat): (d: int)
    ensures 0 <= d < 256
  {
    if k < |s| then s[k] else 0
  }

  function Digit(x: seq<Sextet>, k: nat): (d: int)
    ensures 0 <= d < 64
  {
    if k < |x| then x[k] else 0
  }

  function OctetGroup(s: Data): nat {
    65536 * Octet(s, 0) + 256 * Octet(s, 1) + Octet(s, 2)
  }

  function SextetGroup(x: seq<Sextet>): nat {
    262144 * Digit(x, 0) + 4096 * Digit(x, 1) + 64 * Digit(x, 2) + Digit(x, 3)
  }

  // One to three octets give one sextet more than there are octets.
  function GroupSextets(s: Data): (x: seq<Sextet>)
    requires 0 < |s| <= 3
    ensures |x| == |s| + 1
  {
    Quads(OctetGroup(s))[..|s| + 1]
  }

  // What remains of a group of at most four sextets: one octet fewer.
  function GroupOctets(x: seq<Sextet>): (s: Data)
    requires 0 < |x| <= 4
    ensures |s| == |x| - 1
  {
    Triples(SextetGroup(x))[..|x| - 1]
  }

  function Sextets(s: Data): seq<Sextet> {
    if s == [] then [] else GroupSextets(s[..Min(3, |s|)]) + Sextets(s[Min(3, |s|)..])
  }

  function Octets(x: seq<Sextet>): Data {
    if x == [] then [] else GroupOctets(x[..Min(4, |x|)]) + Octets(x[Min(4, |x|)..])
  }

  lemma QuadsAreDigits(n: nat)
    requires n < 0x100_0000
    ensures SextetGroup(Quads(n)) == n
  {
  }

  lemma TrailingZeros(a: nat, b: nat)
    requires a < 256 && b < 256
    ensures Quads(65536 * a)[2..] == [0, 0]
    ensures Quads(65536 * a + 256 * b)[3] == 0
  {
    assert (65536 * a) / 64 == 1024 * a;
    assert (65536 * a + 256 * b) / 64 == 1024 * a + 4 * b;
  }

  lemma TriplesAreDigits(a: nat, b: nat, c: nat)
    requires a < 256 && b < 256 && c < 256
    ensures Triples(65536 * a + 256 * b + c) == [a, b, c]
  {
    assert (65536 * a + 256 * b + c) / 256 == 256 * a + b;
  }

  lemma DropZeros(q: seq<Sextet>, k: nat)
    requires |q| == 4 && 2 <= k <= 4 && forall j :: k <= j < 4 ==> q[j] == 0
    ensures SextetGroup(q[..k]) == SextetGroup(q)
  {
    assert forall j :: 0 <= j < 4 ==> Digit(q[..k], j) == Digit(q, j);
  }

  lemma GroupRoundTrip(s: Data)
    requires 0 < |s| <= 3
    ensures GroupOctets(GroupSextets(s)) == s
  {
    hide Triples, Quads, SextetGroup;
    var n := OctetGroup(s);
    QuadsAreDigits(n);
    TrailingZeros(Octet(s, 0), Octet(s, 1));
    TriplesAreDigits(Octet(s, 0), Octet(s, 1), Octet(s, 2));
    assert |s| == 1 ==> Quads(n)[2..][0] == 0 && Quads(n)[2..][1] == 0;
    DropZeros(Quads(n), |s| + 1);
  }

  lemma {:induction false} SextetsRoundTrip(s: Data)
    ensures Octets(Sextets(s)) == s
  {
    hide GroupSextets, GroupOctets;
    if s != [] {
      var k := Min(3, |s|);
      var head, rest := GroupSextets(s[..k]), Sextets(s[k..]);
      GroupRoundTrip(s[..k]);
      SextetsRoundTrip(s[k..]);
      assert |s| < 3 ==> rest == [];
      assert (head + rest)[..Min(4, |head + rest|)] == head;
      assert (head + rest)[Min(4, |head + rest|)..] == rest;
      assert s == s[..k] + s[k..];
    }
  }

  // ---- the text --------------------------------------------------------------

  function Letters(x: seq<Sextet>): (t: Data)
    ensures |t| == |x|
  {
    if x == [] then [] else [Letter(x[0])] + Letters(x[1..])
  }

  // Four characters for one to three octets.
  function Block(s: Data): (t: Data)
    requires 0 < |s| <= 3
    ensures |t| == 4
  {
    Letters(GroupSextets(s)) + seq(3 - |s|, _ => PAD)
  }

  function Unbroken(s: Data): Data {
    if s == [] then [] else Block(s[..Min(3, |s|)]) + Unbroken(s[Min(3, |s|)..])
  }

  // Lines of the given width, each ended by a newline; no line for no text.
  function Broken(t: Data, width: nat): Data
    requires width > 0
    decreases |t|
  {
    if t == [] then []
    else if |t| <= width then t + [NEWLINE]
    else t[..width] + [NEWLINE] + Broken(t[width..], width)
  }

  // The characters of a text that belong to the alphabet, as sextets.
  function Read(t: Data): seq<Sextet> {
    if t == [] then []
    else if Value(t[0]) == 0 then Read(t[1..])
    else [Value(t[0]) - 1] + Read(t[1..])
  }

  lemma {:induction false} ReadAppend(a: Data, b: Data)
    ensures Read(a + b) == Read(a) + Read(b)
  {
    if a == [] {
      assert a + b == b;
    } else {
      assert (a + b)[1..] == a[1..] + b;
      ReadAppend(a[1..], b);
    }
  }

  predicate Noise(t: Data) {
    forall k :: 0 <= k < |t| ==> Value(t[k]) == 0
  }

  lemma {:induction false} ReadNoise(t: Data)
    requires Noise(t)
    ensures Read(t) == []
  {
    if t != [] {
      assert Value(t[0]) == 0;
      ReadNoise(t[1..]);
    }
  }

  // Bytes outside the alphabet make no difference, wherever they stand.
  lemma NoiseIgnored(a: Data, noise: Data, b: Data)
    requires Noise(noise)
    ensures Octets(Read(a + noise + b)) == Octets(Read(a + b))
  {
    hide Octets, Noise, Read, Value;
    ReadNoise(noise);
    ReadAppend(a + noise, b);
    ReadAppend(a, noise);
    ReadAppend(a, b);
    assert Read(a) + [] == Read(a);
  }

  lemma {:induction false} ReadLetters(x: seq<Sextet>)
    ensures Read(Letters(x)) == x
  {
    if x != [] {
      AlphabetIsExact(Letter(x[0]), x[0]);
      ReadLetters(x[1..]);
    }
  }

  lemma {:induction false} ReadUnbroken(s: Data)
    ensures Read(Unbroken(s)) == Sextets(s)
  {
    hide GroupSextets;
    if s != [] {
      var k := Min(3, |s|);
      var group, pad := GroupSextets(s[..k]), seq(3 - k, _ => PAD);
      ReadUnbroken(s[k..]);
      ReadAppend(Block(s[..k]), Unbroken(s[k..]));
      ReadAppend(Letters(group), pad);
      ReadLetters(group);
      ReadNoise(pad);
    }
  }

  lemma {:induction false} ReadBroken(t: Data, width: nat)
    requires width > 0
    ensures Read(Broken(t, width)) == Read(t)
    decreases |t|
  {
    ReadNoise([NEWLINE]);
    if t == [] {
    } else if |t| <= width {
      ReadAppend(t, [NEWLINE]);
    } else {
      var line, rest := t[..width], t[width..];
      ReadBroken(rest, width);
      ReadAppend(line + [NEWLINE], Broken(rest, width));
      ReadAppend(line, [NEWLINE]);
      ReadAppend(line, rest);
      assert t == line + rest;
    }
  }

  // Decoding an encoded string gives it back, whatever the line size.
  lemma DecodeEncoded(s: Data, width: nat)
    requires width > 0
    ensures Octets(Read(Broken(Unbroken(s), width))) == s
  {
    ReadBroken(Unbroken(s), width);
    ReadUnbroken(s);
    SextetsRoundTrip(s);
  }

  // ---- lines -------------------------------------------------------------------

  function Newlines(t: Data): nat {
    if t == [] then 0 else (if t[0] == NEWLINE then 1 else 0) + Newlines(t[1..])
  }

  lemma {:induction false} NewlinesAppend(a: Data, b: Data)
    ensures Newlines(a + b) == Newlines(a) + Newlines(b)
  {
    if a == [] {
      assert a + b == b;
    } else {
      assert (a + b)[1..] == a[1..] + b;
      NewlinesAppend(a[1..], b);
    }
  }

  lemma {:induction false} NoNewlines(t: Data)
    requires NEWLINE !in t
    ensures Newlines(t) == 0
  {
    if t != [] {
      NoNewlines(t[1..]);
    }
  }

  lemma {:induction false} UnbrokenShape(s: Data)
    ensures |Unbroken(s)| == 4 * ((|s| + 2) / 3)
    ensures NEWLINE !in Unbroken(s)
  {
    if s != [] {
      var k := Min(3, |s|);
      LettersShape(GroupSextets(s[..k]));
      UnbrokenShape(s[k..]);
    }
  }

  lemma {:induction false} LettersShape(x: seq<Sextet>)
    ensures NEWLINE !in Letters(x)
  {
    if x != [] {
      LettersShape(x[1..]);
    }
  }

  // The smallest number of lines of per blocks each that holds the blocks.
  predicate RoundedUp(lines: nat, per: nat, blocks: nat) {
    blocks <= lines * per < blocks + per
  }

  lemma RoundedUpNext(lines: nat, per: nat, blocks: nat)
    requires per > 0
    ensures RoundedUp(0, per, 0)
    ensures 0 < blocks <= per ==> RoundedUp(1, per, blocks)
    ensures blocks >= per && RoundedUp(lines, per, blocks - per) ==> RoundedUp(lines + 1, per, blocks)
  {
  }

  lemma {:induction false} BrokenCount(t: Data, per: nat, blocks: nat)
    requires per > 0 && NEWLINE !in t && |t| == 4 * blocks
    ensures RoundedUp(Newlines(Broken(t, 4 * per)), per, blocks)
    decreases |t|
  {
    hide RoundedUp;
    var width := 4 * per;
    if t == [] {
      RoundedUpNext(0, per, 0);
    } else if |t| <= width {
      NoNewlines(t);
      NewlinesAppend(t, [NEWLINE]);
      RoundedUpNext(0, per, blocks);
    } else {
      var line, rest := t[..width], t[width..];
      BrokenCount(rest, per, blocks - per);
      NoNewlines(line);
      NewlinesAppend(line, [NEWLINE]);
      NewlinesAppend(line + [NEWLINE], Broken(rest, width));
      RoundedUpNext(Newlines(Broken(rest, width)), per, blocks);
    }
  }

  // The number of lines is the number of blocks over the blocks of a line,
  // rounded up.
  lemma LineCount(s: Data, per: nat)
    requires per > 0
    ensures RoundedUp(Newlines(Broken(Unbroken(s), 4 * per)), per, (|s| + 2) / 3)
  {
    UnbrokenShape(s);
    BrokenCount(Unbroken(s), per, (|s| + 2) / 3);
  }

  lemma Multiples(q: nat, q': nat, m: nat)
    requires q < q'
    ensures q * m + m <= q' * m
  {
    assert (q + 1) * m <= q' * m;
    assert (q + 1) * m == q * m + m;
  }

  lemma RemainderOf(k: nat, q: nat, m: nat, r: nat)
    requires k == q * m + r && r < m
    ensures k % m == r
  {
    var q' := k / m;
    assert k == m * q' + k % m && m * q' == q' * m;
    if q' < q {
      Multiples(q', q, m);
    } else if q < q' {
      Multiples(q, q', m);
    }
  }

  lemma OneTurn(k: nat, m: nat)
    requires 0 < m <= k
    ensures (k - m) % m == k % m
  {
    var j := k - m;
    assert k == (j / m + 1) * m + j % m;
    RemainderOf(k, j / m + 1, m, j % m);
  }

  // A text is broken after every `width` characters, at its end, and nowhere else.
  lemma {:induction false} BreaksAt(t: Data, width: nat, k: nat)
    requires width > 0 && NEWLINE !in t && k < |Broken(t, width)|
    ensures Broken(t, width)[k] == NEWLINE <==> k == |Broken(t, width)| - 1 || k % (width + 1) == width
    decreases |t|
  {
    var m := width + 1;
    if k < m {
      RemainderOf(k, 0, m, k);
    } else {
      OneTurn(k, m);
    }
    if |t| <= width {
      LastLine(t, width, k);
    } else {
      FirstLine(t, width, k);
      if k >= m {
        BreaksAt(t[width..], width, k - m);
      }
    }
  }

  lemma LastLine(t: Data, width: nat, k: nat)
    requires |t| <= width && width > 0 && NEWLINE !in t && k < |Broken(t, width)|
    ensures k <= |t| == |Broken(t, width)| - 1 && (Broken(t, width)[k] == NEWLINE <==> k == |t|)
  {
  }

  lemma FirstLine(t: Data, width: nat, k: nat)
    requires |t| > width > 0 && NEWLINE !in t && k < |Broken(t, width)|
    ensures var rest, m := Broken(t[width..], width), width + 1;
            && |Broken(t, width)| == m + |rest| && rest != []
            && (k < m ==> (Broken(t, width)[k] == NEWLINE <==> k == width))
            && (k >= m ==> Broken(t, width)[k] == rest[k - m])
  {
    hide Broken;
    BrokenLong(t, width);
    MoreLines(t[width..], width);
    Placed(t[..width], Broken(t[width..], width), k);
    assert k < width ==> t[k] in t;
  }

  lemma BrokenLong(t: Data, width: nat)
    requires |t| > width > 0
    ensures Broken(t, width) == t[..width] + [NEWLINE] + Broken(t[width..], width)
  {
  }

  lemma Placed(line: Data, more: Data, k: nat)
    requires k < |line| + 1 + |more|
    ensures (line + [NEWLINE] + more)[k] ==
            if k < |line| then line[k] else if k == |line| then NEWLINE else more[k - |line| - 1]
  {
  }

  lemma MoreLines(t: Data, width: nat)
    requires width > 0 && t != []
    ensures Broken(t, width) != []
  {
  }

  // So no line is longer than the width, and a text that is not empty ends with a newline.
  lemma LineShape(t: Data, width: nat, a: nat, b: nat)
    requires width > 0 && NEWLINE !in t && a <= b <= |Broken(t, width)|
    ensures NEWLINE !in Broken(t, width)[a..b] ==> b - a <= width
    ensures t != [] ==> var u := Broken(t, width); u != [] && u[|u| - 1] == NEWLINE
  {
    hide Broken;
    var u := Broken(t, width);
    if t != [] {
      MoreLines(t, width);
      BreaksAt(t, width, |u| - 1);
    }
    if b - a > width {
      var k := NextBreak(a, width);
      BreaksAt(t, width, k);
      assert u[a..b][k - a] == NEWLINE;
    }
  }

  lemma NextBreak(a: nat, width: nat) returns (k: nat)
    ensures a <= k <= a + width && k % (width + 1) == width
  {
    var m := width + 1;
    k := a + (width - a % m);
    assert a == m * (a / m) + a % m && m * (a / m) == a / m * m;
    RemainderOf(k, a / m, m, width);
  }

  // The lines of an encoded file.
  lemma EncodedLines(s: Data, per: nat, a: nat, b: nat)
    requires per > 0 && a <= b <= |Broken(Unbroken(s), 4 * per)|
    ensures NEWLINE !in Broken(Unbroken(s), 4 * per)[a..b] ==> b - a <= 4 * per
    ensures s != [] ==> var u := Broken(Unbroken(s), 4 * per); u != [] && u[|u| - 1] == NEWLINE
  {
    UnbrokenShape(s);
    LineShape(Unbroken(s), 4 * per, a, b);
  }

  function Ascii(text: string): Data
    requires forall k :: 0 <= k < |text| ==> text[k] as int < 256
  {
    seq(|text|, k requires 0 <= k < |text| => text[k] as int)
  }

  // Test vectors of section 10 of RFC 4648.
  lemma Rfc4648Short()
    ensures Unbroken(Ascii("f")) == Ascii("Zg==")
    ensures Unbroken(Ascii("fo")) == Ascii("Zm8=")
  {
    hide Block, Unbroken;
    BlockOf(Ascii("f"), [25, 32]);
    BlockOf(Ascii("fo"), [25, 38, 60]);
    OneBlock(Ascii("f"));
    OneBlock(Ascii("fo"));
  }

  lemma Rfc4648Long()
    ensures Unbroken(Ascii("foo")) == Ascii("Zm9v")
    ensures Unbroken(Ascii("foobar")) == Ascii("Zm9vYmFy")
  {
    hide Block, Unbroken;
    BlockOf(Ascii("foo"), [25, 38, 61, 47]);
    BlockOf(Ascii("bar"), [24, 38, 5, 50]);
    OneBlock(Ascii("foo"));
    OneBlock(Ascii("bar"));
    UnbrokenNext(Ascii("foobar"));
    assert Ascii("foobar")[..3] == Ascii("foo") && Ascii("foobar")[3..] == Ascii("bar");
  }

  lemma OneBlock(s: Data)
    requires 0 < |s| <= 3
    ensures Unbroken(s) == Block(s)
  {
    UnbrokenNext(s);
    assert s[..|s|] == s && s[|s|..] == [];
  }

  // The text of a block, given its sextets.
  lemma BlockOf(s: Data, x: seq<Sextet>)
    requires 0 < |s| <= 3 && |x| == |s| + 1
    requires OctetGroup(s) == SextetGroup(x)
    ensures Block(s) == seq(|x|, k requires 0 <= k < |x| => Letter(x[k])) + seq(3 - |s|, _ => PAD)
  {
    var q: seq<Sextet> := x + seq(3 - |s|, _ => 0);
    assert forall k :: 0 <= k < 4 ==> Digit(q, k) == Digit(x, k);
    QuadsOf(q);
    assert q[..|x|] == x;
    LettersAt(x);
  }

  lemma QuadsOf(q: seq<Sextet>)
    requires |q| == 4
    ensures SextetGroup(q) < 0x100_0000 && Quads(SextetGroup(q)) == q
  {
    var a: nat, b: nat, c: nat, d: nat := q[0], q[1], q[2], q[3];
    DigitOff(4096 * a + 64 * b + c, d);
    DigitOff(64 * a + b, c);
    DigitOff(a, b);
  }

  lemma DigitOff(n: nat, d: nat)
    requires d < 64
    ensures (64 * n + d) / 64 == n && (64 * n + d) % 64 == d
  {
  }

  // ---- the block functions ---------------------------------------------------

  lemma OrShifted(a: nat, b: nat)
    ensures b < 4 ==> Or(a * 4, b) == a * 4 + b
    ensures b < 16 ==> Or(a * 16, b) == a * 16 + b
    ensures b < 64 ==> Or(a * 64, b) == a * 64 + b
  {
    assert Power(2) == 4 && Power(4) == 16 && Power(6) == 64;
    if b < 4 {
      OrIsSum(a, b, 2);
    }
    if b < 16 {
      OrIsSum(a, b, 4);
    }
    if b < 64 {
      OrIsSum(a, b, 6);
    }
  }

  // The bit expressions of encodeblock, with shifts and masks as divisions.
  lemma EncodeBits(a: Byte, b: Byte, c: Byte)
    ensures var n := 65536 * a as int + 256 * b as int + c as int;
            Quads(n) == [a / 4, Or(a % 4 * 16, b / 16), Or(b % 16 * 4, c / 64), c % 64]
  {
    hide Or;
    var n: int := 65536 * (a as int) + 256 * (b as int) + c as int;
    OrShifted(a % 4, b / 16);
    OrShifted(b % 16, c / 64);
    assert n / 64 == 1024 * a + 4 * b + c / 64;
    assert (1024 * a + 4 * b + c / 64) / 64 == 16 * a + b / 16;
    assert (16 * a + b / 16) / 64 == a / 4;
  }

  lemma OctetsOfGroup(w: Sextet, x: Sextet, y: Sextet, z: Sextet)
    ensures Triples(SextetGroup([w, x, y, z])) == [4 * w as int + x / 16, x % 16 * 16 + y / 4, y % 4 * 64 + z]
  {
    var n := SextetGroup([w, x, y, z]);
    assert n / 256 == 1024 * w as int + 16 * x as int + y / 4;
    assert n % 256 == y % 4 * 64 + z;
    assert (1024 * w as int + 16 * x as int + y / 4) / 256 == 4 * w as int + x / 16;
  }

  lemma Truncated(a: nat, c: nat)
    requires c < 256
    ensures (256 * a + c) % 256 == c
  {
  }

  lemma Truncations(w: nat, x: nat, y: nat, z: nat)
    requires w < 64 && x < 64 && y < 64 && z < 64
    ensures (w * 4 + x / 16) % 256 == 4 * w + x / 16
    ensures (x * 16 + y / 4) % 256 == x % 16 * 16 + y / 4
    ensures y * 64 % 256 == y % 4 * 64
    ensures (y % 4 * 64 + z) % 256 == y % 4 * 64 + z
  {
    Truncated(0, w * 4 + x / 16);
    Truncated(x / 16, x % 16 * 16 + y / 4);
    Truncated(y / 4, y % 4 * 64);
    Truncated(0, y % 4 * 64 + z);
    assert x * 16 + y / 4 == 256 * (x / 16) + (x % 16 * 16 + y / 4);
    assert y * 64 == 256 * (y / 4) + y % 4 * 64;
  }

  lemma DecodeBits(w: Sextet, x: Sextet, y: Sextet, z: Sextet)
    ensures Triples(SextetGroup([w, x, y, z])) ==
            [Or(w * 4, x / 16) % 256, Or(x * 16, y / 4) % 256, Or(y * 64 % 256, z) % 256]
  {
    hide Or, Triples, SextetGroup;
    OctetsOfGroup(w, x, y, z);
    Truncations(w, x, y, z);
    OrShifted(w, x / 16);
    OrShifted(x, y / 4);
    OrShifted(y % 4, z);
  }

  lemma DecodeGroup(x: seq<Sextet>)
    requires 0 < |x| <= 4
    ensures GroupOctets(x) ==
            [Or(Digit(x, 0) * 4, Digit(x, 1) / 16) % 256, Or(Digit(x, 1) * 16, Digit(x, 2) / 4) % 256,
             Or(Digit(x, 2) * 64 % 256, Digit(x, 3)) % 256][..|x| - 1]
  {
    hide Or, Triples;
    var w, y, z, v := Digit(x, 0), Digit(x, 1), Digit(x, 2), Digit(x, 3);
    assert SextetGroup([w, y, z, v]) == SextetGroup(x);
    DecodeBits(w, y, z, v);
  }

  // ---- streams ----------------------------------------------------------------

  // A stream of octets; the end is noticed only by reading past the last one.
  class InFile {
    const data: Data
    var pos: nat
    var eof: bool

    constructor (data: Data)
      ensures Valid() && !eof && Rest() == data
    {
      this.data := data;
      pos, eof := 0, false;
    }

    ghost predicate Valid()
      reads this
    {
      pos <= |data| && (eof ==> pos == |data|)
    }

    ghost function Rest(): Data
      requires Valid()
      reads this
    {
      data[pos..]
    }

    method Getc() returns (c: int)
      requires Valid()
      modifies this
      ensures Valid()
      ensures old(Rest()) == [] ==> c == -1 && eof && Rest() == []
      ensures old(Rest()) != [] ==> c == old(Rest())[0] && !eof && Rest() == old(Rest())[1..]
    {
      if pos == |data| {
        c, eof := -1, true;
      } else {
        c, pos := data[pos], pos + 1;
      }
    }
  }

  lemma DropNext(all: Data, k: nat)
    requires k < |all|
    ensures all[k..][0] == all[k] && all[k..][1..] == all[k + 1..]
  {
  }

  // Lines 295-305: up to three octets, the missing ones set to zero.
  method ReadBlock(infile: InFile, input: array<Byte>) returns (len: nat)
    requires infile.Valid() && !infile.eof && input.Length == 3
    modifies infile, input
    ensures infile.Valid() && len == Min(3, |old(infile.Rest())|)
    ensures input[..len] == old(infile.Rest())[..len]
    ensures forall k :: len <= k < 3 ==> input[k] == 0
    ensures infile.Rest() == old(infile.Rest())[len..]
    ensures infile.eof <==> len < 3
  {
    ghost var all := infile.Rest();
    len := 0;
    for i := 0 to 3
      invariant infile.Valid() && len <= i && len <= |all| && (infile.eof ==> len == |all|)
      invariant forall k :: 0 <= k < len ==> input[k] == all[k]
      invariant forall k :: len <= k < i ==> input[k] == 0
      invariant infile.Rest() == all[len..]
      invariant infile.eof <==> len < i
    {
      var c := infile.Getc();
      input[i] := c % 256;
      if !infile.eof {
        DropNext(all, len);
        len := len + 1;
      } else {
        input[i] := 0;
      }
    }
  }

  // Lines 272-278.
  method EncodeBlock(input: array<Byte>, output: array<Byte>, len: nat)
    requires input.Length == 3 && output.Length == 4 && input != output
    requires 0 < len <= 3 && forall k :: len <= k < 3 ==> input[k] == 0
    modifies output
    ensures output[..] == Block(input[..len])
  {
    hide Cb64, Letter, Or;
    ghost var group := GroupSextets(input[..len]);
    var a, b, c := input[0], input[1], input[2];
    EncodeBits(a, b, c);
    assert OctetGroup(input[..len]) == 65536 * (a as int) + 256 * (b as int) + c as int;
    var w, x: nat, y: nat, z := a / 4, Or(a % 4 * 16, b / 16), Or(b % 16 * 4, c / 64), c % 64;
    assert Quads(OctetGroup(input[..len])) == [w, x, y, z];
    Cb64IsAlphabet(w);
    Cb64IsAlphabet(x);
    Cb64IsAlphabet(y);
    Cb64IsAlphabet(z);
    output[0] := Cb64()[w] as int;
    output[1] := Cb64()[x] as int;
    output[2] := if len > 1 then Cb64()[y] as int else PAD;
    output[3] := if len > 2 then Cb64()[z] as int else PAD;
    LettersAt(group);
  }

  lemma {:induction false} LettersAt(x: seq<Sextet>)
    ensures forall k :: 0 <= k < |x| ==> Letters(x)[k] == Letter(x[k])
  {
    if x != [] {
      LettersAt(x[1..]);
    }
  }

  // ---- the filters ----------------------------------------------------------------

  function PerLine(linesize: int): (per: nat)
    ensures per > 0
  {
    if linesize < 8 then 1 else linesize / 4
  }

  // The comparison of line 319, for a line of at least one block.
  lemma LineLimit(linesize: int, blocks: nat)
    requires blocks > 0
    ensures blocks >= linesize / 4 <==> blocks >= PerLine(linesize)
  {
  }

  lemma UnbrokenNext(s: Data)
    requires s != []
    ensures Unbroken(s) == Block(s[..Min(3, |s|)]) + Unbroken(s[Min(3, |s|)..])
  {
  }

  lemma LineEnds(line: Data, more: Data, width: nat)
    requires 0 < |line| <= width && (|line| == width || more == [])
    ensures Broken(line + more, width) == line + [NEWLINE] + Broken(more, width)
  {
    if more == [] {
      assert line + more == line;
    } else {
      assert (line + more)[..width] == line && (line + more)[width..] == more;
    }
  }

  // What is left to write: the open line, then the rest of the input.
  ghost function Pending(line: Data, rest: Data, per: nat): Data
    requires per > 0
  {
    Broken(line + Unbroken(rest), 4 * per)
  }

  lemma PendingBlock(line: Data, rest: Data, per: nat)
    requires per > 0 && rest != []
    ensures var k := Min(3, |rest|);
            Pending(line, rest, per) == Pending(line + Block(rest[..k]), rest[k..], per)
  {
    hide Broken;
    var k := Min(3, |rest|);
    UnbrokenNext(rest);
    assert line + Unbroken(rest) == line + Block(rest[..k]) + Unbroken(rest[k..]);
  }

  lemma PendingLine(line: Data, rest: Data, per: nat)
    requires per > 0 && 0 < |line| <= 4 * per && (|line| == 4 * per || rest == [])
    ensures Pending(line, rest, per) == line + [NEWLINE] + Pending([], rest, per)
  {
    hide Broken;
    LineEnds(line, Unbroken(rest), 4 * per);
    assert [] + Unbroken(rest) == Unbroken(rest);
  }

  lemma Appended(full: Data, line: Data, more: Data)
    ensures full + line + more == full + (line + more)
  {
  }

  lemma LineDone(full: Data, line: Data, more: Data)
    ensures full + (line + [NEWLINE] + more) == full + line + [NEWLINE] + more
  {
  }

  lemma PendingEnds(s: Data, per: nat)
    requires per > 0
    ensures Pending([], s, per) == Broken(Unbroken(s), 4 * per)
    ensures Pending([], [], per) == []
  {
    assert [] + Unbroken(s) == Unbroken(s);
  }

  // Lines 285-327.
  method Encode(infile: InFile, linesize: int) returns (outfile: Data)
    requires infile.Valid() && !infile.eof
    modifies infile
    ensures outfile == Broken(Unbroken(old(infile.Rest())), 4 * PerLine(linesize))
  {
    hide Pending, Broken, Unbroken, Block, PerLine;
    ghost var all, per := infile.Rest(), PerLine(linesize);
    var input, output := new Byte[3], new Byte[4];
    var blocksout := 0;
    outfile := [];
    ghost var full: Data, line: Data := [], [];
    PendingEnds(all, per);
    while !infile.eof
      invariant infile.Valid() && 0 <= blocksout < per && |line| == 4 * blocksout
      invariant outfile == full + line
      invariant full + Pending(line, infile.Rest(), per) == Pending([], all, per)
      invariant infile.eof ==> infile.Rest() == [] && line == []
      decreases |infile.Rest()|, !infile.eof
    {
      ghost var rest := infile.Rest();
      var len := ReadBlock(infile, input);
      if len > 0 {
        PendingBlock(line, rest, per);
        EncodeBlock(input, output, len);
        Appended(full, line, output[..]);
        outfile := outfile + output[..];
        line := line + output[..];
        blocksout := blocksout + 1;
        LineLimit(linesize, blocksout);
      }
      if blocksout >= linesize / 4 || infile.eof {
        if blocksout > 0 {
          PendingLine(line, infile.Rest(), per);
          LineDone(full, line, Pending([], infile.Rest(), per));
          outfile := outfile + [NEWLINE];
          full, line := full + line + [NEWLINE], [];
        }
        blocksout := 0;
      }
    }
  }

  // Lines 359-367: the next value of the alphabet, if there is one.
  method NextValue(infile: InFile) returns (v: int)
    requires infile.Valid() && !infile.eof
    modifies infile
    ensures infile.Valid() && |infile.Rest()| <= old(|infile.Rest()|)
    ensures infile.eof ==> Read(old(infile.Rest())) == [] == Read(infile.Rest())
    ensures !infile.eof ==> 1 <= v <= 64
    ensures !infile.eof ==> Read(old(infile.Rest())) == [v - 1] + Read(infile.Rest())
  {
    hide Value, Cd64;
    v := 0;
    while !infile.eof && v == 0
      invariant infile.Valid() && |infile.Rest()| <= old(|infile.Rest()|)
      invariant v == 0 && !infile.eof ==> Read(old(infile.Rest())) == Read(infile.Rest())
      invariant v != 0 && !infile.eof ==>
        1 <= v <= 64 && Read(old(infile.Rest())) == [v - 1] + Read(infile.Rest())
      invariant infile.eof ==> Read(old(infile.Rest())) == []
      decreases |infile.Rest()|, !infile.eof
    {
      v := infile.Getc();
      if !infile.eof {
        Cd64IsAlphabet(v);
        if v < 43 || v > 122 {
          v := 0;
        } else {
          v := Cd64()[v - 43] as int;
          if v != 0 {
            v := if v == '$' as int then 0 else v - 61;
          }
        }
      }
    }
  }

  // Lines 357-377: up to four values; slots after the last one are stale or zero.
  method ReadGroup(infile: InFile, input: array<Byte>) returns (len: nat)
    requires infile.Valid() && !infile.eof && input.Length == 4
    modifies infile, input
    ensures infile.Valid() && len == Min(4, |Read(old(infile.Rest()))|)
    ensures forall k :: 0 <= k < len ==> input[k] == Read(old(infile.Rest()))[k]
    ensures Read(infile.Rest()) == Read(old(infile.Rest()))[len..]
    ensures infile.eof <==> len < 4
  {
    hide Read;
    ghost var all := Read(infile.Rest());
    len := 0;
    var i := 0;
    while i < 4 && !infile.eof
      invariant infile.Valid() && 0 <= i <= 4
      invariant len <= i && len <= |all| && Read(infile.Rest()) == all[len..]
      invariant forall k :: 0 <= k < len ==> input[k] == all[k]
      invariant !infile.eof ==> len == i
      invariant infile.eof ==> len < 4 && len == |all|
    {
      ghost var left := all[len..];
      var v := NextValue(infile);
      if !infile.eof {
        assert left[0] == v - 1 == all[len] && left[1..] == all[len + 1..];
        len := len + 1;
        if v != 0 {
          input[i] := v - 1;
        }
      } else {
        input[i] := 0;
      }
      i := i + 1;
    }
  }

  // Lines 334-339; the octets that depend on a stale slot are never written.
  method DecodeBlock(input: array<Byte>, output: array<Byte>, ghost group: seq<Sextet>)
    requires input.Length == 4 && output.Length == 3 && input != output
    requires 0 < |group| <= 4 && forall k :: 0 <= k < |group| ==> input[k] == group[k]
    modifies output
    ensures output[..|group| - 1] == GroupOctets(group)
  {
    hide Or, GroupOctets;
    DecodeGroup(group);
    var a: nat, b: nat, c: nat, d: nat := input[0], input[1], input[2], input[3];
    output[0] := Or(a * 4, b / 16) % 256;
    output[1] := Or(b * 16, c / 4) % 256;
    output[2] := Or(c * 64 % 256, d) % 256;
  }

  lemma OctetsNext(x: seq<Sextet>)
    requires x != []
    ensures Octets(x) == GroupOctets(x[..Min(4, |x|)]) + Octets(x[Min(4, |x|)..])
  {
  }

  // Lines 346-392.
  method Decode(infile: InFile) returns (outfile: Data)
    requires infile.Valid() && !infile.eof
    modifies infile
    ensures outfile == Octets(Read(old(infile.Rest())))
  {
    hide Octets, Read, GroupOctets;
    ghost var all := Read(infile.Rest());
    var input, output := new Byte[4], new Byte[3];
    outfile := [];
    while !infile.eof
      invariant infile.Valid()
      invariant outfile + Octets(Read(infile.Rest())) == Octets(all)
      invariant infile.eof ==> Read(infile.Rest()) == []
      decreases |Read(infile.Rest())|, !infile.eof
    {
      ghost var rest := Read(infile.Rest());
      var len := ReadGroup(infile, input);
      if len > 0 {
        OctetsNext(rest);
        DecodeBlock(input, output, rest[..len]);
        ghost var before := outfile;
        for i := 0 to len - 1
          invariant outfile == before + output[..i]
        {
          outfile := outfile + [output[i]];
        }
      }
    }
    assert Octets([]) == [] by {
      OctetsOfNone();
    }
  }

  lemma OctetsOfNone()
    ensures Octets([]) == []
  {
  }

  // Encoding and decoding a file gives the file back, at every line size.
  method EncodeThenDecode(s: Data, linesize: int) returns (back: Data)
    ensures back == s
  {
    var plain := new InFile(s);
    var text := Encode(plain, linesize);
    var coded := new InFile(text);
    back := Decode(coded);
    DecodeEncoded(s, 4 * PerLine(linesize));
  }
}
