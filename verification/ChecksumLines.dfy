// c/md5/md5sum.c: the lines that md5sum prints and, with --check, takes apart in place.
module ChecksumLines {
  import opened Bytes

  const HEX_BYTES: nat := 32

  const MIN_LINE: nat := HEX_BYTES + 2

  // ---- file names ----------------------------------------------------------

  function EscapeChar(c: char): string {
    if c == '\n' then "\\n" else if c == '\\' then "\\\\" else [c]
  }

  function Escape(name: string): string {
    if name == "" then ""
    else EscapeChar(name[0]) + Escape(name[1..])
  }

  function Prepend(c: char, rest: Option<string>): Option<string> {
    match rest
    case None => None
    case Some(s) => Some([c] + s)
  }

  function Unescape(s: string): Option<string> {
    if s == "" then Some("")
    else if s[0] == '\\' then
      if |s| == 1 then None
      else if s[1] == 'n' then Prepend('\n', Unescape(s[2..]))
      else if s[1] == '\\' then Prepend('\\', Unescape(s[2..]))
      else None
    else if s[0] == '\0' then None
    else Prepend(s[0], Unescape(s[1..]))
  }

  lemma {:induction false} UnescapeEscape(name: string)
    requires '\0' !in name
    ensures Unescape(Escape(name)) == Some(name)
  {
    if name != "" {
      var tail := Escape(name[1..]);
      UnescapeEscape(name[1..]);
      assert Escape(name) == EscapeChar(name[0]) + tail;
      assert name[0] == '\n' || name[0] == '\\' ==> Escape(name)[2..] == tail;
      assert name[0] != '\n' && name[0] != '\\' ==> Escape(name)[1..] == tail;
      assert name == [name[0]] + name[1..];
    }
  }

  // Only escaped names unescape: the two are inverse on what a line can hold.
  lemma {:induction false} EscapeUnescape(s: string)
    requires Unescape(s).Some? && '\n' !in s
    ensures Escape(Unescape(s).value) == s && '\0' !in Unescape(s).value
  {
    hide Escape, EscapeChar;
    if s != "" {
      var k := if s[0] == '\\' then 2 else 1;
      var c := if k == 1 then s[0] else if s[1] == 'n' then '\n' else '\\';
      assert Unescape(s) == Prepend(c, Unescape(s[k..]));
      EscapeUnescape(s[k..]);
      EscapeCons(c, Unescape(s[k..]).value);
      EscapeCharIs(c, s[..k]);
      assert s == s[..k] + s[k..];
    } else {
      EscapeNone();
    }
  }

  lemma EscapeCons(c: char, rest: string)
    ensures Escape([c] + rest) == EscapeChar(c) + Escape(rest)
  {
    assert ([c] + rest)[1..] == rest;
  }

  lemma EscapeCharIs(c: char, code: string)
    requires if c == '\n' then code == "\\n" else if c == '\\' then code == "\\\\" else code == [c]
    ensures EscapeChar(c) == code
  {
  }

  predicate NeedsEscape(name: string) {
    '\\' in name || '\n' in name
  }

  lemma {:induction false} EscapePlain(name: string)
    requires !NeedsEscape(name)
    ensures Escape(name) == name
  {
    if name != "" {
      assert name[0] in name;
      assert forall c :: c in name[1..] ==> c in name;
      EscapePlain(name[1..]);
    }
  }

  lemma {:induction false} EscapeLonger(name: string)
    ensures |Escape(name)| >= |name| + if NeedsEscape(name) then 1 else 0
  {
    if name != "" {
      EscapeLonger(name[1..]);
      assert forall c :: c in name ==> c == name[0] || c in name[1..];
    }
  }

  // The flag that a line is escaped makes a difference exactly for the names that need it.
  lemma EscapeMatters(name: string)
    ensures Escape(name) != name <==> NeedsEscape(name)
  {
    EscapeLonger(name);
    if !NeedsEscape(name) {
      EscapePlain(name);
    }
  }

  lemma {:induction false} EscapeFits(name: string)
    ensures '\n' !in Escape(name)
    ensures '\0' !in name ==> '\0' !in Escape(name)
    ensures name != "" ==> Escape(name) != ""
  {
    if name != "" {
      EscapeFits(name[1..]);
      assert '\0' !in name ==> name[0] != '\0' && '\0' !in name[1..];
    }
  }

  lemma {:induction false} EscapeLast(name: string, c: char)
    ensures Escape(name + [c]) == Escape(name) + EscapeChar(c)
  {
    hide Escape, EscapeChar;
    EscapeNone();
    if name == "" {
      EscapeCons(c, "");
      assert [c] + "" == "" + [c];
    } else {
      var first, rest := name[0], name[1..];
      EscapeLast(rest, c);
      EscapeCons(first, rest);
      EscapeCons(first, rest + [c]);
      assert name == [first] + rest && name + [c] == [first] + (rest + [c]);
    }
  }

  lemma EscapeNone()
    ensures Escape("") == ""
  {
  }

  // Lines 660-687.
  method PrintFilename(file: string, escape: bool) returns (stdout: string)
    ensures stdout == if escape then Escape(file) else file
    ensures stdout != file <==> escape && NeedsEscape(file)
  {
    hide Escape, NeedsEscape;
    EscapeMatters(file);
    if !escape {
      return file;
    }
    stdout := "";
    EscapeNone();
    var i := 0;
    while i < |file|
      invariant 0 <= i <= |file|
      invariant stdout == Escape(file[..i])
    {
      EscapeLast(file[..i], file[i]);
      assert file[..i] + [file[i]] == file[..i + 1];
      stdout := stdout + EscapeChar(file[i]);
      i := i + 1;
    }
    assert file[..i] == file;
  }

  // Lines 229-272: the name at lo is rewritten in place; on success a shorter
  // name is ended by a NUL.
  method FilenameUnescape(s: array<char>, lo: nat, len: nat) returns (ok: bool)
    requires lo + len <= s.Length
    modifies s
    ensures ok == Unescape(old(s[lo..lo + len])).Some?
    ensures ok ==>
      var name := Unescape(old(s[lo..lo + len])).value;
      |name| <= len && s[lo..lo + |name|] == name && (|name| < len ==> s[lo + |name|] == '\0')
    ensures forall k :: 0 <= k < lo || lo + len <= k < s.Length ==> s[k] == old(s[k])
  {
    hide Unescape, After;
    ghost var was := s[..];
    ghost var all := s[lo..lo + len];
    var i, dst := 0, 0;
    UnescapeEnds(all, "");
    assert s[lo..lo] == "";
    while i < len
      invariant 0 <= dst <= i <= len
      invariant forall k :: 0 <= k < lo || lo + i <= k < s.Length ==> s[k] == was[k]
      invariant Unescape(all) == After(s[lo..lo + dst], Unescape(all[i..]))
    {
      UnescapeAt(all, i, s[lo..lo + dst]);
      ghost var done := s[lo..lo + dst];
      assert s[lo + i] == all[i];
      if s[lo + i] == '\\' {
        if i == len - 1 {
          return false;
        }
        i := i + 1;
        assert s[lo + i] == all[i];
        if s[lo + i] == 'n' {
          s[lo + dst] := '\n';
        } else if s[lo + i] == '\\' {
          s[lo + dst] := '\\';
        } else {
          return false;
        }
      } else if s[lo + i] == '\0' {
        return false;
      } else {
        s[lo + dst] := s[lo + i];
      }
      dst := dst + 1;
      i := i + 1;
      assert s[lo..lo + dst] == done + [s[lo + dst - 1]];
    }
    UnescapeEnds(all, s[lo..lo + dst]);
    if dst < len {
      s[lo + dst] := '\0';
    }
    ok := true;
  }

  function After(done: string, rest: Option<string>): Option<string> {
    match rest
    case None => None
    case Some(s) => Some(done + s)
  }

  lemma UnescapeEnds(s: string, done: string)
    ensures s[0..] == s && After("", Unescape(s)) == Unescape(s)
    ensures After(done, Unescape(s[|s|..])) == Some(done)
  {
    if Unescape(s).Some? {
      assert "" + Unescape(s).value == Unescape(s).value;
    }
    assert done + "" == done;
  }

  lemma AfterPrepend(done: string, c: char, rest: Option<string>)
    ensures After(done, Prepend(c, rest)) == After(done + [c], rest)
  {
    if rest.Some? {
      assert done + ([c] + rest.value) == done + [c] + rest.value;
    }
  }

  // One step of the loop, on the name as it was.
  lemma UnescapeAt(s: string, i: nat, done: string)
    requires i < |s|
    ensures s[i] == '\\' && i + 1 == |s| ==> After(done, Unescape(s[i..])) == None
    ensures s[i] == '\\' && i + 1 < |s| && s[i + 1] == 'n' ==>
      After(done, Unescape(s[i..])) == After(done + ['\n'], Unescape(s[i + 2..]))
    ensures s[i] == '\\' && i + 1 < |s| && s[i + 1] == '\\' ==>
      After(done, Unescape(s[i..])) == After(done + ['\\'], Unescape(s[i + 2..]))
    ensures s[i] == '\\' && i + 1 < |s| && s[i + 1] != 'n' && s[i + 1] != '\\' ==>
      After(done, Unescape(s[i..])) == None
    ensures s[i] == '\0' ==> After(done, Unescape(s[i..])) == None
    ensures s[i] != '\\' && s[i] != '\0' ==>
      After(done, Unescape(s[i..])) == After(done + [s[i]], Unescape(s[i + 1..]))
  {
    var t := s[i..];
    assert t[1..] == s[i + 1..];
    if s[i] == '\\' {
      if i + 1 < |s| && s[i + 1] == 'n' {
        assert t[2..] == s[i + 2..];
        AfterPrepend(done, '\n', Unescape(s[i + 2..]));
      } else if i + 1 < |s| && s[i + 1] == '\\' {
        assert t[2..] == s[i + 2..];
        AfterPrepend(done, '\\', Unescape(s[i + 2..]));
      }
    } else if s[i] != '\0' {
      AfterPrepend(done, s[i], Unescape(s[i + 1..]));
    }
  }

  // ---- what a line means ---------------------------------------------------

  // The C string that starts a buffer: everything up to the first NUL.
  function Cut(s: string): string {
    if s == "" || s[0] == '\0' then "" else [s[0]] + Cut(s[1..])
  }

  function At(s: string, i: nat): char {
    if i < |s| then s[i] else '\0'
  }

  predicate White(c: char) {
    c == ' ' || c == '\t'
  }

  function SkipWhite(s: string, i: nat): (j: nat)
    requires i <= |s|
    ensures i <= j <= |s|
    decreases |s| - i
  {
    if i < |s| && White(s[i]) then SkipWhite(s, i + 1) else i
  }

  // The length of the part before the last ')'; None if there is no ')'.
  function LastParen(s: string): (i: Option<nat>)
    ensures i.Some? ==> i.value < |s| && s[i.value] == ')'
  {
    if s == "" then None
    else if s[|s| - 1] == ')' then Some(|s| - 1)
    else LastParen(s[..|s| - 1])
  }

  datatype Parts = Parts(hex: string, binary: Option<bool>, name: string)

  datatype Outcome = Outcome(parts: Option<Parts>, reversed: int)

  function Plain(name: string, escaped: bool): Option<string> {
    if escaped then Unescape(name) else Some(name)
  }

  function Named(hex: string, binary: Option<bool>, name: string, escaped: bool): Option<Parts> {
    match Plain(name, escaped)
    case None => None
    case Some(plain) => Some(Parts(Cut(hex), binary, Cut(plain)))
  }

  // name ) = hex
  function BsdParts(s: string, escaped: bool): Option<Parts> {
    match LastParen(s)
    case None => None
    case Some(i) =>
      var equals := SkipWhite(s, i + 1);
      if At(s, equals) != '=' then None
      else Named(s[SkipWhite(s, equals + 1)..], Some(false), s[..i], escaped)
  }

  // hex, a blank, then a mode character and a name, or in the reversed format a name.
  function StandardParts(s: string, i: nat, escaped: bool, reversed: int): Outcome
    requires i <= |s|
  {
    if |s| - i < MIN_LINE + (if At(s, i) == '\\' then 1 else 0) || !White(s[i + HEX_BYTES])
    then Outcome(None, reversed)
    else
      var hex, k := s[i..i + HEX_BYTES], i + HEX_BYTES + 1;
      if |s| - k == 1 || (s[k] != ' ' && s[k] != '*') then
        if reversed == 0 then Outcome(None, 0) else Outcome(Named(hex, None, s[k..], escaped), 1)
      else if reversed != 1 then Outcome(Named(hex, Some(s[k] == '*'), s[k + 1..], escaped), 0)
      else Outcome(Named(hex, None, s[k..], escaped), 1)
  }

  function Split(s: string, reversed: int): Outcome {
    var blank := SkipWhite(s, 0);
    var escaped := At(s, blank) == '\\';
    var i := if escaped then blank + 1 else blank;
    if TypeAt(s, i) then
      var j := if At(s, i + 3) == ' ' then i + 1 else i;
      if At(s, j + 3) == '(' then Outcome(BsdParts(s[j + 4..], escaped), reversed)
      else StandardParts(s, j, escaped, reversed)
    else StandardParts(s, i, escaped, reversed)
  }

  predicate TypeAt(s: string, i: nat) {
    i + 3 <= |s| && s[i..i + 3] == "MD5"
  }

  // ---- taking a line apart in place -----------------------------------------

  lemma {:induction false} CutAt(buffer: string, k: nat, piece: string)
    requires k + |piece| < |buffer| && buffer[k + |piece|] == '\0'
    requires buffer[k..k + |piece|] == piece
    ensures Cut(buffer[k..]) == Cut(piece)
    decreases |piece|
  {
    var t := buffer[k..];
    if piece != "" {
      assert t[0] == buffer[k..k + |piece|][0] == piece[0];
      assert t[1..] == buffer[k + 1..];
      assert buffer[k + 1..k + |piece|] == piece[1..];
      CutAt(buffer, k + 1, piece[1..]);
    }
  }

  // The buffer still holds the line from position k on, and ends it at end.
  ghost predicate Holds(s: array<char>, lo: nat, line: string, k: nat)
    reads s
  {
    lo + |line| < s.Length && s[lo + |line|] == '\0' &&
    forall j :: k <= j < |line| ==> s[lo + j] == line[j]
  }

  // while (ISWHITE (s[i])) i++;
  method SkipBlanks(s: array<char>, lo: nat, from: nat, ghost line: string) returns (i: nat)
    requires lo <= from <= lo + |line| && Holds(s, lo, line, from - lo)
    ensures lo <= i <= lo + |line| && i - lo == SkipWhite(line, from - lo)
    ensures s[i] == At(line, i - lo)
  {
    i := from;
    while White(s[i])
      invariant from <= i <= lo + |line|
      invariant SkipWhite(line, i - lo) == SkipWhite(line, from - lo)
      decreases lo + |line| - i
    {
      i := i + 1;
    }
  }

  // What a pointer into the buffer shows.
  lemma HeldString(s: array<char>, lo: nat, line: string, k: nat)
    requires k <= |line| && Holds(s, lo, line, k)
    ensures Cut(s[lo + k..]) == Cut(line[k..])
  {
    var piece := line[k..];
    assert s[..][lo + k..lo + k + |piece|] == piece;
    assert s[..][lo + k..] == s[lo + k..];
    CutAt(s[..], lo + k, piece);
  }

  // A name in the buffer from lo on, with a NUL right after it or after len.
  lemma HeldName(s: array<char>, lo: nat, len: nat, name: string)
    requires |name| <= len && lo + len < s.Length && s[lo + len] == '\0'
    requires s[lo..lo + |name|] == name && (|name| < len ==> s[lo + |name|] == '\0')
    ensures Cut(s[lo..]) == Cut(name)
  {
    assert s[..][lo..lo + |name|] == s[lo..lo + |name|];
    assert s[..][lo..] == s[lo..];
    CutAt(s[..], lo, name);
  }

  // Lines 287-290.
  method ScanBack(s: array<char>, lo: nat, len: nat, ghost line: string) returns (i: nat)
    requires 0 < len == |line| && Holds(s, lo, line, 0)
    ensures i < len && LastParen(line) == if s[lo + i] == ')' then Some(i) else None
  {
    i := len - 1;
    while i > 0 && s[lo + i] != ')'
      invariant 0 <= i < len
      invariant forall k :: i < k < len ==> line[k] != ')'
    {
      i := i - 1;
    }
    LastParenFrom(line, i);
  }

  // Lines 302-313: the digest after the equals sign.
  method FindDigest(s: array<char>, lo: nat, from: nat, ghost line: string) returns (ok: bool, hexDigest: nat)
    requires from <= |line| && Holds(s, lo, line, from)
    ensures ok <==> At(line, SkipWhite(line, from)) == '='
    ensures ok ==> hexDigest <= s.Length
    ensures ok ==> Cut(s[hexDigest..]) == Cut(line[SkipWhite(line, SkipWhite(line, from) + 1)..])
  {
    hide Cut, SkipWhite;
    ok, hexDigest := false, 0;
    var i := SkipBlanks(s, lo, lo + from, line);
    if s[i] != '=' {
      return;
    }
    i := SkipBlanks(s, lo, i + 1, line);
    HeldString(s, lo, line, i - lo);
    ok, hexDigest := true, i;
  }

  // Lines 278-315, on the part of the line that starts at lo.
  method BsdSplit3(s: array<char>, lo: nat, len: nat, escaped: bool, ghost line: string)
    returns (ok: bool, hexDigest: nat)
    requires len == |line| && Holds(s, lo, line, 0)
    modifies s
    ensures ok ==> hexDigest <= s.Length
    ensures BsdParts(line, escaped) ==
            if ok then Some(Parts(Cut(s[hexDigest..]), Some(false), Cut(s[lo..]))) else None
  {
    hide Unescape, Cut, SkipWhite, LastParen;
    ok, hexDigest := false, 0;
    if len == 0 {
      LastParenFrom(line, 0);
      return;
    }
    var i := ScanBack(s, lo, len, line);
    if s[lo + i] != ')' {
      return;
    }
    ghost var name := line[..i];
    assert s[lo..lo + i] == name;
    ghost var size := i;
    if escaped {
      var valid := FilenameUnescape(s, lo, i);
      if !valid {
        return;
      }
      name := Unescape(line[..i]).value;
    }
    s[lo + i] := '\0';
    HeldName(s, lo, i, name);
    ok, hexDigest := FindDigest(s, lo, i + 1, line);
  }

  // The scan from the end finds the last ')'.
  lemma {:induction false} LastParenFrom(s: string, i: nat)
    requires if s == "" then i == 0 else i < |s| && forall k :: i < k < |s| ==> s[k] != ')'
    requires s != "" ==> s[i] == ')' || i == 0
    ensures LastParen(s) == if s != "" && s[i] == ')' then Some(i) else None
  {
    if s != "" && s[|s| - 1] != ')' {
      var front := s[..|s| - 1];
      LastParenFrom(front, if i < |front| then i else 0);
    }
  }

  // hex_digits, lines 403-414.
  predicate XDigit(c: char) {
    '0' <= c <= '9' || 'a' <= c <= 'f' || 'A' <= c <= 'F'
  }

  predicate HexDigest(hex: string) {
    |hex| == HEX_BYTES && forall k :: 0 <= k < |hex| ==> XDigit(hex[k])
  }

  method HexDigits(s: array<char>, at: nat) returns (valid: bool)
    requires at <= s.Length && '\0' in s[at..]
    ensures valid <==> HexDigest(Cut(s[at..]))
  {
    hide Cut;
    CutEnds(s[at..]);
    ghost var hex := Cut(s[at..]);
    var p := 0;
    for i := 0 to HEX_BYTES
      invariant p == i <= |hex| && forall k :: 0 <= k < i ==> XDigit(hex[k])
    {
      if !XDigit(s[at + p]) {
        assert p < |hex| ==> !XDigit(hex[p]);
        return false;
      }
      p := p + 1;
    }
    return s[at + p] == '\0';
  }

  // A C string stops before the first NUL of its buffer.
  lemma {:induction false} CutEnds(s: string)
    requires '\0' in s
    ensures var c := Cut(s); |c| < |s| && c == s[..|c|] && s[|c|] == '\0' && '\0' !in c
  {
    if s[0] != '\0' {
      CutEnds(s[1..]);
    }
  }

  // Lines 395-398.
  method TakeName(s: array<char>, lo: nat, len: nat, escaped: bool, ghost name: string) returns (ok: bool)
    requires len == |name| && Holds(s, lo, name, 0)
    modifies s
    ensures ok == Plain(name, escaped).Some?
    ensures ok ==> Cut(s[lo..]) == Cut(Plain(name, escaped).value)
    ensures forall k :: 0 <= k <= lo ==> s[..k] == old(s[..k])
  {
    hide Unescape, Cut;
    ok := true;
    assert s[lo..lo + len] == name;
    if escaped {
      ok := FilenameUnescape(s, lo, len);
    }
    if ok {
      HeldName(s, lo, len, Plain(name, escaped).value);
    }
  }

  class Md5Sum {
    // -1 before the first line decides, then 0 or 1.
    var bsdReversed: int

    // Lines 358-398, from the digest at lo + i on.
    method SplitStandard(s: array<char>, len: nat, i0: nat, escaped: bool, ghost line: string)
      returns (ok: bool, hexDigest: nat, binary: Option<bool>, fileName: nat)
      requires len == |line| && Holds(s, 0, line, 0) && i0 <= len
      modifies this, s
      ensures ok ==> hexDigest <= s.Length && fileName <= s.Length
      ensures StandardParts(line, i0, escaped, old(bsdReversed)) ==
              Outcome(if ok then Some(Parts(Cut(s[hexDigest..]), binary, Cut(s[fileName..]))) else None, bsdReversed)
    {
      hide Unescape, Cut;
      ok, hexDigest, binary, fileName := false, i0, None, 0;
      var i := i0;
      if len - i < MIN_LINE + (if s[i] == '\\' then 1 else 0) {
        return;
      }
      i := i + HEX_BYTES;
      if !White(s[i]) {
        return;
      }
      HeldDigest(s, line, i0);
      ghost var digest := s[..i];
      s[i] := '\0';
      i := i + 1;
      ghost var front := s[..i];
      assert front == digest + ['\0'];
      if len - i == 1 || (s[i] != ' ' && s[i] != '*') {
        if bsdReversed == 0 {
          return;
        }
        bsdReversed := 1;
      } else if bsdReversed != 1 {
        bsdReversed := 0;
        binary := Some(s[i] == '*');
        i := i + 1;
      }
      fileName := i;
      HeldTail(s, line, i);
      ok := TakeName(s, i, len - i, escaped, line[i..]);
      assert s[..i0 + HEX_BYTES + 1] == front && s[i0 + HEX_BYTES] == front[i0 + HEX_BYTES];
      assert s[i0..i0 + HEX_BYTES] == digest[i0..];
      HeldName(s, i0, HEX_BYTES, line[i0..i0 + HEX_BYTES]);
    }

    // Lines 322-399.
    method Split3(s: array<char>, len: nat, ghost line: string)
      returns (ok: bool, hexDigest: nat, binary: Option<bool>, fileName: nat)
      requires len == |line| && Holds(s, 0, line, 0)
      modifies this, s
      ensures ok ==> hexDigest <= s.Length && fileName <= s.Length
      ensures Split(line, old(bsdReversed)) ==
              Outcome(if ok then Some(Parts(Cut(s[hexDigest..]), binary, Cut(s[fileName..]))) else None, bsdReversed)
    {
      hide Cut, SkipWhite, BsdParts, StandardParts, Holds;
      HeldLine(s, line, 0);
      var escaped := false;
      var i := SkipBlanks(s, 0, 0, line);
      if s[i] == '\\' {
        i := i + 1;
        escaped := true;
      }
      HeldLine(s, line, i);
      if i + 3 <= len && s[i..i + 3] == "MD5" {
        if s[i + 3] == ' ' {
          i := i + 1;
        }
        if s[i + 3] == '(' {
          binary, fileName := Some(false), i + 4;
          HeldTail(s, line, i + 4);
          assert Split(line, bsdReversed) == Outcome(BsdParts(line[i + 4..], escaped), bsdReversed);
          ok, hexDigest := BsdSplit3(s, i + 4, len - (i + 4), escaped, line[i + 4..]);
          return;
        }
      }
      assert Split(line, bsdReversed) == StandardParts(line, i, escaped, bsdReversed);
      ok, hexDigest, binary, fileName := SplitStandard(s, len, i, escaped, line);
    }
  }

  lemma HeldLine(s: array<char>, line: string, i: nat)
    requires Holds(s, 0, line, 0) && i <= |line|
    ensures |line| < s.Length
    ensures i + 3 <= |line| ==> s[i..i + 3] == line[i..i + 3]
    ensures forall k :: 0 <= k <= |line| ==> s[k] == At(line, k)
  {
  }

  lemma HeldDigest(s: array<char>, line: string, i: nat)
    requires Holds(s, 0, line, 0) && i + HEX_BYTES <= |line|
    ensures s[..i + HEX_BYTES][i..] == line[i..i + HEX_BYTES]
  {
  }

  lemma HeldTail(s: array<char>, line: string, i: nat)
    requires i <= |line| && Holds(s, 0, line, i)
    ensures Holds(s, i, line[i..], 0)
  {
  }

  // ---- printing a line (lines 837-869) ------------------------------------------

  function Digit(n: nat): (c: char)
    requires n < 16
    ensures XDigit(c) && c != 'M'
  {
    if n < 10 then '0' + n as char else 'a' + (n - 10) as char
  }

  function HexOf(bin: Data): (hex: string)
    ensures |hex| == 2 * |bin|
    ensures forall k :: 0 <= k < |hex| ==> XDigit(hex[k]) && hex[k] != 'M'
  {
    if bin == [] then "" else [Digit(bin[0] / 16), Digit(bin[0] % 16)] + HexOf(bin[1..])
  }

  // Two lower-case digits for each byte, the high-order one first.
  lemma {:induction false} HexAt(bin: Data, k: nat)
    requires k < |bin|
    ensures HexOf(bin)[2 * k] == "0123456789abcdef"[bin[k] / 16]
    ensures HexOf(bin)[2 * k + 1] == "0123456789abcdef"[bin[k] % 16]
  {
    hide Digit;
    DigitIs(bin[k] / 16);
    DigitIs(bin[k] % 16);
    if k > 0 {
      HexAt(bin[1..], k - 1);
    }
  }

  lemma DigitIs(n: nat)
    requires n < 16
    ensures Digit(n) == "0123456789abcdef"[n]
  {
  }

  function Shown(name: string): string {
    if NeedsEscape(name) then Escape(name) else name
  }

  function Mark(name: string): string {
    if NeedsEscape(name) then "\\" else ""
  }

  function Mode(binary: bool): char {
    if binary then '*' else ' '
  }

  function StandardLine(name: string, bin: Data, binary: bool): string {
    Mark(name) + HexOf(bin) + [' '] + [Mode(binary)] + Shown(name)
  }

  function TagLine(name: string, bin: Data): string {
    Mark(name) + "MD5" + " (" + Shown(name) + ") = " + HexOf(bin)
  }

  method PrintLine(file: string, bin: Data, binary: bool, tag: bool) returns (stdout: string)
    ensures stdout == (if tag then TagLine(file, bin) else StandardLine(file, bin, binary)) + "\n"
  {
    hide Escape, HexOf, NeedsEscape;
    stdout := "";
    var needsEscape := NeedsEscape(file);
    if tag {
      if needsEscape {
        stdout := stdout + "\\";
      }
      assert stdout == Mark(file);
      stdout := stdout + "MD5";
      stdout := stdout + " (";
      var name := PrintFilename(file, needsEscape);
      stdout := stdout + name;
      stdout := stdout + ") = ";
    }
    if !tag && needsEscape {
      stdout := stdout + "\\";
    }
    assert !tag ==> stdout == Mark(file);
    var digest := PrintDigest(bin);
    stdout := stdout + digest;
    if !tag {
      stdout := stdout + [' '];
      stdout := stdout + [Mode(binary)];
      var name := PrintFilename(file, needsEscape);
      stdout := stdout + name;
    }
    stdout := stdout + "\n";
  }

  // Lines 857-858.
  method PrintDigest(bin: Data) returns (stdout: string)
    ensures stdout == HexOf(bin)
  {
    hide HexOf;
    stdout := "";
    HexOfNone();
    for i := 0 to |bin|
      invariant stdout == HexOf(bin[..i])
    {
      HexOfLast(bin[..i], bin[i]);
      assert bin[..i] + [bin[i]] == bin[..i + 1];
      stdout := stdout + [Digit(bin[i] / 16), Digit(bin[i] % 16)];
    }
    assert bin[..|bin|] == bin;
  }

  lemma HexOfNone()
    ensures HexOf([]) == ""
  {
  }

  lemma {:induction false} HexOfLast(bin: Data, b: Byte)
    ensures HexOf(bin + [b]) == HexOf(bin) + [Digit(b / 16), Digit(b % 16)]
  {
    if bin == [] {
      assert [b][1..] == [];
    } else {
      assert (bin + [b])[1..] == bin[1..] + [b];
      HexOfLast(bin[1..], b);
    }
  }

  // Different digests print differently.
  lemma {:induction false} HexOfInjective(a: Data, b: Data)
    requires HexOf(a) == HexOf(b)
    ensures a == b
  {
    assert |HexOf(a)| == 2 * |a| && |HexOf(b)| == 2 * |b|;
    if a != [] {
      assert HexOf(a)[0] == Digit(a[0] / 16) && HexOf(b)[0] == Digit(b[0] / 16);
      assert HexOf(a)[1] == Digit(a[0] % 16) && HexOf(b)[1] == Digit(b[0] % 16);
      assert HexOf(a)[2..] == HexOf(a[1..]) && HexOf(b)[2..] == HexOf(b[1..]);
      DigitInjective(a[0] / 16, b[0] / 16);
      DigitInjective(a[0] % 16, b[0] % 16);
      HexOfInjective(a[1..], b[1..]);
      assert a == [a[0]] + a[1..] && b == [b[0]] + b[1..];
    }
  }

  lemma DigitInjective(m: nat, n: nat)
    requires m < 16 && n < 16
    ensures Digit(m) == Digit(n) ==> m == n
  {
  }

  function Lower(c: char): char {
    if 'A' <= c <= 'Z' then c + 32 as char else c
  }

  lemma {:induction false} HexOfAt(bin: Data, k: nat)
    requires k < |bin|
    ensures HexOf(bin)[2 * k] == Digit(bin[k] / 16) && HexOf(bin)[2 * k + 1] == Digit(bin[k] % 16)
  {
    if k > 0 {
      HexOfAt(bin[1..], k - 1);
      assert HexOf(bin)[2..] == HexOf(bin[1..]);
    }
  }

  // Digits in a line may be in either case.
  predicate SameDigits(hex: string, bin: Data) {
    |hex| == 2 * |bin| && forall k :: 0 <= k < |hex| ==> Lower(hex[k]) == HexOf(bin)[k]
  }

  // Lines 575-586.
  method CompareDigest(hex: string, bin: Data) returns (same: bool)
    requires |hex| == 2 * |bin|
    ensures same <==> SameDigits(hex, bin)
  {
    hide HexOf;
    var cnt := 0;
    while cnt < |bin|
      invariant 0 <= cnt <= |bin|
      invariant forall k :: 0 <= k < 2 * cnt ==> Lower(hex[k]) == HexOf(bin)[k]
    {
      HexOfAt(bin, cnt);
      if Lower(hex[2 * cnt]) != Digit(bin[cnt] / 16) || Lower(hex[2 * cnt + 1]) != Digit(bin[cnt] % 16) {
        break;
      }
      cnt := cnt + 1;
    }
    same := cnt == |bin|;
  }

  // A digest that was printed is accepted for the same digest only.
  lemma PrintedDigest(a: Data, b: Data)
    requires |a| == |b|
    ensures SameDigits(HexOf(a), b) <==> a == b
  {
    hide HexOf;
    LowerCase(a);
    if SameDigits(HexOf(a), b) {
      assert HexOf(a) == HexOf(b);
      HexOfInjective(a, b);
    }
  }

  lemma {:induction false} LowerCase(bin: Data)
    ensures forall k :: 0 <= k < |HexOf(bin)| ==> Lower(HexOf(bin)[k]) == HexOf(bin)[k]
  {
    if bin != [] {
      LowerCase(bin[1..]);
      assert Lower(Digit(bin[0] / 16)) == Digit(bin[0] / 16);
      assert Lower(Digit(bin[0] % 16)) == Digit(bin[0] % 16);
    }
  }

  // ---- what is printed parses back ------------------------------------------------

  lemma {:induction false} CutPlain(s: string)
    requires '\0' !in s
    ensures Cut(s) == s
  {
    if s != "" {
      assert s[0] in s && forall c :: c in s[1..] ==> c in s;
      CutPlain(s[1..]);
    }
  }

  lemma ShownIsPlain(name: string)
    requires '\0' !in name && name != ""
    ensures Shown(name) != "" && Plain(Shown(name), NeedsEscape(name)) == Some(name)
  {
    EscapeFits(name);
    UnescapeEscape(name);
  }

  // The name as it is named by a line whose mode character counts as part of it.
  lemma ShownAfter(c: char, name: string)
    requires '\0' !in name && (c == ' ' || c == '*')
    ensures Plain([c] + Shown(name), NeedsEscape(name)) == Some([c] + name)
  {
    if NeedsEscape(name) {
      UnescapeEscape(name);
      assert ([c] + Escape(name))[1..] == Escape(name);
    }
  }

  // In standard form digest, mode and name come back, unless an earlier line
  // has switched to the reversed format: then, and only then, the name comes
  // back with the mode character in front of it.
  lemma StandardRoundTrip(name: string, bin: Data, binary: bool, reversed: int)
    requires name != "" && '\0' !in name && |bin| == 16
    ensures Split(StandardLine(name, bin, binary), reversed) ==
            if reversed != 1 then Outcome(Some(Parts(HexOf(bin), Some(binary), name)), 0)
            else Outcome(Some(Parts(HexOf(bin), None, [Mode(binary)] + name)), 1)
  {
    hide HexOf, Shown, NeedsEscape, Cut;
    var s, i, hex, shown := StandardLine(name, bin, binary), |Mark(name)|, HexOf(bin), Shown(name);
    StandardPlaces(name, bin, binary);
    ShownIsPlain(name);
    ShownAfter(Mode(binary), name);
    CutPlain(name);
    CutPlain([Mode(binary)] + name);
    CutPlain(hex);
    assert At(s, i) != '\\';
    assert SkipWhite(s, 0) == 0;
    assert !TypeAt(s, i);
  }

  // A line whose name is one character sets the reversed format, and the next line, printed
  // in standard form, comes back without its mode and with a name of two characters.
  lemma ModeIsLost(bin: Data, binary: bool)
    requires |bin| == 16
    ensures var reversed := Split(HexOf(bin) + " x", -1).reversed;
            Split(StandardLine("f", bin, binary), reversed).parts ==
            Some(Parts(HexOf(bin), None, [Mode(binary)] + "f"))
  {
    hide HexOf;
    var s := HexOf(bin) + " x";
    assert XDigit(s[0]) && SkipWhite(s, 0) == 0 && !TypeAt(s, 0);
    StandardRoundTrip("f", bin, binary, 1);
  }

  lemma StandardPlaces(name: string, bin: Data, binary: bool)
    requires |bin| == 16
    ensures var s, i := StandardLine(name, bin, binary), |Mark(name)|;
      && |s| == i + 34 + |Shown(name)|
      && s[..i] == Mark(name)
      && s[i..i + 32] == HexOf(bin)
      && s[i + 32] == ' '
      && s[i + 33] == Mode(binary)
      && s[i + 33..] == [Mode(binary)] + Shown(name)
      && s[i + 34..] == Shown(name)
      && XDigit(s[i]) && s[i] != 'M'
  {
    hide HexOf, Shown;
    var s, i := StandardLine(name, bin, binary), |Mark(name)|;
    assert s[i] == HexOf(bin)[0];
  }

  // The lines are single lines, and no comment.
  lemma OneLine(name: string, bin: Data, binary: bool)
    requires |bin| == 16
    ensures '\n' !in StandardLine(name, bin, binary) && '\n' !in TagLine(name, bin)
    ensures StandardLine(name, bin, binary)[0] != '#' && TagLine(name, bin)[0] != '#'
  {
    hide HexOf, Escape;
    EscapeFits(name);
    var hex := HexOf(bin);
    assert '\n' !in hex;
    assert XDigit(hex[0]);
  }

  // In the --tag form the last ')' is the one that ends the name, whatever the
  // name holds.
  lemma TagRoundTrip(name: string, bin: Data, reversed: int)
    requires name != "" && '\0' !in name && |bin| == 16
    ensures Split(TagLine(name, bin), reversed) ==
            Outcome(Some(Parts(HexOf(bin), Some(false), name)), reversed)
  {
    hide HexOf, Shown, NeedsEscape, BsdParts, StandardParts;
    var s, i, shown := TagLine(name, bin), |Mark(name)|, Shown(name);
    var t := shown + ") = " + HexOf(bin);
    assert s == Mark(name) + "MD5 (" + t;
    assert s[i..i + 3] == "MD5" && s[i + 3] == ' ' && s[i + 4] == '(' && s[i + 5..] == t;
    assert SkipWhite(s, 0) == 0;
    assert TypeAt(s, i);
    TagParts(name, bin);
  }

  lemma {:induction false} AllBlank(s: string, i: nat, j: nat)
    requires i <= j < |s| && s[j] != ' ' && s[j] != '\t'
    requires forall k :: i <= k < j ==> s[k] == ' ' || s[k] == '\t'
    ensures SkipWhite(s, i) == j
    decreases j - i
  {
    if i < j {
      AllBlank(s, i + 1, j);
    }
  }

  predicate Blank(s: string) {
    forall k :: 0 <= k < |s| ==> s[k] == ' ' || s[k] == '\t'
  }

  // Any spaces and tabs may stand on either side of the equals sign.
  lemma BlanksAroundEquals(name: string, bin: Data, a: string, b: string)
    requires name != "" && '\0' !in name && |bin| == 16 && Blank(a) && Blank(b)
    ensures BsdParts(name + ")" + a + "=" + b + HexOf(bin), false) == Some(Parts(HexOf(bin), Some(false), name))
  {
    hide HexOf, Cut, LastParen, SkipWhite;
    var hex := HexOf(bin);
    var t, p := name + ")" + a + "=" + b + hex, |name|;
    var q := p + 1 + |a|;
    assert t[..p] == name && t[p] == ')' && t[q] == '=' && t[q + 1 + |b|..] == hex && t[q + 1 + |b|] == hex[0];
    assert forall k :: p < k < q ==> t[k] == a[k - p - 1];
    assert forall k :: q < k <= q + |b| ==> t[k] == b[k - q - 1];
    assert forall k :: q + |b| < k < |t| ==> t[k] == hex[k - q - |b| - 1];
    LastParenFrom(t, p);
    AllBlank(t, p + 1, q);
    AllBlank(t, q + 1, q + 1 + |b|);
    CutPlain(name);
    CutPlain(hex);
  }

  // A line without a tag that cannot hold the digits, a blank and a name is refused.
  lemma TooShort(s: string, reversed: int)
    requires |s| < 34 && !TypeAt(s, 0) && (s != "" ==> s[0] != ' ' && s[0] != '\t' && s[0] != '\\')
    ensures Split(s, reversed) == Outcome(None, reversed)
  {
    assert SkipWhite(s, 0) == 0;
  }

  lemma OneBlank(s: string, i: nat)
    requires i + 1 < |s| && s[i] == ' ' && !White(s[i + 1])
    ensures SkipWhite(s, i) == i + 1
  {
    assert SkipWhite(s, i + 1) == i + 1;
  }

  lemma TagParts(name: string, bin: Data)
    requires name != "" && '\0' !in name && |bin| == 16
    ensures BsdParts(Shown(name) + ") = " + HexOf(bin), NeedsEscape(name)) ==
            Some(Parts(HexOf(bin), Some(false), name))
  {
    hide HexOf, Shown, NeedsEscape, Cut, LastParen;
    var shown, hex := Shown(name), HexOf(bin);
    var t, k := shown + ") = " + hex, |shown|;
    assert t[k] == ')' && t[k + 1] == ' ' && t[k + 2] == '=' && t[k + 3] == ' ';
    assert forall j :: k < j < |t| ==> t[j] != ')' by {
      assert forall j :: k + 4 <= j < |t| ==> t[j] == hex[j - k - 4];
    }
    LastParenFrom(t, k);
    assert t[k + 4] == hex[0];
    OneBlank(t, k + 1);
    OneBlank(t, k + 3);
    assert t[k + 4..] == hex && t[..k] == shown;
    ShownIsPlain(name);
    CutPlain(name);
    CutPlain(hex);
  }

  // ---- runs ---------------------------------------------------------------------

  // The state after a run of lines.
  function AfterLines(lines: seq<string>, reversed: int): int {
    if lines == [] then reversed
    else AfterLines(lines[1..], Split(lines[0], reversed).reversed)
  }

  // Once a line has decided the format, no line changes it.
  lemma {:induction false} FormatSticks(lines: seq<string>, reversed: int)
    requires reversed in {-1, 0, 1}
    ensures AfterLines(lines, reversed) in {-1, 0, 1}
    ensures reversed != -1 ==> AfterLines(lines, reversed) == reversed
  {
    if lines != [] {
      FormatSticks(lines[1..], Split(lines[0], reversed).reversed);
    }
  }
}
