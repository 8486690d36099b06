// dt_uhttpd_utils.c: a file goes to a client through a buffer that is filled one chunk
// at a time and drained by writes that may take any part of it.
module ChunkedSender {
  import opened Bytes
  import opened ChunkedCoding

  datatype Version = VER_0_9 | VER_1_0 | VER_1_1

  // The answer of dt_uhttpd_write, and why it ends the transfer.
  const EINTR := 4

  const EAGAIN := 11

  datatype Reply = OK | Finished | ReadFailed | SendFailed

  lemma LastLength()
    ensures |LAST_CHUNK| == 5
  {
    HexLength(0);
  }

  lemma {:induction false} HexMonotone(m: nat, n: nat)
    requires m <= n
    ensures |Hex(m)| <= |Hex(n)|
  {
    if n >= 16 && m >= 16 {
      HexMonotone(m / 16, n / 16);
    }
  }

  // What a shorter chunk saves on the wire.
  lemma ShorterChunk(a: Data, b: Data)
    requires |a| < |b|
    ensures |if a == [] then LAST_CHUNK else Chunk(a)| < |Chunk(b)|
  {
    hide Hex;
    HexMonotone(|a|, |b|);
    LastLength();
    ChunkParts(a);
    ChunkParts(b);
  }

  // The length of a body depends on the length of its content only.
  lemma {:induction false} BodyLength(a: Data, b: Data, chunked: bool)
    requires |a| == |b|
    ensures |Body(a, chunked)| == |Body(b, chunked)|
    decreases |a|
  {
    if chunked && a != [] {
      var n := Min(|a|, MSGHEAD);
      BodyLength(a[n..], b[n..], chunked);
      hide Hex;
    }
  }

  // Sent, waiting and to come: the whole, or less of it once a read was short.
  ghost predicate Adds(sent: Data, pending: Data, future: Data, whole: Data, short: bool) {
    if short then |sent| + |pending| + |future| < |whole| else sent + pending + future == whole
  }

  lemma FillAdds(sent: Data, before: Data, pending: Data, future: Data, whole: Data, was: bool, short: bool)
    requires Adds(sent, [], before, whole, was)
    requires if short && !was then |pending| + |future| < |before| else
             short == was && (pending + future == before || (short && |pending| + |future| <= |before|))
    ensures Adds(sent, pending, future, whole, short)
  {
    if !short {
      assert sent + pending + future == sent + (pending + future);
      assert sent + [] + before == sent + before;
    }
  }

  lemma SendAdds(sent: Data, pending: Data, n: nat, future: Data, whole: Data, short: bool)
    requires Adds(sent, pending, future, whole, short) && n <= |pending|
    ensures Adds(sent + pending[..n], pending[n..], future, whole, short)
  {
    assert pending == pending[..n] + pending[n..];
    assert sent + pending[..n] + pending[n..] + future == sent + pending + future;
  }

  lemma AddsPrefix(sent: Data, pending: Data, future: Data, whole: Data, short: bool)
    requires Adds(sent, pending, future, whole, short)
    ensures !short ==> sent <= whole
    ensures pending == [] && (!short ==> future == []) ==> (sent == whole <==> !short)
    ensures |sent| <= |whole|
  {
  }

  class Client {
    const version: Version
    const file: Data
    var pos: nat
    var contentLeft: int
    const buf: array<Byte> // httpbuf.buf
    var rd: nat
    var wr: nat
    var len: nat

    // The outside: what write() has accepted, whether some read() returned less than
    // asked for, how many calls of write() took nothing.
    var sent: Data
    var short: bool
    var refused: nat
    var answer: int // of the last write(): the count, or the negative errno
    ghost const whole: Data

    predicate Chunked() {
      version == VER_1_1
    }

    function Left(): nat
      reads `contentLeft
    {
      if contentLeft < 0 then 0 else contentLeft
    }

    // What is still to be put into the buffer if every read is full.
    function Future(): Data
      requires pos + Left() <= |file|
      reads `pos, `contentLeft
    {
      if contentLeft < 0 then [] else Body(file[pos..pos + contentLeft], Chunked())
    }

    ghost predicate Shaped()
      reads `pos, `contentLeft, `rd, `wr, `len
    {
      && buf.Length == MSGHEAD + 16
      && rd + len == wr <= buf.Length
      && contentLeft >= -1 && pos + Left() <= |file|
    }

    function Pending(): Data
      requires rd + len <= buf.Length
      reads this, buf
    {
      buf[rd..rd + len]
    }

    // Sent, waiting and still to come make up the whole, as long as no read was short;
    // what a short read has lost is missing for good.
    ghost predicate Valid()
      reads this, buf
    {
      && Shaped()
      && Adds(sent, Pending(), Future(), whole, short)
    }

    // A client whose response header has been sent, with the file open at some position.
    constructor (file: Data, pos: nat, contentLeft: nat, version: Version)
      requires pos + contentLeft <= |file|
      ensures Valid() && sent == [] && !short && refused == 0 && fresh(buf)
      ensures whole == Body(file[pos..pos + contentLeft], version == VER_1_1)
    {
      this.file, this.pos, this.contentLeft, this.version := file, pos, contentLeft, version;
      buf := new Byte[MSGHEAD + 16](_ => 0);
      rd, wr, len := 0, 0, 0;
      sent, short, refused, answer := [], false, 0, 0;
      whole := Body(file[pos..pos + contentLeft], version == VER_1_1);
    }

    method MemCpy(at: nat, bytes: Data)
      requires at + |bytes| <= buf.Length
      modifies buf
      ensures buf[..at + |bytes|] == old(buf[..at]) + bytes
    {
      forall k | 0 <= k < |bytes| {
        buf[at + k] := bytes[k];
      }
    }

    // memcpy to the write position, which moves on
    method Put(bytes: Data)
      requires wr + |bytes| <= buf.Length
      modifies `wr, `len, buf
      ensures wr == old(wr) + |bytes| && len == old(len) + |bytes|
      ensures buf[..wr] == old(buf[..wr]) + bytes
    {
      MemCpy(wr, bytes);
      len, wr := len + |bytes|, wr + |bytes|;
    }

    // dt_http_send: part of the buffer is taken, or nothing.
    method Send(n: nat) returns (rtn: int)
      modifies `refused, `answer
      ensures rtn <= n && refused == old(refused) + (if rtn > 0 then 0 else 1) && answer == rtn
    {
      rtn :| rtn <= n;
      answer := rtn;
      refused := refused + if rtn > 0 then 0 else 1;
    }

    // dt_fillbuffer_chunk
    method FillChunk(data: Data)
      requires |data| <= MSGHEAD && buf.Length == MSGHEAD + 16
      modifies `rd, `wr, `len, buf
      ensures rd == 0 && wr == len <= buf.Length && len > 0
      ensures buf[..len] == (if data == [] then LAST_CHUNK else Chunk(data))
    {
      hide Hex, Chunk;
      wr, rd, len := 0, 0, 0;
      if |data| > 0 {
        HexLength(|data|);
        ChunkParts(data);
        Put(Hex(|data|) + CRLF);
        assert buf[..0] == [];
        Put(data);
        Put(CRLF);
      } else {
        LastLength();
        Put(LAST_CHUNK);
      }
    }

    // read(): any count up to the request, or failure; nothing before the end is possible.
    method Read(n: nat) returns (r: int, data: Data)
      requires pos + n <= |file|
      modifies `pos
      ensures -1 <= r <= n && pos == old(pos) + (if r > 0 then r else 0)
      ensures data == file[old(pos)..pos] && (r >= 0 ==> |data| == r)
    {
      r :| -1 <= r <= n;
      data := [];
      if r > 0 {
        data := file[pos..pos + r];
        pos := pos + r;
      }
    }

    // dt_getfilecontent
    method GetFileContent(n: nat) returns (r: int, data: Data)
      requires Shaped() && n > 0
      modifies `pos, `contentLeft, `short
      ensures Shaped() && r <= n && (r >= 0 ==> |data| == r) && (r < 0 ==> r == -1)
      ensures contentLeft == if old(contentLeft) <= 0 then -1 else old(contentLeft) - Min(old(contentLeft), n)
      ensures r < 0 ==> old(contentLeft) != 0 && pos == old(pos) && short == (old(short) || old(contentLeft) > 0)
      ensures old(contentLeft) < 0 ==> r == -1
      ensures old(contentLeft) == 0 ==> r == 0 && pos == old(pos) && short == old(short)
      ensures old(contentLeft) > 0 && r >= 0 ==>
                && r <= Min(old(contentLeft), n) && pos == old(pos) + r <= |file|
                && data == file[old(pos)..pos]
                && short == (old(short) || r < Min(old(contentLeft), n))
    {
      data := [];
      if contentLeft == 0 {
        contentLeft := contentLeft - 1;
        return 0, data;
      }
      if contentLeft < 0 {
        return -1, data;
      }
      var want := if contentLeft < n then contentLeft else n;
      contentLeft := contentLeft - want;
      r, data := Read(want);
      short := short || r < want;
    }

    // The bytes a fill puts into the buffer.
    function Filled(data: Data): Data {
      if !Chunked() then data else if data == [] then LAST_CHUNK else Chunk(data)
    }

    // A fill moves bytes from the future into the buffer: all that a full read owes, or
    // fewer, and then some are missing for good.
    lemma FillAccount(p: nat, left: nat, data: Data)
      requires p + left <= |file|
      requires var want := Min(left, MSGHEAD); |data| <= want && data == file[p..p + |data|]
      ensures var want := Min(left, MSGHEAD);
              var before := Body(file[p..p + left], Chunked());
              var after := if left == 0 then [] else Body(file[p + |data|..p + |data| + left - want], Chunked());
              if |data| == want then Filled(data) + after == before else |Filled(data)| + |after| < |before|
    {
      hide Hex, Chunk;
      var want := Min(left, MSGHEAD);
      var d := file[p..p + left];
      var e := file[p + |data|..p + |data| + left - want];
      assert |data| == want ==> d[..want] == data && d[want..] == e && d == data + e;
      if left == 0 {
        assert Body(d, Chunked()) == Filled([]) + [];
      } else if Chunked() {
        BodyStep(d, want);
        BodyLength(d[want..], e, true);
        if |data| < want { ShorterChunk(data, d[..want]); }
      }
    }

    // dt_fillbuffer
    method FillBuffer() returns (reply: Reply)
      requires Valid()
      modifies `rd, `wr, `len, `pos, `contentLeft, `short, buf
      ensures Valid() && reply != SendFailed
      ensures reply == OK && len == 0 && !short ==> Future() == []
      ensures reply == Finished ==> len == 0 && Future() == []
      ensures reply == ReadFailed ==> short
    {
      if len > 0 {
        return OK;
      }
      reply := Refill();
    }

    lemma Account(p: nat, left: nat, data: Data)
      requires Shaped() && len == 0 && p + left <= |file|
      requires contentLeft == (if left == 0 then -1 else left - Min(left, MSGHEAD))
      requires |data| <= Min(left, MSGHEAD) && pos == p + |data| && data == file[p..pos]
      ensures var before := Body(file[p..p + left], Chunked());
              && (|data| == Min(left, MSGHEAD) ==> Filled(data) + Future() == before)
              && (|data| < Min(left, MSGHEAD) ==> |Filled(data)| + |Future()| < |before| && |Future()| < |before|)
    {
      hide Hex, Chunk, Body, Client.Filled;
      FillAccount(p, left, data);
    }

    // What has been read goes into the buffer, as a chunk or as it is.
    method Load(data: Data)
      requires |data| <= MSGHEAD && buf.Length == MSGHEAD + 16
      modifies `rd, `wr, `len, buf
      ensures rd == 0 && wr == len <= buf.Length && Pending() == Filled(data)
      ensures len == 0 ==> data == [] && version != VER_1_1
    {
      hide Hex, Chunk;
      if version == VER_1_1 {
        FillChunk(data);
      } else {
        MemCpy(0, data);
        len, rd, wr := |data|, 0, |data|;
        assert buf[..0] == [];
      }
    }

    // dt_fillbuffer with nothing left in the buffer
    method Refill() returns (reply: Reply)
      requires Valid() && len == 0
      modifies `rd, `wr, `len, `pos, `contentLeft, `short, buf
      ensures Valid() && (reply == OK || reply == Finished || reply == ReadFailed)
      ensures reply == OK && len == 0 && !short ==> Future() == []
      ensures reply == Finished ==> len == 0 && Future() == []
      ensures reply == ReadFailed ==> short
    {
      hide Body, Chunk, Hex, Adds, Client.Filled;
      ghost var p, left, was := pos, contentLeft, short;
      ghost var before := Future();
      assert Pending() == [];
      var ended := contentLeft < 0;
      var r, data := GetFileContent(MSGHEAD);
      if ended {
        assert Pending() == [];
        return Finished;
      }
      if r < 0 {
        assert file[p..pos] == [];
        Account(p, left, []);
        FillAdds(sent, before, [], Future(), whole, was, short);
        assert Pending() == [];
        return ReadFailed;
      }
      Account(p, left, data);
      Load(data);
      FillAdds(sent, before, Pending(), Future(), whole, was, short);
      reply := OK;
    }

    // dt_uhttpd_write
    method Write() returns (reply: Reply)
      requires Valid()
      modifies `rd, `wr, `len, `pos, `contentLeft, `short, `sent, `refused, `answer, buf
      ensures Valid() && old(sent) <= sent && |sent| <= |whole| && old(refused) <= refused
      ensures !short ==> sent <= whole
      ensures reply == Finished ==> (sent == whole <==> !short)
      ensures reply == OK ==> |sent| + refused > |old(sent)| + old(refused)
      ensures reply == SendFailed ==> refused > old(refused)
      ensures refused > old(refused) ==> (reply == OK <==> answer == -EINTR || answer == -EAGAIN)
      ensures |sent| > |old(sent)| ==> answer == |sent| - |old(sent)|
    {
      hide Body, Adds, Hex, Chunk, Client.Future;
      reply := FillBuffer();
      AddsPrefix(sent, Pending(), Future(), whole, short);
      if reply != OK {
        return;
      }
      if len > 0 {
        var rtn := Send(len);
        if rtn > 0 {
          Sent(rtn);
          return OK;
        }
        return if rtn == -EINTR || rtn == -EAGAIN then OK else SendFailed;
      }
      reply := Finished;
    }

    // The read position moves past what has been sent.
    method Sent(rtn: nat)
      requires Valid() && 0 < rtn <= len
      modifies `rd, `len, `sent
      ensures Valid() && |sent| == |old(sent)| + rtn && old(sent) <= sent && |sent| <= |whole|
      ensures !short ==> sent <= whole
    {
      hide Body, Adds, Hex, Chunk, Client.Future;
      var pending := buf[rd..rd + len];
      SendAdds(sent, pending, rtn, Future(), whole, short);
      sent := sent + pending[..rtn];
      rd := rd + rtn;
      len := len - rtn;
      assert Pending() == pending[rtn..];
      AddsPrefix(sent, Pending(), Future(), whole, short);
    }
  }

  // A whole transfer: dt_uhttpd_write as often as the select loop calls it. What has been
  // sent is always the beginning of the body; when the transfer ends without an error it
  // is the body exactly if no read was short, and a reader then gets the content back.
  // It does end: every call that neither ends it nor is refused sends a byte.
  method Serve(file: Data, pos: nat, contentLeft: nat, version: Version, calls: nat)
    returns (reply: Reply, sent: Data, short: bool, refused: nat)
    requires pos + contentLeft <= |file|
    ensures !short ==> sent <= Body(file[pos..pos + contentLeft], version == VER_1_1)
    ensures reply == Finished ==> (sent == Body(file[pos..pos + contentLeft], version == VER_1_1) <==> !short)
    ensures reply == Finished && !short && version == VER_1_1 ==>
              Decode(sent) == Some((file[pos..pos + contentLeft], []))
    ensures reply == OK ==> calls <= |sent| + refused
    ensures |sent| <= |Body(file[pos..pos + contentLeft], version == VER_1_1)|
  {
    hide Body, Decode;
    var cl := new Client(file, pos, contentLeft, version);
    reply := OK;
    var n := 0;
    while n < calls && reply == OK
      invariant cl.Valid() && fresh(cl) && fresh(cl.buf)
      invariant 0 <= n <= calls && (reply == OK ==> n <= |cl.sent| + cl.refused)
      invariant |cl.sent| <= |cl.whole| && (!cl.short ==> cl.sent <= cl.whole)
      invariant reply == Finished ==> (cl.sent == cl.whole <==> !cl.short)
    {
      reply := cl.Write();
      n := n + 1;
    }
    sent, short, refused := cl.sent, cl.short, cl.refused;
    DecodeBody(file[pos..pos + contentLeft], []);
    assert sent + [] == sent;
  }
}
