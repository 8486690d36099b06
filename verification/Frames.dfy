// c/mp_sniffer/sockettest.py: length-prefixed messages over a byte stream, a sender
// that frames, and a receiver that puts frames together from whatever pieces arrive.
module Frames {
  import opened Bytes

  datatype Message = Message(tag: nat, payload: Data)

  function Word(n: nat): (w: Data)
    requires n < 0x1_0000
    ensures |w| == 2 && WordAt(w, 0) == n
  {
    [n / 256, n % 256]
  }

  function WordAt(d: Data, k: nat): (n: nat)
    requires k + 2 <= |d|
    ensures n < 0x1_0000
  {
    var high: nat, low: nat := d[k], d[k + 1];
    256 * high + low
  }

  // Both header fields are unsigned 16-bit numbers; the length counts itself.
  predicate Packs(m: Message) {
    m.tag < 0x1_0000 && |m.payload| + 4 < 0x1_0000
  }

  function Frame(m: Message): Data
    requires Packs(m)
  {
    Word(m.tag) + Word(|m.payload| + 4) + m.payload
  }

  // A frame on the wire: both header fields with the high-order octet first, the length
  // with the header counted in, then the payload.
  lemma OnTheWire(m: Message)
    requires Packs(m)
    ensures var f := Frame(m);
            && |f| == 4 + |m.payload| && f[4..] == m.payload
            && m.tag == 0x100 * f[0] as nat + f[1] as nat
            && |f| == 0x100 * f[2] as nat + f[3] as nat
  {
  }

  // Lines 15-28; the error is the one struct.pack raises.
  method SendMsg(tag: nat, msg: Option<Data>) returns (sent: Option<Data>)
    ensures var m := Message(tag, if msg.Some? then msg.value else []);
            sent == if Packs(m) then Some(Frame(m)) else None
  {
    var l := 4;
    if msg.Some? && msg.value != [] {
      l := l + |msg.value|;
      if tag >= 0x1_0000 || l >= 0x1_0000 {
        return None;
      }
      sent := Some(Word(tag) + Word(l) + msg.value);
    } else {
      if tag >= 0x1_0000 {
        return None;
      }
      sent := Some(Word(tag) + Word(l));
      assert Word(tag) + Word(l) == Word(tag) + Word(l) + [];
    }
  }

  ghost predicate AllPack(ms: seq<Message>) {
    forall k :: 0 <= k < |ms| ==> Packs(ms[k])
  }

  function Stream(ms: seq<Message>): Data
    requires AllPack(ms)
  {
    if ms == [] then [] else Frame(ms[0]) + Stream(ms[1..])
  }

  // ---- the reference reader ------------------------------------------------

  datatype Reading = Reading(messages: seq<Message>, rest: Data, malformed: bool)

  // Nothing can be taken off the front of the data yet.
  predicate Incomplete(d: Data) {
    |d| < 4 || WordAt(d, 2) > |d|
  }

  // The length field does not even cover the header.
  predicate Malformed(d: Data) {
    !Incomplete(d) && WordAt(d, 2) < 4
  }

  function First(d: Data): (m: Message)
    requires !Incomplete(d) && !Malformed(d)
    ensures Packs(m)
  {
    Message(WordAt(d, 0), d[4..WordAt(d, 2)])
  }

  function Parse(d: Data): Reading {
    if Incomplete(d) then Reading([], d, false)
    else if Malformed(d) then Reading([], d, true)
    else
      var next := Parse(d[WordAt(d, 2)..]);
      Reading([First(d)] + next.messages, next.rest, next.malformed)
  }

  lemma FirstOfFrame(m: Message, more: Data)
    requires Packs(m)
    ensures var d := Frame(m) + more;
            !Incomplete(d) && !Malformed(d) && First(d) == m &&
            WordAt(d, 2) == |Frame(m)| && d[|Frame(m)|..] == more
  {
    var d, head := Frame(m) + more, Word(m.tag) + Word(|m.payload| + 4);
    assert d == head + (m.payload + more);
    assert WordAt(d, 2) == WordAt(head, 2) == |m.payload| + 4;
    assert WordAt(d, 0) == WordAt(head, 0) == m.tag;
    assert d[4..|m.payload| + 4] == m.payload;
  }

  lemma FrameOfFirst(d: Data)
    requires !Incomplete(d) && !Malformed(d)
    ensures |d| >= 4
    ensures 4 <= WordAt(d, 2) <= |d| && Frame(First(d)) == d[..WordAt(d, 2)]
  {
    var l := WordAt(d, 2);
    assert Word(WordAt(d, 0)) == d[..2];
    assert Word(l) == d[2..4];
    assert d[..l] == d[..2] + d[2..4] + d[4..l];
  }

  lemma StreamCons(m: Message, ms: seq<Message>)
    requires Packs(m) && AllPack(ms)
    ensures AllPack([m] + ms) && Stream([m] + ms) == Frame(m) + Stream(ms)
  {
    assert ([m] + ms)[1..] == ms;
  }

  lemma StreamOfNone()
    ensures AllPack([]) && Stream([]) == []
  {
  }

  lemma ParseFirst(d: Data)
    ensures Incomplete(d) ==> Parse(d) == Reading([], d, false)
    ensures Malformed(d) ==> Parse(d) == Reading([], d, true)
    ensures !Incomplete(d) && !Malformed(d) ==>
      var next := Parse(d[WordAt(d, 2)..]);
      Parse(d) == Reading([First(d)] + next.messages, next.rest, next.malformed)
  {
  }

  // What is read is exactly what was framed: nothing lost, nothing invented,
  // and the rest is a frame that has not arrived in full.
  lemma {:induction false} ParseIsExact(d: Data)
    ensures AllPack(Parse(d).messages)
    ensures d == Stream(Parse(d).messages) + Parse(d).rest
    ensures if Parse(d).malformed then Malformed(Parse(d).rest) else Incomplete(Parse(d).rest)
  {
    hide Frame, First, Stream, AllPack, Parse, Malformed, WordAt;
    ParseFirst(d);
    if !Incomplete(d) && !Malformed(d) {
      FrameOfFirst(d);
      var l := WordAt(d, 2);
      var p := Parse(d[l..]);
      ParseIsExact(d[l..]);
      StreamCons(First(d), p.messages);
      assert d == d[..l] + (Stream(p.messages) + p.rest);
      assert d == (d[..l] + Stream(p.messages)) + p.rest;
    } else {
      StreamOfNone();
    }
  }

  lemma {:induction false} ParseStream(ms: seq<Message>)
    requires AllPack(ms)
    ensures Parse(Stream(ms)) == Reading(ms, [], false)
  {
    if ms != [] {
      FirstOfFrame(ms[0], Stream(ms[1..]));
      ParseStream(ms[1..]);
    }
  }

  // Data that arrives later only continues the reading.
  lemma {:induction false} ParseAppend(a: Data, b: Data)
    requires !Parse(a).malformed
    ensures var p, q := Parse(a), Parse(Parse(a).rest + b);
            Parse(a + b) == Reading(p.messages + q.messages, q.rest, q.malformed)
  {
    hide First;
    if !Incomplete(a) && !Malformed(a) {
      var l := WordAt(a, 2);
      ParseAppend(a[l..], b);
      FirstAppend(a, b);
      var p, q := Parse(a[l..]), Parse(Parse(a).rest + b);
      assert [First(a)] + (p.messages + q.messages) == [First(a)] + p.messages + q.messages;
    } else {
      var q := Parse(a + b);
      assert [] + q.messages == q.messages;
    }
  }

  lemma FirstAppend(a: Data, b: Data)
    requires !Incomplete(a) && !Malformed(a)
    ensures !Incomplete(a + b) && !Malformed(a + b) && First(a + b) == First(a)
    ensures WordAt(a + b, 2) == WordAt(a, 2) && (a + b)[WordAt(a, 2)..] == a[WordAt(a, 2)..] + b
  {
    assert (a + b)[4..WordAt(a, 2)] == a[4..WordAt(a, 2)];
  }

  // What has been delivered at any moment of a run is a prefix of what was
  // sent, and what is kept is the beginning of the next frame.
  lemma PrefixOfStream(ms: seq<Message>, arrived: Data)
    requires AllPack(ms) && arrived <= Stream(ms)
    ensures !Parse(arrived).malformed && Parse(arrived).messages <= ms
    ensures AllPack(Parse(arrived).messages)
    ensures arrived == Stream(Parse(arrived).messages) + Parse(arrived).rest
    ensures Incomplete(Parse(arrived).rest)
    ensures arrived == Stream(ms) ==> Parse(arrived) == Reading(ms, [], false)
  {
    hide Parse, Stream, Incomplete, Malformed;
    var later := Stream(ms)[|arrived|..];
    assert arrived + later == Stream(ms);
    ParseStream(ms);
    ParseIsExact(arrived);
    if Parse(arrived).malformed {
      MalformedForGood(arrived, later);
    } else {
      ParseAppend(arrived, later);
    }
  }

  // A malformed frame is noticed once and for all.
  lemma {:induction false} MalformedForGood(a: Data, b: Data)
    requires Parse(a).malformed
    ensures Parse(a + b).malformed && Parse(a + b).messages == Parse(a).messages
  {
    hide First;
    if !Incomplete(a) && !Malformed(a) {
      MalformedForGood(a[WordAt(a, 2)..], b);
      FirstAppend(a, b);
    }
  }

  // ---- the receiver -------------------------------------------------------

  // Lines 107-121: the inner loop. It ends because a frame has at least its
  // four header bytes; a shorter length raises struct.error.
  method TakeFrames(data0: Data) returns (messages: seq<Message>, data: Data, malformed: bool)
    ensures Reading(messages, data, malformed) == Parse(data0)
  {
    hide Parse;
    data, messages, malformed := data0, [], false;
    while |data| >= 4
      invariant Parse(data0) ==
        Reading(messages + Parse(data).messages, Parse(data).rest, Parse(data).malformed)
    {
      var tag, l := WordAt(data, 0), WordAt(data, 2);
      ParseFirst(data);
      if l > |data| {
        return;
      }
      if l < 4 {
        malformed := true;
        return;
      }
      var buf := data[4..l];
      data := data[l..];
      messages := messages + [Message(tag, buf)];
    }
    ParseFirst(data);
  }

  // Lines 97-121, for a connection that delivers these pieces before it ends or
  // before a frame is malformed.
  method HandleEvent(pieces: seq<Data>) returns (messages: seq<Message>, data: Data, malformed: bool)
    ensures var p := Parse(Concat(pieces));
            messages == p.messages && malformed == p.malformed && (!malformed ==> data == p.rest)
  {
    hide Parse, Concat;
    messages, data, malformed := [], [], false;
    ConcatStart(pieces);
    for i := 0 to |pieces|
      invariant !malformed
      invariant Parse(Concat(pieces[..i])) == Reading(messages, data, false)
    {
      ConcatNext(pieces, i);
      ParseAppend(Concat(pieces[..i]), pieces[i]);
      var more;
      more, data, malformed := TakeFrames(data + pieces[i]);
      messages := messages + more;
      if malformed {
        ConcatSplit(pieces, i + 1);
        MalformedForGood(Concat(pieces[..i + 1]), Concat(pieces[i + 1..]));
        return;
      }
    }
    assert pieces[..|pieces|] == pieces;
  }

  lemma ConcatStart(pieces: seq<Data>)
    ensures Concat(pieces[..0]) == [] && Parse([]) == Reading([], [], false)
  {
  }

  lemma ConcatNext(pieces: seq<Data>, i: nat)
    requires i < |pieces|
    ensures Concat(pieces[..i + 1]) == Concat(pieces[..i]) + pieces[i]
  {
    assert pieces[..i + 1] == pieces[..i] + [pieces[i]];
    ConcatAppend(pieces[..i], pieces[i]);
  }

  lemma {:induction false} ConcatSplit(pieces: seq<Data>, i: nat)
    requires i <= |pieces|
    ensures Concat(pieces) == Concat(pieces[..i]) + Concat(pieces[i..])
  {
    if i == 0 {
      assert pieces[0..] == pieces;
    } else {
      ConcatSplit(pieces, i - 1);
      ConcatNext(pieces, i - 1);
      assert pieces[i - 1..][1..] == pieces[i..];
    }
  }

  // Whatever way the stream of some messages is cut up, exactly those messages
  // are delivered, in order, and nothing is kept back.
  method DeliverAll(ms: seq<Message>, pieces: seq<Data>) returns (messages: seq<Message>)
    requires AllPack(ms) && Concat(pieces) == Stream(ms)
    ensures messages == ms
  {
    var data, malformed;
    messages, data, malformed := HandleEvent(pieces);
    ParseStream(ms);
  }
}
