/** The byte queue over a doubly mapped buffer, linux-2022/quiz12/problem2/queue.h:147-219.
    Calls run under a lock, so each method is what one call does between two waits. */
module MessageQueue {
  import opened RingWords

  type byte = x: int | 0 <= x < 256

  // ---------- the header: two 64-bit little-endian numbers ----------

  const HEADER: int := 16

  function Pow256(n: nat): (p: int)
    ensures p > 0
  {
    if n == 0 then 1 else 256 * Pow256(n - 1)
  }

  function Encode(x: int, n: nat): (s: seq<byte>)
    ensures |s| == n
    decreases n
  {
    if n == 0 then [] else [x % 256] + Encode(x / 256, n - 1)
  }

  function Decode(s: seq<byte>): int {
    if s == [] then 0 else s[0] + 256 * Decode(s[1..])
  }

  lemma {:induction false} DecodeEncode(x: int, n: nat)
    requires 0 <= x < Pow256(n)
    ensures Decode(Encode(x, n)) == x
  {
    if n > 0 {
      DecodeEncode(x / 256, n - 1);
      assert Encode(x, n)[1..] == Encode(x / 256, n - 1);
    }
  }

  lemma Pow256Eight()
    ensures Pow256(8) == WORD
  {
    assert Pow256(4) == 0x1_0000_0000;
    assert Pow256(8) == 256 * (256 * (256 * (256 * Pow256(4))));
  }

  function Header(len: int, number: int): (s: seq<byte>)
    ensures |s| == HEADER
  {
    Encode(len, 8) + Encode(number, 8)
  }

  /** Reading a header back gives the length and the sequence number written. */
  lemma HeaderRoundTrip(len: int, number: int)
    requires 0 <= len < WORD && 0 <= number < WORD
    ensures Decode(Header(len, number)[..8]) == len && Decode(Header(len, number)[8..]) == number
  {
    Pow256Eight();
    DecodeEncode(len, 8);
    DecodeEncode(number, 8);
    assert Header(len, number)[..8] == Encode(len, 8) && Header(len, number)[8..] == Encode(number, 8);
  }

  // ---------- the bytes of the queued messages ----------

  /** A message as it lies in the buffer, numbered `number`. */
  function Frame(body: seq<byte>, number: int): seq<byte> {
    Header(|body|, number) + body
  }

  function Next(number: int): int { (number + 1) % WORD }

  /** The frames of the messages, the first one numbered `number`. */
  function Frames(messages: seq<seq<byte>>, number: int): seq<byte> {
    if messages == [] then [] else Frame(messages[0], number) + Frames(messages[1..], Next(number))
  }

  function Number(number: int, k: nat): int { (number + k) % WORD }

  lemma FramesCons(body: seq<byte>, rest: seq<seq<byte>>, number: int)
    ensures Frames([body] + rest, number) == Frame(body, number) + Frames(rest, Next(number))
  {
    assert ([body] + rest)[1..] == rest;
  }

  lemma {:induction false} FramesAppend(messages: seq<seq<byte>>, body: seq<byte>, number: int, last: int)
    requires 0 <= number < WORD && last == Number(number, |messages|)
    ensures Frames(messages + [body], number) == Frames(messages, number) + Frame(body, last)
  {
    if messages == [] {
      FramesCons(body, [], number);
      NumberZero(number);
    } else {
      var first, rest := messages[0], messages[1..];
      NumberNext(number, |rest|);
      FramesAppend(rest, body, Next(number), last);
      FramesCons(first, rest, number);
      FramesCons(first, rest + [body], number);
      assert messages == [first] + rest && messages + [body] == [first] + (rest + [body]);
      Associate(Frame(first, number), Frames(rest, Next(number)), Frame(body, last));
    }
  }

  lemma Associate<T>(s: seq<T>, t: seq<T>, u: seq<T>)
    ensures s + (t + u) == (s + t) + u
  {
  }

  lemma NumberZero(number: int)
    requires 0 <= number < WORD
    ensures Number(number, 0) == number
  {
    ModUnique(number, WORD, 0, number);
  }

  lemma NumberNext(number: int, k: nat)
    ensures Number(Next(number), k) == Number(number, k + 1)
  {
    ModShift(number + 1, k, WORD);
  }

  /** The space the messages take. */
  function Used(messages: seq<seq<byte>>): (n: nat)
    ensures n >= HEADER * |messages|
  {
    if messages == [] then 0 else HEADER + |messages[0]| + Used(messages[1..])
  }

  lemma {:induction false} FramesLength(messages: seq<seq<byte>>, number: int)
    ensures |Frames(messages, number)| == Used(messages)
  {
    if messages != [] { FramesLength(messages[1..], Next(number)); }
  }

  lemma {:induction false} UsedAppend(messages: seq<seq<byte>>, body: seq<byte>)
    ensures Used(messages + [body]) == Used(messages) + HEADER + |body|
  {
    if messages == [] {
      assert (messages + [body])[1..] == [];
    } else {
      UsedAppend(messages[1..], body);
      assert (messages + [body])[1..] == messages[1..] + [body];
    }
  }

  // ---------- the mirrored buffer ----------

  // The byte behind an address in the two mappings of a buffer of `n` bytes.
  function Wrap(i: int, n: int): int {
    if i < n then i else i - n
  }

  /** `buffer[i]` and `buffer[i + size]` are the same byte. */
  function At(buffer: seq<byte>, i: int): byte
    requires 0 <= i < 2 * |buffer|
  {
    buffer[Wrap(i, |buffer|)]
  }

  /** The bytes from `lo` on are `s`. */
  ghost predicate Shows(buffer: seq<byte>, lo: int, s: seq<byte>) {
    0 <= lo && lo + |s| <= 2 * |buffer| && forall k {:trigger s[k]} :: 0 <= k < |s| ==> At(buffer, lo + k) == s[k]
  }

  lemma ShowsPart(buffer: seq<byte>, lo: int, s: seq<byte>, t: seq<byte>)
    requires Shows(buffer, lo, s + t)
    ensures Shows(buffer, lo, s) && Shows(buffer, lo + |s|, t)
  {
    forall k | 0 <= k < |s| ensures At(buffer, lo + k) == s[k] { assert (s + t)[k] == s[k]; }
    forall k | 0 <= k < |t| ensures At(buffer, lo + |s| + k) == t[k] { assert (s + t)[|s| + k] == t[k]; }
  }

  lemma ShowsJoin(buffer: seq<byte>, lo: int, s: seq<byte>, t: seq<byte>)
    requires Shows(buffer, lo, s) && Shows(buffer, lo + |s|, t)
    ensures Shows(buffer, lo, s + t)
  {
    forall k | 0 <= k < |s + t| ensures At(buffer, lo + k) == (s + t)[k] {
      if k < |s| { assert (s + t)[k] == s[k]; } else { assert (s + t)[k] == t[k - |s|]; }
    }
  }

  // A lap back, the bytes are the same.
  lemma ShowsLap(buffer: seq<byte>, lo: int, s: seq<byte>)
    requires Shows(buffer, lo, s) && lo >= |buffer|
    ensures Shows(buffer, lo - |buffer|, s)
  {
    forall k | 0 <= k < |s| ensures At(buffer, lo - |buffer| + k) == s[k] { assert At(buffer, lo + k) == s[k]; }
  }

  lemma ShowsWrite(buffer: seq<byte>, lo: int, s: seq<byte>, at: int, x: byte)
    requires Shows(buffer, lo, s) && lo + |s| <= at < lo + |buffer| && at < 2 * |buffer|
    ensures Shows(buffer[Wrap(at, |buffer|) := x], lo, s)
  {
    var b := buffer[Wrap(at, |buffer|) := x];
    forall k | 0 <= k < |s| ensures At(b, lo + k) == s[k] { assert At(buffer, lo + k) == s[k]; }
  }

  lemma ShowsNext(buffer: seq<byte>, lo: int, s: seq<byte>, x: byte)
    requires Shows(buffer, lo, s) && |s| < |buffer| && lo + |s| < 2 * |buffer|
    ensures Shows(buffer[Wrap(lo + |s|, |buffer|) := x], lo, s + [x])
  {
    ShowsWrite(buffer, lo, s, lo + |s|, x);
    ShowsJoin(buffer[Wrap(lo + |s|, |buffer|) := x], lo, s, [x]);
  }

  // ---------- memcpy into and out of the buffer ----------

  method Write(buffer: array<byte>, at: int, bytes: seq<byte>, ghost lo: int, ghost s: seq<byte>)
    requires Shows(buffer[..], lo, s) && at == lo + |s| && |s| + |bytes| <= buffer.Length
      && at + |bytes| <= 2 * buffer.Length
    modifies buffer
    ensures Shows(buffer[..], lo, s + bytes)
  {
    var k := 0;
    assert s + bytes[..0] == s;
    while k < |bytes|
      invariant 0 <= k <= |bytes| && Shows(buffer[..], lo, s + bytes[..k])
    {
      ShowsNext(buffer[..], lo, s + bytes[..k], bytes[k]);
      assert s + bytes[..k] + [bytes[k]] == s + bytes[..k + 1];
      buffer[Wrap(at + k, buffer.Length)] := bytes[k];
      k := k + 1;
    }
    assert bytes[..|bytes|] == bytes;
  }

  method Read(buffer: array<byte>, at: int, n: int, ghost s: seq<byte>) returns (bytes: seq<byte>)
    requires n == |s| && Shows(buffer[..], at, s)
    ensures bytes == s
  {
    bytes := [];
    while |bytes| < n
      invariant |bytes| <= n && bytes == s[..|bytes|]
    {
      ghost var k := |bytes|;
      assert At(buffer[..], at + k) == s[k];
      bytes := bytes + [buffer[Wrap(at + |bytes|, buffer.Length)]];
    }
  }

  // ---------- the queue ----------

  datatype GetResult = Got(body: seq<byte>) | Empty | TooLong(number: int)

  // The message that a get would take, if it is short enough.
  function Takes(messages: seq<seq<byte>>, number: int, max: int): GetResult {
    if messages == [] then Empty
    else if |messages[0]| > max then TooLong(number)
    else Got(messages[0])
  }

  ghost predicate Layout(buffer: seq<byte>, head: int, tail: int, headSeq: int, tailSeq: int, messages: seq<seq<byte>>)
  {
    && 0 < |buffer| < WORD && 0 <= head < |buffer| && 0 <= headSeq < WORD
    && tail == head + Used(messages) && tail <= head + |buffer|
    && tailSeq == Number(headSeq, |messages|)
    && Shows(buffer, head, Frames(messages, headSeq))
  }

  datatype Op = Put(body: seq<byte>) | Get(max: int)

  /** What callers see: the queued messages, the number of the first, and the messages accepted
      and delivered so far. */
  datatype State = State(messages: seq<seq<byte>>, headSeq: int, accepted: seq<seq<byte>>, delivered: seq<seq<byte>>)

  function Step(size: int, s: State, op: Op): State {
    match op
    case Put(body) =>
      if Used(s.messages) + HEADER + |body| <= size then
        s.(messages := s.messages + [body], accepted := s.accepted + [body])
      else s
    case Get(max) =>
      if Takes(s.messages, s.headSeq, max).Got? then
        s.(messages := s.messages[1..], headSeq := Next(s.headSeq), delivered := s.delivered + [s.messages[0]])
      else s
  }

  class MessageQueue {
    const buffer: array<byte>
    var head: int
    var tail: int
    var headSeq: int
    var tailSeq: int
    ghost var messages: seq<seq<byte>>
    ghost var accepted: seq<seq<byte>>
    ghost var delivered: seq<seq<byte>>

    /** The bytes between head and tail are the frames of the queued messages, numbered from
        `headSeq`, and those are the bodies accepted and not yet delivered. */
    ghost predicate Valid()
      reads this, buffer
    {
      && Layout(buffer[..], head, tail, headSeq, tailSeq, messages)
      && accepted == delivered + messages
    }

    ghost function Seen(): State
      reads this
    {
      State(messages, headSeq, accepted, delivered)
    }

    /** queue_init, with the two mappings of the buffer. */
    constructor (size: int)
      requires 0 < size < WORD
      ensures Valid() && Seen() == State([], 0, [], []) && buffer.Length == size && fresh(buffer)
    {
      NumberZero(0);
      buffer := new byte[size](_ => 0);
      head, tail, headSeq, tailSeq, messages, accepted, delivered := 0, 0, 0, 0, [], [], [];
    }

    /** queue_put up to its wait: `ok` says that the message was written, and otherwise the
        caller waits. */
    method TryPut(body: seq<byte>) returns (ok: bool)
      requires Valid() && |body| + HEADER < WORD
      modifies this, buffer
      ensures Valid() && ok == (Used(old(messages)) + HEADER + |body| <= buffer.Length)
      ensures messages == old(messages) + (if ok then [body] else []) && headSeq == old(headSeq)
      ensures Seen() == Step(buffer.Length, old(Seen()), Put(body))
      ensures !ok ==> tail == old(tail) && head == old(head) && tailSeq == old(tailSeq) && buffer[..] == old(buffer[..])
    {
      if buffer.Length - (tail - head) < |body| + HEADER {
        return false;
      }
      PutWorks(messages, body, headSeq, tailSeq);
      ghost var s := Frames(messages, headSeq);
      var header := Header(|body|, tailSeq);
      Write(buffer, tail, header, head, s);
      Write(buffer, tail + HEADER, body, head, s + header);
      Associate(s, header, body);
      tail := tail + |body| + HEADER;
      tailSeq := Next(tailSeq);
      Associate(delivered, messages, [body]);
      messages, accepted := messages + [body], accepted + [body];
      return true;
    }

    /** queue_get up to its waits: `Empty` and `TooLong` say that the caller waits, the latter
        until the message with that number is consumed. */
    method TryGet(max: int) returns (r: GetResult)
      requires Valid() && max >= 0
      modifies this
      ensures Valid() && r == Takes(old(messages), old(headSeq), max)
      ensures if r.Got? then messages == old(messages)[1..] && headSeq == Next(old(headSeq))
              else messages == old(messages) && headSeq == old(headSeq) && head == old(head) && tail == old(tail)
      ensures tailSeq == old(tailSeq)
      ensures Seen() == Step(buffer.Length, old(Seen()), Get(max))
      ensures delivered == old(delivered) + if r.Got? then [r.body] else []
    {
      if tail - head == 0 {
        return Empty;
      }
      var len, number := ReadHeader();
      if len > max {
        return TooLong(number);
      }
      var body := ReadBody(len);
      Consume(len, body);
      return Got(body);
    }

    // Line 189.
    method ReadHeader() returns (len: int, number: int)
      requires Valid() && messages != []
      ensures len == |messages[0]| && number == headSeq
    {
      FrontShows(buffer[..], head, messages, headSeq, head + HEADER, head + HEADER + |messages[0]|);
      var header := Read(buffer, head, HEADER, Header(|messages[0]|, headSeq));
      HeaderRoundTrip(|messages[0]|, headSeq);
      len, number := Decode(header[..8]), Decode(header[8..]);
    }

    // Line 203.
    method ReadBody(len: int) returns (body: seq<byte>)
      requires Valid() && messages != [] && len == |messages[0]|
      ensures body == messages[0]
    {
      FrontShows(buffer[..], head, messages, headSeq, head + HEADER, head + HEADER + |messages[0]|);
      body := Read(buffer, head + HEADER, len, messages[0]);
    }

    // Lines 205-213, for the body that was read.
    method Consume(len: int, ghost body: seq<byte>)
      requires Valid() && messages != [] && len == |messages[0]| && body == messages[0]
      modifies `head, `tail, `headSeq, `messages, `delivered
      ensures Valid() && messages == old(messages)[1..] && headSeq == Next(old(headSeq))
      ensures delivered == old(delivered) + [body]
    {
      TakeFirst(delivered, messages);
      Advance(len);
      delivered := delivered + [body];
    }

    method Advance(len: int)
      requires Layout(buffer[..], head, tail, headSeq, tailSeq, messages) && messages != [] && len == |messages[0]|
      modifies `head, `tail, `headSeq, `messages
      ensures Layout(buffer[..], head, tail, headSeq, tailSeq, messages)
      ensures messages == old(messages)[1..] && headSeq == Next(old(headSeq))
    {
      ConsumeWorks(buffer[..], head, tail, headSeq, tailSeq, messages);
      var head' := head + len + HEADER;
      if head' >= buffer.Length {
        head, tail, headSeq, messages := head' - buffer.Length, tail - buffer.Length, Next(headSeq), messages[1..];
      } else {
        head, headSeq, messages := head', Next(headSeq), messages[1..];
      }
    }
  }

  lemma TakeFirst<T>(taken: seq<T>, rest: seq<T>)
    requires rest != []
    ensures taken + rest == (taken + [rest[0]]) + rest[1..]
  {
  }

  // The front message consumed, and the indices back in the first mapping.
  lemma ConsumeWorks(buffer: seq<byte>, head: int, tail: int, headSeq: int, tailSeq: int, messages: seq<seq<byte>>)
    requires Layout(buffer, head, tail, headSeq, tailSeq, messages) && messages != []
    ensures var head' := head + |messages[0]| + HEADER;
      if head' >= |buffer| then Layout(buffer, head' - |buffer|, tail - |buffer|, Next(headSeq), tailSeq, messages[1..])
      else Layout(buffer, head', tail, Next(headSeq), tailSeq, messages[1..])
  {
    var rest := head + |messages[0]| + HEADER;
    FrontShows(buffer, head, messages, headSeq, head + HEADER, rest);
    NumberNext(headSeq, |messages| - 1);
    if rest >= |buffer| { ShowsLap(buffer, rest, Frames(messages[1..], Next(headSeq))); }
  }

  lemma PutFrames(messages: seq<seq<byte>>, body: seq<byte>, headSeq: int, tailSeq: int)
    requires 0 <= headSeq < WORD && tailSeq == Number(headSeq, |messages|)
    ensures Frames(messages + [body], headSeq) == Frames(messages, headSeq) + (Header(|body|, tailSeq) + body)
  {
    FramesAppend(messages, body, headSeq, tailSeq);
  }

  lemma NumberAfter(number: int, k: nat)
    ensures Next(Number(number, k)) == Number(number, k + 1)
  {
    ModShift(number + k, 1, WORD);
  }

  lemma PutWorks(messages: seq<seq<byte>>, body: seq<byte>, headSeq: int, tailSeq: int)
    requires 0 <= headSeq < WORD && tailSeq == Number(headSeq, |messages|)
    ensures Frames(messages + [body], headSeq) == Frames(messages, headSeq) + (Header(|body|, tailSeq) + body)
    ensures Used(messages + [body]) == Used(messages) + HEADER + |body| && |Frames(messages, headSeq)| == Used(messages)
    ensures Next(tailSeq) == Number(headSeq, |messages| + 1)
  {
    PutFrames(messages, body, headSeq, tailSeq);
    UsedAppend(messages, body);
    FramesLength(messages, headSeq);
    NumberAfter(headSeq, |messages|);
  }

  // The header, the body and the rest lie one after the other.
  lemma FrontShows(buffer: seq<byte>, head: int, messages: seq<seq<byte>>, headSeq: int, body: int, rest: int)
    requires messages != [] && Shows(buffer, head, Frames(messages, headSeq))
    requires body == head + HEADER && rest == body + |messages[0]|
    ensures Shows(buffer, head, Header(|messages[0]|, headSeq)) && Shows(buffer, body, messages[0])
    ensures Shows(buffer, rest, Frames(messages[1..], Next(headSeq)))
    ensures Used(messages) == HEADER + |messages[0]| + Used(messages[1..])
  {
    ThreeShow(buffer, head, body, rest, Header(|messages[0]|, headSeq), messages[0],
      Frames(messages[1..], Next(headSeq)));
  }

  lemma ThreeShow(buffer: seq<byte>, p: int, q: int, r: int, s: seq<byte>, t: seq<byte>, u: seq<byte>)
    requires Shows(buffer, p, (s + t) + u) && q == p + |s| && r == q + |t|
    ensures Shows(buffer, p, s) && Shows(buffer, q, t) && Shows(buffer, r, u)
  {
    Associate(s, t, u);
    ShowsPart(buffer, p, s, t + u);
    ShowsPart(buffer, q, t, u);
  }

  // ---------- runs of puts and gets ----------

  function Exec(size: int, s: State, ops: seq<Op>): State
    decreases |ops|
  {
    if ops == [] then s else Step(size, Exec(size, s, ops[..|ops| - 1]), ops[|ops| - 1])
  }

  // `t` comes some steps after `s`.
  predicate Follows(size: int, s: State, t: State) {
    && t.accepted == t.delivered + t.messages && Used(t.messages) <= size
    && |s.delivered| <= |t.delivered| && t.headSeq == Number(s.headSeq, |t.delivered| - |s.delivered|)
  }

  lemma PutFollows(size: int, s: State, t: State, body: seq<byte>)
    requires Follows(size, s, t)
    ensures Follows(size, s, Step(size, t, Put(body)))
  {
    UsedAppend(t.messages, body);
    assert t.delivered + (t.messages + [body]) == (t.delivered + t.messages) + [body];
  }

  lemma GetFollows(size: int, s: State, t: State, max: int)
    requires Follows(size, s, t)
    ensures Follows(size, s, Step(size, t, Get(max)))
  {
    if t.messages != [] {
      assert t.delivered + t.messages == (t.delivered + [t.messages[0]]) + t.messages[1..];
      NumberAfter(s.headSeq, |t.delivered| - |s.delivered|);
    }
  }

  /** Messages come out whole, in the order they went in, and none is lost; `headSeq` has moved
      on by the number delivered. */
  lemma {:induction false} Fifo(size: int, s: State, ops: seq<Op>)
    requires s.accepted == s.delivered + s.messages && Used(s.messages) <= size && 0 <= s.headSeq < WORD
    ensures Follows(size, s, Exec(size, s, ops))
    decreases |ops|
  {
    if ops == [] {
      NumberZero(s.headSeq);
    } else {
      Fifo(size, s, ops[..|ops| - 1]);
      var t, op := Exec(size, s, ops[..|ops| - 1]), ops[|ops| - 1];
      if op.Put? { PutFollows(size, s, t, op.body); } else { GetFollows(size, s, t, op.max); }
    }
  }

  /** A get that waits because the message numbered `head_seq` is too long for it sees a
      different `head_seq` exactly when that message has been delivered, as long as fewer than
      2^64 are. */
  lemma WaiterSeesProgress(size: int, s: State, ops: seq<Op>)
    requires s.accepted == s.delivered + s.messages && Used(s.messages) <= size && 0 <= s.headSeq < WORD
    requires |Exec(size, s, ops).delivered| < |s.delivered| + WORD
    ensures Exec(size, s, ops).headSeq == s.headSeq <==> |Exec(size, s, ops).delivered| == |s.delivered|
  {
    Fifo(size, s, ops);
    var k := |Exec(size, s, ops).delivered| - |s.delivered|;
    NumberZero(s.headSeq);
    if k > 0 { ModDistinct(s.headSeq, s.headSeq + k, WORD); }
  }

  /** `tail_seq` - `head_seq`, on 64 bits, is the number of queued messages. */
  lemma DifferenceCounts(messages: seq<seq<byte>>, headSeq: int, tailSeq: int, size: int)
    requires 0 <= headSeq < WORD && tailSeq == Number(headSeq, |messages|) && Used(messages) <= size < WORD
    ensures (tailSeq - headSeq) % WORD == |messages|
  {
    ModShift(headSeq + |messages|, -headSeq, WORD);
    ModUnique(|messages|, WORD, 0, |messages|);
  }
}
