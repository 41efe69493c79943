/** Length-prefixed messages over a byte stream. A connection is the stream of bytes not
    yet read: a read may return fewer bytes than asked for, a write may take fewer than
    offered, either may ask to be tried again, and either may fail. A reader that finds
    nothing to read yet is one that is asked to try again, so reading while the other side
    is still writing needs no case of its own. `patience` bounds the retries. */
module Framing {

  import opened Common

  /** `OutOfRange` marks the one length whose buffer size, length + 1, wraps to zero. */
  datatype Status = Ok | Failed | Stalled | OutOfRange

  const WORD := 8  // sizeof(size_t)

  // ---------------------------------------------------------------- size_t on the wire

  function Pow256(n: nat): (p: nat)
    ensures p > 0
  {
    if n == 0 then 1 else 256 * Pow256(n - 1)
  }

  /** The `n` low bytes of `x`, least significant first. */
  function Bytes(x: nat, n: nat): (s: seq<byte>)
    ensures |s| == n
  {
    if n == 0 then [] else [x % 256] + Bytes(x / 256, n - 1)
  }

  function Number(s: seq<byte>): (x: nat)
    ensures x < Pow256(|s|)
  {
    if s == [] then 0 else s[0] + 256 * Number(s[1..])
  }

  lemma {:induction false} NumberOfBytes(x: nat, n: nat)
    requires x < Pow256(n)
    ensures Number(Bytes(x, n)) == x
  {
    if n > 0 {
      NumberOfBytes(x / 256, n - 1);
      assert Bytes(x, n)[1..] == Bytes(x / 256, n - 1);
    }
  }

  lemma WordFits()
    ensures Pow256(WORD) == SIZE_MAX_PLUS_ONE
  {
    assert Pow256(4) == 0x1_0000_0000;
    assert Pow256(6) == 0x1_0000_0000_0000;
  }

  // ---------------------------------------------------------------- frames

  function Frame(msg: seq<byte>): (f: seq<byte>)
  {
    Bytes(|msg|, WORD) + msg
  }

  function Frames(msgs: seq<seq<byte>>): (f: seq<byte>)
  {
    if msgs == [] then [] else Frame(msgs[0]) + Frames(msgs[1..])
  }

  // ---------------------------------------------------------------- the connection

  datatype Outcome = Transferred(n: nat) | Retry | Error

  class Connection {
    var stream: seq<byte>

    constructor ()
      ensures stream == []
    {
      stream := [];
    }

    /** `send`: takes at least one and at most all of the bytes offered, or none. */
    method Send(data: array<byte>, offset: nat, left: nat) returns (r: Outcome)
      requires offset + left <= data.Length && left > 0
      modifies this
      ensures match r
        case Transferred(n) => n <= left && stream == old(stream) + data[offset..offset + n]
        case _ => stream == old(stream)
    {
      r := *;
      if r.Transferred? {
        var n: nat :| n <= left;
        r := Transferred(n);
        stream := stream + data[offset..offset + n];
      }
    }

    /** `read`: fills part of the buffer from the front of the stream. */
    method Read(data: array<byte>, offset: nat, left: nat) returns (r: Outcome)
      requires offset + left <= data.Length && left > 0
      modifies this, data
      ensures match r
        case Transferred(n) =>
          && n <= left && n <= |old(stream)|
          && stream == old(stream)[n..]
          && data[..] == old(data[..])[..offset] + old(stream)[..n] + old(data[..])[offset + n..]
        case _ => stream == old(stream) && data[..] == old(data[..])
    {
      r := *;
      if r.Transferred? {
        var n: nat :| n <= left && n <= |stream|;
        r := Transferred(n);
        forall i | 0 <= i < n {
          data[offset + i] := stream[i];
        }
        stream := stream[n..];
      }
    }
  }

  // ---------------------------------------------------------------- bytes

  /** On every schedule of short writes and retries: the bytes taken are a prefix of the
      data, and all of it on success. */
  method SendBytes(conn: Connection, data: array<byte>, patience0: nat) returns (status: Status, ghost sent: nat)
    modifies conn
    ensures sent <= data.Length && conn.stream == old(conn.stream) + data[..sent]
    ensures status.Ok? ==> sent == data.Length
    ensures !status.OutOfRange?
  {
    var bytesLeft: nat, offset: nat, patience: nat := data.Length, 0, patience0;
    while bytesLeft > 0
      invariant bytesLeft + offset == data.Length
      invariant conn.stream == old(conn.stream) + data[..offset]
      decreases bytesLeft, patience
    {
      var r := conn.Send(data, offset, bytesLeft);
      match r
      case Error => return Failed, offset;
      case Retry =>
        if patience == 0 {
          return Stalled, offset;
        }
        patience := patience - 1;
      case Transferred(n) =>
        if n == 0 {
          return Failed, offset;
        }
        assert data[..offset] + data[offset..offset + n] == data[..offset + n];
        bytesLeft := bytesLeft - n;
        offset := offset + n;
    }
    return Ok, offset;
  }

  /** On every schedule of short reads and retries: what is read is the front of the
      stream, and exactly `length` bytes of it on success. */
  method RecvBytes(conn: Connection, data: array<byte>, length: nat, patience0: nat)
    returns (status: Status, ghost got: nat)
    requires length <= data.Length
    modifies conn, data
    ensures got <= length && got <= |old(conn.stream)| && conn.stream == old(conn.stream)[got..]
    ensures data[..] == old(conn.stream)[..got] + old(data[..])[got..]
    ensures status.Ok? ==> got == length
    ensures !status.OutOfRange?
  {
    var bytesLeft: nat, offset: nat, patience: nat := length, 0, patience0;
    ghost var front, tail := conn.stream, data[..];
    while bytesLeft > 0
      invariant bytesLeft + offset == length
      invariant Mirrors(front, tail, data[..], conn.stream, offset)
      decreases bytesLeft, patience
    {
      var r := ReadSome(conn, data, offset, bytesLeft, front, tail);
      if r == Transferred(0) || !r.Transferred? {
        if r == Retry && patience > 0 {
          patience := patience - 1;
        } else {
          return if r == Retry then Stalled else Failed, offset;
        }
      } else {
        bytesLeft := bytesLeft - r.n;
        offset := offset + r.n;
      }
    }
    return Ok, offset;
  }

  method ReadSome(conn: Connection, data: array<byte>, offset: nat, left: nat, ghost front: seq<byte>, ghost tail: seq<byte>)
    returns (r: Outcome)
    requires offset + left <= data.Length && left > 0 && Mirrors(front, tail, data[..], conn.stream, offset)
    modifies conn, data
    ensures r.Transferred? ==> r.n <= left
    ensures Mirrors(front, tail, data[..], conn.stream, if r.Transferred? then offset + r.n else offset)
  {
    ghost var before, stream := data[..], conn.stream;
    r := conn.Read(data, offset, left);
    if r.Transferred? {
      ReadStep(front, tail, before, stream, offset, r.n, data[..], conn.stream);
    }
  }

  /** The front of the stream has moved into the front of the buffer. */
  ghost predicate Mirrors(front: seq<byte>, tail: seq<byte>, data: seq<byte>, stream: seq<byte>, offset: nat)
  {
    && offset <= |front| && offset <= |tail|
    && stream == front[offset..]
    && data == front[..offset] + tail[offset..]
  }

  /** One short read moves a little more of it. */
  lemma ReadStep(front: seq<byte>, tail: seq<byte>, before: seq<byte>, stream: seq<byte>, offset: nat, n: nat,
                 data: seq<byte>, stream': seq<byte>)
    requires Mirrors(front, tail, before, stream, offset) && n <= |stream| && offset + n <= |before|
    requires stream' == stream[n..] && data == before[..offset] + stream[..n] + before[offset + n..]
    ensures Mirrors(front, tail, data, stream', offset + n)
  {
    assert before[..offset] == front[..offset];
    assert before[offset + n..] == tail[offset + n..];
    assert front[..offset] + front[offset..][..n] == front[..offset + n];
  }

  // ---------------------------------------------------------------- messages

  lemma {:induction false} BytesOfNumber(s: seq<byte>)
    ensures Bytes(Number(s), |s|) == s
  {
    if s != [] {
      BytesOfNumber(s[1..]);
      assert Number(s) % 256 == s[0] && Number(s) / 256 == Number(s[1..]);
    }
  }

  method SendMessage(conn: Connection, msg: array<byte>, patience: nat) returns (status: Status)
    requires msg.Length < SIZE_MAX_PLUS_ONE
    modifies conn
    ensures status.Ok? ==> conn.stream == old(conn.stream) + Frame(msg[..])
    ensures old(conn.stream) <= conn.stream <= old(conn.stream) + Frame(msg[..])
    ensures !status.OutOfRange?
  {
    var word := Bytes(msg.Length, WORD);
    var length := new byte[WORD](i requires 0 <= i < WORD => word[i]);
    assert length[..] == word;
    ghost var sent;
    status, sent := SendBytes(conn, length, patience);
    assert word[..sent] + (word[sent..] + msg[..]) == Frame(msg[..]);
    if status.Ok? {
      assert word[..sent] == word;
      status, sent := SendBytes(conn, msg, patience);
      assert old(conn.stream) + word + msg[..sent] + msg[sent..] == old(conn.stream) + Frame(msg[..]);
    }
  }

  /** A length prefix, the frame it announces, and what follows. */
  lemma FrameSplits(stream: seq<byte>, n: nat)
    requires |stream| >= WORD && n <= |stream| - WORD && Bytes(n, WORD) == stream[..WORD]
    ensures stream == Frame(stream[WORD..][..n]) + stream[WORD..][n..]
  {
    var rest := stream[WORD..];
    assert rest == rest[..n] + rest[n..];
    assert stream == stream[..WORD] + rest;
  }

  /** The received string is one longer than the message and ends in a zero byte. */
  method RecvMessage(conn: Connection, patience: nat) returns (status: Status, msg: seq<byte>)
    modifies conn
    ensures status.Ok? ==> |msg| > 0 && msg[|msg| - 1] == 0 && |msg| < SIZE_MAX_PLUS_ONE
    ensures status.Ok? ==> old(conn.stream) == Frame(msg[..|msg| - 1]) + conn.stream
    ensures status.OutOfRange? ==> |old(conn.stream)| >= WORD && Number(old(conn.stream)[..WORD]) + 1 == SIZE_MAX_PLUS_ONE
  {
    ghost var stream := conn.stream;
    var word := new byte[WORD];
    ghost var got;
    status, got := RecvBytes(conn, word, WORD, patience);
    if !status.Ok? {
      return status, [];
    }
    assert word[..] == stream[..WORD];
    BytesOfNumber(word[..]);
    WordFits();
    var length := Number(word[..]);
    if length + 1 == SIZE_MAX_PLUS_ONE {
      return OutOfRange, [];
    }
    var buffer := new byte[length + 1](_ => 0);
    status, got := RecvBytes(conn, buffer, length, patience);
    msg := buffer[..];
    if status.Ok? {
      FrameSplits(stream, length);
      assert msg[..|msg| - 1] == stream[WORD..][..length];
    }
  }

  // ---------------------------------------------------------------- whole conversations

  /** Short enough for the receiver's buffer, which is one byte longer. */
  ghost predicate Sendable(msgs: seq<seq<byte>>)
  {
    forall i :: 0 <= i < |msgs| ==> |msgs[i]| < SIZE_MAX_PLUS_ONE - 1
  }

  /** Short enough for the length word. */
  ghost predicate Transmittable(msgs: seq<seq<byte>>)
  {
    forall i :: 0 <= i < |msgs| ==> |msgs[i]| < SIZE_MAX_PLUS_ONE
  }

  lemma {:induction false} FramesSnoc(msgs: seq<seq<byte>>, msg: seq<byte>)
    ensures Frames(msgs + [msg]) == Frames(msgs) + Frame(msg)
  {
    if msgs == [] {
      assert [msg][1..] == [];
    } else {
      assert (msgs + [msg])[1..] == msgs[1..] + [msg];
      FramesSnoc(msgs[1..], msg);
    }
  }

  lemma Associate(x: seq<byte>, y: seq<byte>, z: seq<byte>)
    ensures (x + y) + z == x + (y + z)
  {
  }

  /** A frame moves from what is still to come to what has gone before. */
  lemma FramesRegroup(msgs: seq<seq<byte>>, msg: seq<byte>, rest: seq<byte>)
    ensures Frames(msgs) + (Frame(msg) + rest) == Frames(msgs + [msg]) + rest
    ensures (rest + Frames(msgs)) + Frame(msg) == rest + Frames(msgs + [msg])
  {
    FramesSnoc(msgs, msg);
    Associate(Frames(msgs), Frame(msg), rest);
    Associate(rest, Frames(msgs), Frame(msg));
  }

  method SendAll(conn: Connection, msgs: seq<seq<byte>>, patience: nat) returns (status: Status)
    requires Transmittable(msgs)
    modifies conn
    ensures status.Ok? ==> conn.stream == old(conn.stream) + Frames(msgs)
    ensures !status.OutOfRange?
  {
    for k := 0 to |msgs|
      invariant conn.stream == old(conn.stream) + Frames(msgs[..k])
    {
      var msg := new byte[|msgs[k]|](i requires 0 <= i < |msgs[k]| => msgs[k][i]);
      assert msg[..] == msgs[k];
      FramesRegroup(msgs[..k], msgs[k], old(conn.stream));
      assert msgs[..k + 1] == msgs[..k] + [msgs[k]];
      status := SendMessage(conn, msg, patience);
      if !status.Ok? {
        return;
      }
    }
    assert msgs[..|msgs|] == msgs;
    status := Ok;
  }

  /** `r` is `msgs` with one zero byte after each. */
  ghost predicate ZeroTerminated(r: seq<seq<byte>>, msgs: seq<seq<byte>>)
  {
    |r| == |msgs| && forall i :: 0 <= i < |r| ==> r[i] == msgs[i] + [0]
  }

  method RecvAll(conn: Connection, count: nat, patience: nat)
    returns (status: Status, r: seq<seq<byte>>, ghost msgs: seq<seq<byte>>, ghost rest: seq<byte>)
    modifies conn
    ensures Sendable(msgs) && ZeroTerminated(r, msgs) && old(conn.stream) == Frames(msgs) + rest
    ensures status.Ok? ==> |msgs| == count && conn.stream == rest
    ensures !status.Ok? ==> |msgs| < count
    ensures status.OutOfRange? ==> |rest| >= WORD && Number(rest[..WORD]) + 1 == SIZE_MAX_PLUS_ONE
  {
    r, msgs, rest := [], [], conn.stream;
    for k := 0 to count
      invariant |msgs| == k && Sendable(msgs) && ZeroTerminated(r, msgs)
      invariant old(conn.stream) == Frames(msgs) + conn.stream && rest == conn.stream
    {
      var msg;
      status, msg := RecvMessage(conn, patience);
      if !status.Ok? {
        return;
      }
      ghost var body := msg[..|msg| - 1];
      FramesRegroup(msgs, body, conn.stream);
      r, msgs, rest := r + [msg], msgs + [body], conn.stream;
    }
    status := Ok;
  }

  /** A stream determines the messages at its front and where they end. */
  lemma {:induction false} FramesAreUnique(a: seq<seq<byte>>, b: seq<seq<byte>>, s: seq<byte>, t: seq<byte>)
    requires Transmittable(a) && Transmittable(b) && |a| == |b| && Frames(a) + s == Frames(b) + t
    ensures a == b && s == t
  {
    if a == [] {
      assert Frames(a) + s == s && Frames(b) + t == t;
    } else {
      var s', t' := Frames(a[1..]) + s, Frames(b[1..]) + t;
      assert Frames(a) + s == Frame(a[0]) + s' && Frames(b) + t == Frame(b[0]) + t';
      FrameIsUnique(a[0], b[0], s', t');
      FramesAreUnique(a[1..], b[1..], s, t);
      assert a == [a[0]] + a[1..] && b == [b[0]] + b[1..];
    }
  }

  lemma FrameIsUnique(a: seq<byte>, b: seq<byte>, s: seq<byte>, t: seq<byte>)
    requires |a| < SIZE_MAX_PLUS_ONE && |b| < SIZE_MAX_PLUS_ONE && Frame(a) + s == Frame(b) + t
    ensures a == b && s == t
  {
    var whole := Frame(a) + s;
    WordFits();
    NumberOfBytes(|a|, WORD);
    NumberOfBytes(|b|, WORD);
    assert whole[..WORD] == Bytes(|a|, WORD) && whole[..WORD] == Bytes(|b|, WORD);
    assert whole[WORD..WORD + |a|] == a && whole[WORD..WORD + |b|] == b;
    assert whole[WORD + |a|..] == s && whole[WORD + |b|..] == t;
  }

  lemma {:induction false} FramesConcat(a: seq<seq<byte>>, b: seq<seq<byte>>)
    ensures Frames(a + b) == Frames(a) + Frames(b)
  {
    if a == [] {
      assert a + b == b;
    } else {
      assert (a + b)[1..] == a[1..] + b;
      FramesConcat(a[1..], b);
    }
  }

  lemma FramesLineUp(a: seq<seq<byte>>, b: seq<seq<byte>>, s: seq<byte>, t: seq<byte>)
    requires Transmittable(a) && Transmittable(b) && |a| <= |b| && Frames(a) + s == Frames(b) + t
    ensures a == b[..|a|] && s == Frames(b[|a|..]) + t
  {
    SplitFrames(b, |a|, t);
    FramesAreUnique(a, b[..|a|], s, Frames(b[|a|..]) + t);
  }

  lemma SplitFrames(b: seq<seq<byte>>, n: nat, t: seq<byte>)
    requires n <= |b|
    ensures Frames(b) + t == Frames(b[..n]) + (Frames(b[n..]) + t)
  {
    assert b == b[..n] + b[n..];
    FramesConcat(b[..n], b[n..]);
    Associate(Frames(b[..n]), Frames(b[n..]), t);
  }

  /** A receiver that finds a length it cannot take, after some messages of a stream, has
      met a message of that length. */
  lemma OversizeWasSent(msgs: seq<seq<byte>>, later: seq<byte>, got: seq<seq<byte>>, rest: seq<byte>)
    requires Transmittable(msgs) && Transmittable(got) && |got| < |msgs| && Frames(got) + rest == Frames(msgs) + later
    ensures |rest| >= WORD && Number(rest[..WORD]) == |msgs[|got|]|
  {
    FramesLineUp(got, msgs, rest, later);
    var next := msgs[|got|];
    assert msgs[|got|..][0] == next;
    WordFits();
    NumberOfBytes(|next|, WORD);
    assert rest[..WORD] == Bytes(|next|, WORD);
  }

  /** Whatever the schedule, a conversation that both sides complete delivers the same
      messages in order, and the reader stops exactly at the end of the last frame. The
      receiver refuses exactly a message of 2^64 - 1 bytes. */
  method Converse(conn: Connection, msgs: seq<seq<byte>>, later: seq<byte>, patience: nat)
    returns (status: Status, r: seq<seq<byte>>)
    requires Transmittable(msgs) && conn.stream == []
    modifies conn
    ensures status.Ok? ==> ZeroTerminated(r, msgs) && conn.stream == later && Sendable(msgs)
    ensures status.OutOfRange? ==> !Sendable(msgs)
  {
    r := [];
    status := SendAll(conn, msgs, patience);
    if status.Ok? {
      conn.stream := conn.stream + later;
      ghost var got, rest;
      status, r, got, rest := RecvAll(conn, |msgs|, patience);
      if status.Ok? {
        FramesAreUnique(msgs, got, later, conn.stream);
      } else if status.OutOfRange? {
        OversizeWasSent(msgs, later, got, rest);
      }
    }
  }
}
