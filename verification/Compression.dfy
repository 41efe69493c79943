/** Compressed blobs on a connection: the sender pulls chunks from a streaming compressor
    and frames each non-empty one, the receiver feeds frames to a streaming decompressor
    until the blob is full. The codec is any function from the frames fed so far to the
    bytes decoded so far that only ever appends; how many bytes one pull returns is open. */
module Compression {
  import opened Common
  import opened Framing

  /** `Aborted` is a failed `assert` of the receiver. */
  datatype Result = Done | Broken | Aborted

  // ---------------------------------------------------------------- sender

  /** The chunks that get sent: empty pulls are skipped. */
  function NonEmpty(pulls: seq<seq<byte>>): seq<seq<byte>>
  {
    if pulls == [] then []
    else if pulls[|pulls| - 1] == [] then NonEmpty(pulls[..|pulls| - 1])
    else NonEmpty(pulls[..|pulls| - 1]) + [pulls[|pulls| - 1]]
  }

  lemma OneMorePull(pulls: seq<seq<byte>>, k: nat)
    requires k < |pulls|
    ensures NonEmpty(pulls[..k + 1]) == if pulls[k] == [] then NonEmpty(pulls[..k]) else NonEmpty(pulls[..k]) + [pulls[k]]
  {
    assert pulls[..k + 1][..k] == pulls[..k];
  }

  /** The bytes of the chunks, in order. */
  function Joined(chunks: seq<seq<byte>>): seq<byte>
  {
    if chunks == [] then [] else Joined(chunks[..|chunks| - 1]) + chunks[|chunks| - 1]
  }

  /** No chunk that gets sent is empty, and together they are the bytes pulled. */
  lemma {:induction false} SkippingLosesNothing(pulls: seq<seq<byte>>)
    ensures [] !in NonEmpty(pulls)
    ensures Joined(NonEmpty(pulls)) == Joined(pulls)
    ensures NonEmpty(pulls) == [] <==> Joined(pulls) == []
  {
    if pulls != [] {
      var front, last := pulls[..|pulls| - 1], pulls[|pulls| - 1];
      SkippingLosesNothing(front);
      if last == [] {
        assert Joined(front) + last == Joined(front);
      } else {
        assert NonEmpty(pulls)[..|NonEmpty(pulls)| - 1] == NonEmpty(front);
      }
    }
  }

  /** `pulls` is what the compressor hands out, one chunk per `Pull`, until drained. */
  method CompressAndSend(conn: Connection, pulls: seq<seq<byte>>, patience: nat) returns (status: Status)
    requires Transmittable(pulls)
    modifies conn
    ensures status.Ok? ==> conn.stream == old(conn.stream) + Frames(NonEmpty(pulls))
  {
    for k := 0 to |pulls|
      invariant conn.stream == old(conn.stream) + Frames(NonEmpty(pulls[..k]))
    {
      OneMorePull(pulls, k);
      if pulls[k] != [] {
        FramesSnoc(NonEmpty(pulls[..k]), pulls[k]);
        // the size and the chunk, each with send_bytes, make one frame
        var chunk := new byte[|pulls[k]|](i requires 0 <= i < |pulls[k]| => pulls[k][i]);
        assert chunk[..] == pulls[k];
        status := SendMessage(conn, chunk, patience);
        if !status.Ok? {
          return;
        }
      }
    }
    assert pulls[..|pulls|] == pulls;
    status := Ok;
  }

  // ---------------------------------------------------------------- decompressor

  type Codec = seq<seq<byte>> -> seq<byte>

  /** Feeding one more frame only appends to what has been decoded. */
  ghost predicate Streaming(codec: Codec)
  {
    forall fed: seq<seq<byte>>, frame: seq<byte> {:trigger codec(fed + [frame])} :: codec(fed) <= codec(fed + [frame])
  }

  /** An empty frame, wherever it stands, changes nothing. */
  ghost predicate IgnoresEmpty(codec: Codec)
  {
    forall a: seq<seq<byte>>, b: seq<seq<byte>> {:trigger codec(a + [[]] + b)} :: codec(a + [[]] + b) == codec(a + b)
  }

  /** To such a codec the frames that get sent are as good as all that were pulled. */
  lemma {:induction false} SkippingDecodesAlike(codec: Codec, fed: seq<seq<byte>>, pulls: seq<seq<byte>>, tail: seq<seq<byte>>)
    requires IgnoresEmpty(codec)
    ensures codec(fed + NonEmpty(pulls) + tail) == codec(fed + pulls + tail)
    decreases |pulls|
  {
    if pulls != [] {
      var front, last := pulls[..|pulls| - 1], pulls[|pulls| - 1];
      if last == [] {
        SkippingDecodesAlike(codec, fed, front, tail);
        assert (fed + front) + [[]] + tail == fed + pulls + tail;
      } else {
        SkippingDecodesAlike(codec, fed, front, [last] + tail);
        assert fed + front + ([last] + tail) == fed + pulls + tail;
        assert fed + NonEmpty(front) + ([last] + tail) == fed + NonEmpty(pulls) + tail;
      }
    }
  }

  class Decompressor {
    const codec: Codec
    const capacity: nat
    var fed: seq<seq<byte>>
    var pulled: nat
    var finished: bool

    ghost predicate Valid()
      reads this
    {
      pulled <= |codec(fed)| && (finished ==> pulled == |codec(fed)|)
    }

    constructor (codec: Codec, capacity: nat)
      requires codec([]) == []
      ensures Valid() && fed == [] && finished && this.codec == codec && this.capacity == capacity
    {
      this.codec, this.capacity, fed, pulled, finished := codec, capacity, [], 0, true;
    }

    method Decompress(frame: seq<byte>)
      requires Valid() && finished && codec(fed) <= codec(fed + [frame])
      modifies this
      ensures Valid() && fed == old(fed) + [frame] && pulled == old(pulled) && !finished
    {
      fed := fed + [frame];
      finished := false;
    }

    /** Up to `room` more decoded bytes; `drained` once there are none. */
    method Pull(room: nat) returns (drained: bool, bytes: seq<byte>)
      requires Valid()
      modifies this
      ensures Valid() && fed == old(fed) && pulled == old(pulled) + |bytes| && |bytes| <= room
      ensures pulled <= |codec(fed)| && bytes == codec(fed)[old(pulled)..pulled]
      ensures room == 0 ==> !drained && finished == old(finished)
      ensures room > 0 ==> (drained <==> old(pulled) == |codec(fed)|) && (drained <==> finished) && (drained <==> bytes == [])
    {
      if room == 0 {
        return false, [];
      }
      if finished || pulled == |codec(fed)| {
        finished := true;
        return true, [];
      }
      var n: nat :| 0 < n <= room && pulled + n <= |codec(fed)|;
      bytes := codec(fed)[pulled..pulled + n];
      pulled := pulled + n;
      drained := false;
    }
  }

  // ---------------------------------------------------------------- receiver

  /** The next frame is longer than the decompressor's buffer. */
  ghost predicate AnnouncesMore(stream: seq<byte>, capacity: nat)
  {
    |stream| >= WORD && Number(stream[..WORD]) > capacity
  }

  method RecvFrame(conn: Connection, capacity: nat, patience: nat) returns (r: Result, frame: seq<byte>)
    modifies conn
    ensures r.Done? ==>
      && old(conn.stream) == Frame(frame) + conn.stream
      && |frame| < SIZE_MAX_PLUS_ONE && |frame| <= capacity
    ensures r.Aborted? ==> AnnouncesMore(old(conn.stream), capacity)
  {
    ghost var stream := conn.stream;
    var word := new byte[WORD];
    ghost var got;
    var status;
    status, got := RecvBytes(conn, word, WORD, patience);
    if !status.Ok? {
      return Broken, [];
    }
    ghost var prefix, rest := stream[..WORD], stream[WORD..];
    assert word[..] == prefix;
    BytesOfNumber(prefix);
    WordFits();
    var nbytes := Number(word[..]);
    if nbytes > capacity {
      return Aborted, [];
    }
    var incoming := new byte[nbytes];
    status, got := RecvBytes(conn, incoming, nbytes, patience);
    if !status.Ok? {
      return Broken, [];
    }
    frame := incoming[..];
    assert frame == rest[..nbytes];
    FrameSplits(stream, nbytes);
    r := Done;
  }

  lemma SlicesJoin(prefix: seq<byte>, whole: seq<byte>, i: nat, j: nat, k: nat)
    requires i <= j <= k <= |whole|
    ensures (prefix + whole[i..j]) + whole[j..k] == prefix + whole[i..k]
  {
  }

  /** Pull decoded bytes into the buffer until it is full or the frame is used up. */
  method FillFrom(dec: Decompressor, buffer: array<byte>, offset0: nat) returns (offset: nat)
    requires dec.Valid() && offset0 <= buffer.Length
    modifies dec, buffer
    ensures dec.Valid() && dec.fed == old(dec.fed)
    ensures offset0 <= offset <= buffer.Length && dec.pulled == old(dec.pulled) + (offset - offset0)
    ensures buffer[..offset] == old(buffer[..offset0]) + dec.codec(dec.fed)[old(dec.pulled)..dec.pulled]
    ensures offset < buffer.Length ==> dec.finished
  {
    offset := offset0;
    ghost var start := dec.pulled;
    while true
      invariant dec.Valid() && dec.fed == old(dec.fed)
      invariant offset0 <= offset <= buffer.Length && dec.pulled == start + (offset - offset0)
      invariant buffer[..offset] == old(buffer[..offset0]) + dec.codec(dec.fed)[start..dec.pulled]
      invariant offset == buffer.Length ==> offset == offset0
      decreases buffer.Length - offset
    {
      var drained, bytes := dec.Pull(buffer.Length - offset);
      if drained {
        return;
      }
      ghost var before := buffer[..offset];
      forall i | 0 <= i < |bytes| {
        buffer[offset + i] := bytes[i];
      }
      assert buffer[..offset + |bytes|] == before + bytes;
      SlicesJoin(old(buffer[..offset0]), dec.codec(dec.fed), start, dec.pulled - |bytes|, dec.pulled);
      offset := offset + |bytes|;
      if offset == buffer.Length {
        return;
      }
    }
  }

  /** The bytes the frames add to what a decompressor had decoded before. */
  function Added(codec: Codec, fed: seq<seq<byte>>, frames: seq<seq<byte>>): (s: seq<byte>)
    requires codec(fed) <= codec(fed + frames)
  {
    codec(fed + frames)[|codec(fed)|..]
  }

  lemma {:induction false} StreamingExtends(codec: Codec, fed: seq<seq<byte>>, frames: seq<seq<byte>>)
    requires Streaming(codec)
    ensures codec(fed) <= codec(fed + frames)
    decreases |frames|
  {
    if frames == [] {
      assert fed + frames == fed;
    } else {
      var init, last := frames[..|frames| - 1], frames[|frames| - 1];
      StreamingExtends(codec, fed, init);
      assert fed + frames == (fed + init) + [last];
      assert codec(fed + init) <= codec((fed + init) + [last]);
    }
  }

  /** Frames fed to a streaming codec: how much of the blob each prefix makes. */
  ghost function Size(codec: Codec, fed: seq<seq<byte>>, frames: seq<seq<byte>>): nat
    requires Streaming(codec)
  {
    StreamingExtends(codec, fed, frames);
    |Added(codec, fed, frames)|
  }

  /** The receiver stops at the first frame, and after at least one, that completes the
      blob. */
  ghost predicate StopsAfter(codec: Codec, fed: seq<seq<byte>>, taken: seq<seq<byte>>, size: nat)
    requires Streaming(codec)
  {
    taken != [] && Size(codec, fed, taken) == size && ShortUntil(codec, fed, taken, |taken|, size)
  }

  /** One turn of the receiving loop: take a frame and decode all of it. */
  method TakeFrame(conn: Connection, dec: Decompressor, buffer: array<byte>, offset0: nat, patience: nat)
    returns (r: Result, ghost frame: seq<byte>, offset: nat)
    requires dec.Valid() && dec.finished && Streaming(dec.codec) && offset0 <= buffer.Length
    modifies conn, dec, buffer
    ensures r.Done? ==>
      && dec.Valid() && dec.finished && dec.fed == old(dec.fed) + [frame]
      && old(conn.stream) == Frame(frame) + conn.stream && |frame| < SIZE_MAX_PLUS_ONE
      && offset <= buffer.Length && dec.codec(old(dec.fed)) <= dec.codec(dec.fed)
      && buffer[..offset] == old(buffer[..offset0]) + Added(dec.codec, old(dec.fed), [frame])
      && |frame| <= dec.capacity
    ensures r.Aborted? ==>
      || AnnouncesMore(old(conn.stream), dec.capacity)
      || (&& old(conn.stream) == Frame(frame) + conn.stream && |frame| < SIZE_MAX_PLUS_ONE
          && |dec.codec(old(dec.fed) + [frame])| > |dec.codec(old(dec.fed))| + (buffer.Length - offset0))
  {
    offset := offset0;
    var incoming;
    r, incoming := RecvFrame(conn, dec.capacity, patience);
    frame := incoming;
    if !r.Done? {
      return;
    }
    dec.Decompress(incoming);
    offset := FillFrom(dec, buffer, offset);
    var drained, extra := dec.Pull(1);
    if !drained {
      r := Aborted;
    }
  }

  lemma TakingExtends(codec: Codec, fed: seq<seq<byte>>, taken: seq<seq<byte>>, frame: seq<byte>,
                      before: seq<byte>, after: seq<byte>)
    requires Streaming(codec) && codec(fed) + before == codec(fed + taken)
    requires after == before + (codec((fed + taken) + [frame])[|codec(fed + taken)|..])
    ensures codec(fed) + after == codec(fed + (taken + [frame]))
    ensures Size(codec, fed, taken + [frame]) == |after|
    ensures (taken + [frame])[..|taken|] == taken
  {
    assert codec(fed + taken) <= codec((fed + taken) + [frame]);
    assert (fed + taken) + [frame] == fed + (taken + [frame]);
    assert codec(fed) + (before + (after[|before|..])) == codec(fed) + before + after[|before|..];
  }

  /** The state between two turns: what the frames taken have decoded to so far, all of
      them short of the whole blob. */
  ghost predicate Taking(codec: Codec, fed: seq<seq<byte>>, taken: seq<seq<byte>>, sofar: seq<byte>, size: nat)
    requires Streaming(codec)
  {
    && codec(fed) + sofar == codec(fed + taken)
    && Transmittable(taken) && ShortUntil(codec, fed, taken, |taken| + 1, size)
  }

  lemma TakeStep(codec: Codec, fed: seq<seq<byte>>, taken: seq<seq<byte>>, frame: seq<byte>,
                 before: seq<byte>, after: seq<byte>, size: nat)
    requires Streaming(codec) && Taking(codec, fed, taken, before, size) && |frame| < SIZE_MAX_PLUS_ONE
    requires after == before + (codec((fed + taken) + [frame])[|codec(fed + taken)|..]) && |after| <= size
    ensures (fed + taken) + [frame] == fed + (taken + [frame])
    ensures |after| < size ==> Taking(codec, fed, taken + [frame], after, size)
    ensures |after| == size ==>
      && codec(fed) + after == codec(fed + (taken + [frame])) && Transmittable(taken + [frame])
      && StopsAfter(codec, fed, taken + [frame], size)
  {
    TakingExtends(codec, fed, taken, frame, before, after);
    ShortExtends(codec, fed, taken, frame, size);
  }

  /** Why an assert of the receiver fails: it has taken some frames, all short of the blob,
      and the next is longer than its buffer or decodes to more than is missing. */
  ghost predicate Unusable(codec: Codec, fed: seq<seq<byte>>, taken: seq<seq<byte>>, rest: seq<byte>,
                           capacity: nat, size: nat)
    requires Streaming(codec)
  {
    && Transmittable(taken) && ShortUntil(codec, fed, taken, |taken| + 1, size)
    && (AnnouncesMore(rest, capacity) || exists frame, after :: Overfills(codec, fed, taken, rest, size, frame, after))
  }

  ghost predicate Overfills(codec: Codec, fed: seq<seq<byte>>, taken: seq<seq<byte>>, rest: seq<byte>, size: nat,
                            frame: seq<byte>, after: seq<byte>)
    requires Streaming(codec)
  {
    && rest == Frame(frame) + after && |frame| < SIZE_MAX_PLUS_ONE
    && Size(codec, fed, taken + [frame]) > size
  }

  lemma OverfillStep(codec: Codec, fed: seq<seq<byte>>, taken: seq<seq<byte>>, sofar: seq<byte>, size: nat, frame: seq<byte>)
    requires Streaming(codec) && Taking(codec, fed, taken, sofar, size) && |sofar| <= size
    requires |codec((fed + taken) + [frame])| > |codec(fed + taken)| + (size - |sofar|)
    ensures Size(codec, fed, taken + [frame]) > size
  {
    assert (fed + taken) + [frame] == fed + (taken + [frame]);
    SizeIs(codec, fed, taken + [frame]);
  }

  /** When the receiver is done, the buffer holds what the frames it took decode to, and
      it took as many as `StopsAfter` says and not one byte more. */
  method RecvAndDecompress(conn: Connection, dec: Decompressor, buffer: array<byte>, patience: nat)
    returns (r: Result, ghost taken: seq<seq<byte>>, ghost rest: seq<byte>)
    requires dec.Valid() && dec.finished && Streaming(dec.codec)
    modifies conn, dec, buffer
    ensures r.Done? ==>
      && dec.Valid() && dec.finished && dec.fed == old(dec.fed) + taken
      && old(conn.stream) == Frames(taken) + conn.stream && Transmittable(taken)
      && StopsAfter(dec.codec, old(dec.fed), taken, buffer.Length)
      && dec.codec(old(dec.fed)) + buffer[..] == dec.codec(dec.fed)
    ensures old(conn.stream) == Frames(taken) + rest && forall f :: f in taken ==> |f| <= dec.capacity
    ensures r.Done? ==> rest == conn.stream
    ensures r.Aborted? ==> Unusable(dec.codec, old(dec.fed), taken, rest, dec.capacity, buffer.Length)
  {
    var offset: nat := 0;
    taken, rest := [], conn.stream;
    assert dec.fed + [] == dec.fed;
    while true
      invariant dec.Valid() && dec.finished && dec.fed == old(dec.fed) + taken
      invariant old(conn.stream) == Frames(taken) + conn.stream && rest == conn.stream
      invariant forall f :: f in taken ==> |f| <= dec.capacity
      invariant offset <= buffer.Length && Taking(dec.codec, old(dec.fed), taken, buffer[..offset], buffer.Length)
      decreases |conn.stream|
    {
      ghost var frame, before := [], buffer[..offset];
      r, frame, offset := TakeFrame(conn, dec, buffer, offset, patience);
      if !r.Done? {
        if r.Aborted? && !AnnouncesMore(rest, dec.capacity) {
          OverfillStep(dec.codec, old(dec.fed), taken, before, buffer.Length, frame);
          assert Overfills(dec.codec, old(dec.fed), taken, rest, buffer.Length, frame, conn.stream);
        }
        return;
      }
      TakeStep(dec.codec, old(dec.fed), taken, frame, before, buffer[..offset], buffer.Length);
      FramesRegroup(taken, frame, conn.stream);
      taken, rest := taken + [frame], conn.stream;
      if offset == buffer.Length {
        assert buffer[..offset] == buffer[..];
        return;
      }
    }
  }

  ghost predicate ShortUntil(codec: Codec, fed: seq<seq<byte>>, taken: seq<seq<byte>>, n: nat, size: nat)
    requires Streaming(codec) && n <= |taken| + 1
  {
    forall k :: 0 < k < n ==> Size(codec, fed, taken[..k]) < size
  }

  lemma ShortExtends(codec: Codec, fed: seq<seq<byte>>, taken: seq<seq<byte>>, frame: seq<byte>, size: nat)
    requires Streaming(codec) && ShortUntil(codec, fed, taken, |taken| + 1, size)
    ensures ShortUntil(codec, fed, taken + [frame], |taken| + 1, size)
    ensures Size(codec, fed, taken + [frame]) < size ==> ShortUntil(codec, fed, taken + [frame], |taken| + 2, size)
  {
    var taken' := taken + [frame];
    assert taken'[..|taken'|] == taken';
    assert forall k :: 0 <= k <= |taken| ==> taken'[..k] == taken[..k];
  }

  // ---------------------------------------------------------------- both ends together

  lemma SizeIs(codec: Codec, fed: seq<seq<byte>>, frames: seq<seq<byte>>)
    requires Streaming(codec)
    ensures |codec(fed)| + Size(codec, fed, frames) == |codec(fed + frames)|
  {
    StreamingExtends(codec, fed, frames);
  }

  lemma SizeGrows(codec: Codec, fed: seq<seq<byte>>, frames: seq<seq<byte>>, j: nat, k: nat)
    requires Streaming(codec) && j <= k <= |frames|
    ensures Size(codec, fed, frames[..j]) <= Size(codec, fed, frames[..k])
    ensures codec(fed + frames[..j]) <= codec(fed + frames[..k])
  {
    assert fed + frames[..k] == (fed + frames[..j]) + frames[j..k];
    StreamingExtends(codec, fed + frames[..j], frames[j..k]);
    SizeIs(codec, fed, frames[..j]);
    SizeIs(codec, fed, frames[..k]);
  }

  /** What a caller can check of a compressed blob: there is a frame, and the last one is
      needed to complete it unless it is the only one. */
  ghost predicate LastFrameCounts(codec: Codec, fed: seq<seq<byte>>, frames: seq<seq<byte>>)
    requires Streaming(codec)
  {
    && frames != []
    && (|frames| > 1 ==> Size(codec, fed, frames[..|frames| - 1]) < Size(codec, fed, frames))
  }

  /** The receiver stops at the end of the frames sent if and only if the last counts. */
  lemma AlignedIffLastFrameCounts(codec: Codec, fed: seq<seq<byte>>, frames: seq<seq<byte>>, taken: seq<seq<byte>>,
                                  rest: seq<byte>, later: seq<byte>)
    requires Streaming(codec) && Transmittable(frames) && Transmittable(taken)
    requires Frames(taken) + rest == Frames(frames) + later
    requires StopsAfter(codec, fed, taken, Size(codec, fed, frames))
    ensures taken == frames <==> LastFrameCounts(codec, fed, frames)
    ensures taken == frames ==> rest == later
    ensures frames != [] ==> codec(fed + taken) == codec(fed + frames)
  {
    if frames != [] {
      TakenIsPrefix(codec, fed, frames, taken, rest, later);
      var m, k := |frames|, |taken|;
      assert frames[..m] == frames;
      SizeGrows(codec, fed, frames, k, m);
      SizeIs(codec, fed, taken);
      SizeIs(codec, fed, frames);
      if k < m {
        SizeGrows(codec, fed, frames, k, m - 1);
      } else if m > 1 {
        assert taken[..m - 1] == frames[..m - 1];
      }
    }
  }

  lemma TakenIsPrefix(codec: Codec, fed: seq<seq<byte>>, frames: seq<seq<byte>>, taken: seq<seq<byte>>,
                      rest: seq<byte>, later: seq<byte>)
    requires Streaming(codec) && Transmittable(frames) && Transmittable(taken) && frames != []
    requires Frames(taken) + rest == Frames(frames) + later
    requires StopsAfter(codec, fed, taken, Size(codec, fed, frames))
    ensures |taken| <= |frames| && taken == frames[..|taken|] && rest == Frames(frames[|taken|..]) + later
  {
    if |taken| > |frames| {
      FramesLineUp(frames, taken, later, rest);
      assert false;
    }
    FramesLineUp(taken, frames, rest, later);
  }

  /** On the frames of a blob of the right size no assert fails, unless a frame is longer
      than the decompressor's buffer. */
  lemma UnusableIsTooLong(codec: Codec, fed: seq<seq<byte>>, frames: seq<seq<byte>>, taken: seq<seq<byte>>,
                          rest: seq<byte>, later: seq<byte>, capacity: nat)
    requires Streaming(codec) && Transmittable(frames) && frames != []
    requires Frames(taken) + rest == Frames(frames) + later
    requires Unusable(codec, fed, taken, rest, capacity, Size(codec, fed, frames))
    ensures |taken| < |frames| && |frames[|taken|]| > capacity
  {
    var m, k := |frames|, |taken|;
    if k >= m {
      FramesLineUp(frames, taken, later, rest);
      assert false;
    }
    OversizeWasSent(frames, later, taken, rest);
    if !AnnouncesMore(rest, capacity) {
      var frame, after :| Overfills(codec, fed, taken, rest, Size(codec, fed, frames), frame, after);
      NoOverfill(codec, fed, frames, taken, rest, later, frame, after);
    }
  }

  /** A frame of the blob does not decode to more than the blob. */
  lemma NoOverfill(codec: Codec, fed: seq<seq<byte>>, frames: seq<seq<byte>>, taken: seq<seq<byte>>,
                   rest: seq<byte>, later: seq<byte>, frame: seq<byte>, after: seq<byte>)
    requires Streaming(codec) && Transmittable(frames) && Transmittable(taken) && |taken| < |frames|
    requires Frames(taken) + rest == Frames(frames) + later
    requires rest == Frame(frame) + after && |frame| < SIZE_MAX_PLUS_ONE
    ensures Size(codec, fed, taken + [frame]) <= Size(codec, fed, frames)
  {
    var k := |taken|;
    FramesLineUp(taken, frames, rest, later);
    var tail := frames[k..];
    assert rest == Frame(tail[0]) + (Frames(tail[1..]) + later) by {
      Associate(Frame(tail[0]), Frames(tail[1..]), later);
    }
    FrameIsUnique(frame, tail[0], after, Frames(tail[1..]) + later);
    assert taken + [frame] == frames[..k + 1];
    SizeGrows(codec, fed, frames, k + 1, |frames|);
    assert frames[..|frames|] == frames;
  }

  /** A second frame that decodes to nothing is left on the connection. */
  lemma EmptyLastFrameIsLeft() returns (codec: Codec, frames: seq<seq<byte>>, taken: seq<seq<byte>>)
    ensures Streaming(codec) && Transmittable(frames) && !LastFrameCounts(codec, [], frames)
    ensures StopsAfter(codec, [], taken, Size(codec, [], frames)) && taken != frames
    ensures |taken| < |frames| && Frames(taken) + Frames(frames[|taken|..]) == Frames(frames)
  {
    codec := fed => if fed == [] then [] else [0];
    frames, taken := [[1], [2]], [[1]];
    assert Streaming(codec);
    SizeIs(codec, [], frames);
    SizeIs(codec, [], taken);
    assert frames[..1] == taken && frames == taken + frames[1..];
    FramesConcat(taken, frames[1..]);
  }

  /** A blob sent and received with nothing else on the connection but `later`: the buffer
      is the blob; if the last frame counts, the connection is at `later`; and no assert of
      the receiver fails unless a frame is longer than the decompressor's buffer. */
  method SendAndReceive(conn: Connection, pulls: seq<seq<byte>>, later: seq<byte>, dec: Decompressor,
                        buffer: array<byte>, patience: nat)
    returns (r: Result)
    requires conn.stream == [] && Transmittable(pulls) && dec.Valid() && dec.finished && Streaming(dec.codec)
    requires buffer.Length == Size(dec.codec, dec.fed, NonEmpty(pulls))
    modifies conn, dec, buffer
    ensures r.Done? && NonEmpty(pulls) != [] ==>
      dec.codec(old(dec.fed)) + buffer[..] == dec.codec(old(dec.fed) + NonEmpty(pulls))
    ensures r.Done? && Joined(pulls) != [] && IgnoresEmpty(dec.codec) ==>
      dec.codec(old(dec.fed)) + buffer[..] == dec.codec(old(dec.fed) + pulls)
    ensures r.Done? && LastFrameCounts(dec.codec, old(dec.fed), NonEmpty(pulls)) ==>
      conn.stream == later && forall f :: f in NonEmpty(pulls) ==> |f| <= dec.capacity
    ensures r.Aborted? && NonEmpty(pulls) != [] ==> exists f :: f in NonEmpty(pulls) && |f| > dec.capacity
  {
    ghost var fed, frames := dec.fed, NonEmpty(pulls);
    var status := CompressAndSend(conn, pulls, patience);
    if !status.Ok? {
      return Broken;
    }
    conn.stream := conn.stream + later;
    assert conn.stream == Frames(frames) + later;
    NonEmptyIsTransmittable(pulls);
    SkippingLosesNothing(pulls);
    if IgnoresEmpty(dec.codec) {
      SkippingDecodesAlike(dec.codec, fed, pulls, []);
      assert fed + frames + [] == fed + frames && fed + pulls + [] == fed + pulls;
    }
    ghost var taken, rest;
    r, taken, rest := RecvAndDecompress(conn, dec, buffer, patience);
    if r.Done? {
      AlignedIffLastFrameCounts(dec.codec, fed, frames, taken, conn.stream, later);
    } else if r.Aborted? && frames != [] {
      UnusableIsTooLong(dec.codec, fed, frames, taken, rest, later, dec.capacity);
      assert frames[|taken|] in frames;
    }
  }

  lemma {:induction false} NonEmptyIsTransmittable(pulls: seq<seq<byte>>)
    requires Transmittable(pulls)
    ensures Transmittable(NonEmpty(pulls))
  {
    if pulls != [] {
      NonEmptyIsTransmittable(pulls[..|pulls| - 1]);
    }
  }
}
