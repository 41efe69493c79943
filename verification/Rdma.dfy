/** `TransferRemoteBlobWithRDMA`: a blob moves in windows, as large as the client can
    register and the server will grant, and each window in pieces of at most the device's
    transfer size. The device and the server answer as they please within a contract: a
    probe answers with any size, the server grants at most what was asked for, a failed
    completion may have written any of its piece. Waiting for memory is bounded by
    `patience`, which stands for how long the caller lets it go on. */
module Rdma {

  import opened Common

  datatype Status = Ok | Failed | Stalled

  /** Which way `rdma_opt` moves the bytes. */
  datatype Direction = Read | Write

  /** One completed `rdma_opt`: `length` bytes at an offset into the local buffer and one
      into the remote blob, issued under a local registration and a remote grant, both
      starting at `window`. */
  datatype Op = Op(local: nat, remote: nat, length: nat, window: nat, registered: nat, granted: nat)

  // ---------------------------------------------------------------- what a transfer is

  /** The operations cover [0, n) in order, without gap or overlap. */
  predicate Tiles(ops: seq<Op>, n: nat)
  {
    if ops == [] then n == 0
    else
      var last := ops[|ops| - 1];
      last.length > 0 && last.local + last.length == n && Tiles(ops[..|ops| - 1], last.local)
  }

  /** Each operation works at equal offsets, is no longer than the device allows, and lies
      inside the memory registered here and granted there, which lie inside the blob. */
  predicate InsideWindow(op: Op, size: nat, maxTransfer: nat)
  {
    && op.local == op.remote && op.length <= maxTransfer
    && op.window <= op.local && op.local + op.length <= op.window + op.registered
    && op.window <= op.remote && op.remote + op.length <= op.window + op.granted
    && op.granted <= op.registered && op.window + op.registered <= size
  }

  ghost predicate AllInside(ops: seq<Op>, size: nat, maxTransfer: nat)
  {
    forall i :: 0 <= i < |ops| ==> InsideWindow(ops[i], size, maxTransfer)
  }

  /** Every byte below `n` is moved by exactly one operation. */
  function Covers(ops: seq<Op>, i: nat): nat
  {
    if ops == [] then 0
    else
      var last := ops[|ops| - 1];
      Covers(ops[..|ops| - 1], i) + if last.local <= i < last.local + last.length then 1 else 0
  }

  lemma {:induction false} TilesCoverOnce(ops: seq<Op>, n: nat, i: nat)
    requires Tiles(ops, n)
    ensures Covers(ops, i) == if i < n then 1 else 0
  {
    if ops != [] {
      TilesCoverOnce(ops[..|ops| - 1], ops[|ops| - 1].local, i);
    }
  }

  /** Earlier operations end before later ones start. */
  lemma {:induction false} TilesAreOrdered(ops: seq<Op>, n: nat, i: nat, j: nat)
    requires Tiles(ops, n) && i < j < |ops|
    ensures ops[i].local + ops[i].length <= ops[j].local && ops[j].local + ops[j].length <= n
  {
    var before, last := ops[..|ops| - 1], ops[|ops| - 1];
    if j < |before| {
      TilesAreOrdered(before, last.local, i, j);
    } else {
      TilesEndBefore(before, last.local, i);
    }
  }

  lemma {:induction false} TilesEndBefore(ops: seq<Op>, n: nat, i: nat)
    requires Tiles(ops, n) && i < |ops|
    ensures ops[i].local + ops[i].length <= n
  {
    if i < |ops| - 1 {
      TilesEndBefore(ops[..|ops| - 1], ops[|ops| - 1].local, i);
    }
  }

  // ---------------------------------------------------------------- device and server

  datatype Answer = Fine | IOError | OtherError

  method RegisterMemory(size: nat) returns (answer: Answer)
  {
    answer := *;
  }

  method GetClientMaxRegisterSize(limit: nat) returns (size: nat)
  {
    size := *;
  }

  /** `RDMARequestMemInfo`: the server registers at most what it was asked for. */
  method RequestMemInfo(size: nat) returns (answer: Answer, granted: nat)
    ensures granted <= size
  {
    answer := *;
    granted :| granted <= size;
  }

  /** `rdma_opt` followed by `GetTXCompletion`: on success the piece has been copied, on
      failure nobody knows what it holds. */
  method MovePiece(dst: array<byte>, src: array<byte>, to: nat, from: nat, length: nat) returns (done: bool)
    requires dst != src && to + length <= dst.Length && from + length <= src.Length
    modifies dst
    ensures forall i :: 0 <= i < dst.Length && !(to <= i < to + length) ==> dst[i] == old(dst[i])
    ensures done ==> forall i :: to <= i < to + length ==> dst[i] == src[from + (i - to)]
  {
    done := *;
    for k := 0 to length
      invariant forall i :: 0 <= i < dst.Length && !(to <= i < to + length) ==> dst[i] == old(dst[i])
      invariant done ==> forall i :: to <= i < to + k ==> dst[i] == src[from + (i - to)]
    {
      if done {
        dst[to + k] := src[from + k];
      } else {
        dst[to + k] := *;
      }
    }
  }

  // ---------------------------------------------------------------- the transfer

  /** Register the next stretch of the buffer, shrinking it as the device demands. */
  method RegisterLocal(remain: nat, maxRegister0: nat, patience0: nat)
    returns (status: Status, size: nat, maxRegister: nat, patience: nat)
    requires remain > 0 ==> maxRegister0 > 0
    ensures status.Ok? ==> size <= remain && size <= maxRegister && (remain > 0 ==> size > 0)
    ensures remain > 0 ==> maxRegister > 0
    ensures patience <= patience0 && (status.Stalled? ==> patience == 0)
  {
    maxRegister, patience := maxRegister0, patience0;
    size := Min(remain, maxRegister);
    while true
      invariant size == Min(remain, maxRegister) && (remain > 0 ==> maxRegister > 0)
      invariant patience <= patience0
      decreases patience
    {
      var answer := RegisterMemory(size);
      if answer.Fine? {
        return Ok, size, maxRegister, patience;
      }
      if answer.OtherError? {
        return Failed, size, maxRegister, patience;
      }
      // probe the largest size that can be registered now
      var probed := GetClientMaxRegisterSize(size);
      while probed == 0
        invariant patience <= patience0
        decreases patience
      {
        if patience == 0 {
          return Stalled, size, maxRegister, patience;
        }
        patience := patience - 1;
        probed := GetClientMaxRegisterSize(size);
      }
      maxRegister := probed;
      size := Min(remain, maxRegister);
      if patience == 0 {
        return Stalled, size, maxRegister, patience;
      }
      patience := patience - 1;
    }
  }

  /** Ask the server for the same stretch until it grants some of it. */
  method RequestRemote(size: nat, patience0: nat) returns (status: Status, granted: nat, patience: nat)
    ensures status.Ok? ==> 0 < granted <= size
    ensures patience <= patience0 && (status.Stalled? ==> patience == 0)
  {
    patience := patience0;
    granted := 0;
    while granted == 0
      invariant granted == 0 && patience <= patience0
      decreases patience
    {
      var answer;
      answer, granted := RequestMemInfo(size);
      if !answer.Fine? {
        return Failed, granted, patience;
      }
      if granted > 0 {
        return Ok, granted, patience;
      }
      if patience == 0 {
        return Stalled, granted, patience;
      }
      patience := patience - 1;
    }
    status := Ok;
  }

  /** `moved` bytes are tiled by the operations and equal on both sides. */
  ghost predicate Moved(dst: array<byte>, src: array<byte>, ops: seq<Op>, moved: nat, maxTransfer: nat)
    reads dst, src
  {
    && moved <= dst.Length == src.Length
    && Tiles(ops, moved) && AllInside(ops, dst.Length, maxTransfer)
    && (forall i :: 0 <= i < moved ==> dst[i] == src[i])
  }

  /** Move one granted window, piece by piece. */
  method MoveWindow(dst: array<byte>, src: array<byte>, dir: Direction, window: nat, registered: nat, granted: nat,
                    maxTransfer: nat, ops0: seq<Op>)
    returns (status: Status, ops: seq<Op>, moved: nat)
    requires dst != src && maxTransfer > 0 && Moved(dst, src, ops0, window, maxTransfer)
    requires granted <= registered && window + registered <= dst.Length
    modifies dst
    ensures Moved(dst, src, ops, moved, maxTransfer)
    ensures window <= moved <= window + granted && (status.Ok? ==> moved == window + granted)
    ensures forall i :: moved + maxTransfer <= i < dst.Length ==> dst[i] == old(dst[i])
    ensures status.Ok? ==> forall i :: moved <= i < dst.Length ==> dst[i] == old(dst[i])
  {
    ops := ops0;
    var remainBytes: nat := granted;
    while remainBytes > 0
      invariant remainBytes <= granted
      invariant Moved(dst, src, ops, window + (granted - remainBytes), maxTransfer)
      invariant forall i :: window + (granted - remainBytes) <= i < dst.Length ==> dst[i] == old(dst[i])
    {
      var length := Min(remainBytes, maxTransfer);
      var soFar := granted - remainBytes;
      var local, remote := window + soFar, window + soFar;
      var done := MovePiece(dst, src, if dir.Read? then local else remote, if dir.Read? then remote else local, length);
      if !done {
        return Failed, ops, local;
      }
      ghost var before := ops;
      ops := ops + [Op(local, remote, length, window, registered, granted)];
      assert ops[..|ops| - 1] == before;
      remainBytes := remainBytes - length;
    }
    return Ok, ops, window + granted;
  }

  /** The whole transfer. On `Ok` the two sides hold the same bytes; at any other end,
      the part reported as moved is equal and nothing past the piece in flight is touched. */
  method TransferRemoteBlob(local: array<byte>, remote: array<byte>, dir: Direction, maxTransfer: nat, patience0: nat)
    returns (status: Status, ops: seq<Op>, moved: nat)
    requires local != remote && local.Length == remote.Length && maxTransfer > 0
    modifies if dir.Read? then local else remote
    ensures var dst, src := if dir.Read? then local else remote, if dir.Read? then remote else local;
            && Moved(dst, src, ops, moved, maxTransfer)
            && (forall i :: moved + maxTransfer <= i < dst.Length ==> dst[i] == old(dst[i]))
    ensures status.Ok? ==> moved == local.Length && local[..] == remote[..]
    ensures local.Length == 0 ==> !status.Ok?
  {
    var dst, src := local, remote;
    if dir.Write? {
      dst, src := remote, local;
    }
    var size := local.Length;
    var remainBlob: nat, maxRegister: nat, patience: nat := size, size, patience0;
    ops := [];
    while true
      invariant remainBlob <= size && (size > 0 ==> remainBlob > 0)
      invariant remainBlob > 0 ==> maxRegister > 0
      invariant Moved(dst, src, ops, size - remainBlob, maxTransfer)
      invariant forall i :: size - remainBlob <= i < size ==> dst[i] == old(dst[i])
      decreases remainBlob
    {
      var window := size - remainBlob;
      var registered: nat, granted: nat;
      status, registered, maxRegister, patience := RegisterLocal(remainBlob, maxRegister, patience);
      if !status.Ok? {
        return status, ops, window;
      }
      status, granted, patience := RequestRemote(registered, patience);
      if !status.Ok? {
        return status, ops, window;
      }
      status, ops, moved := MoveWindow(dst, src, dir, window, registered, granted, maxTransfer, ops);
      if !status.Ok? {
        return status, ops, moved;
      }
      remainBlob := remainBlob - granted;
      var released := ReleaseBoth();
      if !released {
        return Failed, ops, moved;
      }
      if remainBlob == 0 {
        return Ok, ops, moved;
      }
    }
  }

  /** `DeregisterMemory` and `RDMAReleaseMemInfo`. */
  method ReleaseBoth() returns (released: bool)
  {
    released := *;
  }
}
