/** The client's reference-count cache: `UsageTracker` on top of `LifeCycleTracker`. Only
    the first use and the last release of a blob concern the server; the uses between them
    are counted here. Whether the server accepts a release request is left open. */
module Usage {
  import opened Common

  datatype Status = Ok | NotExists | NotSealed | ServerError

  datatype Payload<Body> = Payload(body: Body, refCnt: int, isSealed: bool)

  /** The tracker's fields, and the requests it has sent: how often `OnRelease` and
      `OnDelete` have gone out for each id. */
  datatype Cache<Id, Body> = Cache(
    inUse: map<Id, Payload<Body>>,
    pending: set<Id>,
    released: multiset<Id>,
    deleted: multiset<Id>)

  function Empty<Id, Body>(): Cache<Id, Body>
  {
    Cache(map[], {}, multiset{}, multiset{})
  }

  // ---------------------------------------------------------------- one operation

  function Modified<Id, Body>(c: Cache<Id, Body>, id: Id, change: int): Cache<Id, Body>
    requires id in c.inUse
  {
    c.(inUse := c.inUse[id := c.inUse[id].(refCnt := c.inUse[id].refCnt + change)])
  }

  /** A new entry starts at zero and is counted at once; an old one keeps its payload. */
  function Added<Id, Body>(c: Cache<Id, Body>, id: Id, p: Payload<Body>): Cache<Id, Body>
  {
    var c' := if id in c.inUse then c else c.(inUse := c.inUse[id := p.(refCnt := 0)]);
    Modified(c', id, 1)
  }

  function Dropped<Id, Body>(c: Cache<Id, Body>, id: Id): Cache<Id, Body>
  {
    c.(inUse := c.inUse - {id})
  }

  /** One use less; the last one drops the entry, tells the server, and carries out a
      deletion that was waiting for it. */
  function Removed<Id, Body>(c: Cache<Id, Body>, id: Id): Cache<Id, Body>
  {
    if id !in c.inUse then c
    else if c.inUse[id].refCnt > 1 then Modified(c, id, -1)
    else
      Cache(c.inUse - {id}, c.pending - {id}, c.released + multiset{id},
            if id in c.pending then c.deleted + multiset{id} else c.deleted)
  }

  function Sealed<Id, Body>(c: Cache<Id, Body>, id: Id): Cache<Id, Body>
  {
    if id in c.inUse then c.(inUse := c.inUse[id := c.inUse[id].(isSealed := true)]) else c
  }

  function Marked<Id, Body>(c: Cache<Id, Body>, id: Id): Cache<Id, Body>
  {
    if id !in c.inUse then c
    else if c.inUse[id].refCnt != 0 then c.(pending := c.pending + {id})
    else c.(deleted := c.deleted + multiset{id})
  }

  class UsageTracker<Id(==), Body> {
    var cache: Cache<Id, Body>

    constructor ()
      ensures cache == Empty()
    {
      cache := Empty();
    }

    method FetchOnLocal(id: Id) returns (status: Status, payload: Option<Payload<Body>>)
      ensures status.Ok? <==> id in cache.inUse && cache.inUse[id].isSealed
      ensures status.NotExists? <==> id !in cache.inUse
      ensures payload == if id in cache.inUse then Some(cache.inUse[id]) else None
    {
      if id in cache.inUse {
        return if cache.inUse[id].isSealed then Ok else NotSealed, Some(cache.inUse[id]);
      }
      return NotExists, None;
    }

    method SealUsage(id: Id) returns (status: Status)
      modifies this
      ensures cache == Sealed(old(cache), id)
      ensures status == if id in old(cache).inUse then Ok else NotExists
    {
      if id in cache.inUse {
        cache := cache.(inUse := cache.inUse[id := cache.inUse[id].(isSealed := true)]);
        return Ok;
      }
      return NotExists;
    }

    method FetchAndModify(id: Id, change: int) returns (status: Status, refCnt: int)
      modifies this
      ensures if id in old(cache).inUse
              then status == Ok && cache == Modified(old(cache), id, change) && refCnt == cache.inUse[id].refCnt
              else status == NotExists && cache == old(cache)
    {
      refCnt := 0;
      if id in cache.inUse {
        cache := Modified(cache, id, change);
        return Ok, cache.inUse[id].refCnt;
      }
      return NotExists, refCnt;
    }

    method AddUsage(id: Id, payload: Payload<Body>) returns (status: Status)
      modifies this
      ensures status == Ok && cache == Added(old(cache), id, payload)
    {
      if id !in cache.inUse {
        cache := cache.(inUse := cache.inUse[id := payload.(refCnt := 0)]);
      }
      var refCnt;
      status, refCnt := FetchAndModify(id, 1);
    }

    /** `RemoveUsage`, that is `DecreaseReferenceCount`. The entry goes before the server is
        asked, so it is gone even when the server refuses. */
    method RemoveUsage(id: Id) returns (status: Status)
      modifies this
      ensures cache == Removed(old(cache), id)
      ensures status.NotExists? <==> id !in old(cache).inUse
      ensures status == NotExists || status == Ok || (status == ServerError && id !in cache.inUse)
    {
      var refCnt;
      status, refCnt := FetchAndModify(id, -1);
      if !status.Ok? || refCnt > 0 {
        return;
      }
      DeleteUsage(id);
      var accepted: bool := *;
      cache := cache.(released := cache.released + multiset{id});
      if id in cache.pending {
        cache := cache.(pending := cache.pending - {id}, deleted := cache.deleted + multiset{id});
      }
      status := if accepted then Ok else ServerError;
    }

    method DeleteUsage(id: Id)
      modifies this
      ensures cache == Dropped(old(cache), id)
    {
      if id in cache.inUse {
        cache := cache.(inUse := cache.inUse - {id});
      }
    }

    method PreDelete(id: Id) returns (status: Status)
      modifies this
      ensures cache == Marked(old(cache), id)
      ensures status.NotExists? <==> id !in old(cache).inUse
    {
      var refCnt;
      status, refCnt := FetchAndModify(id, 0);
      if !status.Ok? {
        return;
      }
      if refCnt != 0 {
        cache := cache.(pending := cache.pending + {id});
      } else {
        cache := cache.(deleted := cache.deleted + multiset{id});
      }
    }

    /** The waiting deletions go out first, while the entries are still there. */
    method ClearCache()
      modifies this
      ensures cache == Forgotten(Flushed(old(cache)))
    {
      cache := cache.(deleted := cache.deleted + multiset(cache.pending), pending := {});
      cache := cache.(inUse := map[]);
    }

    /** The counting part of `GetMetaData`: one use of every payload in the server's reply. */
    method UsePayloads(payloads: seq<(Id, Payload<Body>)>)
      modifies this
      ensures cache == AddedAll(old(cache), payloads)
    {
      for i := 0 to |payloads|
        invariant AddedAll(cache, payloads[i..]) == AddedAll(old(cache), payloads)
      {
        assert payloads[i..][1..] == payloads[i + 1..];
        var status := AddUsage(payloads[i].0, payloads[i].1);
      }
    }

    /** The counting part of `Release`: the blobs of one object, in id order, up to the first
        failure: an id that is not in use, or a refusal by the server. */
    method Release(ids: seq<Id>) returns (status: Status)
      requires Distinct(ids)
      modifies this
      ensures status == Ok || status == NotExists || status == ServerError
      ensures status != ServerError ==> cache == ReleasedAll(old(cache), ids)
      ensures status == Ok ==> Stop(old(cache), ids) == |ids|
      ensures status == NotExists ==> Stop(old(cache), ids) < |ids|
      ensures exists k :: 0 <= k <= Stop(old(cache), ids) && cache == ReleasedAll(old(cache), ids[..k])
    {
      for i := 0 to |ids|
        invariant i <= Stop(old(cache), ids)
        invariant cache == ReleasedAll(old(cache), ids[..i])
      {
        ReleasedAllSnoc(old(cache), ids, i);
        status := RemoveUsage(ids[i]);
        if status == NotExists {
          ReleaseStops(old(cache), ids);
          return;
        }
        if status == ServerError {
          return;
        }
      }
      assert ids[..|ids|] == ids;
      status := Ok;
    }

    /** `GetMetaData` and then `Release` of one object, as far as the counts go. Unless the
        server refuses a release, the entries are as before exactly when the blobs that the
        server no longer knew are the last in id order and the first of them was not in use. */
    method UseThenRelease(payloads: seq<(Id, Payload<Body>)>, ids: seq<Id>) returns (status: Status)
      requires Distinct(ids) && Distinct(Ids(payloads)) && Counted(cache)
      requires forall id :: id in Ids(payloads) ==> id in ids
      modifies this
      ensures status != ServerError ==>
        (cache.inUse == old(cache).inUse <==> exists k :: Restorable(old(cache), ids, Ids(payloads), k))
    {
      UsePayloads(payloads);
      status := Release(ids);
      RestoredIff(old(cache), payloads, ids);
    }
  }

  /** The two halves of `ClearCache`. */
  function Flushed<Id, Body>(c: Cache<Id, Body>): Cache<Id, Body>
  {
    c.(pending := {}, deleted := c.deleted + multiset(c.pending))
  }

  function Forgotten<Id, Body>(c: Cache<Id, Body>): Cache<Id, Body>
  {
    c.(inUse := map[])
  }

  // ---------------------------------------------------------------- every run

  datatype Op<Id, Body> =
    | Add(id: Id, payload: Payload<Body>)
    | Increase(id: Id)
    | Remove(id: Id)
    | Drop(id: Id)
    | Seal(id: Id)
    | Mark(id: Id)
    | Flush
    | Forget

  function Apply<Id, Body>(c: Cache<Id, Body>, op: Op<Id, Body>): Cache<Id, Body>
  {
    match op
    case Add(id, p) => Added(c, id, p)
    case Increase(id) => if id in c.inUse then Modified(c, id, 1) else c
    case Remove(id) => Removed(c, id)
    case Drop(id) => Dropped(c, id)
    case Seal(id) => Sealed(c, id)
    case Mark(id) => Marked(c, id)
    case Flush => Flushed(c)
    case Forget => Forgotten(c)
  }

  /** A run: the caches between the operations, from the empty one. */
  ghost predicate History<Id, Body>(caches: seq<Cache<Id, Body>>, ops: seq<Op<Id, Body>>)
  {
    && |caches| == |ops| + 1 && caches[0] == Empty()
    && forall i :: 0 <= i < |ops| ==> caches[i + 1] == Apply(caches[i], ops[i])
  }

  predicate IsUse<Id(==), Body>(op: Op<Id, Body>, id: Id)
  {
    (op.Add? || op.Increase?) && op.id == id
  }

  /** How often the id is used, and released, from operation `start` up to `n`. */
  function Increments<Id(==), Body>(ops: seq<Op<Id, Body>>, id: Id, start: nat, n: nat): nat
    requires start <= n <= |ops|
    decreases n
  {
    if n == start then 0 else Increments(ops, id, start, n - 1) + if IsUse(ops[n - 1], id) then 1 else 0
  }

  function Decrements<Id(==), Body>(ops: seq<Op<Id, Body>>, id: Id, start: nat, n: nat): nat
    requires start <= n <= |ops|
    decreases n
  {
    if n == start then 0 else Decrements(ops, id, start, n - 1) + if IsRemove(ops[n - 1], id) then 1 else 0
  }

  predicate IsRemove<Id(==), Body>(op: Op<Id, Body>, id: Id)
  {
    op.Remove? && op.id == id
  }

  /** What one step does to one id. */
  ghost predicate Steps<Id, Body>(c: Cache<Id, Body>, op: Op<Id, Body>, c': Cache<Id, Body>, id: Id)
  {
    && (id in c.inUse && id in c'.inUse ==>
          && c'.inUse[id].body == c.inUse[id].body
          && c'.inUse[id].refCnt ==
             c.inUse[id].refCnt + (if IsUse(op, id) then 1 else 0) - (if IsRemove(op, id) then 1 else 0)
          && (IsRemove(op, id) ==> c.inUse[id].refCnt > 1))
    && (id in c.inUse && id !in c'.inUse ==> Drops(op, id) || (IsRemove(op, id) && c.inUse[id].refCnt <= 1))
    && (id !in c.inUse && id in c'.inUse ==>
          op.Add? && op.id == id && c'.inUse[id].refCnt == 1 && c'.inUse[id].body == op.payload.body)
    && (Drops(op, id) ==> id !in c'.inUse)
    && c'.released[id] == c.released[id] + if IsRemove(op, id) && id in c.inUse && id !in c'.inUse then 1 else 0
  }

  predicate Drops<Id(==), Body>(op: Op<Id, Body>, id: Id)
  {
    op.Forget? || (op.Drop? && op.id == id)
  }

  lemma ApplySteps<Id, Body>(c: Cache<Id, Body>, op: Op<Id, Body>, id: Id)
    ensures Steps(c, op, Apply(c, op), id)
  {
  }

  /** A run as one id sees it. */
  ghost predicate Follows<Id, Body>(caches: seq<Cache<Id, Body>>, ops: seq<Op<Id, Body>>, id: Id)
  {
    && |caches| == |ops| + 1 && id !in caches[0].inUse && caches[0].released[id] == 0
    && forall i :: 0 <= i < |ops| ==> Steps(caches[i], ops[i], caches[i + 1], id)
  }

  lemma HistoryFollows<Id, Body>(caches: seq<Cache<Id, Body>>, ops: seq<Op<Id, Body>>, id: Id)
    requires History(caches, ops)
    ensures Follows(caches, ops, id)
  {
    forall i | 0 <= i < |ops| ensures Steps(caches[i], ops[i], caches[i + 1], id) {
      ApplySteps(caches[i], ops[i], id);
    }
  }

  /** The id was absent at `start`, was added there, and has been in use ever since. */
  ghost predicate InUseSince<Id, Body>(caches: seq<Cache<Id, Body>>, ops: seq<Op<Id, Body>>, id: Id, start: nat, n: nat)
    requires n < |caches| == |ops| + 1
  {
    && start < n
    && ops[start].Add? && ops[start].id == id
    && id !in caches[start].inUse
    && (forall k :: start < k <= n ==> id in caches[k].inUse)
  }

  lemma {:induction false} CountsFollow<Id, Body>(caches: seq<Cache<Id, Body>>, ops: seq<Op<Id, Body>>, id: Id, n: nat)
    returns (start: nat)
    requires Follows(caches, ops, id) && n <= |ops| && id in caches[n].inUse
    ensures InUseSince(caches, ops, id, start, n)
    ensures caches[n].inUse[id].refCnt >= 1
    ensures caches[n].inUse[id].refCnt == Increments(ops, id, start, n) - Decrements(ops, id, start, n)
    ensures caches[n].inUse[id].body == ops[start].payload.body
    decreases n
  {
    assert Steps(caches[n - 1], ops[n - 1], caches[n], id);
    if id in caches[n - 1].inUse {
      start := CountsFollow(caches, ops, id, n - 1);
    } else {
      start := n - 1;
    }
  }

  /** At every point of every run, an entry's count is at least one, and is the number of
      increments less the number of decrements since the operation that inserted it. */
  lemma {:induction false} CountsSinceInsertion<Id, Body>(caches: seq<Cache<Id, Body>>, ops: seq<Op<Id, Body>>, id: Id, n: nat)
    returns (start: nat)
    requires History(caches, ops) && n <= |ops| && id in caches[n].inUse
    ensures InUseSince(caches, ops, id, start, n)
    ensures caches[n].inUse[id].refCnt >= 1
    ensures caches[n].inUse[id].refCnt == Increments(ops, id, start, n) - Decrements(ops, id, start, n)
    ensures caches[n].inUse[id].body == ops[start].payload.body
  {
    HistoryFollows(caches, ops, id);
    start := CountsFollow(caches, ops, id, n);
  }

  /** A cache reached in any run keeps only entries that are in use. */
  lemma ReachableIsCounted<Id, Body>(caches: seq<Cache<Id, Body>>, ops: seq<Op<Id, Body>>, n: nat)
    requires History(caches, ops) && n <= |ops|
    ensures Counted(caches[n])
  {
    forall id | id in caches[n].inUse ensures caches[n].inUse[id].refCnt >= 1 {
      var start := CountsSinceInsertion(caches, ops, id, n);
    }
  }

  /** Step `k` takes the id out of use by a release. */
  ghost predicate LastRelease<Id, Body>(caches: seq<Cache<Id, Body>>, ops: seq<Op<Id, Body>>, id: Id, k: nat)
    requires k < |ops| && |caches| == |ops| + 1
  {
    IsRemove(ops[k], id) && id in caches[k].inUse && id !in caches[k + 1].inUse
  }

  ghost function LastReleases<Id, Body>(caches: seq<Cache<Id, Body>>, ops: seq<Op<Id, Body>>, id: Id, n: nat): nat
    requires n <= |ops| && |caches| == |ops| + 1
    decreases n
  {
    if n == 0 then 0 else LastReleases(caches, ops, id, n - 1) + if LastRelease(caches, ops, id, n - 1) then 1 else 0
  }

  lemma {:induction false} ReleasesFollow<Id, Body>(caches: seq<Cache<Id, Body>>, ops: seq<Op<Id, Body>>, id: Id, n: nat)
    requires Follows(caches, ops, id) && n <= |ops|
    ensures caches[n].released[id] == LastReleases(caches, ops, id, n)
    decreases n
  {
    if n > 0 {
      ReleasesFollow(caches, ops, id, n - 1);
      assert Steps(caches[n - 1], ops[n - 1], caches[n], id);
    }
  }

  /** The server gets one release request for each step that takes an id from one use to
      none, and no other. */
  lemma {:induction false} ReleasesSent<Id, Body>(caches: seq<Cache<Id, Body>>, ops: seq<Op<Id, Body>>, id: Id, n: nat)
    requires History(caches, ops) && n <= |ops|
    ensures caches[n].released[id] == LastReleases(caches, ops, id, n)
    ensures forall k :: 0 <= k < n && LastRelease(caches, ops, id, k) ==> caches[k].inUse[id].refCnt == 1
  {
    HistoryFollows(caches, ops, id);
    ReleasesFollow(caches, ops, id, n);
    forall k | 0 <= k < n && LastRelease(caches, ops, id, k) ensures caches[k].inUse[id].refCnt == 1 {
      var start := CountsFollow(caches, ops, id, k);
      assert Steps(caches[k], ops[k], caches[k + 1], id);
    }
  }

  /** The number of times the id has come into use, and has been dropped without a release. */
  ghost function Insertions<Id, Body>(caches: seq<Cache<Id, Body>>, id: Id, n: nat): nat
    requires n < |caches|
    decreases n
  {
    if n == 0 then 0
    else Insertions(caches, id, n - 1) + if id !in caches[n - 1].inUse && id in caches[n].inUse then 1 else 0
  }

  ghost function Lost<Id, Body>(caches: seq<Cache<Id, Body>>, ops: seq<Op<Id, Body>>, id: Id, n: nat): nat
    requires n <= |ops| && |caches| == |ops| + 1
    decreases n
  {
    if n == 0 then 0
    else Lost(caches, ops, id, n - 1) + if Drops(ops[n - 1], id) && id in caches[n - 1].inUse then 1 else 0
  }

  lemma {:induction false} PayingBack<Id, Body>(caches: seq<Cache<Id, Body>>, ops: seq<Op<Id, Body>>, id: Id, n: nat)
    requires Follows(caches, ops, id) && n <= |ops|
    ensures Insertions(caches, id, n) ==
            caches[n].released[id] + Lost(caches, ops, id, n) + if id in caches[n].inUse then 1 else 0
    decreases n
  {
    if n > 0 {
      PayingBack(caches, ops, id, n - 1);
      assert Steps(caches[n - 1], ops[n - 1], caches[n], id);
    }
  }

  /** Every time an id comes into use is paid back: by one release request, by a drop, or by
      being in use still. */
  lemma {:induction false} UsesArePaidBack<Id, Body>(caches: seq<Cache<Id, Body>>, ops: seq<Op<Id, Body>>, id: Id, n: nat)
    requires History(caches, ops) && n <= |ops|
    ensures Insertions(caches, id, n) ==
            caches[n].released[id] + Lost(caches, ops, id, n) + if id in caches[n].inUse then 1 else 0
  {
    HistoryFollows(caches, ops, id);
    PayingBack(caches, ops, id, n);
  }

  // ---------------------------------------------------------------- deferred deletions

  predicate IsMark<Id(==), Body>(op: Op<Id, Body>, id: Id)
  {
    op.Mark? && op.id == id
  }

  /** The step at which a deferred deletion is carried out. */
  predicate Settles<Id(==), Body>(c: Cache<Id, Body>, op: Op<Id, Body>, id: Id)
  {
    id in c.pending && (op.Flush? || (IsRemove(op, id) && id in c.inUse && c.inUse[id].refCnt <= 1))
  }

  /** What one step does to the deletion of one id. */
  ghost predicate Defers<Id, Body>(c: Cache<Id, Body>, op: Op<Id, Body>, c': Cache<Id, Body>, id: Id)
  {
    && (id in c'.pending <==> (id in c.pending && !Settles(c, op, id)) || (IsMark(op, id) && id in c.inUse))
    && c'.deleted[id] == c.deleted[id] + (if Settles(c, op, id) then 1 else 0)
    && (Settles(c, op, id) ==> (id in c'.inUse <==> op.Flush? && id in c.inUse))
  }

  lemma ApplyDefers<Id, Body>(c: Cache<Id, Body>, op: Op<Id, Body>, id: Id)
    requires id in c.inUse ==> c.inUse[id].refCnt >= 1
    ensures Defers(c, op, Apply(c, op), id)
  {
  }

  ghost predicate DefersThroughout<Id, Body>(caches: seq<Cache<Id, Body>>, ops: seq<Op<Id, Body>>, id: Id)
  {
    && |caches| == |ops| + 1 && id !in caches[0].pending && caches[0].deleted[id] == 0
    && forall i :: 0 <= i < |ops| ==> Defers(caches[i], ops[i], caches[i + 1], id)
  }

  lemma HistoryDefers<Id, Body>(caches: seq<Cache<Id, Body>>, ops: seq<Op<Id, Body>>, id: Id)
    requires History(caches, ops)
    ensures DefersThroughout(caches, ops, id)
  {
    forall i | 0 <= i < |ops| ensures Defers(caches[i], ops[i], caches[i + 1], id) {
      ReachableIsCounted(caches, ops, i);
      ApplyDefers(caches[i], ops[i], id);
    }
  }

  /** How often a deletion of the id has been asked for that was not already waiting. */
  ghost function Requested<Id, Body>(caches: seq<Cache<Id, Body>>, ops: seq<Op<Id, Body>>, id: Id, n: nat): nat
    requires n <= |ops| && |caches| == |ops| + 1
    decreases n
  {
    if n == 0 then 0
    else
      Requested(caches, ops, id, n - 1) +
      if IsMark(ops[n - 1], id) && id in caches[n - 1].inUse && id !in caches[n - 1].pending then 1 else 0
  }

  lemma {:induction false} RequestsFollow<Id, Body>(caches: seq<Cache<Id, Body>>, ops: seq<Op<Id, Body>>, id: Id, n: nat)
    requires DefersThroughout(caches, ops, id) && n <= |ops|
    ensures Requested(caches, ops, id, n) == caches[n].deleted[id] + if id in caches[n].pending then 1 else 0
    decreases n
  {
    if n > 0 {
      RequestsFollow(caches, ops, id, n - 1);
      assert Defers(caches[n - 1], ops[n - 1], caches[n], id);
    }
  }

  /** Every deletion asked for is carried out once or still waits. It goes out with the last
      release, when the id is no longer in use, or from `ClearCache`; and then the id is
      still in use exactly if it was before. */
  lemma {:induction false} DeletionsAreDeferred<Id, Body>(caches: seq<Cache<Id, Body>>, ops: seq<Op<Id, Body>>, id: Id, n: nat)
    requires History(caches, ops) && n <= |ops|
    ensures Requested(caches, ops, id, n) == caches[n].deleted[id] + if id in caches[n].pending then 1 else 0
    ensures forall k :: 0 <= k < n && caches[k + 1].deleted[id] != caches[k].deleted[id] ==>
              && (ops[k].Flush? || LastRelease(caches, ops, id, k))
              && (id in caches[k + 1].inUse <==> ops[k].Flush? && id in caches[k].inUse)
  {
    HistoryDefers(caches, ops, id);
    RequestsFollow(caches, ops, id, n);
    forall k | 0 <= k < n && caches[k + 1].deleted[id] != caches[k].deleted[id]
      ensures && (ops[k].Flush? || LastRelease(caches, ops, id, k))
              && (id in caches[k + 1].inUse <==> ops[k].Flush? && id in caches[k].inUse)
    {
      assert Defers(caches[k], ops[k], caches[k + 1], id);
    }
  }

  /** An id that is used, marked and never released is deleted in use by `ClearCache`. */
  lemma ClearDeletesInUse() returns (caches: seq<Cache<nat, nat>>, ops: seq<Op<nat, nat>>)
    ensures History(caches, ops) && ops == [Add(7, Payload(0, 0, true)), Mark(7), Flush, Forget]
    ensures caches[3].deleted[7] == 1 && caches[2].deleted[7] == 0
    ensures 7 in caches[3].inUse && caches[3].inUse[7].refCnt == 1
  {
    ops := [Add(7, Payload(0, 0, true)), Mark(7), Flush, Forget];
    var c0: Cache<nat, nat> := Empty();
    var c1 := Apply(c0, ops[0]);
    var c2 := Apply(c1, ops[1]);
    var c3 := Apply(c2, ops[2]);
    caches := [c0, c1, c2, c3, Apply(c3, ops[3])];
  }

  // ---------------------------------------------------------------- use, then release

  function AddedAll<Id, Body>(c: Cache<Id, Body>, payloads: seq<(Id, Payload<Body>)>): Cache<Id, Body>
    decreases payloads
  {
    if payloads == [] then c else AddedAll(Added(c, payloads[0].0, payloads[0].1), payloads[1..])
  }

  function ReleasedAll<Id, Body>(c: Cache<Id, Body>, ids: seq<Id>): Cache<Id, Body>
    decreases ids
  {
    if ids == [] || ids[0] !in c.inUse then c else ReleasedAll(Removed(c, ids[0]), ids[1..])
  }

  ghost predicate Counted<Id, Body>(c: Cache<Id, Body>)
  {
    forall id :: id in c.inUse ==> c.inUse[id].refCnt >= 1
  }

  /** What one operation does to one entry. */
  function Entry<Id, Body>(c: Cache<Id, Body>, id: Id): Option<Payload<Body>>
  {
    if id in c.inUse then Some(c.inUse[id]) else None
  }

  function Raised<Body>(e: Option<Payload<Body>>, p: Payload<Body>): Option<Payload<Body>>
  {
    if e.None? then Some(p.(refCnt := 1)) else Some(e.value.(refCnt := e.value.refCnt + 1))
  }

  function Lowered<Body>(e: Option<Payload<Body>>): Option<Payload<Body>>
  {
    if e.None? || e.value.refCnt <= 1 then None else Some(e.value.(refCnt := e.value.refCnt - 1))
  }

  function Ids<Id, Body>(payloads: seq<(Id, Payload<Body>)>): seq<Id>
  {
    seq(|payloads|, i requires 0 <= i < |payloads| => payloads[i].0)
  }

  lemma {:induction false} AddedAllAt<Id, Body>(c: Cache<Id, Body>, payloads: seq<(Id, Payload<Body>)>, id: Id)
    requires Distinct(Ids(payloads))
    ensures id !in Ids(payloads) ==> Entry(AddedAll(c, payloads), id) == Entry(c, id)
    ensures forall i :: 0 <= i < |payloads| && payloads[i].0 == id ==>
              Entry(AddedAll(c, payloads), id) == Raised(Entry(c, id), payloads[i].1)
    decreases payloads
  {
    if payloads != [] {
      var rest := payloads[1..];
      assert Ids(payloads)[0] == payloads[0].0;
      assert Ids(rest) == Ids(payloads)[1..];
      AddedAllAt(Added(c, payloads[0].0, payloads[0].1), rest, id);
      forall i | 0 <= i < |payloads| && payloads[i].0 == id
        ensures Entry(AddedAll(c, payloads), id) == Raised(Entry(c, id), payloads[i].1)
      {
        if i == 0 {
          assert forall j :: 0 < j < |payloads| ==> Ids(payloads)[0] != Ids(payloads)[j];
          assert id !in Ids(rest);
        } else {
          assert payloads[i] == rest[i - 1];
          assert Ids(payloads)[0] != Ids(payloads)[i];
        }
      }
    }
  }

  /** Where a release of distinct ids stops: at the first that is not in use. */
  function Stop<Id(==), Body>(c: Cache<Id, Body>, ids: seq<Id>): (k: nat)
    ensures k <= |ids|
    ensures forall i :: 0 <= i < k ==> ids[i] in c.inUse
    ensures k < |ids| ==> ids[k] !in c.inUse
  {
    if ids == [] || ids[0] !in c.inUse then 0 else 1 + Stop(c, ids[1..])
  }

  lemma {:induction false} StopIsStable<Id, Body>(c: Cache<Id, Body>, c': Cache<Id, Body>, ids: seq<Id>)
    requires forall id :: id in ids ==> (id in c.inUse <==> id in c'.inUse)
    ensures Stop(c, ids) == Stop(c', ids)
  {
    if ids != [] {
      StopIsStable(c, c', ids[1..]);
    }
  }

  lemma {:induction false} ReleasedAllAt<Id, Body>(c: Cache<Id, Body>, ids: seq<Id>, id: Id)
    requires Distinct(ids)
    ensures Entry(ReleasedAll(c, ids), id) ==
            if id in ids[..Stop(c, ids)] then Lowered(Entry(c, id)) else Entry(c, id)
    decreases ids
  {
    if ids != [] && ids[0] in c.inUse {
      var c', rest := Removed(c, ids[0]), ids[1..];
      assert ids[0] !in rest;
      ReleasedAllAt(c', rest, id);
      StopIsStable(c, c', rest);
      assert ids[..Stop(c, ids)] == [ids[0]] + rest[..Stop(c, rest)];
    }
  }

  lemma {:induction false} ReleaseStops<Id, Body>(c: Cache<Id, Body>, ids: seq<Id>)
    requires Distinct(ids)
    ensures ReleasedAll(c, ids) == ReleasedAll(c, ids[..Stop(c, ids)])
    decreases ids
  {
    if ids != [] && ids[0] in c.inUse {
      var c', rest := Removed(c, ids[0]), ids[1..];
      StopIsStable(c, c', rest);
      ReleaseStops(c', rest);
      assert ids[..Stop(c, ids)][1..] == rest[..Stop(c, rest)];
    }
  }

  /** While every id so far was in use, the next one is released on top. */
  lemma {:induction false} ReleasedAllSnoc<Id, Body>(c: Cache<Id, Body>, ids: seq<Id>, i: nat)
    requires Distinct(ids) && i < |ids| && i <= Stop(c, ids)
    ensures ids[i] in ReleasedAll(c, ids[..i]).inUse <==> i < Stop(c, ids)
    ensures i < Stop(c, ids) ==> ReleasedAll(c, ids[..i + 1]) == Removed(ReleasedAll(c, ids[..i]), ids[i])
    decreases i
  {
    if i > 0 {
      var c', rest := Removed(c, ids[0]), ids[1..];
      StopIsStable(c, c', rest);
      ReleasedAllSnoc(c', rest, i - 1);
      assert ids[..i][1..] == rest[..i - 1];
      assert ids[..i + 1][1..] == rest[..i];
    } else if ids[0] in c.inUse {
      assert ids[..1][1..] == [];
    }
  }

  /** The blobs the server knew come first, and the first unknown one was not in use. */
  ghost predicate Restorable<Id, Body>(c: Cache<Id, Body>, ids: seq<Id>, got: seq<Id>, k: nat)
  {
    && k <= |ids|
    && (forall i :: 0 <= i < k ==> ids[i] in got)
    && (forall i :: k <= i < |ids| ==> ids[i] !in got)
    && (k < |ids| ==> ids[k] !in c.inUse)
  }

  lemma RaiseThenLower<Body>(e: Option<Payload<Body>>, p: Payload<Body>)
    requires e.Some? ==> e.value.refCnt >= 1
    ensures Lowered(Raised(e, p)) == e
    ensures Raised(e, p) != e
    ensures e.Some? ==> Lowered(e) != e
  {
    if e.Some? && e.value.refCnt > 1 {
      assert Lowered(e).value.refCnt == e.value.refCnt - 1;
    }
    assert Raised(e, p).value.refCnt == if e.None? then 1 else e.value.refCnt + 1;
  }

  /** The entry of one id after its object has been fetched and released. */
  lemma FinalEntry<Id, Body>(c: Cache<Id, Body>, payloads: seq<(Id, Payload<Body>)>, ids: seq<Id>, id: Id)
    requires Distinct(ids) && Distinct(Ids(payloads)) && Counted(c)
    ensures id in AddedAll(c, payloads).inUse <==> id in c.inUse || id in Ids(payloads)
    ensures Entry(ReleasedAll(AddedAll(c, payloads), ids), id) == Entry(c, id) <==>
            (id in ids[..Stop(AddedAll(c, payloads), ids)] <==> id in Ids(payloads))
            || (id !in Ids(payloads) && id !in c.inUse)
  {
    var c' := AddedAll(c, payloads);
    AddedAllAt(c, payloads, id);
    ReleasedAllAt(c', ids, id);
    var e := Entry(c, id);
    if id in Ids(payloads) {
      var i :| 0 <= i < |payloads| && payloads[i].0 == id;
      RaiseThenLower(e, payloads[i].1);
    } else if e.Some? {
      RaiseThenLower(e, e.value);
    }
  }

  lemma SameEntries<Id, Body>(c: Cache<Id, Body>, c': Cache<Id, Body>)
    requires forall id :: Entry(c, id) == Entry(c', id)
    ensures c.inUse == c'.inUse
  {
    forall id ensures id in c.inUse <==> id in c'.inUse {
      assert Entry(c, id) == Entry(c', id);
    }
    forall id | id in c.inUse ensures c.inUse[id] == c'.inUse[id] {
      assert Entry(c, id) == Entry(c', id);
    }
  }

  lemma RestorableRestores<Id, Body>(c: Cache<Id, Body>, payloads: seq<(Id, Payload<Body>)>, ids: seq<Id>, k: nat)
    requires Distinct(ids) && Distinct(Ids(payloads)) && Counted(c)
    requires forall id :: id in Ids(payloads) ==> id in ids
    requires Restorable(c, ids, Ids(payloads), k)
    ensures ReleasedAll(AddedAll(c, payloads), ids).inUse == c.inUse
  {
    var c', got := AddedAll(c, payloads), Ids(payloads);
    var stop := Stop(c', ids);
    assert stop == k by {
      if stop < k {
        FinalEntry(c, payloads, ids, ids[stop]);
      } else if k < stop {
        FinalEntry(c, payloads, ids, ids[k]);
      }
    }
    forall id ensures Entry(ReleasedAll(c', ids), id) == Entry(c, id) {
      FinalEntry(c, payloads, ids, id);
    }
    SameEntries(ReleasedAll(c', ids), c);
  }

  lemma RestoredIsRestorable<Id, Body>(c: Cache<Id, Body>, payloads: seq<(Id, Payload<Body>)>, ids: seq<Id>)
    requires Distinct(ids) && Distinct(Ids(payloads)) && Counted(c)
    requires ReleasedAll(AddedAll(c, payloads), ids).inUse == c.inUse
    ensures Restorable(c, ids, Ids(payloads), Stop(AddedAll(c, payloads), ids))
  {
    var c', got := AddedAll(c, payloads), Ids(payloads);
    var stop := Stop(c', ids);
    forall i | 0 <= i < |ids| ensures (i < stop <==> ids[i] in got) && (i == stop ==> ids[i] !in c.inUse) {
      FinalEntry(c, payloads, ids, ids[i]);
      assert Entry(ReleasedAll(c', ids), ids[i]) == Entry(c, ids[i]);
      assert ids[i] in ids[..stop] <==> i < stop;
    }
  }

  /** Fetching an object and releasing it again gives the cache back exactly when the blobs
      that the server no longer knew are the last ones in id order and the first of them was
      not in use: in particular whenever it knew them all. */
  lemma RestoredIff<Id, Body>(c: Cache<Id, Body>, payloads: seq<(Id, Payload<Body>)>, ids: seq<Id>)
    requires Distinct(ids) && Distinct(Ids(payloads)) && Counted(c)
    requires forall id :: id in Ids(payloads) ==> id in ids
    ensures ReleasedAll(AddedAll(c, payloads), ids).inUse == c.inUse <==>
            exists k :: Restorable(c, ids, Ids(payloads), k)
    ensures (forall id :: id in ids ==> id in Ids(payloads)) ==>
              ReleasedAll(AddedAll(c, payloads), ids).inUse == c.inUse
  {
    if ReleasedAll(AddedAll(c, payloads), ids).inUse == c.inUse {
      RestoredIsRestorable(c, payloads, ids);
    }
    if exists k :: Restorable(c, ids, Ids(payloads), k) {
      var k :| Restorable(c, ids, Ids(payloads), k);
      RestorableRestores(c, payloads, ids, k);
    }
    if forall id :: id in ids ==> id in Ids(payloads) {
      assert Restorable(c, ids, Ids(payloads), |ids|);
      RestorableRestores(c, payloads, ids, |ids|);
    }
  }

  /** A blob that the server has lost, and that another object still uses: the release takes
      away a use that was never added. */
  lemma LostBlobIsReleased()
    ensures var c: Cache<nat, nat> := Cache(map[7 := Payload(0, 1, true)], {}, multiset{}, multiset{});
            Counted(c) && ReleasedAll(AddedAll(c, []), [7]).inUse == map[]
  {
    var c: Cache<nat, nat> := Cache(map[7 := Payload(0, 1, true)], {}, multiset{}, multiset{});
    ReleasedAllAt(c, [7], 7);
    assert c.inUse - {7} == map[];
    assert [7][1..] == [];
  }
}
