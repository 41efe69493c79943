/** The payload cache of `PlasmaClient`: what is in use and sealed is answered locally, the
    rest is asked of the server. The server's store is part of the state; other clients
    change it between our steps, but not what this client holds. */
module Plasma {
  import opened Usage

  /** `NoId` is the empty string, the id inside the empty payload; `EmptyId` is the id of the
      empty blob. */
  datatype PlasmaId = NoId | EmptyId | Named(n: nat)

  /** What `operator==` compares: the id and the block of memory. */
  datatype Body = Body(plasmaId: PlasmaId, block: nat)

  const EMPTY_BODY: Body := Body(NoId, 0)

  /** An object of the server. */
  datatype Object = Object(body: Body, isSealed: bool)

  type Store = map<PlasmaId, Object>

  type PlasmaPayload = Payload<Body>

  type PlasmaCache = Cache<PlasmaId, Body>

  datatype Reply = Payloads(items: seq<PlasmaPayload>) | Refused

  // ---------------------------------------------------------------- the server

  /** `GetUnsafe`: unknown ids are passed over; an unsealed object refuses the whole request,
      unless asked unsafely. */
  function Ask(store: Store, ids: seq<PlasmaId>, unsafely: bool): Reply
  {
    if ids == [] then Payloads([])
    else if !ids[0].EmptyId? && ids[0] in store && !store[ids[0]].isSealed && !unsafely then Refused
    else
      var rest := Ask(store, ids[1..], unsafely);
      if rest.Refused? then Refused else Payloads(Answer(store, ids[0]) + rest.items)
  }

  function Answer(store: Store, id: PlasmaId): seq<PlasmaPayload>
  {
    if id.EmptyId? then [Payload(EMPTY_BODY, 0, false)]
    else if id in store then [Payload(store[id].body, 0, store[id].isSealed)]
    else []
  }

  // ---------------------------------------------------------------- the result map

  /** `emplace` on a map keyed by the payloads' own ids: the first of a key stays. */
  function Emplaced(m: map<PlasmaId, PlasmaPayload>, items: seq<PlasmaPayload>): map<PlasmaId, PlasmaPayload>
    decreases items
  {
    if items == [] then m
    else
      var key := items[0].body.plasmaId;
      Emplaced(if key in m then m else m[key := items[0]], items[1..])
  }

  /** Equality of result maps, by the payloads' `operator==`. */
  ghost predicate SamePayloads(m: map<PlasmaId, PlasmaPayload>, m': map<PlasmaId, PlasmaPayload>)
  {
    m.Keys == m'.Keys && forall k :: k in m ==> m[k].body == m'[k].body
  }

  ghost function Bodies(items: seq<PlasmaPayload>): set<Body>
  {
    set i | 0 <= i < |items| :: items[i].body
  }

  /** Payloads with the same id have the same body. */
  ghost predicate Functional(bodies: set<Body>)
  {
    forall b, b' :: b in bodies && b' in bodies && b.plasmaId == b'.plasmaId ==> b == b'
  }

  lemma {:induction false} EmplacedAt(m: map<PlasmaId, PlasmaPayload>, items: seq<PlasmaPayload>)
    ensures forall k :: k in m ==> k in Emplaced(m, items) && Emplaced(m, items)[k] == m[k]
    ensures forall k :: k in Emplaced(m, items) && k !in m ==>
              && Emplaced(m, items)[k] in items && Emplaced(m, items)[k].body in Bodies(items)
              && Emplaced(m, items)[k].body.plasmaId == k
    ensures forall b :: b in Bodies(items) ==> b.plasmaId in Emplaced(m, items)
    decreases items
  {
    if items != [] {
      var key := items[0].body.plasmaId;
      EmplacedAt(if key in m then m else m[key := items[0]], items[1..]);
      assert Bodies(items) == {items[0].body} + Bodies(items[1..]) by {
        forall b | b in Bodies(items[1..]) ensures b in Bodies(items) {
          var i :| 0 <= i < |items| - 1 && items[1..][i].body == b;
          assert items[i + 1].body == b;
        }
        forall b | b in Bodies(items) ensures b == items[0].body || b in Bodies(items[1..]) {
          var i :| 0 <= i < |items| && items[i].body == b;
          assert i > 0 ==> items[1..][i - 1].body == b;
        }
        assert items[0].body in Bodies(items);
      }
    }
  }

  /** One empty payload more shows only under the empty string. */
  lemma EmptyPayloadShows(m: map<PlasmaId, PlasmaPayload>, items: seq<PlasmaPayload>, items': seq<PlasmaPayload>)
    requires Functional(Bodies(items)) && Bodies(items) == Bodies(items') + {EMPTY_BODY} && EMPTY_BODY !in Bodies(items')
    ensures SameElsewhere(Emplaced(m, items), Emplaced(m, items'))
    ensures SamePayloads(Emplaced(m, items), Emplaced(m, items')) <==> NoId in m
  {
    EmplacedAt(m, items);
    EmplacedAt(m, items');
  }

  /** Equality of result maps but for the empty string. */
  ghost predicate SameElsewhere(m: map<PlasmaId, PlasmaPayload>, m': map<PlasmaId, PlasmaPayload>)
  {
    forall k: PlasmaId :: !k.NoId? ==> (k in m <==> k in m') && (k in m ==> m[k].body == m'[k].body)
  }

  /** The order of the payloads does not matter when ids determine them. */
  lemma SameBodiesSameMap(m: map<PlasmaId, PlasmaPayload>, items: seq<PlasmaPayload>, items': seq<PlasmaPayload>)
    requires Bodies(items) == Bodies(items') && Functional(Bodies(items))
    ensures SamePayloads(Emplaced(m, items), Emplaced(m, items'))
  {
    EmplacedAt(m, items);
    EmplacedAt(m, items');
  }

  // ---------------------------------------------------------------- client and server together

  /** `next` is a block that the server has not handed out. */
  datatype State = State(cache: PlasmaCache, store: Store, next: nat)

  ghost predicate WellFormed(store: Store, next: nat)
  {
    next > 0 &&
    forall id :: id in store ==> !id.NoId? && store[id].body.plasmaId == id && store[id].body.block < next
  }

  /** A payload that the client may answer for the id: the empty one for the two ids of the
      empty blob, else the server's own, and sealed only if the server's is. */
  ghost predicate Genuine(store: Store, id: PlasmaId, p: PlasmaPayload)
  {
    if id.Named? then id in store && p.body == store[id].body && (p.isSealed ==> store[id].isSealed)
    else p.body == EMPTY_BODY
  }

  /** The flag of a payload is that of the server's object with its id. */
  ghost predicate SealedAsStored(store: Store, p: PlasmaPayload)
  {
    p.body.plasmaId.Named? ==> p.body.plasmaId in store && p.isSealed == store[p.body.plasmaId].isSealed
  }

  ghost predicate Agree(s: State)
  {
    && WellFormed(s.store, s.next)
    && forall id :: id in s.cache.inUse ==> Genuine(s.store, id, s.cache.inUse[id])
  }

  predicate Cached(c: PlasmaCache, id: PlasmaId)
  {
    id in c.inUse && c.inUse[id].isSealed
  }

  function Created(s: State, id: PlasmaId, size: nat): State
  {
    var body := if size == 0 then EMPTY_BODY else Body(id, s.next);
    State(Added(s.cache, id, Payload(body, 0, false)),
          if size == 0 || id in s.store then s.store else s.store[id := Object(body, false)],
          s.next + 1)
  }

  predicate ServerSeals(s: State, id: PlasmaId)
  {
    id.EmptyId? || id in s.store
  }

  function SealedAt(s: State, id: PlasmaId): State
  {
    if !ServerSeals(s, id) then s
    else s.(cache := Sealed(s.cache, id),
            store := if id.EmptyId? then s.store else s.store[id := s.store[id].(isSealed := true)])
  }

  /** A new entry made by `CreateBuffer` is the server's object: the id was free and is a
      name, or it is one of the empty blob's and so is the size. */
  predicate Clean(s: State, id: PlasmaId, size: nat)
  {
    match id
    case NoId => size == 0
    case EmptyId => id in s.cache.inUse || size == 0
    case Named(_) => id in s.cache.inUse || (size > 0 && id !in s.store)
  }

  /** The objects this client holds keep their payload and stay sealed. */
  ghost predicate KeepsHeld(s: State, store: Store)
  {
    forall id :: id in s.cache.inUse && id in s.store ==>
      id in store && store[id].body == s.store[id].body && (s.store[id].isSealed ==> store[id].isSealed)
  }

  datatype Op =
    | CreateBuffer(id: PlasmaId, size: nat)
    | SealBuffer(id: PlasmaId)
    | Fetch(items: seq<(PlasmaId, PlasmaPayload)>)
    | Release(id: PlasmaId)
    | Others(store: Store, next: nat)

  function Apply(s: State, op: Op): State
  {
    match op
    case CreateBuffer(id, size) => Created(s, id, size)
    case SealBuffer(id) => SealedAt(s, id)
    case Fetch(items) => s.(cache := AddedAll(s.cache, items))
    case Release(id) => s.(cache := Removed(s.cache, id))
    case Others(store, next) => s.(store := store, next := next)
  }

  /** A sealed payload that a fetch brings is the server's, or comes from the cache: the
      server's empty payload is never sealed. */
  predicate Drawn(c: PlasmaCache, id: PlasmaId, p: PlasmaPayload)
  {
    p.isSealed ==> id.Named? || (id.NoId? && (Cached(c, EmptyId) || Cached(c, NoId)))
  }

  ghost predicate Legal(s: State, op: Op)
  {
    match op
    case CreateBuffer(id, size) => Clean(s, id, size)
    case SealBuffer(id) => true
    case Fetch(items) =>
      forall i :: 0 <= i < |items| ==>
        Genuine(s.store, items[i].0, items[i].1) && Drawn(s.cache, items[i].0, items[i].1)
    case Release(id) => true
    case Others(store, next) => WellFormed(store, next) && KeepsHeld(s, store)
  }

  lemma AddKeepsAgree(s: State, id: PlasmaId, p: PlasmaPayload)
    requires Agree(s) && Genuine(s.store, id, p)
    ensures Agree(s.(cache := Added(s.cache, id, p)))
  {
  }

  lemma {:induction false} FetchKeepsAgree(s: State, items: seq<(PlasmaId, PlasmaPayload)>)
    requires Agree(s) && forall i :: 0 <= i < |items| ==> Genuine(s.store, items[i].0, items[i].1)
    ensures Agree(s.(cache := AddedAll(s.cache, items)))
    decreases items
  {
    if items != [] {
      AddKeepsAgree(s, items[0].0, items[0].1);
      FetchKeepsAgree(s.(cache := Added(s.cache, items[0].0, items[0].1)), items[1..]);
    }
  }

  /** A creation keeps the agreement exactly when it is clean. */
  lemma CleanIffAgree(s: State, id: PlasmaId, size: nat)
    requires Agree(s)
    ensures Clean(s, id, size) <==> Agree(Created(s, id, size))
  {
    var s' := Created(s, id, size);
    if !Clean(s, id, size) {
      if id.NoId? {
        assert id in s'.store;
      } else {
        assert id in s'.cache.inUse && !Genuine(s'.store, id, s'.cache.inUse[id]);
      }
    }
  }

  /** Sealing, fetching, releasing and whatever other clients do keep the agreement; a
      creation does exactly when it is clean. */
  lemma StepKeepsAgree(s: State, op: Op)
    requires Agree(s) && (op.CreateBuffer? || Legal(s, op))
    ensures Agree(Apply(s, op)) <==> Legal(s, op)
  {
    match op
    case CreateBuffer(id, size) => CleanIffAgree(s, id, size);
    case SealBuffer(id) =>
    case Fetch(items) => FetchKeepsAgree(s, items);
    case Release(id) =>
    case Others(store, next) =>
  }

  function Run(s: State, ops: seq<Op>): State
    decreases ops
  {
    if ops == [] then s else Run(Apply(s, ops[0]), ops[1..])
  }

  /** Any creations, with other steps that keep to their contracts. */
  ghost predicate LawfulRun(s: State, ops: seq<Op>)
    decreases ops
  {
    ops == [] || ((ops[0].CreateBuffer? || Legal(s, ops[0])) && LawfulRun(Apply(s, ops[0]), ops[1..]))
  }

  ghost predicate LegalRun(s: State, ops: seq<Op>)
    decreases ops
  {
    ops == [] || (Legal(s, ops[0]) && LegalRun(Apply(s, ops[0]), ops[1..]))
  }

  ghost predicate AgreesThroughout(s: State, ops: seq<Op>)
    decreases ops
  {
    Agree(s) && (ops == [] || AgreesThroughout(Apply(s, ops[0]), ops[1..]))
  }

  /** In every run, what the client has cached agrees with the server throughout if and only
      if every creation was clean when it was made. */
  lemma {:induction false} RunAgreesIffClean(s: State, ops: seq<Op>)
    requires Agree(s) && LawfulRun(s, ops)
    ensures AgreesThroughout(s, ops) <==> LegalRun(s, ops)
    ensures LegalRun(s, ops) ==> Agree(Run(s, ops))
    decreases ops
  {
    if ops != [] {
      StepKeepsAgree(s, ops[0]);
      if Legal(s, ops[0]) {
        RunAgreesIffClean(Apply(s, ops[0]), ops[1..]);
      }
    }
  }

  // ---------------------------------------------------------------- asking with and without the cache

  predicate Blocks(store: Store, id: PlasmaId, unsafely: bool)
  {
    !id.EmptyId? && id in store && !store[id].isSealed && !unsafely
  }

  ghost function Answers(store: Store, ids: seq<PlasmaId>): set<Body>
  {
    set id | id in ids && (id.EmptyId? || id in store) :: if id.EmptyId? then EMPTY_BODY else store[id].body
  }

  lemma BodiesSnoc(items: seq<PlasmaPayload>, items': seq<PlasmaPayload>)
    ensures Bodies(items + items') == Bodies(items) + Bodies(items')
  {
    var all := items + items';
    forall b | b in Bodies(items) + Bodies(items') ensures b in Bodies(all) {
      if b in Bodies(items) {
        var i :| 0 <= i < |items| && items[i].body == b;
        assert all[i].body == b;
      } else {
        var i :| 0 <= i < |items'| && items'[i].body == b;
        assert all[|items| + i].body == b;
      }
    }
  }

  lemma AnswersCons(store: Store, ids: seq<PlasmaId>)
    requires ids != []
    ensures Answers(store, ids) == Answers(store, [ids[0]]) + Answers(store, ids[1..])
  {
    assert forall id :: id in ids <==> id == ids[0] || id in ids[1..];
  }

  lemma AnswersOfOne(store: Store, id: PlasmaId)
    ensures Answers(store, [id]) == Bodies(Answer(store, id))
  {
    assert forall x :: x in [id] <==> x == id;
    if Answer(store, id) != [] {
      BodiesOfOne(Answer(store, id)[0]);
    }
    if id.EmptyId? || id in store {
      assert id in [id];
    }
  }

  lemma BodiesOfOne(p: PlasmaPayload)
    ensures Bodies([p]) == {p.body}
  {
    assert [p][0].body in Bodies([p]);
  }

  lemma {:induction false} AskMeans(store: Store, ids: seq<PlasmaId>, unsafely: bool)
    ensures Ask(store, ids, unsafely).Refused? <==> exists id :: id in ids && Blocks(store, id, unsafely)
    ensures Ask(store, ids, unsafely).Payloads? ==> Bodies(Ask(store, ids, unsafely).items) == Answers(store, ids)
  {
    if ids != [] {
      AskMeans(store, ids[1..], unsafely);
      assert forall id :: id in ids <==> id == ids[0] || id in ids[1..];
      if Blocks(store, ids[0], unsafely) {
        assert ids[0] in ids;
      } else if Ask(store, ids[1..], unsafely).Refused? {
        var id :| id in ids[1..] && Blocks(store, id, unsafely);
        assert id in ids;
      }
      if Ask(store, ids, unsafely).Payloads? {
        BodiesSnoc(Answer(store, ids[0]), Ask(store, ids[1..], unsafely).items);
        AnswersOfOne(store, ids[0]);
        AnswersCons(store, ids);
      }
    }
  }

  lemma AnswersAreFunctional(store: Store, next: nat, ids: seq<PlasmaId>)
    requires WellFormed(store, next)
    ensures Functional(Answers(store, ids))
  {
  }

  /** Every payload that the server sends is genuine for the id it carries. */
  lemma {:induction false} AskIsGenuine(store: Store, next: nat, ids: seq<PlasmaId>, unsafely: bool)
    requires WellFormed(store, next) && Ask(store, ids, unsafely).Payloads?
    ensures forall p :: p in Ask(store, ids, unsafely).items ==>
              && Genuine(store, p.body.plasmaId, p) && SealedAsStored(store, p)
              && (p.isSealed ==> p.body.plasmaId.Named?)
  {
    if ids != [] {
      AskIsGenuine(store, next, ids[1..], unsafely);
    }
  }

  /** The empty string is answered from the cache with the empty payload, when a fetch has put
      that payload there as a sealed one. */
  ghost function Unasked(s: State, ids: seq<PlasmaId>): set<Body>
  {
    if NoId in ids && Cached(s.cache, NoId) then {EMPTY_BODY} else {}
  }

  /** The split that `GetPayloads` makes of the first ids. */
  ghost predicate Split(s: State, ids: seq<PlasmaId>, remote: seq<PlasmaId>, local: seq<PlasmaPayload>)
  {
    && (forall id :: id in remote <==> id in ids && !Cached(s.cache, id))
    && Bodies(local) + Answers(s.store, remote) == Answers(s.store, ids) + Unasked(s, ids)
    && (forall p :: p in local ==>
          && Genuine(s.store, p.body.plasmaId, p) && SealedAsStored(s.store, p)
          && Drawn(s.cache, p.body.plasmaId, p))
  }

  lemma AnswersSnoc(store: Store, ids: seq<PlasmaId>, id: PlasmaId)
    ensures Answers(store, ids + [id]) == Answers(store, ids) + Answers(store, [id])
  {
    assert forall x :: x in ids + [id] <==> x in ids || x in [id];
  }

  lemma SplitRemote(s: State, ids: seq<PlasmaId>, remote: seq<PlasmaId>, local: seq<PlasmaPayload>, id: PlasmaId)
    requires Split(s, ids, remote, local) && !Cached(s.cache, id)
    ensures Split(s, ids + [id], remote + [id], local)
  {
    AnswersSnoc(s.store, ids, id);
    AnswersSnoc(s.store, remote, id);
    assert Unasked(s, ids + [id]) == Unasked(s, ids);
  }

  lemma SplitLocal(s: State, ids: seq<PlasmaId>, remote: seq<PlasmaId>, local: seq<PlasmaPayload>, id: PlasmaId)
    requires Agree(s) && Split(s, ids, remote, local) && Cached(s.cache, id)
    ensures Split(s, ids + [id], remote, local + [s.cache.inUse[id]])
  {
    var p := s.cache.inUse[id];
    AnswersSnoc(s.store, ids, id);
    AnswersOfOne(s.store, id);
    BodiesSnoc(local, [p]);
    BodiesOfOne(p);
    assert Genuine(s.store, id, p);
    if !id.NoId? {
      BodiesOfOne(Answer(s.store, id)[0]);
    }
    assert Unasked(s, ids + [id]) == Unasked(s, ids) + if id.NoId? then {EMPTY_BODY} else {};
  }

  /** The one request that the cache answers otherwise than the server: for the empty string,
      with a sealed empty payload, where nothing else puts the empty payload under it. */
  predicate Stray(s: State, ids: seq<PlasmaId>, given: map<PlasmaId, PlasmaPayload>)
  {
    NoId in ids && Cached(s.cache, NoId) && EmptyId !in ids && NoId !in given
  }

  /** Asking for the remote part, and adding the local part, is asking for everything. */
  lemma SplitAnswers(s: State, ids: seq<PlasmaId>, unsafely: bool, m: map<PlasmaId, PlasmaPayload>,
                     remote: seq<PlasmaId>, local: seq<PlasmaPayload>)
    requires Agree(s) && Split(s, ids, remote, local)
    ensures Ask(s.store, remote, unsafely).Refused? <==> Ask(s.store, ids, unsafely).Refused?
    ensures Ask(s.store, ids, unsafely).Payloads? ==>
              var all := Emplaced(m, Ask(s.store, remote, unsafely).items + local);
              var direct := Emplaced(m, Ask(s.store, ids, unsafely).items);
              SameElsewhere(all, direct) && (SamePayloads(all, direct) <==> !Stray(s, ids, m))
  {
    AskMeans(s.store, remote, unsafely);
    AskMeans(s.store, ids, unsafely);
    forall id | id in ids && Cached(s.cache, id) ensures !Blocks(s.store, id, unsafely) {
      assert Genuine(s.store, id, s.cache.inUse[id]);
    }
    if Ask(s.store, ids, unsafely).Payloads? {
      var items, items' := Ask(s.store, remote, unsafely).items + local, Ask(s.store, ids, unsafely).items;
      BodiesSnoc(Ask(s.store, remote, unsafely).items, local);
      AnswersAreFunctional(s.store, s.next, ids);
      EmptyIsAsked(s.store, s.next, ids);
      if NoId in ids && Cached(s.cache, NoId) && EmptyId !in ids {
        EmptyPayloadShows(m, items, items');
      } else {
        assert Bodies(items) == Bodies(items');
        SameBodiesSameMap(m, items, items');
      }
    }
  }

  /** Only the empty blob is answered with the empty payload. */
  lemma EmptyIsAsked(store: Store, next: nat, ids: seq<PlasmaId>)
    requires WellFormed(store, next)
    ensures EMPTY_BODY in Answers(store, ids) <==> EmptyId in ids
    ensures Functional(Answers(store, ids) + {EMPTY_BODY})
  {
    if EmptyId in ids {
      assert EMPTY_BODY in Answers(store, ids);
    }
  }

  // ---------------------------------------------------------------- when the cache is wrong

  /** No request strays unless this client has itself sealed the empty blob. */
  lemma {:induction false} StrayNeedsSealedEmpty(s: State, ops: seq<Op>, ids: seq<PlasmaId>,
                                                 given: map<PlasmaId, PlasmaPayload>)
    requires Agree(s) && LegalRun(s, ops) && SealBuffer(EmptyId) !in ops
    requires !Cached(s.cache, NoId) && !Cached(s.cache, EmptyId)
    ensures !Stray(Run(s, ops), ids, given)
    decreases ops
  {
    if ops != [] {
      StepKeepsAgree(s, ops[0]);
      StepStaysUnsealed(s, ops[0]);
      StrayNeedsSealedEmpty(Apply(s, ops[0]), ops[1..], ids, given);
    }
  }

  lemma StepStaysUnsealed(s: State, op: Op)
    requires Agree(s) && Legal(s, op) && op != SealBuffer(EmptyId)
    requires !Cached(s.cache, NoId) && !Cached(s.cache, EmptyId)
    ensures !Cached(Apply(s, op).cache, NoId) && !Cached(Apply(s, op).cache, EmptyId)
  {
    if op.Fetch? {
      FetchStaysUnsealed(s.cache, s.cache, op.items);
    }
  }

  lemma {:induction false} FetchStaysUnsealed(c0: PlasmaCache, c: PlasmaCache, items: seq<(PlasmaId, PlasmaPayload)>)
    requires !Cached(c0, NoId) && !Cached(c0, EmptyId) && !Cached(c, NoId) && !Cached(c, EmptyId)
    requires forall i :: 0 <= i < |items| ==> Drawn(c0, items[i].0, items[i].1)
    ensures !Cached(AddedAll(c, items), NoId) && !Cached(AddedAll(c, items), EmptyId)
    decreases items
  {
    if items != [] {
      assert Drawn(c0, items[0].0, items[0].1);
      FetchStaysUnsealed(c0, Added(c, items[0].0, items[0].1), items[1..]);
    }
  }

  /** A client that creates the empty blob, seals it and fetches it then answers the empty
      string with the empty payload, where the server has nothing to send. */
  lemma SealedEmptyStrays() returns (s: State, ops: seq<Op>)
    ensures s == State(Empty(), map[], 1) && Agree(s) && LegalRun(s, ops)
    ensures ops == [CreateBuffer(EmptyId, 0), SealBuffer(EmptyId), Fetch([(NoId, Payload(EMPTY_BODY, 1, true))])]
    ensures Stray(Run(s, ops), [NoId], map[]) && Ask(Run(s, ops).store, [NoId], false) == Payloads([])
  {
    s := State(Empty(), map[], 1);
    var fetched := [(NoId, Payload(EMPTY_BODY, 1, true))];
    ops := [CreateBuffer(EmptyId, 0), SealBuffer(EmptyId), Fetch(fetched)];
    var s1 := Apply(s, ops[0]);
    var s2 := Apply(s1, ops[1]);
    var s3 := Apply(s2, ops[2]);
    assert Cached(s2.cache, EmptyId);
    var added := Added(s2.cache, NoId, fetched[0].1);
    assert AddedAll(s2.cache, fetched) == AddedAll(added, fetched[1..]) && fetched[1..] == [];
    assert s3.cache == added;
    var later, last := ops[1..], ops[2..];
    assert later[0] == ops[1] && later[1..] == last && last[0] == ops[2] && last[1..] == [];
    assert Run(s3, []) == s3 && Run(s2, last) == Run(s3, last[1..]);
    assert Run(s1, later) == Run(s2, later[1..]);
    assert LegalRun(s2, last) && LegalRun(s1, later);
    AskOne(s3.store, NoId);
  }

  /** What `GetPayloads` obtains for one id. */
  function LookUp(s: State, id: PlasmaId): Reply
  {
    if Cached(s.cache, id) then Payloads([s.cache.inUse[id]]) else Ask(s.store, [id], false)
  }

  ghost predicate SameReply(r: Reply, r': Reply)
  {
    if r.Refused? || r'.Refused? then r == r' else SamePayloads(Emplaced(map[], r.items), Emplaced(map[], r'.items))
  }

  lemma EmplacedOne(p: PlasmaPayload)
    ensures Emplaced(map[], [p]) == map[p.body.plasmaId := p]
  {
    assert [p][1..] == [];
  }

  lemma AskOne(store: Store, id: PlasmaId)
    requires !Blocks(store, id, false)
    ensures Ask(store, [id], false) == Payloads(Answer(store, id))
  {
    assert [id][1..] == [];
    assert Answer(store, id) + [] == Answer(store, id);
  }

  /** When a creation followed by a seal is read back as the server has it. */
  predicate ReadsBack(s: State, id: PlasmaId, size: nat)
  {
    match id
    case NoId => if size > 0 then id !in s.cache.inUse else !Cached(s.cache, id)
    case EmptyId => id in s.cache.inUse || size == 0
    case Named(_) => id in s.cache.inUse || id !in s.store
  }

  /** A client that creates and seals a named object reads back what the server has exactly
      when it held the id already or the server did not have it: the server hands out a
      block for an id that it already has, and does not store it. */
  lemma CreatedThenSealed(s: State, id: PlasmaId, size: nat)
    requires Agree(s)
    ensures var s' := SealedAt(Created(s, id, size), id);
            SameReply(LookUp(s', id), Ask(s'.store, [id], false)) <==> ReadsBack(s, id, size)
  {
    var s0 := Created(s, id, size);
    var s' := SealedAt(s0, id);
    if ServerSeals(s0, id) {
      AskOne(s'.store, id);
      EmplacedOne(s'.cache.inUse[id]);
      EmplacedOne(Answer(s'.store, id)[0]);
    } else if Cached(s'.cache, id) {
      AskOne(s'.store, id);
      EmplacedOne(s'.cache.inUse[id]);
    }
  }

  /** A name that another client has created: the block handed out for it is not the one that
      the server keeps. */
  lemma TakenNameIsReadWrongly()
    ensures var id := Named(1);
            var s := State(Empty(), map[id := Object(Body(id, 1), true)], 2);
            var s' := SealedAt(Created(s, id, 8), id);
            && Agree(s) && !SameReply(LookUp(s', id), Ask(s'.store, [id], false))
  {
    var id := Named(1);
    var s := State(Empty(), map[id := Object(Body(id, 1), true)], 2);
    CreatedThenSealed(s, id, 8);
  }

  /** Every payload but those in `left` has been used once more; no other entry has changed. */
  ghost predicate Used(c: PlasmaCache, c': PlasmaCache, payloads: map<PlasmaId, PlasmaPayload>, left: set<PlasmaId>)
  {
    forall k :: Entry(c', k) == if k in payloads && k !in left then Raised(Entry(c, k), payloads[k]) else Entry(c, k)
  }

  lemma UseStep(c: PlasmaCache, c': PlasmaCache, payloads: map<PlasmaId, PlasmaPayload>, left: set<PlasmaId>, k: PlasmaId)
    requires Used(c, c', payloads, left) && k in left && k in payloads
    ensures Used(c, Added(c', k, payloads[k]), payloads, left - {k})
  {
    var c'' := Added(c', k, payloads[k]);
    forall x ensures Entry(c'', x) == if x == k then Raised(Entry(c', x), payloads[k]) else Entry(c', x) {
    }
  }

  class PlasmaClient {
    var state: State

    constructor (store: Store, next: nat)
      requires WellFormed(store, next)
      ensures state == State(Empty(), store, next) && Agree(state)
    {
      state := State(Empty(), store, next);
    }

    /** With the cache the client obtains what the server would have sent for all the ids, but
        for one stray answer to the empty string. */
    method GetPayloads(ids: seq<PlasmaId>, unsafely: bool, given: map<PlasmaId, PlasmaPayload>)
      returns (status: Status, payloads: map<PlasmaId, PlasmaPayload>)
      requires Agree(state)
      ensures match Ask(state.store, ids, unsafely)
              case Refused => status == NotSealed && payloads == given
              case Payloads(items) =>
                && status == Ok && SameElsewhere(payloads, Emplaced(given, items))
                && (SamePayloads(payloads, Emplaced(given, items)) <==> !Stray(state, ids, given))
      ensures forall k :: k in payloads && k !in given ==>
                && Genuine(state.store, k, payloads[k]) && SealedAsStored(state.store, payloads[k])
                && Drawn(state.cache, k, payloads[k])
    {
      if ids == [] {
        assert Ask(state.store, ids, unsafely) == Payloads([]);
        return Ok, given;
      }
      var remote, local := [], [];
      for i := 0 to |ids|
        invariant Split(state, ids[..i], remote, local)
      {
        assert ids[..i + 1] == ids[..i] + [ids[i]];
        if Cached(state.cache, ids[i]) {
          SplitLocal(state, ids[..i], remote, local, ids[i]);
          local := local + [state.cache.inUse[ids[i]]];
        } else {
          SplitRemote(state, ids[..i], remote, local, ids[i]);
          remote := remote + [ids[i]];
        }
      }
      assert ids[..|ids|] == ids;
      SplitAnswers(state, ids, unsafely, given, remote, local);
      var reply := Ask(state.store, remote, unsafely);
      if reply.Refused? {
        return NotSealed, given;
      }
      AskIsGenuine(state.store, state.next, remote, unsafely);
      EmplacedAt(given, reply.items + local);
      return Ok, Emplaced(given, reply.items + local);
    }

    /** The counting part of `GetBuffers`: one use of each payload, under the id it carries. */
    method GetBuffers(ids: seq<PlasmaId>, unsafely: bool)
      returns (status: Status, payloads: map<PlasmaId, PlasmaPayload>)
      requires Agree(state)
      modifies this
      ensures Agree(state) && state.store == old(state).store && state.next == old(state).next
      ensures match Ask(state.store, ids, unsafely)
              case Refused => status == NotSealed && payloads == map[] && state == old(state)
              case Payloads(items) =>
                && status == Ok && SameElsewhere(payloads, Emplaced(map[], items))
                && (SamePayloads(payloads, Emplaced(map[], items)) <==> !Stray(old(state), ids, map[]))
      ensures Used(old(state).cache, state.cache, payloads, {})
    {
      status, payloads := GetPayloads(ids, unsafely, map[]);
      UseAll(payloads);
    }

    method UseAll(payloads: map<PlasmaId, PlasmaPayload>)
      requires Agree(state) && forall k :: k in payloads ==> Genuine(state.store, k, payloads[k])
      modifies this
      ensures Agree(state) && state.store == old(state).store && state.next == old(state).next
      ensures Used(old(state).cache, state.cache, payloads, {})
      ensures payloads == map[] ==> state == old(state)
    {
      var left := payloads.Keys;
      while left != {}
        invariant left <= payloads.Keys
        invariant Agree(state) && state.store == old(state).store && state.next == old(state).next
        invariant Used(old(state).cache, state.cache, payloads, left)
        invariant left == payloads.Keys ==> state == old(state)
        decreases left
      {
        var k :| k in left;
        AddKeepsAgree(state, k, payloads[k]);
        UseStep(old(state).cache, state.cache, payloads, left, k);
        state := state.(cache := Added(state.cache, k, payloads[k]));
        left := left - {k};
      }
    }

    method CreateBuffer(id: PlasmaId, size: nat)
      requires Agree(state)
      modifies this
      ensures state == Created(old(state), id, size)
      ensures Agree(state) <==> Clean(old(state), id, size)
    {
      CleanIffAgree(state, id, size);
      var body := if size == 0 then EMPTY_BODY else Body(id, state.next);
      if size > 0 && id !in state.store {
        state := state.(store := state.store[id := Object(body, false)]);
      }
      state := state.(cache := Added(state.cache, id, Payload(body, 0, false)), next := state.next + 1);
    }

    method Seal(id: PlasmaId) returns (status: Status)
      requires Agree(state)
      modifies this
      ensures state == SealedAt(old(state), id) && Agree(state)
      ensures status == if ServerSeals(old(state), id) && id in old(state).cache.inUse then Ok else NotExists
    {
      StepKeepsAgree(state, SealBuffer(id));
      if !ServerSeals(state, id) {
        return NotExists;
      }
      if !id.EmptyId? {
        state := state.(store := state.store[id := state.store[id].(isSealed := true)]);
      }
      status := if id in state.cache.inUse then Ok else NotExists;
      state := state.(cache := Sealed(state.cache, id));
    }
  }
}
