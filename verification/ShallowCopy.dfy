/** `ShallowCopy`: the metadata tree of an object of one session is rebuilt in another, object
    by object, over blobs whose ownership has been moved. Every distinct object is created
    once; `mapping` remembers what it became. The server contributes fresh ids and keeps
    the trees it is given, but takes no metadata for a blob. */
module ShallowCopy {

  /** Object ids: those of blobs are told apart by a bit of the id itself. */
  datatype Id = BlobId(n: nat) | MetaId(n: nat)

  /** A metadata tree: an object with its id, the instance it lives on and its other fields
      in key order. An array is a scalar here: the copy looks at object values only. */
  datatype Tree = Node(id: Id, instance: nat, fields: seq<Field>)

  datatype Field = Field(key: string, value: Value)

  datatype Value = Scalar(text: string) | EmptyObject | Sub(tree: Tree)

  // ---------------------------------------------------------------- what is to be copied

  /** The blobs that `SetMetaData` puts into the buffer set: those of the client's own
      instance. Blobs are not searched for members. */
  function Buffers(t: Tree, here: nat): set<Id>
    decreases t
  {
    if t.id.BlobId? then (if t.instance == here then {t.id} else {}) else BuffersIn(t.fields, here)
  }

  function BuffersIn(fs: seq<Field>, here: nat): set<Id>
    decreases fs
  {
    if fs == [] then {}
    else (if fs[0].value.Sub? then Buffers(fs[0].value.tree, here) else {}) + BuffersIn(fs[1..], here)
  }

  /** The ids of the objects that have to be created for a tree. */
  ghost function Reach(t: Tree, kept: set<Id>): set<Id>
    decreases t
  {
    if t.id in kept then {} else {t.id} + ReachIn(t.fields, kept)
  }

  ghost function ReachIn(fs: seq<Field>, kept: set<Id>): set<Id>
    decreases fs
  {
    if fs == [] then {}
    else (if fs[0].value.Sub? then Reach(fs[0].value.tree, kept) else {}) + ReachIn(fs[1..], kept)
  }

  /** The tree under a renaming of its ids; what lies under a kept id stays as it is. */
  ghost function Image(t: Tree, rho: map<Id, Id>, kept: set<Id>, here: nat): Tree
    decreases t
  {
    if t.id in kept || t.id !in rho then t
    else Node(rho[t.id], here, ImageOf(t.fields, rho, kept, here))
  }

  ghost function ImageOf(fs: seq<Field>, rho: map<Id, Id>, kept: set<Id>, here: nat): seq<Field>
    decreases fs
  {
    if fs == [] then []
    else [ImageField(fs[0], rho, kept, here)] + ImageOf(fs[1..], rho, kept, here)
  }

  ghost function ImageField(f: Field, rho: map<Id, Id>, kept: set<Id>, here: nat): Field
    decreases f
  {
    if f.value.Sub? then Field(f.key, Sub(Image(f.value.tree, rho, kept, here))) else f
  }

  function Size(t: Tree): nat
    decreases t
  {
    1 + SizeOf(t.fields)
  }

  function SizeOf(fs: seq<Field>): nat
    decreases fs
  {
    if fs == [] then 0 else (if fs[0].value.Sub? then Size(fs[0].value.tree) else 0) + SizeOf(fs[1..])
  }

  /** A set of trees that holds every member object of its trees. */
  ghost predicate Closed(nodes: set<Tree>)
  {
    forall t, i :: t in nodes && 0 <= i < |t.fields| && t.fields[i].value.Sub? ==> t.fields[i].value.tree in nodes
  }

  /** Equal ids carry equal subtrees. */
  ghost predicate Consistent(nodes: set<Tree>)
  {
    forall t, u :: t in nodes && u in nodes && t.id == u.id ==> t == u
  }

  // ---------------------------------------------------------------- facts about trees

  lemma {:induction false} ReachAt(fs: seq<Field>, kept: set<Id>, i: nat)
    requires i < |fs| && fs[i].value.Sub?
    ensures Reach(fs[i].value.tree, kept) <= ReachIn(fs, kept)
  {
    if i > 0 {
      ReachAt(fs[1..], kept, i - 1);
    }
  }

  /** Once every id to be created is mapped, a larger map gives the same image. */
  lemma {:induction false} ImageIsStable(t: Tree, rho: map<Id, Id>, rho': map<Id, Id>, kept: set<Id>, here: nat)
    requires Reach(t, kept) <= rho.Keys
    requires forall id :: id in rho ==> id in rho' && rho'[id] == rho[id]
    ensures Image(t, rho', kept, here) == Image(t, rho, kept, here)
    decreases t
  {
    if t.id !in kept {
      ImageOfIsStable(t.fields, rho, rho', kept, here);
    }
  }

  lemma {:induction false} ImageOfIsStable(fs: seq<Field>, rho: map<Id, Id>, rho': map<Id, Id>, kept: set<Id>, here: nat)
    requires ReachIn(fs, kept) <= rho.Keys
    requires forall id :: id in rho ==> id in rho' && rho'[id] == rho[id]
    ensures ImageOf(fs, rho', kept, here) == ImageOf(fs, rho, kept, here)
    decreases fs
  {
    if fs != [] {
      if fs[0].value.Sub? {
        ImageIsStable(fs[0].value.tree, rho, rho', kept, here);
      }
      ImageOfIsStable(fs[1..], rho, rho', kept, here);
    }
  }

  /** `back` undoes `rho` on the given ids, and `rho` leads away from the kept ones. */
  ghost predicate Undoes(back: map<Id, Id>, rho: map<Id, Id>, ids: set<Id>, kept: set<Id>)
  {
    forall id :: id in ids ==> id in rho && rho[id] !in kept && rho[id] in back && back[rho[id]] == id
  }

  /** Every object to be created is on this instance already. */
  ghost predicate Settled(t: Tree, kept: set<Id>, here: nat)
    decreases t
  {
    t.id in kept || (t.instance == here && SettledIn(t.fields, kept, here))
  }

  ghost predicate SettledIn(fs: seq<Field>, kept: set<Id>, here: nat)
    decreases fs
  {
    fs == [] || ((fs[0].value.Sub? ==> Settled(fs[0].value.tree, kept, here)) && SettledIn(fs[1..], kept, here))
  }

  /** Renaming the copy back gives the source again, with every created object on this
      instance, and so the source itself when they were there: the copy has lost nothing. */
  lemma {:induction false} ImageIsUndone(t: Tree, rho: map<Id, Id>, back: map<Id, Id>, kept: set<Id>, here: nat)
    requires Undoes(back, rho, Reach(t, kept), kept)
    ensures Image(Image(t, rho, kept, here), back, kept, here) ==
            Image(t, map id | id in rho :: id, kept, here)
    ensures Settled(t, kept, here) ==> Image(Image(t, rho, kept, here), back, kept, here) == t
    decreases t
  {
    if t.id !in kept {
      ImageOfIsUndone(t.fields, rho, back, kept, here);
    }
  }

  lemma {:induction false} ImageOfIsUndone(fs: seq<Field>, rho: map<Id, Id>, back: map<Id, Id>, kept: set<Id>, here: nat)
    requires Undoes(back, rho, ReachIn(fs, kept), kept)
    ensures ImageOf(ImageOf(fs, rho, kept, here), back, kept, here) ==
            ImageOf(fs, map id | id in rho :: id, kept, here)
    ensures SettledIn(fs, kept, here) ==> ImageOf(ImageOf(fs, rho, kept, here), back, kept, here) == fs
    decreases fs
  {
    if fs != [] {
      if fs[0].value.Sub? {
        ImageIsUndone(fs[0].value.tree, rho, back, kept, here);
      }
      ImageOfIsUndone(fs[1..], rho, back, kept, here);
      assert ImageOf(fs, rho, kept, here)[1..] == ImageOf(fs[1..], rho, kept, here);
    }
  }

  /** An id to be created belongs to some node, which is no larger than the tree. */
  lemma {:induction false} ReachedNode(t: Tree, nodes: set<Tree>, kept: set<Id>, id: Id) returns (n: Tree)
    requires t in nodes && Closed(nodes) && id in Reach(t, kept)
    ensures n in nodes && n.id == id && Size(n) <= Size(t)
    decreases t
  {
    if t.id == id {
      n := t;
    } else {
      forall i | 0 <= i < |t.fields| && t.fields[i].value.Sub? ensures t.fields[i].value.tree in nodes {
      }
      n := ReachedNodeIn(t.fields, nodes, kept, id);
    }
  }

  lemma {:induction false} ReachedNodeIn(fs: seq<Field>, nodes: set<Tree>, kept: set<Id>, id: Id) returns (n: Tree)
    requires Closed(nodes) && forall i :: 0 <= i < |fs| && fs[i].value.Sub? ==> fs[i].value.tree in nodes
    requires id in ReachIn(fs, kept)
    ensures n in nodes && n.id == id && Size(n) <= SizeOf(fs)
    decreases fs
  {
    if fs[0].value.Sub? && id in Reach(fs[0].value.tree, kept) {
      n := ReachedNode(fs[0].value.tree, nodes, kept, id);
    } else {
      n := ReachedNodeIn(fs[1..], nodes, kept, id);
    }
  }

  /** No object is a member of itself. */
  lemma NotInItself(t: Tree, nodes: set<Tree>, kept: set<Id>)
    requires t in nodes && Closed(nodes) && Consistent(nodes)
    ensures t.id !in ReachIn(t.fields, kept)
  {
    if t.id in ReachIn(t.fields, kept) {
      var n := ReachedNodeIn(t.fields, nodes, kept, t.id);
    }
  }

  lemma {:induction false} FreshIdExists(ids: set<Id>) returns (bound: nat)
    ensures forall id :: id in ids ==> id.n < bound
  {
    if ids == {} {
      bound := 0;
    } else {
      var id :| id in ids;
      var b := FreshIdExists(ids - {id});
      bound := if id.n < b then b else id.n + 1;
      forall x | x in ids ensures x.n < bound {
        assert x == id || x in ids - {id};
      }
    }
  }

  // ---------------------------------------------------------------- the nodes of a tree

  ghost function Nodes(t: Tree): set<Tree>
    decreases t
  {
    {t} + NodesIn(t.fields)
  }

  ghost function NodesIn(fs: seq<Field>): set<Tree>
    decreases fs
  {
    if fs == [] then {} else (if fs[0].value.Sub? then Nodes(fs[0].value.tree) else {}) + NodesIn(fs[1..])
  }

  lemma {:induction false} NodesAt(fs: seq<Field>, i: nat)
    requires i < |fs| && fs[i].value.Sub?
    ensures fs[i].value.tree in NodesIn(fs)
  {
    if i > 0 {
      NodesAt(fs[1..], i - 1);
    }
  }

  lemma {:induction false} NodesAreClosed(t: Tree)
    ensures Closed(Nodes(t))
    decreases t
  {
    NodesInAreClosed(t.fields);
    forall i | 0 <= i < |t.fields| && t.fields[i].value.Sub? ensures t.fields[i].value.tree in Nodes(t) {
      NodesAt(t.fields, i);
    }
  }

  lemma {:induction false} NodesInAreClosed(fs: seq<Field>)
    ensures Closed(NodesIn(fs))
    decreases fs
  {
    if fs != [] {
      if fs[0].value.Sub? {
        NodesAreClosed(fs[0].value.tree);
      }
      NodesInAreClosed(fs[1..]);
    }
  }

  /** The blobs of a tree, as `SetMetaData` finds them. */
  ghost function Blobs(t: Tree): set<Tree>
    decreases t
  {
    if t.id.BlobId? then {t} else BlobsIn(t.fields)
  }

  ghost function BlobsIn(fs: seq<Field>): set<Tree>
    decreases fs
  {
    if fs == [] then {} else (if fs[0].value.Sub? then Blobs(fs[0].value.tree) else {}) + BlobsIn(fs[1..])
  }

  lemma {:induction false} BuffersAreBlobs(t: Tree, here: nat)
    ensures forall id :: id in Buffers(t, here) ==> id.BlobId?
    ensures forall id :: id in Buffers(t, here) <==> exists b :: b in Blobs(t) && b.id == id && b.instance == here
    ensures forall b :: b in Blobs(t) ==> b in Nodes(t) && b.id.BlobId?
    decreases t
  {
    if t.id.MetaId? {
      BuffersInAreBlobs(t.fields, here);
    }
  }

  lemma {:induction false} BuffersInAreBlobs(fs: seq<Field>, here: nat)
    ensures forall id :: id in BuffersIn(fs, here) ==> id.BlobId?
    ensures forall id :: id in BuffersIn(fs, here) <==> exists b :: b in BlobsIn(fs) && b.id == id && b.instance == here
    ensures forall b :: b in BlobsIn(fs) ==> b in NodesIn(fs) && b.id.BlobId?
    decreases fs
  {
    if fs != [] {
      if fs[0].value.Sub? {
        BuffersAreBlobs(fs[0].value.tree, here);
      }
      BuffersInAreBlobs(fs[1..], here);
    }
  }

  lemma LocalIffKept(root: Tree, here: nat, b: Tree)
    requires Consistent(Nodes(root)) && b in Blobs(root)
    ensures b.id in Buffers(root, here) <==> b.instance == here
  {
    BuffersAreBlobs(root, here);
    if b.id in Buffers(root, here) {
      var c :| c in Blobs(root) && c.id == b.id && c.instance == here;
      assert c == b;
    }
  }

  /** A blob that is not kept is one of the objects to be created. */
  lemma {:induction false} BlobIsReached(t: Tree, kept: set<Id>, b: Tree)
    requires b in Blobs(t) && forall id :: id in kept ==> id.BlobId?
    ensures b.id in kept || b.id in Reach(t, kept)
    decreases t
  {
    if t.id.MetaId? {
      BlobInIsReached(t.fields, kept, b);
    }
  }

  lemma {:induction false} BlobInIsReached(fs: seq<Field>, kept: set<Id>, b: Tree)
    requires b in BlobsIn(fs) && forall id :: id in kept ==> id.BlobId?
    ensures b.id in kept || b.id in ReachIn(fs, kept)
    decreases fs
  {
    if fs[0].value.Sub? && b in Blobs(fs[0].value.tree) {
      BlobIsReached(fs[0].value.tree, kept, b);
    } else {
      BlobInIsReached(fs[1..], kept, b);
    }
  }

  lemma {:induction false} KeptAreNotReached(t: Tree, kept: set<Id>)
    ensures Reach(t, kept) !! kept
    decreases t
  {
    NotReachingKept(t.fields, kept);
  }

  lemma {:induction false} NotReachingKept(fs: seq<Field>, kept: set<Id>)
    ensures ReachIn(fs, kept) !! kept
    decreases fs
  {
    if fs != [] {
      if fs[0].value.Sub? {
        KeptAreNotReached(fs[0].value.tree, kept);
      }
      NotReachingKept(fs[1..], kept);
    }
  }

  // ---------------------------------------------------------------- the copy

  /** Which object of the source each created object stands for, in order of creation. */
  type Log = seq<(Id, Id)>

  ghost function Sources(log: Log): set<Id>
  {
    set i | 0 <= i < |log| :: log[i].0
  }

  ghost predicate LogIsInjective(log: Log)
  {
    && (forall i, j :: 0 <= i < j < |log| ==> log[i].0 != log[j].0 && log[i].1 != log[j].1)
    && (forall i :: 0 <= i < |log| ==> log[i].0.MetaId? && log[i].1.MetaId?)
  }

  /** The mapping is the identity on the kept ids and the log elsewhere. */
  ghost predicate MapsLog(mapping: map<Id, Id>, log: Log, kept: set<Id>)
  {
    && mapping.Keys == kept + Sources(log)
    && (forall id :: id in kept ==> mapping[id] == id)
    && (forall i :: 0 <= i < |log| ==> log[i].0 !in kept && mapping[log[i].0] == log[i].1)
  }

  /** Every mapped object of the source has been stored as its image, members included. */
  ghost predicate Stored(nodes: set<Tree>, mapping: map<Id, Id>, store: map<Id, Tree>, kept: set<Id>, here: nat)
  {
    forall t :: t in nodes && t.id in mapping && t.id !in kept ==>
      && Reach(t, kept) <= mapping.Keys
      && mapping[t.id] in store
      && store[mapping[t.id]] == Image(t, mapping, kept, here)
  }

  /** Field by field: the key and whatever is no member are the source's, a kept blob is the
      source's, and any other member is what its id has been mapped to. */
  ghost predicate CopyOf(copy: seq<Field>, source: seq<Field>, mapping: map<Id, Id>, store: map<Id, Tree>, kept: set<Id>)
  {
    |copy| == |source| && forall i :: 0 <= i < |source| ==> CopyOfField(copy[i], source[i], mapping, store, kept)
  }

  ghost predicate CopyOfField(copy: Field, source: Field, mapping: map<Id, Id>, store: map<Id, Tree>, kept: set<Id>)
  {
    && copy.key == source.key
    && if source.value.Sub? && source.value.tree.id !in kept then
         var id := source.value.tree.id;
         id in mapping && mapping[id] in store && copy.value == Sub(store[mapping[id]])
       else
         copy.value == source.value
  }

  /** Every mapped object of the source, kept blobs aside, is stored under its new id with its
      fields copied. */
  ghost predicate AllCopied(nodes: set<Tree>, mapping: map<Id, Id>, store: map<Id, Tree>, kept: set<Id>, here: nat)
  {
    forall t :: t in nodes && t.id in mapping && t.id !in kept ==>
      && mapping[t.id] in store
      && store[mapping[t.id]].id == mapping[t.id] && store[mapping[t.id]].instance == here
      && CopyOf(store[mapping[t.id]].fields, t.fields, mapping, store, kept)
  }

  lemma FieldIsCopied(f: Field, nodes: set<Tree>, mapping: map<Id, Id>, store: map<Id, Tree>, kept: set<Id>, here: nat)
    requires Stored(nodes, mapping, store, kept, here)
    requires f.value.Sub? ==> f.value.tree in nodes && Reach(f.value.tree, kept) <= mapping.Keys
    ensures CopyOfField(ImageField(f, mapping, kept, here), f, mapping, store, kept)
  {
    if f.value.Sub? {
      var u := f.value.tree;
      if u.id in kept {
        assert Image(u, mapping, kept, here) == u;
      } else {
        assert u.id in Reach(u, kept);
      }
    }
  }

  lemma {:induction false} FieldsAreCopied(fs: seq<Field>, nodes: set<Tree>, mapping: map<Id, Id>, store: map<Id, Tree>,
                                           kept: set<Id>, here: nat)
    requires Stored(nodes, mapping, store, kept, here) && ReachIn(fs, kept) <= mapping.Keys
    requires forall i :: 0 <= i < |fs| && fs[i].value.Sub? ==> fs[i].value.tree in nodes
    ensures CopyOf(ImageOf(fs, mapping, kept, here), fs, mapping, store, kept)
  {
    if fs != [] {
      FieldsAreCopied(fs[1..], nodes, mapping, store, kept, here);
      var image, rest := ImageOf(fs, mapping, kept, here), ImageOf(fs[1..], mapping, kept, here);
      assert image == [ImageField(fs[0], mapping, kept, here)] + rest;
      FieldIsCopied(fs[0], nodes, mapping, store, kept, here);
      forall i | 1 <= i < |fs| ensures CopyOfField(image[i], fs[i], mapping, store, kept) {
        assert image[i] == rest[i - 1] && fs[i] == fs[1..][i - 1];
      }
    }
  }

  lemma NodesAreCopied(nodes: set<Tree>, mapping: map<Id, Id>, store: map<Id, Tree>, kept: set<Id>, here: nat)
    requires Closed(nodes) && Stored(nodes, mapping, store, kept, here)
    ensures AllCopied(nodes, mapping, store, kept, here)
  {
    forall t | t in nodes && t.id in mapping && t.id !in kept
      ensures CopyOf(ImageOf(t.fields, mapping, kept, here), t.fields, mapping, store, kept)
    {
      FieldsAreCopied(t.fields, nodes, mapping, store, kept, here);
    }
  }

  ghost predicate Good(nodes: set<Tree>, mapping: map<Id, Id>, store: map<Id, Tree>, log: Log, kept: set<Id>, here: nat)
  {
    && LogIsInjective(log)
    && (forall i :: 0 <= i < |log| ==> log[i].1 in store)
    && MapsLog(mapping, log, kept)
    && Stored(nodes, mapping, store, kept, here)
  }

  ghost predicate Extends<K, V>(m: map<K, V>, m': map<K, V>)
  {
    forall k :: k in m ==> k in m' && m'[k] == m[k]
  }

  /** The log has grown by ids that the server had not used. */
  ghost predicate CreatedSince(log: Log, store: map<Id, Tree>, log': Log)
  {
    log <= log' && forall i :: |log| <= i < |log'| ==> log'[i].1 !in store
  }

  /** Nothing has been forgotten or overwritten. */
  ghost predicate Grown(mapping: map<Id, Id>, store: map<Id, Tree>, log: Log,
                        mapping': map<Id, Id>, store': map<Id, Tree>, log': Log)
  {
    Extends(mapping, mapping') && Extends(store, store') && CreatedSince(log, store, log')
  }

  lemma GrownTwice(m: map<Id, Id>, s: map<Id, Tree>, l: Log, m': map<Id, Id>, s': map<Id, Tree>, l': Log,
                   m'': map<Id, Id>, s'': map<Id, Tree>, l'': Log)
    requires Grown(m, s, l, m', s', l') && Grown(m', s', l', m'', s'', l'')
    ensures Grown(m, s, l, m'', s'', l'')
  {
    forall i | |l| <= i < |l''| ensures l''[i].1 !in s {
      assert i < |l'| ==> l''[i] == l'[i];
    }
  }

  /** What is known of a call that rebuilds `t` and answers with the last entry of the log. */
  ghost predicate Rebuilt(t: Tree, newId: Id, nodes: set<Tree>, kept: set<Id>, here: nat,
                          mapping: map<Id, Id>, store: map<Id, Tree>, log: Log)
  {
    && log != [] && log[|log| - 1] == (t.id, newId)
    && LogIsInjective(log)
    && newId in store
    && Good(nodes, mapping, store, log[..|log| - 1], kept, here)
    && ReachIn(t.fields, kept) <= mapping.Keys
    && store[newId] == Node(newId, here, ImageOf(t.fields, mapping, kept, here))
  }

  lemma SourcesSnoc(log: Log, entry: (Id, Id))
    ensures Sources(log + [entry]) == Sources(log) + {entry.0}
  {
    var log' := log + [entry];
    forall id | id in Sources(log) + {entry.0} ensures id in Sources(log') {
      if id in Sources(log) {
        var i :| 0 <= i < |log| && log[i].0 == id;
        assert log'[i].0 == id;
      } else {
        assert log'[|log|].0 == id;
      }
    }
  }

  lemma MapsLogEmplaced(mapping: map<Id, Id>, log: Log, kept: set<Id>, id: Id, newId: Id)
    requires MapsLog(mapping, log, kept) && id !in mapping
    ensures MapsLog(mapping[id := newId], log + [(id, newId)], kept)
  {
    SourcesSnoc(log, (id, newId));
    var log', mapping' := log + [(id, newId)], mapping[id := newId];
    forall i | 0 <= i < |log'| ensures log'[i].0 !in kept && mapping'[log'[i].0] == log'[i].1 {
      if i < |log| {
        assert log'[i] == log[i];
        assert log[i].0 in Sources(log);
      }
    }
  }

  /** The caller's `emplace` makes a rebuilt object one of the mapped ones. */
  lemma GoodEmplaced(t: Tree, newId: Id, nodes: set<Tree>, kept: set<Id>, here: nat,
                     mapping: map<Id, Id>, store: map<Id, Tree>, log: Log)
    requires Rebuilt(t, newId, nodes, kept, here, mapping, store, log)
    requires t in nodes && Consistent(nodes) && t.id !in mapping
    ensures Good(nodes, mapping[t.id := newId], store, log, kept, here)
  {
    var front, mapping' := log[..|log| - 1], mapping[t.id := newId];
    assert log == front + [(t.id, newId)];
    MapsLogEmplaced(mapping, front, kept, t.id, newId);
    StoredEmplaced(t, newId, nodes, kept, here, mapping, store);
    assert forall i :: 0 <= i < |front| ==> log[i] == front[i];
  }

  lemma StoredEmplaced(t: Tree, newId: Id, nodes: set<Tree>, kept: set<Id>, here: nat,
                       mapping: map<Id, Id>, store: map<Id, Tree>)
    requires Stored(nodes, mapping, store, kept, here)
    requires t in nodes && Consistent(nodes) && t.id !in mapping
    requires ReachIn(t.fields, kept) <= mapping.Keys
    requires newId in store && store[newId] == Node(newId, here, ImageOf(t.fields, mapping, kept, here))
    ensures Stored(nodes, mapping[t.id := newId], store, kept, here)
  {
    var mapping' := mapping[t.id := newId];
    forall u | u in nodes && u.id in mapping' && u.id !in kept
      ensures && Reach(u, kept) <= mapping'.Keys
              && mapping'[u.id] in store
              && store[mapping'[u.id]] == Image(u, mapping', kept, here)
    {
      if u.id == t.id {
        assert u == t;
        ImageOfIsStable(t.fields, mapping, mapping', kept, here);
      } else {
        ImageIsStable(u, mapping, mapping', kept, here);
      }
    }
  }

  /** The members of the first `i` fields have been replaced by their images. */
  ghost predicate Replaced(t: Tree, i: nat, fields: seq<Field>, mapping: map<Id, Id>, kept: set<Id>, here: nat)
  {
    && i <= |t.fields| == |fields|
    && fields[i..] == t.fields[i..]
    && ReachIn(t.fields[..i], kept) <= mapping.Keys
    && fields[..i] == ImageOf(t.fields[..i], mapping, kept, here)
  }

  lemma {:induction false} Snoc(fs: seq<Field>, f: Field, rho: map<Id, Id>, kept: set<Id>, here: nat)
    ensures ImageOf(fs + [f], rho, kept, here) == ImageOf(fs, rho, kept, here) + [ImageField(f, rho, kept, here)]
    ensures ReachIn(fs + [f], kept) == ReachIn(fs, kept) + if f.value.Sub? then Reach(f.value.tree, kept) else {}
    decreases fs
  {
    if fs == [] {
      assert fs + [f] == [f] && [f][1..] == [];
    } else {
      Snoc(fs[1..], f, rho, kept, here);
      assert (fs + [f])[1..] == fs[1..] + [f];
    }
  }

  lemma FieldStep(t: Tree, i: nat, fields: seq<Field>, mapping: map<Id, Id>, mapping': map<Id, Id>,
                  kept: set<Id>, here: nat)
    requires Replaced(t, i, fields, mapping, kept, here) && i < |t.fields|
    requires Extends(mapping, mapping')
    requires t.fields[i].value.Sub? ==> Reach(t.fields[i].value.tree, kept) <= mapping'.Keys
    ensures fields[i] == t.fields[i]
    ensures Replaced(t, i + 1, fields[i := ImageField(t.fields[i], mapping', kept, here)], mapping', kept, here)
  {
    var f := ImageField(t.fields[i], mapping', kept, here);
    assert fields[i] == fields[i..][0] == t.fields[i];
    assert t.fields[..i + 1] == t.fields[..i] + [t.fields[i]];
    Snoc(t.fields[..i], t.fields[i], mapping', kept, here);
    ImageOfIsStable(t.fields[..i], mapping, mapping', kept, here);
    assert fields[i := f][..i + 1] == fields[..i] + [f];
    assert fields[i := f][i + 1..] == fields[i..][1..] == t.fields[i..][1..] == t.fields[i + 1..];
  }

  /** With all fields replaced, creating the object completes the call. */
  lemma FinishRebuilt(t: Tree, newId: Id, fields: seq<Field>, nodes: set<Tree>, kept: set<Id>, here: nat,
                      mapping: map<Id, Id>, store: map<Id, Tree>, log: Log)
    requires Good(nodes, mapping, store, log, kept, here)
    requires Replaced(t, |t.fields|, fields, mapping, kept, here)
    requires t.id !in Sources(log) && newId !in store && newId.MetaId? && t.id.MetaId?
    ensures Rebuilt(t, newId, nodes, kept, here, mapping, store[newId := Node(newId, here, fields)], log + [(t.id, newId)])
  {
    GoodInLargerStore(nodes, mapping, store, store[newId := Node(newId, here, fields)], log, kept, here);
    assert (log + [(t.id, newId)])[..|log|] == log;
    assert t.fields[..|t.fields|] == t.fields && fields[..|t.fields|] == fields;
    forall i | 0 <= i < |log| ensures log[i].0 != t.id && log[i].1 != newId {
      assert log[i].0 in Sources(log);
    }
  }

  lemma GoodInLargerStore(nodes: set<Tree>, mapping: map<Id, Id>, store: map<Id, Tree>, store': map<Id, Tree>,
                          log: Log, kept: set<Id>, here: nat)
    requires Good(nodes, mapping, store, log, kept, here) && Extends(store, store')
    ensures Good(nodes, mapping, store', log, kept, here)
  {
  }

  lemma SourcesAreReached(root: Tree, target: Id, mapping: map<Id, Id>, log: Log, kept: set<Id>)
    requires log != [] && log[|log| - 1] == (root.id, target) && MapsLog(mapping, log[..|log| - 1], kept)
    requires ReachIn(root.fields, kept) <= mapping.Keys <= kept + ReachIn(root.fields, kept)
    ensures Sources(log) == {root.id} + ReachIn(root.fields, kept)
  {
    var front := log[..|log| - 1];
    assert log == front + [(root.id, target)];
    SourcesSnoc(front, (root.id, target));
    NotReachingKept(root.fields, kept);
    forall id | id in Sources(front) ensures id in ReachIn(root.fields, kept) {
      var i :| 0 <= i < |front| && front[i].0 == id;
      assert id !in kept;
    }
    assert Sources(front) == ReachIn(root.fields, kept);
  }

  /** The server stores no metadata for blobs. */
  predicate Creatable(ids: set<Id>)
  {
    forall id :: id in ids ==> id.MetaId?
  }

  /** What is mapped already could be created. */
  lemma MappedIsCreatable(mapping: map<Id, Id>, log: Log, kept: set<Id>, ids: set<Id>)
    requires MapsLog(mapping, log, kept) && LogIsInjective(log) && ids <= mapping.Keys && ids !! kept
    ensures Creatable(ids)
  {
    forall id | id in ids ensures id.MetaId? {
      var i :| 0 <= i < |log| && log[i].0 == id;
    }
  }

  /** The root has metadata of its own, and all blobs are on the client's instance. */
  ghost predicate Copyable(root: Tree, here: nat)
  {
    root.id.MetaId? && forall b :: b in Blobs(root) ==> b.instance == here
  }

  lemma CopyableIffCreatable(root: Tree, here: nat)
    requires Consistent(Nodes(root))
    ensures Copyable(root, here) <==> root.id.MetaId? && Creatable(ReachIn(root.fields, Buffers(root, here)))
  {
    var kept := Buffers(root, here);
    BuffersAreBlobs(root, here);
    if root.id.MetaId? {
      forall b | b in Blobs(root) ensures b.id in kept <==> b.instance == here {
        LocalIffKept(root, here, b);
      }
      forall b | b in Blobs(root) ensures b.id in kept || b.id in ReachIn(root.fields, kept) {
        BlobInIsReached(root.fields, kept, b);
      }
      if Copyable(root, here) {
        OnlyMetadataIsReachedIn(root.fields, kept);
      }
    }
  }

  /** With every blob kept, only metadata objects are to be created. */
  lemma {:induction false} OnlyMetadataIsReached(t: Tree, kept: set<Id>)
    requires forall b :: b in Blobs(t) ==> b.id in kept
    ensures Creatable(Reach(t, kept))
    decreases t
  {
    if t.id.MetaId? {
      OnlyMetadataIsReachedIn(t.fields, kept);
    }
  }

  lemma {:induction false} OnlyMetadataIsReachedIn(fs: seq<Field>, kept: set<Id>)
    requires forall b :: b in BlobsIn(fs) ==> b.id in kept
    ensures Creatable(ReachIn(fs, kept))
    decreases fs
  {
    if fs != [] {
      if fs[0].value.Sub? {
        OnlyMetadataIsReached(fs[0].value.tree, kept);
      }
      OnlyMetadataIsReachedIn(fs[1..], kept);
    }
  }

  /** A blob of another instance, and a blob as the root, would have to be created. */
  lemma RemoteBlobIsRefused()
    ensures var blob := Node(BlobId(2), 1, []);
            var root := Node(MetaId(1), 0, [Field("buffer_", Sub(blob))]);
            && BlobId(2) in ReachIn(root.fields, Buffers(root, 0)) && !Copyable(root, 0)
            && !Copyable(blob, 1)
  {
    var blob := Node(BlobId(2), 1, []);
    var root := Node(MetaId(1), 0, [Field("buffer_", Sub(blob))]);
    var fs := root.fields;
    assert fs[0].value.tree == blob && fs[1..] == [];
    assert BuffersIn(fs, 0) == Buffers(blob, 0) + BuffersIn(fs[1..], 0) == {};
    assert BlobsIn(fs) == Blobs(blob) + BlobsIn(fs[1..]) == {blob};
    assert blob in Blobs(root);
    assert ReachIn(fs, {}) == Reach(blob, {}) + ReachIn(fs[1..], {});
  }

  class Copier {
    const here: nat
    var mapping: map<Id, Id>
    var store: map<Id, Tree>
    var log: Log

    constructor (here: nat, store: map<Id, Tree>)
      ensures this.here == here && this.store == store && mapping == map[] && log == []
    {
      this.here := here;
      this.store := store;
      this.mapping := map[];
      this.log := [];
    }

    /** The server stores the tree under an id that it has not used, but refuses the
        metadata of a blob. */
    method CreateMetaData(source: Id, fields: seq<Field>) returns (ok: bool, newId: Id)
      modifies this`store, this`log
      ensures ok <==> source.MetaId?
      ensures !ok ==> store == old(store) && log == old(log)
      ensures ok ==>
        && newId.MetaId? && newId !in old(store)
        && store == old(store)[newId := Node(newId, here, fields)]
        && log == old(log) + [(source, newId)]
    {
      if source.BlobId? {
        return false, source;
      }
      ghost var bound := FreshIdExists(store.Keys);
      assert MetaId(bound) !in store;
      newId :| newId.MetaId? && newId !in store;
      store := store[newId := Node(newId, here, fields)];
      log := log + [(source, newId)];
      ok := true;
    }

    /** The loop of the lambda `reconstruct`: every member is replaced by its copy. */
    method CopyFields(t: Tree, ghost nodes: set<Tree>, ghost kept: set<Id>) returns (ok: bool, fields: seq<Field>)
      requires t in nodes && Closed(nodes) && Consistent(nodes)
      requires forall id :: id in kept ==> id.BlobId?
      requires Good(nodes, mapping, store, log, kept, here)
      modifies this`mapping, this`store, this`log
      ensures ok <==> Creatable(ReachIn(t.fields, kept))
      ensures Grown(old(mapping), old(store), old(log), mapping, store, log)
      ensures ok ==>
        && Good(nodes, mapping, store, log, kept, here)
        && mapping.Keys <= old(mapping).Keys + ReachIn(t.fields, kept)
        && Replaced(t, |t.fields|, fields, mapping, kept, here)
        && CopyOf(fields, t.fields, mapping, store, kept)
      decreases t, 0
    {
      fields := t.fields;
      NotReachingKept(t.fields, kept);
      for i := 0 to |t.fields|
        invariant Good(nodes, mapping, store, log, kept, here)
        invariant Grown(old(mapping), old(store), old(log), mapping, store, log)
        invariant mapping.Keys <= old(mapping).Keys + ReachIn(t.fields, kept)
        invariant Replaced(t, i, fields, mapping, kept, here)
      {
        var value := t.fields[i].value;
        ghost var mapped, stored, logged := mapping, store, log;
        if value.Sub? {
          ReachAt(t.fields, kept, i);
          var newSubId;
          ok, newSubId := NewIdOf(value.tree, nodes, kept);
          GrownTwice(old(mapping), old(store), old(log), mapped, stored, logged, mapping, store, log);
          if !ok {
            return;
          }
          FieldStep(t, i, fields, mapped, mapping, kept, here);
          if !newSubId.BlobId? {
            fields := fields[i := Field(t.fields[i].key, Sub(store[newSubId]))];
          }
        } else {
          FieldStep(t, i, fields, mapped, mapping, kept, here);
        }
      }
      assert t.fields[..|t.fields|] == t.fields && fields[..|t.fields|] == fields;
      FieldsAreCopied(t.fields, nodes, mapping, store, kept, here);
      MappedIsCreatable(mapping, log, kept, ReachIn(t.fields, kept));
      ok := true;
    }

    /** The lambda `reconstruct`: it throws when the server refuses an object. */
    method Reconstruct(t: Tree, ghost nodes: set<Tree>, ghost kept: set<Id>) returns (ok: bool, newId: Id)
      requires t in nodes && Closed(nodes) && Consistent(nodes)
      requires forall id :: id in kept ==> id.BlobId?
      requires Good(nodes, mapping, store, log, kept, here)
      requires t.id !in Sources(log)
      modifies this`mapping, this`store, this`log
      ensures ok <==> t.id.MetaId? && Creatable(ReachIn(t.fields, kept))
      ensures Grown(old(mapping), old(store), old(log), mapping, store, log)
      ensures ok ==> Rebuilt(t, newId, nodes, kept, here, mapping, store, log)
      ensures ok ==> mapping.Keys <= old(mapping).Keys + ReachIn(t.fields, kept)
      decreases t, 1
    {
      newId := t.id;
      var fields;
      ok, fields := CopyFields(t, nodes, kept);
      if ok {
        NotInItself(t, nodes, kept);
        NotReachingKept(t.fields, kept);
        assert t.id !in Sources(log);
        ghost var stored, logged := store, log;
        ok, newId := CreateMetaData(t.id, fields);
        if ok {
          FinishRebuilt(t, newId, fields, nodes, kept, here, mapping, stored, logged);
        }
      }
    }

    /** The new id of a member: looked up, or rebuilt and remembered. */
    method NewIdOf(sub: Tree, ghost nodes: set<Tree>, ghost kept: set<Id>) returns (ok: bool, newId: Id)
      requires sub in nodes && Closed(nodes) && Consistent(nodes)
      requires forall id :: id in kept ==> id.BlobId?
      requires Good(nodes, mapping, store, log, kept, here)
      modifies this`mapping, this`store, this`log
      ensures ok <==> Creatable(Reach(sub, kept))
      ensures Grown(old(mapping), old(store), old(log), mapping, store, log)
      ensures ok ==>
        && Good(nodes, mapping, store, log, kept, here)
        && mapping.Keys <= old(mapping).Keys + Reach(sub, kept)
        && Reach(sub, kept) <= mapping.Keys
        && (newId.BlobId? ==> Image(sub, mapping, kept, here) == sub)
        && (!newId.BlobId? ==> newId in store && store[newId] == Image(sub, mapping, kept, here))
      decreases sub, 2
    {
      if sub.id !in mapping {
        ok, newId := Reconstruct(sub, nodes, kept);
        if ok {
          NotInItself(sub, nodes, kept);
          GoodEmplaced(sub, newId, nodes, kept, here, mapping, store, log);
          mapping := mapping[sub.id := newId];
        }
      } else {
        KeptAreNotReached(sub, kept);
        MappedIsCreatable(mapping, log, kept, Reach(sub, kept));
        ok, newId := true, mapping[sub.id];
      }
    }

    /** The copy succeeds exactly on a tree with metadata at its root and all its blobs on
        this instance. It is then the source under an injective renaming that keeps the
        blobs, with each object created once, under a new id. */
    method ShallowCopy(root: Tree) returns (ok: bool, target: Id)
      requires Consistent(Nodes(root))
      modifies this
      ensures ok <==> Copyable(root, here)
      ensures CreatedSince([], old(store), log) && Extends(old(store), store)
      ensures ok ==> target in store && LogIsInjective(log)
      ensures ok ==>
        var kept := Buffers(root, here);
        && store[target] == Node(target, here, ImageOf(root.fields, mapping, kept, here))
        && log != [] && log[|log| - 1] == (root.id, target)
        && MapsLog(mapping, log[..|log| - 1], kept)
        && Sources(log) == {root.id} + ReachIn(root.fields, kept)
      ensures ok ==>
        var kept := Buffers(root, here);
        && store[target].id == target && store[target].instance == here
        && CopyOf(store[target].fields, root.fields, mapping, store, kept)
        && AllCopied(Nodes(root), mapping, store, kept, here)
      ensures ok ==> forall b :: b in Blobs(root) ==> b.id in mapping && mapping[b.id] == b.id
    {
      var kept := Buffers(root, here);
      BuffersAreBlobs(root, here);
      NodesAreClosed(root);
      CopyableIffCreatable(root, here);
      mapping := map id | id in kept :: id;
      log := [];
      ok, target := Reconstruct(root, Nodes(root), kept);
      if ok {
        NotReachingKept(root.fields, kept);
        SourcesAreReached(root, target, mapping, log, kept);
        FieldsAreCopied(root.fields, Nodes(root), mapping, store, kept, here);
        NodesAreCopied(Nodes(root), mapping, store, kept, here);
        forall b | b in Blobs(root) ensures b.id in kept {
          LocalIffKept(root, here, b);
        }
      }
    }
  }
}
