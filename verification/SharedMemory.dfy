/** Passing descriptors out of band. A reply names the shared-memory files its payloads lie
    in; the files the client has not mapped yet travel beside it, one descriptor at a time,
    and the client must take exactly those, in the order it maps the payloads. Both ends
    keep their own record of what has been sent: `used_fds_` on the server's connection,
    `mmap_table_` on the client. The descriptors in flight are a queue. */
module SharedMemory {
  import opened Common
  import opened Segments

  datatype Payload = Payload(id: ObjectId, storeFd: nat, mapSize: nat, dataSize: int, dataOffset: nat)

  /** A client mapping: the store descriptor its own descriptor really stands for, and the
      addresses of its read-only and writable mappings, zero when not mapped. */
  datatype Mapping = Mapping(origin: nat, length: nat, ro: nat, rw: nat)

  datatype Status = Ok | Mismatch | Failed

  // ---------------------------------------------------------------- which descriptors travel

  predicate Travels(known: set<nat>, before: seq<nat>, p: Payload)
  {
    p.dataSize > 0 && p.storeFd !in known && p.storeFd !in before
  }

  /** The descriptors of non-empty payloads not known yet, by first occurrence. */
  function NewFds(known: set<nat>, ps: seq<Payload>): (fds: seq<nat>)
  {
    if ps == [] then []
    else
      var before, p := NewFds(known, ps[..|ps| - 1]), ps[|ps| - 1];
      if Travels(known, before, p) then before + [p.storeFd] else before
  }

  function Elements(fds: seq<nat>): (s: set<nat>)
  {
    set f | f in fds
  }

  lemma {:induction false} NewFdsAreNew(known: set<nat>, ps: seq<Payload>)
    ensures Distinct(NewFds(known, ps))
    ensures forall f :: f in NewFds(known, ps) ==> f !in known
    ensures forall i :: 0 <= i < |ps| && ps[i].dataSize > 0 ==> ps[i].storeFd in known || ps[i].storeFd in NewFds(known, ps)
  {
    if ps != [] {
      NewFdsAreNew(known, ps[..|ps| - 1]);
    }
  }

  // ---------------------------------------------------------------- std::set<int>

  /** A `std::set<int>` as its elements in ascending order. */
  predicate Ascending(fds: seq<nat>)
  {
    forall i, j :: 0 <= i < j < |fds| ==> fds[i] < fds[j]
  }

  function Emplace(fds: seq<nat>, f: nat): (r: seq<nat>)
  {
    if fds == [] then [f]
    else
      var last := fds[|fds| - 1];
      if last < f then fds + [f] else if last == f then fds else Emplace(fds[..|fds| - 1], f) + [last]
  }

  function AsSet(fds: seq<nat>): (r: seq<nat>)
  {
    if fds == [] then [] else Emplace(AsSet(fds[..|fds| - 1]), fds[|fds| - 1])
  }

  lemma AscendingSnoc(fds: seq<nat>, last: nat)
    ensures Ascending(fds + [last]) <==> Ascending(fds) && forall x :: x in fds ==> x < last
  {
    var all := fds + [last];
    if Ascending(all) {
      forall x | x in fds ensures x < last {
        var i :| 0 <= i < |fds| && fds[i] == x;
        assert all[i] == x && all[|fds|] == last;
      }
      assert forall i :: 0 <= i < |fds| ==> fds[i] == all[i];
    } else if Ascending(fds) {
      var i, j :| 0 <= i < j < |all| && all[i] >= all[j];
      assert j == |fds| && all[i] == fds[i];
      assert fds[i] in fds;
    }
  }

  lemma {:induction false} EmplaceInserts(fds: seq<nat>, f: nat)
    requires Ascending(fds)
    ensures Ascending(Emplace(fds, f))
    ensures forall x :: x in Emplace(fds, f) <==> x == f || x in fds
    ensures f !in fds ==> |Emplace(fds, f)| == |fds| + 1
  {
    if fds != [] {
      var init, last := fds[..|fds| - 1], fds[|fds| - 1];
      assert fds == init + [last];
      AscendingSnoc(init, last);
      EmplaceInserts(init, f);
      AscendingSnoc(Emplace(init, f), last);
      AscendingSnoc(fds, f);
    }
  }

  lemma {:induction false} AsSetSorts(fds: seq<nat>)
    requires Distinct(fds)
    ensures Ascending(AsSet(fds)) && |AsSet(fds)| == |fds|
    ensures forall x :: x in AsSet(fds) <==> x in fds
  {
    if fds != [] {
      var init, last := fds[..|fds| - 1], fds[|fds| - 1];
      AsSetSorts(init);
      EmplaceInserts(AsSet(init), last);
    }
  }

  /** Sorting leaves a list alone just when it is ascending already. */
  lemma {:induction false} AsSetIsIdentityIff(fds: seq<nat>)
    requires Distinct(fds)
    ensures AsSet(fds) == fds <==> Ascending(fds)
  {
    AsSetSorts(fds);
    if Ascending(fds) && fds != [] {
      var init, last := fds[..|fds| - 1], fds[|fds| - 1];
      AsSetIsIdentityIff(init);
      assert fds == init + [last];
    }
  }

  // ---------------------------------------------------------------- the server's side

  class Server {
    var used: set<nat>

    constructor ()
      ensures used == {}
    {
      used := {};
    }

    /** `doGetBuffers`: the descriptors go out in payload order. */
    method SendForGet(ps: seq<Payload>) returns (fds: seq<nat>)
      modifies this
      ensures fds == NewFds(old(used), ps) && used == old(used) + Elements(fds)
    {
      fds := [];
      for i := 0 to |ps|
        invariant fds == NewFds(old(used), ps[..i]) && used == old(used) + Elements(fds)
      {
        assert ps[..i + 1][..i] == ps[..i];
        if ps[i].dataSize > 0 && ps[i].storeFd !in used {
          used := used + {ps[i].storeFd};
          fds := fds + [ps[i].storeFd];
        }
      }
      assert ps[..|ps|] == ps;
    }

    /** `doCreateBuffers`: the descriptors go out in ascending order. */
    method SendForCreate(ps: seq<Payload>) returns (fds: seq<nat>)
      modifies this
      ensures fds == AsSet(NewFds(old(used), ps)) && used == old(used) + Elements(NewFds(old(used), ps))
    {
      fds := [];
      ghost var order := [];
      for i := 0 to |ps|
        invariant order == NewFds(old(used), ps[..i]) && used == old(used) + Elements(order)
        invariant fds == AsSet(order)
      {
        assert ps[..i + 1][..i] == ps[..i];
        if ps[i].dataSize > 0 && ps[i].storeFd !in used {
          used := used + {ps[i].storeFd};
          fds := Emplace(fds, ps[i].storeFd);
          assert (order + [ps[i].storeFd])[..|order|] == order;
          order := order + [ps[i].storeFd];
        }
      }
      assert ps[..|ps|] == ps;
    }
  }

  // ---------------------------------------------------------------- the client's side

  predicate Apart(base: nat, length: nat, base': nat, length': nat)
  {
    base == 0 || base' == 0 || base + length <= base' || base' + length' <= base
  }

  /** What `mmap` promises: a new mapping overlaps none of those in place. */
  predicate FreeRegion(table: map<nat, Mapping>, base: nat, length: nat)
  {
    base > 0 && forall f :: f in table ==>
      Apart(base, length, table[f].ro, table[f].length) && Apart(base, length, table[f].rw, table[f].length)
  }

  /** Where a file is mapped in the given mode, or zero. */
  function Base(m: Mapping, readonly: bool): nat
  {
    if readonly then m.ro else m.rw
  }

  /** Different files are not mapped to the same memory. */
  ghost predicate RegionsApart(table: map<nat, Mapping>)
  {
    forall f, g :: f in table && g in table && f != g ==>
      Apart(table[f].ro, table[f].length, table[g].ro, table[g].length)
      && Apart(table[f].rw, table[f].length, table[g].rw, table[g].length)
  }

  lemma FreshMappingIsApart(table: map<nat, Mapping>, fd: nat, origin: nat, length: nat)
    requires RegionsApart(table)
    ensures RegionsApart(table[fd := Mapping(origin, length, 0, 0)])
  {
  }

  lemma FreeRegionIsApart(table: map<nat, Mapping>, fd: nat, base: nat, readonly: bool)
    requires RegionsApart(table) && fd in table && FreeRegion(table, base, table[fd].length)
    ensures RegionsApart(table[fd := if readonly then table[fd].(ro := base) else table[fd].(rw := base)])
  {
  }

  /** The same files, at least as much of them mapped. */
  ghost predicate SameFiles(table: map<nat, Mapping>, table': map<nat, Mapping>)
  {
    && table.Keys == table'.Keys && PointersStay(table, table')
    && forall f :: f in table ==> table'[f].origin == table[f].origin
  }

  lemma StaySame(t: map<nat, Mapping>, t': map<nat, Mapping>, t'': map<nat, Mapping>)
    requires PointersStay(t, t') && SameFiles(t', t'')
    ensures PointersStay(t, t'')
  {
  }

  /** `fake_mmap` leaves a gap of one `size_t` between segments; the difference is unsigned. */
  function FileLength(mapSize: nat): nat
  {
    if mapSize >= 8 then mapSize - 8 else SIZE_MAX_PLUS_ONE - 8 + mapSize
  }

  lemma ElementsSnoc(fds: seq<nat>, f: nat)
    ensures Elements(fds + [f]) == Elements(fds) + {f}
  {
    forall x | x in Elements(fds) + {f} ensures x in Elements(fds + [f]) {
      if x in Elements(fds) {
        assert x in fds;
      }
      assert x in fds + [f];
    }
  }

  /** The reply has one payload of each requested size. */
  predicate Sized(ps: seq<Payload>, sizes: seq<nat>)
  {
    |ps| == |sizes| && forall i :: 0 <= i < |ps| ==> AsSize(ps[i].dataSize) == sizes[i]
  }

  /** The cast of a signed size to `size_t`. */
  function AsSize(n: int): int
  {
    if n < 0 then n + SIZE_MAX_PLUS_ONE else n
  }

  class Client {
    var table: map<nat, Mapping>  // mmap_table_
    var segments: seq<Entry>      // segments_
    var channel: seq<nat>         // descriptors sent and not yet received
    ghost var received: seq<nat>  // the files whose descriptor `recv_fd` has returned, in order

    /** No file is received twice, and the table has an entry for exactly those received. */
    ghost predicate Valid()
      reads this
    {
      && Sorted(segments) && RegionsApart(table)
      && Distinct(received) && Elements(received) == table.Keys
    }

    constructor ()
      ensures Valid() && table == map[] && segments == [] && channel == [] && received == []
    {
      table, segments, channel, received := map[], [], [], [];
    }

    /** `recv_fd` takes the next descriptor in flight, or fails. A failure may have taken one:
        a bad message is dropped after it is read, and descriptor 0 counts as none. */
    method RecvFd() returns (ok: bool, origin: nat)
      modifies this`channel
      ensures ok ==> old(channel) != [] && origin == old(channel)[0] && channel == old(channel)[1..]
      ensures !ok ==> channel == old(channel) || (old(channel) != [] && channel == old(channel)[1..])
    {
      ok, origin := *, 0;
      var taken: bool := *;
      if channel == [] {
        return false, 0;
      }
      if ok || taken {
        origin := channel[0];
        channel := channel[1..];
      }
    }

    /** `Mmap` of a store descriptor: receive it if it is not in the table, then map it. */
    method Mmap(fd: nat, mapSize: nat, readonly: bool) returns (ok: bool, ptr: nat)
      requires Valid()
      modifies this`table, this`channel, this`received
      ensures Valid() && old(received) <= received
      ensures ok ==> OneReceived(old(table), old(channel), fd, table, channel) && PointersStay(old(table), table)
      ensures ok ==> received == old(received) + if fd in old(table) then [] else [fd]
      ensures ok ==> ptr == Base(table[fd], readonly) && ptr > 0
      ensures ok && fd !in old(table) ==> table[fd].length == FileLength(mapSize)
    {
      ok := EnterFile(fd, mapSize);
      if !ok {
        return false, 0;
      }
      ghost var entered := table;
      ok, ptr := MapFile(fd, readonly);
      StaySame(old(table), entered, table);
    }

    /** The entry of a file, made on its first use from a received descriptor. */
    method EnterFile(fd: nat, mapSize: nat) returns (ok: bool)
      requires Valid()
      modifies this`table, this`channel, this`received
      ensures Valid()
      ensures !ok ==> table == old(table) && received == old(received)
      ensures !ok ==> channel == old(channel) || (old(channel) != [] && channel == old(channel)[1..])
      ensures ok ==> OneReceived(old(table), old(channel), fd, table, channel) && PointersStay(old(table), table)
      ensures ok ==> received == old(received) + if fd in old(table) then [] else [fd]
      ensures ok && fd !in old(table) ==> table[fd].length == FileLength(mapSize)
    {
      if fd !in table {
        var origin;
        ok, origin := RecvFd();
        if !ok {
          return;
        }
        FreshMappingIsApart(table, fd, origin, FileLength(mapSize));
        ElementsSnoc(received, fd);
        received := received + [fd];
        table := table[fd := Mapping(origin, FileLength(mapSize), 0, 0)];
      }
      ok := true;
    }

    /** Where a file is mapped, made on its first use in this mode. */
    method MapFile(fd: nat, readonly: bool) returns (ok: bool, ptr: nat)
      requires Valid() && fd in table
      modifies this`table
      ensures Valid() && SameFiles(old(table), table)
      ensures ok ==> ptr == Base(table[fd], readonly) && ptr > 0
    {
      ptr := Base(table[fd], readonly);
      if ptr == 0 {
        ptr := *;
        if !FreeRegion(table, ptr, table[fd].length) {
          return false, 0;  // MAP_FAILED
        }
        FreeRegionIsApart(table, fd, ptr, readonly);
        table := table[fd := if readonly then table[fd].(ro := ptr) else table[fd].(rw := ptr)];
      }
      ok := true;
    }

    /** Which descriptors a list of payloads will make `Mmap` receive: `PreMmap` with its
        list and its set of duplicates. */
    method PredictForGet(ps: seq<Payload>) returns (fds: seq<nat>)
      ensures fds == NewFds(table.Keys, ps)
    {
      fds := [];
      var dedup: set<nat> := {};
      for i := 0 to |ps|
        invariant fds == NewFds(table.Keys, ps[..i]) && dedup == Elements(fds)
      {
        assert ps[..i + 1][..i] == ps[..i];
        if ps[i].dataSize > 0 {
          if ps[i].storeFd !in dedup && ps[i].storeFd !in table {
            fds := fds + [ps[i].storeFd];
            dedup := dedup + {ps[i].storeFd};
          }
        }
      }
      assert ps[..|ps|] == ps;
    }

    /** The same prediction collected in a `std::set`, as `CreateBuffers` does. */
    method PredictForCreate(ps: seq<Payload>) returns (fds: seq<nat>)
      ensures fds == AsSet(NewFds(table.Keys, ps))
    {
      fds := [];
      ghost var order := [];
      for i := 0 to |ps|
        invariant order == NewFds(table.Keys, ps[..i]) && fds == AsSet(order)
      {
        assert ps[..i + 1][..i] == ps[..i];
        if ps[i].dataSize > 0 && ps[i].storeFd !in table {
          PredictStep(table.Keys, ps[..i], ps[i]);
          assert ps[..i + 1] == ps[..i] + [ps[i]];
          fds := Emplace(fds, ps[i].storeFd);
          order := NewFds(table.Keys, ps[..i + 1]);
        }
      }
      assert ps[..|ps|] == ps;
    }

    /** One turn of the mapping loop. */
    method MapOne(p: Payload, readonly: bool) returns (ok: bool)
      requires Valid()
      modifies this
      ensures Valid()
      ensures old(received) <= received
      ensures ok ==> OneMapped(old(table), old(channel), old(segments), p, readonly, table, channel, segments)
      ensures ok ==> received == old(received) + if p.dataSize > 0 && p.storeFd !in old(table) then [p.storeFd] else []
    {
      if p.dataSize <= 0 {
        assert received == old(received) + [];
        return true;
      }
      var ptr;
      ok, ptr := Mmap(p.storeFd, p.mapSize, readonly);
      if ok {
        var e := Entry(ptr + p.dataOffset, p.dataSize, p.id);
        Enter(e);
        assert e == Entry(AddressOf(p, table, readonly), p.dataSize, p.id);
      }
    }

    /** `segments_[ptr + offset] = ...`. */
    method Enter(e: Entry)
      requires Sorted(segments)
      modifies this`segments
      ensures Sorted(segments) && segments == Put(old(segments), e)
    {
      PutKeepsOrder(segments, e);
      segments := Put(segments, e);
    }

    /** The mapping loop. It receives exactly the predicted descriptors, in that order:
        the k-th new store descriptor is bound to the k-th one in flight. */
    method MapPayloads(ps: seq<Payload>, readonly: bool) returns (ok: bool)
      requires Valid()
      modifies this
      ensures Valid() && old(received) <= received
      ensures ok ==> Mapped(old(table), old(channel), old(segments), ps, readonly, table, channel, segments)
      ensures ok ==> received == old(received) + NewFds(old(table).Keys, ps)
    {
      for i := 0 to |ps|
        invariant Valid() && received == old(received) + NewFds(old(table).Keys, ps[..i])
        invariant Mapped(old(table), old(channel), old(segments), ps[..i], readonly, table, channel, segments)
      {
        ghost var table1, channel1, segments1 := table, channel, segments;
        ok := MapOne(ps[i], readonly);
        if !ok {
          return;
        }
        MapStep(old(table), old(channel), old(segments), ps[..i], ps[i], readonly,
                table1, channel1, segments1, table, channel, segments);
        HistoryStep(old(received), old(table).Keys, ps[..i], ps[i], table1.Keys);
        assert ps[..i + 1] == ps[..i] + [ps[i]];
      }
      assert ps[..|ps|] == ps;
      ok := true;
    }

    /** The client's part of `GetBuffers`, once the reply is read. A reply without the
        field is not compared. */
    method GetBuffers(ps: seq<Payload>, hasFds: bool, fdSent: seq<nat>) returns (status: Status)
      requires Valid()
      modifies this
      ensures Valid() && old(received) <= received
      ensures status.Ok? ==> received == old(received) + NewFds(old(table).Keys, ps)
      ensures status.Mismatch? <==> hasFds && fdSent != NewFds(old(table).Keys, ps)
      ensures status.Mismatch? ==> table == old(table) && channel == old(channel) && segments == old(segments)
      ensures status.Ok? ==> Mapped(old(table), old(channel), old(segments), ps, true, table, channel, segments)
    {
      var fdRecv := PredictForGet(ps);
      if hasFds && fdSent != fdRecv {
        return Mismatch;
      }
      var ok := MapPayloads(ps, true);
      status := if ok then Ok else Failed;
    }

    /** `GetBufferSizes` maps like `GetBuffers`; the first payload of an id gives its size. */
    method GetBufferSizes(ps: seq<Payload>, hasFds: bool, fdSent: seq<nat>)
      returns (status: Status, sizes: map<ObjectId, int>)
      requires Valid()
      modifies this
      ensures Valid() && old(received) <= received
      ensures status.Ok? ==> received == old(received) + NewFds(old(table).Keys, ps)
      ensures status.Mismatch? <==> hasFds && fdSent != NewFds(old(table).Keys, ps)
      ensures status.Mismatch? ==> table == old(table) && channel == old(channel) && segments == old(segments)
      ensures status.Ok? ==> Mapped(old(table), old(channel), old(segments), ps, true, table, channel, segments)
      ensures status.Ok? ==> forall i :: 0 <= i < |ps| ==> ps[i].id in sizes
      ensures status.Ok? ==> forall id :: id in sizes ==>
        exists i :: 0 <= i < |ps| && ps[i].id == id && sizes[id] == ps[i].dataSize && forall j :: 0 <= j < i ==> ps[j].id != id
    {
      sizes := map[];
      status := GetBuffers(ps, hasFds, fdSent);
      if status.Ok? {
        for i := 0 to |ps|
          invariant forall k :: 0 <= k < i ==> ps[k].id in sizes
          invariant forall id :: id in sizes ==>
            exists k :: 0 <= k < i && ps[k].id == id && sizes[id] == ps[k].dataSize && forall j :: 0 <= j < k ==> ps[j].id != id
        {
          if ps[i].id !in sizes {
            sizes := sizes[ps[i].id := ps[i].dataSize];
          }
        }
      }
    }

    /** The client's part of `CreateBuffers`: it compares sets, and maps in payload order. */
    method CreateBuffers(sizes: seq<nat>, ps: seq<Payload>, hasFds: bool, fdsSent: seq<nat>) returns (status: Status)
      requires Valid()
      modifies this
      ensures Valid() && old(received) <= received
      ensures status.Ok? ==> received == old(received) + NewFds(old(table).Keys, ps)
      ensures status.Ok? ==> Mapped(old(table), old(channel), old(segments), ps, false, table, channel, segments)
      ensures status.Mismatch? <==> Sized(ps, sizes) && hasFds && fdsSent != AsSet(NewFds(old(table).Keys, ps))
      ensures status.Mismatch? || !Sized(ps, sizes) ==>
                !status.Ok? && table == old(table) && channel == old(channel) && segments == old(segments)
    {
      if |ps| != |sizes| {
        return Failed;
      }
      for i := 0 to |ps|
        invariant table == old(table) && channel == old(channel) && segments == old(segments) && received == old(received)
        invariant forall k :: 0 <= k < i ==> AsSize(ps[k].dataSize) == sizes[k]
      {
        if AsSize(ps[i].dataSize) != sizes[i] {
          return Failed;
        }
      }
      var fdsRecv := PredictForCreate(ps);
      if hasFds && fdsSent != fdsRecv {
        return Mismatch;
      }
      var ok := MapPayloads(ps, false);
      status := if ok then Ok else Failed;
    }
  }

  lemma HistoryStep(received: seq<nat>, known: set<nat>, ps: seq<Payload>, p: Payload, known': set<nat>)
    requires known' == known + Elements(NewFds(known, ps))
    ensures (received + NewFds(known, ps)) + (if p.dataSize > 0 && p.storeFd !in known' then [p.storeFd] else []) ==
            received + NewFds(known, ps + [p])
  {
    assert (ps + [p])[..|ps|] == ps;
  }

  /** `PreMmap` for `CreateBuffers` has no duplicate list: the set absorbs repeats. */
  lemma PredictStep(known: set<nat>, ps: seq<Payload>, p: Payload)
    requires p.dataSize > 0 && p.storeFd !in known
    ensures AsSet(NewFds(known, ps + [p])) == Emplace(AsSet(NewFds(known, ps)), p.storeFd)
  {
    assert (ps + [p])[..|ps|] == ps;
    var order := NewFds(known, ps);
    NewFdsAreNew(known, ps);
    AsSetSorts(order);
    if p.storeFd in order {
      EmplaceAbsorbs(AsSet(order), p.storeFd);
    } else {
      assert (order + [p.storeFd])[..|order|] == order;
    }
  }

  lemma {:induction false} EmplaceAbsorbs(fds: seq<nat>, f: nat)
    requires Ascending(fds) && f in fds
    ensures Emplace(fds, f) == fds
  {
    var init, last := fds[..|fds| - 1], fds[|fds| - 1];
    assert fds == init + [last];
    if last != f {
      EmplaceAbsorbs(init, f);
    }
  }

  // ---------------------------------------------------------------- what the mapping loop does

  /** Mapping `ps` took the first descriptors off the channel, one for each new store
      descriptor in order, and left the old bindings alone. */
  ghost predicate Received(table: map<nat, Mapping>, channel: seq<nat>, ps: seq<Payload>,
                           table': map<nat, Mapping>, channel': seq<nat>)
  {
    var fds := NewFds(table.Keys, ps);
    && |fds| <= |channel| && channel' == channel[|fds|..]
    && table'.Keys == table.Keys + Elements(fds)
    && (forall f :: f in table ==> table'[f].origin == table[f].origin)
    && (forall k :: 0 <= k < |fds| ==> table'[fds[k]].origin == channel[k])
  }

  /** What mapping one payload does to the table, the channel and the index. */
  ghost predicate OneMapped(table: map<nat, Mapping>, channel: seq<nat>, index: seq<Entry>, p: Payload, readonly: bool,
                            table': map<nat, Mapping>, channel': seq<nat>, index': seq<Entry>)
  {
    if p.dataSize <= 0 then table' == table && channel' == channel && index' == index
    else
      && OneReceived(table, channel, p.storeFd, table', channel') && PointersStay(table, table')
      && Base(table'[p.storeFd], readonly) > 0
      && index' == Put(index, Entry(AddressOf(p, table', readonly), p.dataSize, p.id))
  }

  ghost predicate OneReceived(table: map<nat, Mapping>, channel: seq<nat>, fd: nat,
                              table': map<nat, Mapping>, channel': seq<nat>)
  {
    && (fd !in table ==> channel != [])
    && channel' == (if fd in table then channel else channel[1..])
    && table'.Keys == table.Keys + {fd}
    && table'[fd].origin == (if fd in table then table[fd].origin else channel[0])
    && (forall g :: g in table && g != fd ==> table'[g].origin == table[g].origin)
  }

  /** Mappings once made stay where they are. */
  ghost predicate PointersStay(table: map<nat, Mapping>, table': map<nat, Mapping>)
  {
    forall f :: f in table ==>
      && f in table' && table'[f].length == table[f].length
      && (table[f].ro > 0 ==> table'[f].ro == table[f].ro) && (table[f].rw > 0 ==> table'[f].rw == table[f].rw)
  }

  ghost predicate Mapped(table: map<nat, Mapping>, channel: seq<nat>, index: seq<Entry>, ps: seq<Payload>, readonly: bool,
                         table': map<nat, Mapping>, channel': seq<nat>, index': seq<Entry>)
  {
    && Received(table, channel, ps, table', channel')
    && AllMapped(ps, table', readonly) && index' == PutAll(index, ps, table', readonly)
  }

  lemma MapStep(table: map<nat, Mapping>, channel: seq<nat>, index: seq<Entry>, ps: seq<Payload>, p: Payload, readonly: bool,
                table1: map<nat, Mapping>, channel1: seq<nat>, index1: seq<Entry>,
                table2: map<nat, Mapping>, channel2: seq<nat>, index2: seq<Entry>)
    requires Mapped(table, channel, index, ps, readonly, table1, channel1, index1)
    requires OneMapped(table1, channel1, index1, p, readonly, table2, channel2, index2)
    ensures Mapped(table, channel, index, ps + [p], readonly, table2, channel2, index2)
  {
    if p.dataSize > 0 {
      ReceiveStep(table, channel, ps, p, table1, channel1, table2, channel2);
      IndexStep(index, ps, p, table1, table2, readonly);
    } else {
      assert (ps + [p])[..|ps|] == ps;
    }
  }

  lemma IndexStep(index: seq<Entry>, ps: seq<Payload>, p: Payload, table: map<nat, Mapping>, table': map<nat, Mapping>,
                  readonly: bool)
    requires AllMapped(ps, table, readonly) && p.dataSize > 0 && p.storeFd in table' && Base(table'[p.storeFd], readonly) > 0
    requires PointersStay(table, table')
    ensures AllMapped(ps + [p], table', readonly)
    ensures PutAll(index, ps + [p], table', readonly) ==
            Put(PutAll(index, ps, table, readonly), Entry(AddressOf(p, table', readonly), p.dataSize, p.id))
  {
    PutAllStable(index, ps, table, table', readonly);
    var ps' := ps + [p];
    forall i | 0 <= i < |ps'| && ps'[i].dataSize > 0 
      ensures ps'[i].storeFd in table' && Base(table'[ps'[i].storeFd], readonly) > 0
    {
      if i < |ps| {
        assert ps'[i] == ps[i];
      }
    }
    PutAllSnoc(index, ps, p, table', readonly);
  }

  lemma PutAllSnoc(index: seq<Entry>, ps: seq<Payload>, p: Payload, table: map<nat, Mapping>, readonly: bool)
    requires AllMapped(ps + [p], table, readonly) && AllMapped(ps, table, readonly) && p.dataSize > 0 && p.storeFd in table
    ensures PutAll(index, ps + [p], table, readonly) == Put(PutAll(index, ps, table, readonly), Entry(AddressOf(p, table, readonly), p.dataSize, p.id))
  {
    assert (ps + [p])[..|ps|] == ps;
  }

  lemma ReceiveStep(table: map<nat, Mapping>, channel: seq<nat>, ps: seq<Payload>, p: Payload,
                    table1: map<nat, Mapping>, channel1: seq<nat>, table2: map<nat, Mapping>, channel2: seq<nat>)
    requires Received(table, channel, ps, table1, channel1) && p.dataSize > 0
    requires OneReceived(table1, channel1, p.storeFd, table2, channel2)
    ensures Received(table, channel, ps + [p], table2, channel2)
  {
    assert (ps + [p])[..|ps|] == ps;
    var fds := NewFds(table.Keys, ps);
    assert p.storeFd in table1 <==> p.storeFd in table || p.storeFd in fds;
    if p.storeFd !in table1 {
      ReceiveNew(table, channel, fds, p, table1, channel1, table2, channel2);
    }
  }

  lemma ReceiveNew(table: map<nat, Mapping>, channel: seq<nat>, fds: seq<nat>, p: Payload,
                   table1: map<nat, Mapping>, channel1: seq<nat>, table2: map<nat, Mapping>, channel2: seq<nat>)
    requires |fds| <= |channel| && channel1 == channel[|fds|..] && table1.Keys == table.Keys + Elements(fds)
    requires forall k :: 0 <= k < |fds| ==> table1[fds[k]].origin == channel[k]
    requires p.storeFd !in table1 && OneReceived(table1, channel1, p.storeFd, table2, channel2)
    ensures var fds' := fds + [p.storeFd];
            && |fds'| <= |channel| && channel2 == channel[|fds'|..]
            && table2.Keys == table.Keys + Elements(fds')
            && (forall k :: 0 <= k < |fds'| ==> table2[fds'[k]].origin == channel[k])
  {
    forall k | 0 <= k < |fds|
      ensures fds[k] in table1 && table2[fds[k]].origin == channel[k]
    {
      assert fds[k] in Elements(fds);
    }
  }

  // ---------------------------------------------------------------- what ends up in the index

  /** Every non-empty payload's file is mapped in this mode. */
  ghost predicate AllMapped(ps: seq<Payload>, table: map<nat, Mapping>, readonly: bool)
  {
    forall i :: 0 <= i < |ps| && ps[i].dataSize > 0 ==> ps[i].storeFd in table && Base(table[ps[i].storeFd], readonly) > 0
  }

  function AddressOf(p: Payload, table: map<nat, Mapping>, readonly: bool): nat
    requires p.storeFd in table
  {
    Base(table[p.storeFd], readonly) + p.dataOffset
  }

  /** The index after entering each non-empty payload, in order, at its address. */
  ghost function PutAll(index: seq<Entry>, ps: seq<Payload>, table: map<nat, Mapping>, readonly: bool): seq<Entry>
    requires AllMapped(ps, table, readonly)
  {
    if ps == [] then index
    else
      var before, p := PutAll(index, ps[..|ps| - 1], table, readonly), ps[|ps| - 1];
      if p.dataSize > 0 then Put(before, Entry(AddressOf(p, table, readonly), p.dataSize, p.id)) else before
  }

  lemma {:induction false} PutAllStable(index: seq<Entry>, ps: seq<Payload>, table: map<nat, Mapping>, table': map<nat, Mapping>,
                                        readonly: bool)
    requires AllMapped(ps, table, readonly)
    requires PointersStay(table, table')
    ensures AllMapped(ps, table', readonly) && PutAll(index, ps, table', readonly) == PutAll(index, ps, table, readonly)
  {
    if ps != [] {
      var init, p := ps[..|ps| - 1], ps[|ps| - 1];
      PutAllStable(index, init, table, table', readonly);
      assert p.dataSize > 0 ==> AddressOf(p, table, readonly) == AddressOf(p, table', readonly);
    }
  }

  lemma AddressesDiffer(p: Payload, q: Payload, table: map<nat, Mapping>, readonly: bool)
    requires RegionsApart(table) && p.storeFd in table && q.storeFd in table
    requires Base(table[p.storeFd], readonly) > 0 && Base(table[q.storeFd], readonly) > 0
    requires p.dataOffset < table[p.storeFd].length && q.dataOffset < table[q.storeFd].length
    ensures AddressOf(p, table, readonly) == AddressOf(q, table, readonly) <==> p.storeFd == q.storeFd && p.dataOffset == q.dataOffset
  {
  }

  /** Every non-empty payload starts inside its file. */
  ghost predicate InFiles(ps: seq<Payload>, table: map<nat, Mapping>, readonly: bool)
    requires AllMapped(ps, table, readonly)
  {
    forall i :: 0 <= i < |ps| && ps[i].dataSize > 0 ==> ps[i].dataOffset < table[ps[i].storeFd].length
  }

  predicate SamePlace(p: Payload, q: Payload)
  {
    p.storeFd == q.storeFd && p.dataOffset == q.dataOffset
  }

  /** A payload's address resolves to the last payload entered at the same place; so to
      the payload itself when no later one shares its descriptor and offset. */
  lemma {:induction false} AddressResolvesToLast(index: seq<Entry>, ps: seq<Payload>, table: map<nat, Mapping>, readonly: bool,
                                                 i: nat, j: nat)
    requires Sorted(index) && AllMapped(ps, table, readonly) && RegionsApart(table) && InFiles(ps, table, readonly)
    requires i <= j < |ps| && ps[i].dataSize > 0 && ps[j].dataSize > 0 && SamePlace(ps[i], ps[j])
    requires forall k :: j < k < |ps| && ps[k].dataSize > 0 ==> !SamePlace(ps[k], ps[j])
    ensures Lookup(PutAll(index, ps, table, readonly), AddressOf(ps[i], table, readonly))
            == Some(Entry(AddressOf(ps[i], table, readonly), ps[j].dataSize, ps[j].id))
    decreases |ps|
  {
    var init, last := ps[..|ps| - 1], ps[|ps| - 1];
    PutAllSorted(index, init, table, readonly);
    if last.dataSize > 0 {
      AddressesDiffer(last, ps[i], table, readonly);
      PutThenLookup(PutAll(index, init, table, readonly), Entry(AddressOf(last, table, readonly), last.dataSize, last.id), AddressOf(ps[i], table, readonly));
    }
    if j < |ps| - 1 {
      AddressResolvesToLast(index, init, table, readonly, i, j);
    }
  }

  lemma {:induction false} PutAllSorted(index: seq<Entry>, ps: seq<Payload>, table: map<nat, Mapping>, readonly: bool)
    requires Sorted(index) && AllMapped(ps, table, readonly)
    ensures Sorted(PutAll(index, ps, table, readonly))
  {
    if ps != [] {
      var init, p := ps[..|ps| - 1], ps[|ps| - 1];
      PutAllSorted(index, init, table, readonly);
      if p.dataSize > 0 {
        PutKeepsOrder(PutAll(index, init, table, readonly), Entry(AddressOf(p, table, readonly), p.dataSize, p.id));
      }
    }
  }

  /** After a read, the address of a payload's buffer is answered with the id of the last
      payload at the same file and offset: its own, when no later one shares them. */
  method GetThenExists(c: Client, ps: seq<Payload>, hasFds: bool, fdSent: seq<nat>, i: nat, ghost j: nat)
    returns (status: Status, address: nat, found: bool, id: ObjectId)
    requires c.Valid()
    requires i <= j < |ps| && ps[i].dataSize > 0 && ps[j].dataSize > 0 && SamePlace(ps[i], ps[j])
    requires forall k :: j < k < |ps| && ps[k].dataSize > 0 ==> !SamePlace(ps[k], ps[j])
    modifies c
    ensures status.Ok? ==> AllMapped(ps, c.table, true)
    ensures status.Ok? ==> ps[i].storeFd in c.table && address == Base(c.table[ps[i].storeFd], true) + ps[i].dataOffset
    ensures status.Ok? && InFiles(ps, c.table, true) ==> (found <==> ps[j].id != INVALID) && id == ps[j].id
  {
    address, found, id := 0, false, INVALID;
    status := c.GetBuffers(ps, hasFds, fdSent);
    if status.Ok? {
      address := Base(c.table[ps[i].storeFd], true) + ps[i].dataOffset;
      found, id := Exists(c.segments, address);
      if InFiles(ps, c.table, true) {
        AddressResolvesToLast(old(c.segments), ps, c.table, true, i, j);
      }
    }
  }

  // ---------------------------------------------------------------- whole sessions

  /** Each store descriptor is bound to its own client descriptor. */
  ghost predicate BoundRight(table: map<nat, Mapping>)
  {
    forall f :: f in table ==> table[f].origin == f
  }

  /** Between calls: both ends agree on what has been sent, and nothing is in flight. */
  ghost predicate InSync(c: Client, s: Server)
    reads c, s
  {
    c.Valid() && s.used == c.table.Keys && c.channel == []
  }

  lemma BindingsFollowOrder(table: map<nat, Mapping>, channel: seq<nat>, ps: seq<Payload>,
                            table': map<nat, Mapping>, channel': seq<nat>)
    requires Received(table, channel, ps, table', channel') && |channel| == |NewFds(table.Keys, ps)|
    ensures channel' == []
    ensures BoundRight(table') <==> BoundRight(table) && channel == NewFds(table.Keys, ps)
  {
    var fds := NewFds(table.Keys, ps);
    NewFdsAreNew(table.Keys, ps);
    if BoundRight(table') {
      forall k | 0 <= k < |fds|
        ensures channel[k] == fds[k]
      {
        assert fds[k] in Elements(fds);
      }
    }
  }

  method GetExchange(c: Client, s: Server, ps: seq<Payload>, sizesOnly: bool) returns (status: Status)
    requires InSync(c, s)
    modifies c, s
    ensures !status.Mismatch? && c.Valid() && old(c.received) <= c.received
    ensures status.Ok? ==> c.received == old(c.received) + NewFds(old(c.table).Keys, ps)
    ensures status.Ok? ==> InSync(c, s) && c.table.Keys == Known(old(c.table).Keys, ps)
    ensures status.Ok? ==> (BoundRight(c.table) <==> BoundRight(old(c.table)))
  {
    var fdSent := s.SendForGet(ps);
    c.channel := fdSent;
    if sizesOnly {
      var sizes;
      status, sizes := c.GetBufferSizes(ps, true, fdSent);
    } else {
      status := c.GetBuffers(ps, true, fdSent);
    }
    if status.Ok? {
      BindingsFollowOrder(old(c.table), fdSent, ps, c.table, c.channel);
    }
  }

  method CreateExchange(c: Client, s: Server, sizes: seq<nat>, ps: seq<Payload>) returns (status: Status)
    requires InSync(c, s)
    modifies c, s
    ensures !status.Mismatch? && c.Valid() && old(c.received) <= c.received
    ensures status.Ok? ==> c.received == old(c.received) + NewFds(old(c.table).Keys, ps)
    ensures status.Ok? ==> InSync(c, s) && c.table.Keys == Known(old(c.table).Keys, ps)
    ensures status.Ok? ==>
      (BoundRight(c.table) <==> BoundRight(old(c.table)) && Ascending(NewFds(old(c.table).Keys, ps)))
  {
    var fdsSent := s.SendForCreate(ps);
    c.channel := fdsSent;
    status := c.CreateBuffers(sizes, ps, true, fdsSent);
    NewFdsAreNew(old(c.table).Keys, ps);
    AsSetSorts(NewFds(old(c.table).Keys, ps));
    AsSetIsIdentityIff(NewFds(old(c.table).Keys, ps));
    if status.Ok? {
      BindingsFollowOrder(old(c.table), fdsSent, ps, c.table, c.channel);
    }
  }

  function Known(known: set<nat>, ps: seq<Payload>): set<nat>
  {
    known + Elements(NewFds(known, ps))
  }

  datatype Request = GetBuffers(ps: seq<Payload>) | GetSizes(ps: seq<Payload>) | CreateBuffers(sizes: seq<nat>, ps: seq<Payload>)

  /** Every `CreateBuffers` of the session meets its new files in ascending order. */
  predicate CreatesInOrder(known: set<nat>, requests: seq<Request>)
  {
    if requests == [] then true
    else
      var init, r := requests[..|requests| - 1], requests[|requests| - 1];
      CreatesInOrder(known, init) && (r.CreateBuffers? ==> Ascending(NewFds(KnownAfter(known, init), r.ps)))
  }

  function KnownAfter(known: set<nat>, requests: seq<Request>): set<nat>
  {
    if requests == [] then known
    else Known(KnownAfter(known, requests[..|requests| - 1]), requests[|requests| - 1].ps)
  }

  /** A whole session against this server: no call ever reports a mismatch; after each the
      two ends agree and the queue is empty; and every descriptor is bound to its own
      file if and only if every `CreateBuffers` met its new files in ascending order. */
  method Session(c: Client, s: Server, requests: seq<Request>) returns (status: Status)
    requires InSync(c, s) && BoundRight(c.table)
    modifies c, s
    ensures !status.Mismatch?
    ensures c.Valid() && old(c.received) <= c.received && Distinct(c.received)
    ensures status.Ok? ==>
      Elements(c.received[|old(c.received)|..]) == KnownAfter(old(c.table).Keys, requests) - old(c.table).Keys
    ensures status.Ok? ==> InSync(c, s) && c.table.Keys == KnownAfter(old(c.table).Keys, requests)
    ensures status.Ok? ==> (BoundRight(c.table) <==> CreatesInOrder(old(c.table).Keys, requests))
  {
    status := Ok;
    for k := 0 to |requests|
      invariant status.Ok? && InSync(c, s) && old(c.received) <= c.received
      invariant c.table.Keys == KnownAfter(old(c.table).Keys, requests[..k])
      invariant BoundRight(c.table) <==> CreatesInOrder(old(c.table).Keys, requests[..k])
    {
      assert requests[..k + 1][..k] == requests[..k] && requests[..k + 1][k] == requests[k];
      match requests[k] {
        case GetBuffers(ps) => status := GetExchange(c, s, ps, false);
        case GetSizes(ps) => status := GetExchange(c, s, ps, true);
        case CreateBuffers(sizes, ps) => status := CreateExchange(c, s, sizes, ps);
      }
      if !status.Ok? {
        return;
      }
    }
    assert requests[..|requests|] == requests;
    NewlyReceived(old(c.received), c.received);
  }

  /** What a history without repetition has gained. */
  lemma NewlyReceived(before: seq<nat>, after: seq<nat>)
    requires before <= after && Distinct(after)
    ensures Elements(after[|before|..]) == Elements(after) - Elements(before)
  {
    var gained := after[|before|..];
    assert after == before + gained;
    forall x ensures x in Elements(gained) <==> x in Elements(after) && x !in Elements(before) {
      if x in gained {
        var i :| 0 <= i < |gained| && gained[i] == x;
        assert after[|before| + i] == x;
        assert forall k :: 0 <= k < |before| ==> after[k] == before[k];
      }
    }
  }

  /** Two new files met in descending order are bound the wrong way round. */
  lemma DescendingFilesAreSwapped(known: set<nat>, p: Payload, q: Payload)
    requires p.dataSize > 0 && q.dataSize > 0 && p.storeFd !in known && q.storeFd !in known
    requires q.storeFd < p.storeFd
    ensures NewFds(known, [p, q]) == [p.storeFd, q.storeFd]
    ensures AsSet(NewFds(known, [p, q])) == [q.storeFd, p.storeFd]
  {
    assert [p, q][..1] == [p] && [p][..0] == [];
    assert NewFds(known, [p]) == [p.storeFd];
    var fds := [p.storeFd, q.storeFd];
    assert fds[..1] == [p.storeFd] && fds[..1][..0] == [];
    assert AsSet(fds[..1]) == [p.storeFd];
    assert Emplace([p.storeFd], q.storeFd) == Emplace([], q.storeFd) + [p.storeFd];
  }
}
