/** Rebuilding a peer's entry from its conflict row: the inverse of parking it. */
module PeerRows {
  import opened Order
  import opened Store
  import opened Blobs

  const U32_MAX: nat := 0xffff_ffff

  // ----- what a stored version shows

  /** The references of a stored version whose bytes are to be had. */
  function Known(refs: seq<Ref>, known: set<Sha>): seq<Named> {
    if refs == [] then [] else KnownOne(refs[0], known) + Known(refs[1..], known)
  }

  function KnownOne(r: Ref, known: set<Sha>): seq<Named> {
    if r.sha in known then [Named(r.name, r.sha.of)] else []
  }

  /** `pool` starts as `old` was and only grew. */
  ghost predicate Extends(pool: seq<Bytes>, before: seq<Bytes>) {
    |before| <= |pool| && pool[..|before|] == before
  }

  /** No byte string was added that the pool already had. */
  ghost predicate OnlyNew(pool: seq<Bytes>, before: seq<Bytes>) {
    forall i, j :: 0 <= i < j < |pool| && |before| <= j ==> pool[i] != pool[j]
  }

  /** `index` finds bytes in `pool`, and every byte string of a size in `sizes`
      that `pool` has. */
  ghost predicate Indexes(index: map<Sha, nat>, pool: seq<Bytes>, sizes: set<nat>) {
    && (forall s :: s in index ==> index[s] < |pool| && pool[index[s]] == s.of)
    && (forall i :: 0 <= i < |pool| && |pool[i]| in sizes ==> Sha(pool[i]) in index)
  }

  lemma {:induction false} ViewGrowsPool(attachments: seq<Att>, pool: seq<Bytes>, more: seq<Bytes>)
    requires forall i :: 0 <= i < |attachments| ==> attachments[i].refId < |pool|
    requires Extends(more, pool)
    ensures View(attachments, more) == View(attachments, pool)
  {
    if attachments != [] {
      assert more[attachments[0].refId] == more[..|pool|][attachments[0].refId];
      forall i | 0 <= i < |attachments[1..]| ensures attachments[1..][i].refId < |pool| {
        assert attachments[1..][i] == attachments[i + 1];
      }
      ViewGrowsPool(attachments[1..], pool, more);
    }
  }

  lemma {:induction false} KnownGrows(refs: seq<Ref>, known: set<Sha>, i: nat)
    requires i < |refs|
    ensures Known(refs[..i + 1], known) == Known(refs[..i], known) + KnownOne(refs[i], known)
  {
    assert refs[..i + 1] == refs[..i] + [refs[i]];
    KnownJoins(refs[..i], refs[i], known);
  }

  lemma {:induction false} KnownJoins(refs: seq<Ref>, r: Ref, known: set<Sha>)
    ensures Known(refs + [r], known) == Known(refs, known) + KnownOne(r, known)
  {
    if refs == [] {
      assert refs + [r] == [r] && Known([], known) == [];
    } else {
      assert (refs + [r])[0] == refs[0] && (refs + [r])[1..] == refs[1..] + [r];
      KnownJoins(refs[1..], r, known);
    }
  }

  // ----- rebuilding one version

  datatype Pooled = Pooled(pool: seq<Bytes>, index: map<Sha, nat>)

  /** The pool and its index after rebuilding some versions. */
  ghost predicate Rebuilding(now: Pooled, before: seq<Bytes>, store: map<Sha, Bytes>, start: map<Sha, nat>, sizes: set<nat>) {
    && Extends(now.pool, before) && OnlyNew(now.pool, before) && Indexes(now.index, now.pool, sizes)
    && start.Keys <= now.index.Keys <= start.Keys + store.Keys
  }

  ghost predicate RefsFit(refs: seq<Ref>, sizes: set<nat>) {
    forall r :: r in refs ==> r.size in sizes && r.size == |r.sha.of|
  }

  /** Bind one reference into the pool, reusing bytes it already holds. */
  method BindRef(r: Ref, state: Pooled, store: map<Sha, Bytes>, ghost before: seq<Bytes>, ghost start: map<Sha, nat>, ghost sizes: set<nat>)
      returns (refId: Option<nat>, next: Pooled, overflow: bool)
    requires Rebuilding(state, before, store, start, sizes) && r.size in sizes && r.size == |r.sha.of|
    requires forall s :: s in store ==> store[s] == s.of
    ensures Rebuilding(next, before, store, start, sizes) && Extends(next.pool, state.pool)
    ensures overflow ==> |next.pool| > U32_MAX
    ensures !overflow ==> (refId.Some? <==> r.sha in start.Keys + store.Keys)
    ensures refId.Some? ==> refId.value < |next.pool| && next.pool[refId.value] == r.sha.of
  {
    refId, next, overflow := None, state, false;
    if r.sha in state.index {
      refId := Some(state.index[r.sha]);
    } else if r.sha in store {
      if |state.pool| > U32_MAX {
        overflow := true;
        return;
      }
      FreshBytes(state, sizes, store[r.sha]);
      next := Pooled(state.pool + [store[r.sha]], state.index[r.sha := |state.pool|]);
      refId := Some(|state.pool|);
      assert next.pool[..|before|] == state.pool[..|before|];
    }
  }

  lemma FreshBytes(state: Pooled, sizes: set<nat>, bytes: Bytes)
    requires Indexes(state.index, state.pool, sizes) && |bytes| in sizes && Sha(bytes) !in state.index
    ensures forall i :: 0 <= i < |state.pool| ==> state.pool[i] != bytes
  {
  }

  /** Rebuild one version. References whose bytes are nowhere are skipped. */
  method SnapshotToEntry(io: VersionIo, state: Pooled, store: map<Sha, Bytes>,
                         ghost before: seq<Bytes>, ghost start: map<Sha, nat>, ghost sizes: set<nat>)
      returns (version: PeerVersion, next: Pooled, overflow: bool)
    requires Rebuilding(state, before, store, start, sizes) && RefsFit(io.refs, sizes)
    requires forall s :: s in store ==> store[s] == s.of
    ensures Rebuilding(next, before, store, start, sizes) && Extends(next.pool, state.pool)
    ensures overflow ==> |next.pool| > U32_MAX
    ensures !overflow ==> Shows(version, next.pool, io, start.Keys + store.Keys)
  {
    var attachments: seq<Att> := [];
    next, overflow := state, false;
    for i := 0 to |io.refs|
      invariant Rebuilding(next, before, store, start, sizes) && Extends(next.pool, state.pool)
      invariant ShowsTo(attachments, next.pool, io.refs, start.Keys + store.Keys, i)
    {
      ghost var was := next.pool;
      attachments, next, overflow := BindNext(io.refs, i, attachments, next, store, before, start, sizes);
      ExtendsTwice(state.pool, was, next.pool);
      if overflow {
        return PeerVersion(io.content, []), next, true;
      }
    }
    version := PeerVersion(io.content, attachments);
    AllShown(version, next.pool, io, start.Keys + store.Keys);
  }

  lemma AllShown(version: PeerVersion, pool: seq<Bytes>, io: VersionIo, known: set<Sha>)
    requires version.content == io.content && ShowsTo(version.attachments, pool, io.refs, known, |io.refs|)
    ensures Shows(version, pool, io, known)
  {
    assert io.refs[..|io.refs|] == io.refs;
  }

  /** Bind the `i`-th reference of a version. */
  method BindNext(refs: seq<Ref>, i: nat, attachments: seq<Att>, state: Pooled, store: map<Sha, Bytes>,
                  ghost before: seq<Bytes>, ghost start: map<Sha, nat>, ghost sizes: set<nat>)
      returns (more: seq<Att>, next: Pooled, overflow: bool)
    requires i < |refs| && ShowsTo(attachments, state.pool, refs, start.Keys + store.Keys, i)
    requires Rebuilding(state, before, store, start, sizes) && RefsFit(refs, sizes)
    requires forall s :: s in store ==> store[s] == s.of
    ensures Rebuilding(next, before, store, start, sizes) && Extends(next.pool, state.pool)
    ensures overflow ==> |next.pool| > U32_MAX
    ensures !overflow ==> ShowsTo(more, next.pool, refs, start.Keys + store.Keys, i + 1)
  {
    assert refs[i] in refs;
    var refId;
    more := attachments;
    refId, next, overflow := BindRef(refs[i], state, store, before, start, sizes);
    if overflow {
      return;
    }
    ShowsOneMore(attachments, state.pool, next.pool, refs, start.Keys + store.Keys, i, refId);
    if refId.Some? {
      more := attachments + [Att(refs[i].name, refId.value)];
    }
  }

  lemma ExtendsTwice(a: seq<Bytes>, b: seq<Bytes>, c: seq<Bytes>)
    requires Extends(b, a) && Extends(c, b)
    ensures Extends(c, a)
  {
    assert c[..|a|] == c[..|b|][..|a|];
  }

  /** The first `n` references are bound. */
  ghost predicate ShowsTo(attachments: seq<Att>, pool: seq<Bytes>, refs: seq<Ref>, known: set<Sha>, n: nat)
    requires n <= |refs|
  {
    Bound(attachments, pool) && View(attachments, pool) == Known(refs[..n], known)
  }

  lemma ShowsOneMore(attachments: seq<Att>, was: seq<Bytes>, pool: seq<Bytes>, refs: seq<Ref>, known: set<Sha>, i: nat, refId: Option<nat>)
    requires i < |refs| && ShowsTo(attachments, was, refs, known, i) && Extends(pool, was)
    requires refId.Some? <==> refs[i].sha in known
    requires refId.Some? ==> refId.value < |pool| && pool[refId.value] == refs[i].sha.of
    ensures ShowsTo(if refId.Some? then attachments + [Att(refs[i].name, refId.value)] else attachments, pool, refs, known, i + 1)
  {
    KnownGrows(refs, known, i);
    ViewGrowsPool(attachments, was, pool);
    if refId.Some? {
      BoundOneMore(attachments, Att(refs[i].name, refId.value), pool);
    }
  }

  /** `version` is `io` with its known references bound. */
  ghost predicate Shows(version: PeerVersion, pool: seq<Bytes>, io: VersionIo, known: set<Sha>) {
    version.content == io.content && Bound(version.attachments, pool) && View(version.attachments, pool) == Known(io.refs, known)
  }

  lemma BoundOneMore(attachments: seq<Att>, a: Att, pool: seq<Bytes>)
    requires Bound(attachments, pool) && a.refId < |pool|
    ensures Bound(attachments + [a], pool)
    ensures View(attachments + [a], pool) == View(attachments, pool) + [Named(a.name, pool[a.refId])]
  {
    ViewJoins(attachments, [a], pool);
    assert View([a], pool) == [Named(a.name, pool[a.refId])];
  }

  ghost predicate Bound(attachments: seq<Att>, pool: seq<Bytes>) {
    forall i :: 0 <= i < |attachments| ==> attachments[i].refId < |pool|
  }

  // ----- rebuilding the entry

  function Sizes(refs: seq<Ref>): set<nat> {
    set r | r in refs :: r.size
  }

  function RecordSizes(record: PeerRecord): set<nat> {
    Sizes(record.entry.refs) + set i, n | 0 <= i < |record.history| && n in Sizes(record.history[i].refs) :: n
  }

  /** Index the byte strings the caller's pool already has, of the sizes asked. */
  method SeedIndex(pool: seq<Bytes>, sizes: set<nat>) returns (index: map<Sha, nat>, overflow: bool)
    ensures overflow ==> |pool| > U32_MAX
    ensures !overflow ==> Indexes(index, pool, sizes)
  {
    index, overflow := map[], false;
    for i := 0 to |pool|
      invariant forall s :: s in index ==> index[s] < i && pool[index[s]] == s.of
      invariant forall k :: 0 <= k < i && |pool[k]| in sizes ==> Sha(pool[k]) in index
    {
      if |pool[i]| !in sizes {
        continue;
      }
      if i > U32_MAX {
        return index, true;
      }
      if Sha(pool[i]) !in index {
        index := index[Sha(pool[i]) := i];
      }
    }
  }

  datatype Rebuilt = NoRow | PoolTooLarge | Rebuilt(entry: PeerEntry)

  /** Two versions show the same: content, and attachments by name and bytes. */
  ghost predicate Same(a: PeerVersion, poolA: seq<Bytes>, b: PeerVersion, poolB: seq<Bytes>) {
    a.content == b.content && View(a.attachments, poolA) == View(b.attachments, poolB)
  }

  ghost predicate SameEntry(a: PeerEntry, poolA: seq<Bytes>, b: PeerEntry, poolB: seq<Bytes>) {
    && Same(a.live, poolA, b.live, poolB)
    && |a.history| == |b.history|
    && forall i :: 0 <= i < |a.history| ==> Same(a.history[i], poolA, b.history[i], poolB)
  }

  /** The record rebuilt so far, the first `n` versions of its history included. */
  ghost predicate RebuiltTo(live: PeerVersion, history: seq<PeerVersion>, pool: seq<Bytes>, peer: PeerEntry, binaries: seq<Bytes>, n: nat)
    requires n <= |peer.history|
  {
    && Bound(live.attachments, pool) && Same(live, pool, peer.live, binaries)
    && |history| == n
    && forall i :: 0 <= i < n ==> Bound(history[i].attachments, pool) && Same(history[i], pool, peer.history[i], binaries)
  }

  lemma RebuiltGrows(live: PeerVersion, history: seq<PeerVersion>, pool: seq<Bytes>, more: seq<Bytes>,
                     peer: PeerEntry, binaries: seq<Bytes>, n: nat)
    requires n <= |peer.history| && RebuiltTo(live, history, pool, peer, binaries, n) && Extends(more, pool)
    ensures RebuiltTo(live, history, more, peer, binaries, n)
  {
    ViewGrowsPool(live.attachments, pool, more);
    forall i | 0 <= i < n ensures View(history[i].attachments, more) == View(history[i].attachments, pool) {
      ViewGrowsPool(history[i].attachments, pool, more);
    }
  }

  /** With all its bytes known, a stored version shows what was stored. */
  lemma {:induction false} StoredShows(view: seq<Named>, known: set<Sha>)
    requires RefShas(RefsOf(view)) <= known
    ensures Known(RefsOf(view), known) == view
  {
    var refs := RefsOf(view);
    if view != [] {
      assert refs[1..] == RefsOf(view[1..]);
      assert refs[0] in refs;
      forall s | s in RefShas(RefsOf(view[1..])) ensures s in known {
        var r :| r in refs[1..] && r.sha == s;
        assert r in refs;
      }
      StoredShows(view[1..], known);
    }
  }

  lemma VersionShows(version: PeerVersion, binaries: seq<Bytes>, record: PeerRecord, known: set<Sha>)
    requires RefShas(IoOf(version, binaries).refs) <= RecordShas(record) <= known
    requires Sizes(IoOf(version, binaries).refs) <= RecordSizes(record)
    ensures Known(IoOf(version, binaries).refs, known) == View(version.attachments, binaries)
    ensures RefsFit(IoOf(version, binaries).refs, RecordSizes(record))
  {
    var refs := IoOf(version, binaries).refs;
    StoredShows(View(version.attachments, binaries), known);
    forall r | r in refs ensures r.size in RecordSizes(record) && r.size == |r.sha.of| {
      assert r.size in Sizes(refs);
    }
  }

  /** Every stored version of a sound store's record shows what was parked. */
  ghost predicate RecordShows(record: PeerRecord, peer: PeerEntry, binaries: seq<Bytes>, known: set<Sha>, sizes: set<nat>) {
    && record == RecordOf(peer, binaries)
    && VersionFits(record.entry, peer.live, binaries, known, sizes)
    && forall i :: 0 <= i < |record.history| ==> VersionFits(record.history[i], peer.history[i], binaries, known, sizes)
  }

  ghost predicate VersionFits(io: VersionIo, version: PeerVersion, binaries: seq<Bytes>, known: set<Sha>, sizes: set<nat>) {
    Known(io.refs, known) == View(version.attachments, binaries) && RefsFit(io.refs, sizes)
  }

  lemma ParkedShows(record: PeerRecord, peer: PeerEntry, binaries: seq<Bytes>, known: set<Sha>)
    requires record == RecordOf(peer, binaries) && RecordShas(record) <= known
    ensures RecordShows(record, peer, binaries, known, RecordSizes(record))
  {
    VersionShows(peer.live, binaries, record, known);
    forall i | 0 <= i < |record.history|
      ensures VersionFits(record.history[i], peer.history[i], binaries, known, RecordSizes(record))
    {
      HistoryPart(record, i);
      VersionShows(peer.history[i], binaries, record, known);
    }
  }

  lemma HistoryPart(record: PeerRecord, i: nat)
    requires i < |record.history|
    ensures RefShas(record.history[i].refs) <= RecordShas(record) && Sizes(record.history[i].refs) <= RecordSizes(record)
  {
  }

  lemma RebuiltOneMore(live: PeerVersion, history: seq<PeerVersion>, was: seq<Bytes>, pool: seq<Bytes>, version: PeerVersion, io: VersionIo,
                       peer: PeerEntry, binaries: seq<Bytes>, known: set<Sha>, sizes: set<nat>, i: nat)
    requires i < |peer.history| && RebuiltTo(live, history, was, peer, binaries, i) && Extends(pool, was)
    requires io == IoOf(peer.history[i], binaries) && VersionFits(io, peer.history[i], binaries, known, sizes)
    requires Shows(version, pool, io, known)
    ensures RebuiltTo(live, history + [version], pool, peer, binaries, i + 1)
  {
    RebuiltGrows(live, history, was, pool, peer, binaries, i);
  }

  /** Rebuild the history after the live version. */
  method RebuildHistory(record: PeerRecord, live: PeerVersion, state: Pooled, store: map<Sha, Bytes>,
                        ghost before: seq<Bytes>, ghost start: map<Sha, nat>, ghost sizes: set<nat>,
                        ghost peer: PeerEntry, ghost binaries: seq<Bytes>)
      returns (history: seq<PeerVersion>, next: Pooled, overflow: bool)
    requires Rebuilding(state, before, store, start, sizes) && forall s :: s in store ==> store[s] == s.of
    requires RecordShows(record, peer, binaries, start.Keys + store.Keys, sizes)
    requires RebuiltTo(live, [], state.pool, peer, binaries, 0)
    ensures Rebuilding(next, before, store, start, sizes)
    ensures overflow ==> |next.pool| > U32_MAX
    ensures !overflow ==> RebuiltTo(live, history, next.pool, peer, binaries, |peer.history|)
  {
    history, next, overflow := [], state, false;
    for i := 0 to |record.history|
      invariant Rebuilding(next, before, store, start, sizes)
      invariant RebuiltTo(live, history, next.pool, peer, binaries, i)
    {
      ghost var was := next.pool;
      var version;
      version, next, overflow := SnapshotToEntry(record.history[i], next, store, before, start, sizes);
      if overflow {
        return;
      }
      RebuiltOneMore(live, history, was, next.pool, version, record.history[i], peer, binaries, start.Keys + store.Keys, sizes, i);
      history := history + [version];
    }
  }

  /** Parking and rebuilding is the identity on what an entry shows: as long as
      the row stands, the peer's version comes back whole, its attachments bound
      into the caller's pool, which grows only by bytes it did not hold. */
  method ReconstructPeerEntry(b: BlobStore, owned: Owned, binaryPool: seq<Bytes>, ghost peer: PeerEntry, ghost binaries: seq<Bytes>)
      returns (result: Rebuilt, pool: seq<Bytes>)
    requires Sound(b.t) && (owned in b.t.parked ==> b.t.parked[owned] == RecordOf(peer, binaries))
    ensures result.NoRow? <==> owned !in b.t.parked
    ensures result.PoolTooLarge? ==> |pool| > U32_MAX
    ensures result.Rebuilt? ==> SameEntry(result.entry, pool, peer, binaries)
    ensures Extends(pool, binaryPool) && OnlyNew(pool, binaryPool)
  {
    pool := binaryPool;
    if owned !in b.t.parked {
      return NoRow, pool;
    }
    var record := b.t.parked[owned];
    var sizes := RecordSizes(record);
    ParkedResolves(b.t, owned);
    var start, overflow := SeedIndex(binaryPool, sizes);
    if overflow {
      return PoolTooLarge, pool;
    }
    ParkedShows(record, peer, binaries, start.Keys + b.t.pool.Keys);
    var live, history, state;
    live, state, overflow := SnapshotToEntry(record.entry, Pooled(binaryPool, start), b.t.pool, binaryPool, start, sizes);
    if overflow {
      return PoolTooLarge, state.pool;
    }
    history, state, overflow := RebuildHistory(record, live, state, b.t.pool, binaryPool, start, sizes, peer, binaries);
    if overflow {
      return PoolTooLarge, state.pool;
    }
    return Rebuilt.Rebuilt(PeerEntry(live, history)), state.pool;
  }
}
