/** The content-addressed attachment pool, everything that refers into it, and
    its garbage collection. */
module Blobs {
  import opened Order
  import opened Store

  type Bytes = seq<int>

  /** The hash of a byte string. Different strings have different hashes. */
  datatype Sha = Sha(of: Bytes)

  // ----- entries as a vault holds them

  /** `refId` is an index into the vault's binary pool. */
  datatype Att = Att(name: string, refId: nat)

  datatype PeerVersion = PeerVersion(content: string, attachments: seq<Att>)

  datatype PeerEntry = PeerEntry(live: PeerVersion, history: seq<PeerVersion>)

  datatype VaultEntry = VaultEntry(id: Uuid, attachments: seq<Att>, history: seq<PeerVersion>)

  datatype Named = Named(name: string, bytes: Bytes)

  /** An entry's attachments with their bytes; a dangling reference has none and
      is skipped. */
  function View(attachments: seq<Att>, binaries: seq<Bytes>): seq<Named> {
    if attachments == [] then []
    else (if attachments[0].refId < |binaries| then [Named(attachments[0].name, binaries[attachments[0].refId])] else [])
         + View(attachments[1..], binaries)
  }

  // ----- tables

  datatype LinkKey = LinkKey(entry: Uuid, name: string)

  datatype RowKey = RowKey(entry: Uuid, index: nat)

  /** What a history row's text says about attachments. Text that does not parse
      says nothing, and a hash that does not decode is not among `shas`. */
  datatype HistoryRow = WellFormed(shas: set<Sha>) | Malformed

  datatype Ref = Ref(name: string, size: nat, sha: Sha)

  datatype VersionIo = VersionIo(content: string, refs: seq<Ref>)

  datatype PeerRecord = PeerRecord(entry: VersionIo, history: seq<VersionIo>)

  datatype BlobRef = BlobRef(owned: Owned, sha: Sha)

  datatype Tables = Tables(pool: map<Sha, Bytes>, links: map<LinkKey, Sha>, history: map<RowKey, HistoryRow>,
                           parked: map<Owned, PeerRecord>, refs: set<BlobRef>)

  function RowShas(row: HistoryRow): set<Sha> {
    match row
    case WellFormed(shas) => shas
    case Malformed => {}
  }

  function IoOf(version: PeerVersion, binaries: seq<Bytes>): VersionIo {
    VersionIo(version.content, RefsOf(View(version.attachments, binaries)))
  }

  function RefsOf(view: seq<Named>): (refs: seq<Ref>)
    ensures |refs| == |view| && forall i :: 0 <= i < |view| ==> refs[i] == Ref(view[i].name, |view[i].bytes|, Sha(view[i].bytes))
  {
    seq(|view|, i requires 0 <= i < |view| => Ref(view[i].name, |view[i].bytes|, Sha(view[i].bytes)))
  }

  function IosOf(versions: seq<PeerVersion>, binaries: seq<Bytes>): (ios: seq<VersionIo>)
    ensures |ios| == |versions| && forall i :: 0 <= i < |versions| ==> ios[i] == IoOf(versions[i], binaries)
  {
    seq(|versions|, i requires 0 <= i < |versions| => IoOf(versions[i], binaries))
  }

  function RecordOf(entry: PeerEntry, binaries: seq<Bytes>): PeerRecord {
    PeerRecord(IoOf(entry.live, binaries), IosOf(entry.history, binaries))
  }

  /** Every attachment of an entry, the live version's first. */
  function AllAttachments(entry: PeerEntry): seq<Att> {
    entry.live.attachments + HistoryAttachments(entry.history)
  }

  function HistoryAttachments(versions: seq<PeerVersion>): seq<Att> {
    if versions == [] then [] else versions[0].attachments + HistoryAttachments(versions[1..])
  }

  function ShasOf(view: seq<Named>): set<Sha> {
    set n | n in view :: Sha(n.bytes)
  }

  ghost function RefShas(refs: seq<Ref>): set<Sha> {
    set r | r in refs :: r.sha
  }

  ghost function RecordShas(record: PeerRecord): set<Sha> {
    RefShas(record.entry.refs) + set i, s | 0 <= i < |record.history| && s in RefShas(record.history[i].refs) :: s
  }

  /** The pool with these byte strings in it; what is there already stays. */
  function WithBlobs(pool: map<Sha, Bytes>, view: seq<Named>): map<Sha, Bytes> {
    map s | s in pool.Keys + ShasOf(view) :: if s in pool then pool[s] else s.of
  }

  // ----- operations

  datatype Op =
    | Attach(entry: Uuid, name: string, bytes: Bytes)
    | Detach(entry: Uuid, name: string)
    | AddHistory(entry: Uuid, index: nat, attachments: seq<Att>, binaries: seq<Bytes>)
    | ArchiveLive(entry: Uuid, index: nat)
    | DropHistory(entry: Uuid, index: nat)
    | DeleteEntry(entry: Uuid)
    | Park(owner: string, entry: Uuid, peer: PeerEntry, binaries: seq<Bytes>)
    | Unpark(entry: Uuid)
    | UnparkOwner(owner: string, entry: Uuid)
    | Collect
    | Reingest(entries: seq<VaultEntry>, binaries: seq<Bytes>)

  function LiveShas(t: Tables, entry: Uuid): set<Sha> {
    set k | k in t.links && k.entry == entry :: t.links[k]
  }

  /** Every hash something refers to. */
  function Roots(t: Tables): set<Sha> {
    (set k | k in t.links :: t.links[k]) + (set r | r in t.refs :: r.sha)
    + RowRoots(t.history, t.history.Keys)
  }

  /** What the history rows at `keys` refer to. */
  function RowRoots(history: map<RowKey, HistoryRow>, keys: set<RowKey>): set<Sha>
    requires keys <= history.Keys
  {
    set k, s | k in keys && s in RowShas(history[k]) :: s
  }

  lemma RowRootsGrow(history: map<RowKey, HistoryRow>, keys: set<RowKey>, k: RowKey)
    requires keys <= history.Keys && k in history
    ensures RowRoots(history, keys + {k}) == RowRoots(history, keys) + RowShas(history[k])
  {
  }

  function Attached(t: Tables, entry: Uuid, name: string, bytes: Bytes): Tables {
    t.(pool := WithBlobs(t.pool, [Named(name, bytes)]), links := t.links[LinkKey(entry, name) := Sha(bytes)])
  }

  function WithHistory(t: Tables, entry: Uuid, index: nat, view: seq<Named>): Tables {
    t.(pool := WithBlobs(t.pool, view), history := t.history[RowKey(entry, index) := WellFormed(ShasOf(view))])
  }

  function Unparked(t: Tables, gone: set<Owned>): Tables {
    t.(parked := t.parked - gone, refs := set r | r in t.refs && r.owned !in gone)
  }

  /** The owners with a row for `entry`. */
  function OwnedFor(t: Tables, entry: Uuid): set<Owned> {
    (set o | o in t.parked && o.entry == entry) + set r | r in t.refs && r.owned.entry == entry :: r.owned
  }

  function Parked(t: Tables, owned: Owned, peer: PeerEntry, binaries: seq<Bytes>): Tables {
    var dropped := Unparked(t, {owned});
    var view := View(AllAttachments(peer), binaries);
    dropped.(pool := WithBlobs(t.pool, view), parked := dropped.parked[owned := RecordOf(peer, binaries)],
             refs := dropped.refs + set n | n in view :: BlobRef(owned, Sha(n.bytes)))
  }

  function Collected(t: Tables): Tables {
    t.(pool := map s | s in t.pool && s in Roots(t) :: t.pool[s])
  }

  /** The wipe before a re-ingest keeps parked conflicts and their blobs. */
  function Wiped(t: Tables): Tables {
    var kept := set r | r in t.refs :: r.sha;
    Tables(map s | s in t.pool && s in kept :: t.pool[s], map[], map[], t.parked, t.refs)
  }

  /** One entry's rows. A second attachment of the same name keeps its bytes but
      not its link. */
  function WithLinks(t: Tables, entry: Uuid, view: seq<Named>): Tables
    decreases view
  {
    if view == [] then t
    else
      var key := LinkKey(entry, view[0].name);
      var next := if key in t.links then t.(pool := WithBlobs(t.pool, [view[0]]))
                  else Attached(t, entry, view[0].name, view[0].bytes);
      WithLinks(next, entry, view[1..])
  }

  function WithRows(t: Tables, entry: Uuid, index: nat, versions: seq<PeerVersion>, binaries: seq<Bytes>): Tables
    decreases versions
  {
    if versions == [] then t
    else WithRows(WithHistory(t, entry, index, View(versions[0].attachments, binaries)), entry, index + 1, versions[1..], binaries)
  }

  function WithEntries(t: Tables, entries: seq<VaultEntry>, binaries: seq<Bytes>): Tables
    decreases entries
  {
    if entries == [] then t
    else
      var e := entries[0];
      var linked := WithLinks(t, e.id, View(e.attachments, binaries));
      WithEntries(WithRows(linked, e.id, 0, e.history, binaries), entries[1..], binaries)
  }

  function Apply(t: Tables, op: Op): Tables {
    match op
    case Attach(entry, name, bytes) => Attached(t, entry, name, bytes)
    case Detach(entry, name) => t.(links := t.links - {LinkKey(entry, name)})
    case AddHistory(entry, index, attachments, binaries) => WithHistory(t, entry, index, View(attachments, binaries))
    case ArchiveLive(entry, index) => t.(history := t.history[RowKey(entry, index) := WellFormed(LiveShas(t, entry))])
    case DropHistory(entry, index) => t.(history := t.history - {RowKey(entry, index)})
    case DeleteEntry(entry) =>
      t.(links := map k | k in t.links && k.entry != entry :: t.links[k],
         history := map k | k in t.history && k.entry != entry :: t.history[k])
    case Park(owner, entry, peer, binaries) => Parked(t, Owned(owner, entry), peer, binaries)
    case Unpark(entry) => Unparked(t, OwnedFor(t, entry))
    case UnparkOwner(owner, entry) => Unparked(t, {Owned(owner, entry)})
    case Collect => Collected(t)
    case Reingest(entries, binaries) => WithEntries(Wiped(t), entries, binaries)
  }

  function Run(t: Tables, ops: seq<Op>): Tables
    decreases |ops|
  {
    if ops == [] then t else Apply(Run(t, ops[..|ops| - 1]), ops[|ops| - 1])
  }

  // ----- safety

  /** The pool is content-addressed, every live link and every parked conflict's
      reference resolves, and a parked record refers to nothing unlisted. */
  ghost predicate Sound(t: Tables) {
    && (forall s :: s in t.pool ==> t.pool[s] == s.of)
    && (forall k :: k in t.links ==> t.links[k] in t.pool)
    && (forall r :: r in t.refs ==> r.sha in t.pool)
    && (forall o, s {:trigger BlobRef(o, s)} :: o in t.parked && s in RecordShas(t.parked[o]) ==> BlobRef(o, s) in t.refs)
  }

  /** `row` is among the history rows and refers to `s`. */
  ghost predicate RowRefers(t: Tables, row: HistoryRow, s: Sha) {
    s in RowShas(row) && exists k :: k in t.history && t.history[k] == row
  }

  /** What a step may not do to history: a reference that resolved and is still
      there still resolves, and a new one resolves. */
  ghost predicate KeepsHistory(before: Tables, after: Tables) {
    forall row, s {:trigger RowRefers(after, row, s)} :: RowRefers(after, row, s) ==>
      s in after.pool || (RowRefers(before, row, s) && s !in before.pool)
  }

  lemma {:induction false} ViewJoins(a: seq<Att>, b: seq<Att>, binaries: seq<Bytes>)
    ensures View(a + b, binaries) == View(a, binaries) + View(b, binaries)
  {
    if a == [] {
      assert a + b == b;
    } else {
      assert (a + b)[1..] == a[1..] + b;
      ViewJoins(a[1..], b, binaries);
    }
  }

  lemma {:induction false} HistoryViews(versions: seq<PeerVersion>, binaries: seq<Bytes>, i: nat)
    requires i < |versions|
    ensures forall n :: n in View(versions[i].attachments, binaries) ==> n in View(HistoryAttachments(versions), binaries)
  {
    ViewJoins(versions[0].attachments, HistoryAttachments(versions[1..]), binaries);
    if i > 0 {
      HistoryViews(versions[1..], binaries, i - 1);
    }
  }

  /** Everything a peer's record refers to is among the entry's attachments. */
  lemma RecordIsListed(peer: PeerEntry, binaries: seq<Bytes>, s: Sha)
    requires s in RecordShas(RecordOf(peer, binaries))
    ensures s in ShasOf(View(AllAttachments(peer), binaries))
  {
    ViewJoins(peer.live.attachments, HistoryAttachments(peer.history), binaries);
    var record := RecordOf(peer, binaries);
    if s in RefShas(record.entry.refs) {
      RefsComeFromView(View(peer.live.attachments, binaries), s);
    } else {
      var i :| 0 <= i < |record.history| && s in RefShas(record.history[i].refs);
      RefsComeFromView(View(peer.history[i].attachments, binaries), s);
      HistoryViews(peer.history, binaries, i);
    }
  }

  lemma RefsComeFromView(view: seq<Named>, s: Sha)
    requires s in RefShas(RefsOf(view))
    ensures s in ShasOf(view)
  {
    var r :| r in RefsOf(view) && r.sha == s;
    var i :| 0 <= i < |view| && RefsOf(view)[i] == r;
    assert view[i] in view;
  }

  lemma WithBlobsMeans(pool: map<Sha, Bytes>, view: seq<Named>)
    requires forall s :: s in pool ==> pool[s] == s.of
    ensures WithBlobs(pool, view).Keys == pool.Keys + ShasOf(view)
    ensures forall s :: s in WithBlobs(pool, view) ==> WithBlobs(pool, view)[s] == s.of
  {
  }

  lemma {:induction false} LinksKeep(t: Tables, entry: Uuid, view: seq<Named>)
    requires Sound(t)
    ensures Sound(WithLinks(t, entry, view)) && t.pool.Keys <= WithLinks(t, entry, view).pool.Keys
    ensures WithLinks(t, entry, view).history == t.history && WithLinks(t, entry, view).parked == t.parked
    decreases view
  {
    if view != [] {
      var key := LinkKey(entry, view[0].name);
      WithBlobsMeans(t.pool, [view[0]]);
      assert [view[0]] == [Named(view[0].name, view[0].bytes)];
      var next := if key in t.links then t.(pool := WithBlobs(t.pool, [view[0]]))
                  else Attached(t, entry, view[0].name, view[0].bytes);
      assert Sound(next) by {
        assert view[0] in [view[0]];
      }
      LinksKeep(next, entry, view[1..]);
    }
  }

  /** All history references resolve. */
  ghost predicate HistoryWhole(t: Tables) {
    forall k {:trigger t.history[k]} :: k in t.history ==> RowShas(t.history[k]) <= t.pool.Keys
  }

  lemma {:induction false} RowsKeep(t: Tables, entry: Uuid, index: nat, versions: seq<PeerVersion>, binaries: seq<Bytes>)
    requires Sound(t) && HistoryWhole(t)
    ensures var after := WithRows(t, entry, index, versions, binaries);
            Sound(after) && HistoryWhole(after) && after.parked == t.parked
    decreases versions
  {
    if versions != [] {
      var view := View(versions[0].attachments, binaries);
      WithBlobsMeans(t.pool, view);
      RowsKeep(WithHistory(t, entry, index, view), entry, index + 1, versions[1..], binaries);
    }
  }

  lemma {:induction false} EntriesKeep(t: Tables, entries: seq<VaultEntry>, binaries: seq<Bytes>)
    requires Sound(t) && HistoryWhole(t)
    ensures var after := WithEntries(t, entries, binaries);
            Sound(after) && HistoryWhole(after) && after.parked == t.parked
    decreases entries
  {
    if entries != [] {
      var e := entries[0];
      LinksKeep(t, e.id, View(e.attachments, binaries));
      var linked := WithLinks(t, e.id, View(e.attachments, binaries));
      RowsKeep(linked, e.id, 0, e.history, binaries);
      EntriesKeep(WithRows(linked, e.id, 0, e.history, binaries), entries[1..], binaries);
    }
  }

  lemma ParkKeeps(t: Tables, owned: Owned, peer: PeerEntry, binaries: seq<Bytes>)
    requires Sound(t)
    ensures Sound(Parked(t, owned, peer, binaries)) && t.pool.Keys <= Parked(t, owned, peer, binaries).pool.Keys
  {
    var view := View(AllAttachments(peer), binaries);
    var after := Parked(t, owned, peer, binaries);
    WithBlobsMeans(t.pool, view);
    forall o, s | o in after.parked && s in RecordShas(after.parked[o]) ensures BlobRef(o, s) in after.refs {
      if o == owned {
        RecordIsListed(peer, binaries, s);
      } else {
        assert BlobRef(o, s) in t.refs;
      }
    }
  }

  /** Every operation keeps the store sound and history references resolving. */
  lemma StepIsSafe(t: Tables, op: Op)
    requires Sound(t)
    ensures Sound(Apply(t, op)) && KeepsHistory(t, Apply(t, op))
  {
    match op
    case Attach(entry, name, bytes) =>
      WithBlobsMeans(t.pool, [Named(name, bytes)]);
      assert Named(name, bytes) in [Named(name, bytes)];
      GrowingKeepsHistory(t, Apply(t, op));
    case AddHistory(entry, index, attachments, binaries) =>
      WithBlobsMeans(t.pool, View(attachments, binaries));
    case Park(owner, entry, peer, binaries) =>
      ParkKeeps(t, Owned(owner, entry), peer, binaries);
      GrowingKeepsHistory(t, Apply(t, op));
    case Reingest(entries, binaries) =>
      WipeKeeps(t);
      EntriesKeep(Wiped(t), entries, binaries);
    case Unpark(entry) =>
      UnparkKeeps(t, OwnedFor(t, entry));
    case UnparkOwner(owner, entry) =>
      UnparkKeeps(t, {Owned(owner, entry)});
    case Collect =>
      CollectKeeps(t);
    case ArchiveLive(_, _) =>
    case Detach(_, _) =>
      GrowingKeepsHistory(t, Apply(t, op));
    case DropHistory(_, _) =>
    case DeleteEntry(_) =>
  }

  lemma GrowingKeepsHistory(t: Tables, after: Tables)
    requires after.history == t.history && t.pool.Keys <= after.pool.Keys
    ensures KeepsHistory(t, after)
  {
  }

  lemma WipeKeeps(t: Tables)
    requires Sound(t)
    ensures Sound(Wiped(t)) && HistoryWhole(Wiped(t)) && Wiped(t).parked == t.parked
  {
  }

  lemma UnparkKeeps(t: Tables, gone: set<Owned>)
    requires Sound(t)
    ensures Sound(Unparked(t, gone)) && KeepsHistory(t, Unparked(t, gone))
  {
    var after := Unparked(t, gone);
    forall o, s | o in after.parked && s in RecordShas(after.parked[o]) ensures BlobRef(o, s) in after.refs {
      assert BlobRef(o, s) in t.refs;
    }
    GrowingKeepsHistory(t, after);
  }

  lemma CollectKeeps(t: Tables)
    requires Sound(t)
    ensures Sound(Collected(t)) && KeepsHistory(t, Collected(t))
  {
    forall row, s | RowRefers(Collected(t), row, s) && s in t.pool ensures s in Collected(t).pool {
      var k :| k in t.history && t.history[k] == row;
      assert s in RowShas(t.history[k]);
    }
  }

  /** Soundness over every run. */
  lemma {:induction false} RunIsSound(t: Tables, ops: seq<Op>)
    requires Sound(t)
    ensures Sound(Run(t, ops))
    decreases |ops|
  {
    if ops != [] {
      RunIsSound(t, ops[..|ops| - 1]);
      StepIsSafe(Run(t, ops[..|ops| - 1]), ops[|ops| - 1]);
    }
  }

  /** A history reference that resolved keeps resolving over every run, as long as
      the row is there. */
  lemma {:induction false} HistoryStaysResolved(t: Tables, ops: seq<Op>, row: HistoryRow, s: Sha)
    requires Sound(t) && s in t.pool
    requires forall n :: 0 <= n <= |ops| ==> RowRefers(Run(t, ops[..n]), row, s)
    ensures s in Run(t, ops).pool
    decreases |ops|
  {
    assert ops[..|ops|] == ops;
    if ops != [] {
      var front := ops[..|ops| - 1];
      forall n | 0 <= n <= |front| ensures RowRefers(Run(t, front[..n]), row, s) {
        assert front[..n] == ops[..n];
      }
      HistoryStaysResolved(t, front, row, s);
      RunIsSound(t, front);
      StepIsSafe(Run(t, front), ops[|ops| - 1]);
      assert RowRefers(Run(t, ops), row, s);
    }
  }

  /** Leaves `owned` parked as it is. */
  predicate Spares(op: Op, owned: Owned) {
    match op
    case Park(owner, entry, _, _) => Owned(owner, entry) != owned
    case Unpark(entry) => entry != owned.entry
    case UnparkOwner(owner, entry) => Owned(owner, entry) != owned
    case _ => true
  }

  /** A parked conflict outlives everything but its own resolution: its record and
      every blob it refers to are there after any run that spares it. */
  lemma {:induction false} ParkedSurvives(t: Tables, ops: seq<Op>, owned: Owned)
    requires Sound(t) && owned in t.parked && forall i :: 0 <= i < |ops| ==> Spares(ops[i], owned)
    ensures owned in Run(t, ops).parked && Run(t, ops).parked[owned] == t.parked[owned]
    ensures RecordShas(t.parked[owned]) <= Run(t, ops).pool.Keys
    decreases |ops|
  {
    if ops != [] {
      var front := ops[..|ops| - 1];
      ParkedSurvives(t, front, owned);
      RunIsSound(t, front);
      SparedStays(Run(t, front), ops[|ops| - 1], owned);
    }
    RunIsSound(t, ops);
    ParkedResolves(Run(t, ops), owned);
  }

  lemma SparedStays(t: Tables, op: Op, owned: Owned)
    requires Sound(t) && owned in t.parked && Spares(op, owned)
    ensures owned in Apply(t, op).parked && Apply(t, op).parked[owned] == t.parked[owned]
  {
    if op.Reingest? {
      WipeKeeps(t);
      EntriesKeep(Wiped(t), op.entries, op.binaries);
    }
  }

  lemma ParkedResolves(t: Tables, owned: Owned)
    requires Sound(t) && owned in t.parked
    ensures RecordShas(t.parked[owned]) <= t.pool.Keys
  {
    forall s | s in RecordShas(t.parked[owned]) ensures s in t.pool {
      assert BlobRef(owned, s) in t.refs;
    }
  }

  // ----- what the rows refer to

  /** The hashes of what is attached; a dangling reference has none. */
  ghost function HashesOf(attachments: seq<Att>, binaries: seq<Bytes>): set<Sha> {
    set a | a in attachments && a.refId < |binaries| :: Sha(binaries[a.refId])
  }

  /** The `i`-th is the first of its name. */
  ghost predicate FirstNamed(view: seq<Named>, i: int) {
    0 <= i < |view| && forall j :: 0 <= j < i ==> view[j].name != view[i].name
  }

  /** The entry's links are the names in `view`, each to the bytes of the first of it. */
  ghost predicate LinksHold(links: map<LinkKey, Sha>, entry: Uuid, view: seq<Named>) {
    && (forall k: LinkKey {:trigger k in links} :: k in links && k.entry == entry ==> Names(view, k.name))
    && (forall i :: FirstNamed(view, i) ==>
          LinkKey(entry, view[i].name) in links && links[LinkKey(entry, view[i].name)] == Sha(view[i].bytes))
  }

  /** Its history rows are its versions in order, each with the hashes of what it has
      attached. */
  ghost predicate RowsHold(history: map<RowKey, HistoryRow>, entry: Uuid, versions: seq<PeerVersion>, binaries: seq<Bytes>) {
    && (forall k: RowKey {:trigger k in history} :: k in history && k.entry == entry ==> k.index < |versions|)
    && (forall i: nat :: i < |versions| ==>
          RowKey(entry, i) in history
          && history[RowKey(entry, i)] == WellFormed(HashesOf(versions[i].attachments, binaries)))
  }

  lemma {:induction false} ViewMeans(attachments: seq<Att>, binaries: seq<Bytes>)
    ensures ShasOf(View(attachments, binaries)) == HashesOf(attachments, binaries)
  {
    if attachments != [] {
      ViewMeans(attachments[1..], binaries);
      ViewOneMore(attachments, binaries);
    }
  }

  lemma ViewOneMore(attachments: seq<Att>, binaries: seq<Bytes>)
    requires attachments != []
    ensures ShasOf(View(attachments, binaries)) == HashesOf([attachments[0]], binaries) + ShasOf(View(attachments[1..], binaries))
    ensures HashesOf(attachments, binaries) == HashesOf([attachments[0]], binaries) + HashesOf(attachments[1..], binaries)
  {
    var a, rest := attachments[0], attachments[1..];
    assert attachments == [a] + rest;
    HashesJoin([a], rest, binaries);
    if a.refId < |binaries| {
      assert a in [a];
      ShasJoin([Named(a.name, binaries[a.refId])], View(rest, binaries));
      assert Named(a.name, binaries[a.refId]) in [Named(a.name, binaries[a.refId])];
    } else {
      assert View(attachments, binaries) == View(rest, binaries);
    }
  }

  lemma ShasJoin(a: seq<Named>, b: seq<Named>)
    ensures ShasOf(a + b) == ShasOf(a) + ShasOf(b)
  {
    assert forall n :: n in a + b <==> n in a || n in b;
  }

  lemma HashesJoin(a: seq<Att>, b: seq<Att>, binaries: seq<Bytes>)
    ensures HashesOf(a + b, binaries) == HashesOf(a, binaries) + HashesOf(b, binaries)
  {
    assert forall x :: x in a + b <==> x in a || x in b;
  }

  /** Some attachment in `view` has that name. */
  ghost predicate Names(view: seq<Named>, name: string) {
    exists i :: 0 <= i < |view| && view[i].name == name
  }

  /** What is linked stays, and each other name in `view` is linked to its first bytes. */
  ghost predicate LinksFrom(before: map<LinkKey, Sha>, after: map<LinkKey, Sha>, entry: Uuid, view: seq<Named>) {
    && (forall k: LinkKey {:trigger k in after} :: k in after <==> k in before || (k.entry == entry && Names(view, k.name)))
    && (forall k: LinkKey {:trigger after[k]} :: k in before ==> after[k] == before[k])
    && (forall i {:trigger FirstNamed(view, i)} :: FirstNamed(view, i) && LinkKey(entry, view[i].name) !in before ==>
          after[LinkKey(entry, view[i].name)] == Sha(view[i].bytes))
  }

  lemma {:induction false} LinksWritten(t: Tables, entry: Uuid, view: seq<Named>)
    ensures var after := WithLinks(t, entry, view);
            after.history == t.history && LinksFrom(t.links, after.links, entry, view)
    decreases view
  {
    if view != [] {
      var key, rest := LinkKey(entry, view[0].name), view[1..];
      var next := if key in t.links then t.(pool := WithBlobs(t.pool, [view[0]])) else Attached(t, entry, view[0].name, view[0].bytes);
      LinksWritten(next, entry, rest);
      LinkInFront(t.links, next.links, WithLinks(t, entry, view).links, entry, view);
    }
  }

  lemma LinkInFront(before: map<LinkKey, Sha>, next: map<LinkKey, Sha>, after: map<LinkKey, Sha>, entry: Uuid, view: seq<Named>)
    requires view != [] && LinksFrom(next, after, entry, view[1..])
    requires next == if LinkKey(entry, view[0].name) in before then before else before[LinkKey(entry, view[0].name) := Sha(view[0].bytes)]
    ensures LinksFrom(before, after, entry, view)
  {
    var rest := view[1..];
    forall name ensures Names(view, name) <==> name == view[0].name || Names(rest, name) {
      NameInFront(view, name);
    }
    forall i | FirstNamed(view, i) && LinkKey(entry, view[i].name) !in before
      ensures after[LinkKey(entry, view[i].name)] == Sha(view[i].bytes)
    {
      if i > 0 {
        assert rest[i - 1] == view[i] && view[0].name != view[i].name;
        assert forall j :: 0 <= j < i - 1 ==> rest[j] == view[j + 1];
        assert FirstNamed(rest, i - 1);
      } else {
        assert LinkKey(entry, view[0].name) in next;
      }
    }
  }

  lemma NameInFront(view: seq<Named>, name: string)
    requires view != []
    ensures Names(view, name) <==> name == view[0].name || Names(view[1..], name)
  {
    if i :| 0 < i < |view| && view[i].name == name {
      assert view[1..][i - 1] == view[i];
    }
    if i :| 0 <= i < |view[1..]| && view[1..][i].name == name {
      assert view[i + 1].name == name;
    }
  }

  /** The rows of `entry` from `index` on are now those of `versions`. */
  ghost predicate RowsFrom(before: map<RowKey, HistoryRow>, after: map<RowKey, HistoryRow>, entry: Uuid, index: nat,
                           versions: seq<PeerVersion>, binaries: seq<Bytes>) {
    && (forall k: RowKey {:trigger k in after} :: k in after <==> k in before || (k.entry == entry && index <= k.index < index + |versions|))
    && (forall k: RowKey {:trigger after[k]} :: k in after ==>
          after[k] == if k.entry == entry && index <= k.index < index + |versions|
                      then WellFormed(HashesOf(versions[k.index - index].attachments, binaries)) else before[k])
  }

  lemma {:induction false} RowsWritten(t: Tables, entry: Uuid, index: nat, versions: seq<PeerVersion>, binaries: seq<Bytes>)
    ensures var after := WithRows(t, entry, index, versions, binaries);
            after.links == t.links && RowsFrom(t.history, after.history, entry, index, versions, binaries)
    decreases versions
  {
    if versions != [] {
      var view := View(versions[0].attachments, binaries);
      var next := WithHistory(t, entry, index, view);
      ViewMeans(versions[0].attachments, binaries);
      RowsWritten(next, entry, index + 1, versions[1..], binaries);
      RowInFront(t.history, next.history, WithRows(t, entry, index, versions, binaries).history, entry, index, versions, binaries);
    }
  }

  lemma RowInFront(before: map<RowKey, HistoryRow>, next: map<RowKey, HistoryRow>, after: map<RowKey, HistoryRow>, entry: Uuid, index: nat,
                   versions: seq<PeerVersion>, binaries: seq<Bytes>)
    requires versions != [] && next == before[RowKey(entry, index) := WellFormed(HashesOf(versions[0].attachments, binaries))]
    requires RowsFrom(next, after, entry, index + 1, versions[1..], binaries)
    ensures RowsFrom(before, after, entry, index, versions, binaries)
  {
    forall k: RowKey | k in after
      ensures after[k] == if k.entry == entry && index <= k.index < index + |versions|
                          then WellFormed(HashesOf(versions[k.index - index].attachments, binaries)) else before[k]
    {
      if k.entry == entry && index < k.index < index + |versions| {
        assert versions[1..][k.index - (index + 1)] == versions[k.index - index];
      }
    }
  }

  ghost predicate DistinctEntries(entries: seq<VaultEntry>) {
    forall i, j :: 0 <= i < j < |entries| ==> entries[i].id != entries[j].id
  }

  /** Of `links` and `history`, what belongs to the entry is its own. */
  ghost predicate EntryHeld(t: Tables, e: VaultEntry, binaries: seq<Bytes>) {
    LinksHold(t.links, e.id, View(e.attachments, binaries)) && RowsHold(t.history, e.id, e.history, binaries)
  }

  ghost predicate NothingOf(t: Tables, u: Uuid) {
    && (forall k: LinkKey {:trigger k in t.links} :: k in t.links ==> k.entry != u)
    && (forall k: RowKey {:trigger k in t.history} :: k in t.history ==> k.entry != u)
  }

  /** The rows of `u` are the same in both. */
  ghost predicate SameRows(a: Tables, b: Tables, u: Uuid) {
    && (forall k: LinkKey {:trigger k in b.links} :: k.entry == u ==>
          (k in b.links <==> k in a.links) && (k in a.links ==> b.links[k] == a.links[k]))
    && (forall k: RowKey {:trigger k in b.history} :: k.entry == u ==>
          (k in b.history <==> k in a.history) && (k in a.history ==> b.history[k] == a.history[k]))
  }

  lemma OneEntryWritten(t: Tables, e: VaultEntry, binaries: seq<Bytes>)
    requires NothingOf(t, e.id)
    ensures var after := WithRows(WithLinks(t, e.id, View(e.attachments, binaries)), e.id, 0, e.history, binaries);
            EntryHeld(after, e, binaries) && forall u :: u != e.id ==> SameRows(t, after, u)
  {
    var view := View(e.attachments, binaries);
    var linked := WithLinks(t, e.id, view);
    LinksWritten(t, e.id, view);
    RowsWritten(linked, e.id, 0, e.history, binaries);
    var after := WithRows(linked, e.id, 0, e.history, binaries);
    RowsOfNew(t.history, after.history, e.id, e.history, binaries);
    LinksOfNew(t.links, after.links, e.id, view);
    forall u | u != e.id ensures SameRows(t, after, u) {
      OthersSame(t, after, e.id, view, e.history, binaries, u);
    }
  }

  lemma OthersSame(t: Tables, after: Tables, entry: Uuid, view: seq<Named>, versions: seq<PeerVersion>, binaries: seq<Bytes>, u: Uuid)
    requires LinksFrom(t.links, after.links, entry, view) && RowsFrom(t.history, after.history, entry, 0, versions, binaries) && u != entry
    ensures SameRows(t, after, u)
  {
  }

  lemma LinksOfNew(before: map<LinkKey, Sha>, after: map<LinkKey, Sha>, u: Uuid, view: seq<Named>)
    requires LinksFrom(before, after, u, view)
    requires forall k: LinkKey {:trigger k in before} :: k in before ==> k.entry != u
    ensures LinksHold(after, u, view)
  {
    forall i | FirstNamed(view, i) ensures LinkKey(u, view[i].name) in after && after[LinkKey(u, view[i].name)] == Sha(view[i].bytes) {
      assert Names(view, view[i].name) && LinkKey(u, view[i].name).entry == u;
    }
  }

  lemma RowsOfNew(before: map<RowKey, HistoryRow>, after: map<RowKey, HistoryRow>, u: Uuid, versions: seq<PeerVersion>, binaries: seq<Bytes>)
    requires RowsFrom(before, after, u, 0, versions, binaries)
    requires forall k: RowKey {:trigger k in before} :: k in before ==> k.entry != u
    ensures RowsHold(after, u, versions, binaries)
  {
    forall i: nat | i < |versions|
      ensures RowKey(u, i) in after && after[RowKey(u, i)] == WellFormed(HashesOf(versions[i].attachments, binaries))
    {
      assert RowKey(u, i).index == i;
    }
  }

  lemma SameRowsTwice(a: Tables, b: Tables, c: Tables, u: Uuid)
    requires SameRows(a, b, u) && SameRows(b, c, u)
    ensures SameRows(a, c, u)
  {
  }

  lemma SameHeld(a: Tables, b: Tables, e: VaultEntry, binaries: seq<Bytes>)
    requires SameRows(a, b, e.id) && EntryHeld(a, e, binaries)
    ensures EntryHeld(b, e, binaries)
  {
    var view := View(e.attachments, binaries);
    forall i | FirstNamed(view, i)
      ensures LinkKey(e.id, view[i].name) in b.links && b.links[LinkKey(e.id, view[i].name)] == Sha(view[i].bytes)
    {
      assert LinkKey(e.id, view[i].name).entry == e.id;
    }
    forall i: nat | i < |e.history| ensures RowKey(e.id, i) in b.history && b.history[RowKey(e.id, i)] == a.history[RowKey(e.id, i)] {
      assert RowKey(e.id, i).entry == e.id;
    }
  }

  ghost predicate AllHeld(t: Tables, entries: seq<VaultEntry>, binaries: seq<Bytes>) {
    forall i :: 0 <= i < |entries| ==> EntryHeld(t, entries[i], binaries)
  }

  ghost predicate Among(entries: seq<VaultEntry>, u: Uuid) {
    exists i :: 0 <= i < |entries| && entries[i].id == u
  }

  lemma {:induction false} EntriesWritten(t: Tables, entries: seq<VaultEntry>, binaries: seq<Bytes>)
    requires DistinctEntries(entries) && forall u :: Among(entries, u) ==> NothingOf(t, u)
    ensures AllHeld(WithEntries(t, entries, binaries), entries, binaries)
    ensures forall u :: !Among(entries, u) ==> SameRows(t, WithEntries(t, entries, binaries), u)
    decreases entries
  {
    if entries != [] {
      var e, rest := entries[0], entries[1..];
      var next := WithRows(WithLinks(t, e.id, View(e.attachments, binaries)), e.id, 0, e.history, binaries);
      var after := WithEntries(t, entries, binaries);
      forall u ensures Among(entries, u) <==> u == e.id || Among(rest, u) {
        AmongInFront(entries, u);
      }
      FirstIsNew(entries);
      OneEntryWritten(t, e, binaries);
      forall u | Among(rest, u) ensures NothingOf(next, u) {
        NothingStays(t, next, u);
      }
      EntriesWritten(next, rest, binaries);
      SameHeld(next, after, e, binaries);
      assert forall i :: 0 < i < |entries| ==> entries[i] == rest[i - 1];
      forall u | !Among(entries, u) ensures SameRows(t, after, u) {
        SameRowsTwice(t, next, after, u);
      }
    }
  }

  lemma AmongInFront(entries: seq<VaultEntry>, u: Uuid)
    requires entries != []
    ensures Among(entries, u) <==> u == entries[0].id || Among(entries[1..], u)
  {
    if i :| 0 < i < |entries| && entries[i].id == u {
      assert entries[1..][i - 1] == entries[i];
    }
    if i :| 0 <= i < |entries[1..]| && entries[1..][i].id == u {
      assert entries[i + 1].id == u;
    }
  }

  lemma FirstIsNew(entries: seq<VaultEntry>)
    requires entries != [] && DistinctEntries(entries)
    ensures !Among(entries[1..], entries[0].id) && DistinctEntries(entries[1..])
  {
    assert forall i :: 0 <= i < |entries[1..]| ==> entries[1..][i] == entries[i + 1];
  }

  lemma NothingStays(a: Tables, b: Tables, u: Uuid)
    requires NothingOf(a, u) && SameRows(a, b, u)
    ensures NothingOf(b, u)
  {
  }

  /** After a re-ingest the links and history rows are those of the vault's entries, and
      nothing else: each name links to its first attachment's bytes, each history row
      refers to what its version has attached. */
  lemma ReingestHolds(t: Tables, entries: seq<VaultEntry>, binaries: seq<Bytes>)
    requires DistinctEntries(entries)
    ensures AllHeld(Apply(t, Reingest(entries, binaries)), entries, binaries)
    ensures forall u :: !Among(entries, u) ==> NothingOf(Apply(t, Reingest(entries, binaries)), u)
  {
    EntriesWritten(Wiped(t), entries, binaries);
    forall u | !Among(entries, u) ensures NothingOf(WithEntries(Wiped(t), entries, binaries), u) {
      NothingStays(Wiped(t), WithEntries(Wiped(t), entries, binaries), u);
    }
  }

  /** The links after any other operation. */
  lemma LinksAfter(t: Tables, op: Op, k: LinkKey)
    requires !op.Reingest?
    ensures k in Apply(t, op).links <==>
              (op.Attach? && k == LinkKey(op.entry, op.name))
              || (k in t.links && !(op.Detach? && k == LinkKey(op.entry, op.name)) && !(op.DeleteEntry? && k.entry == op.entry))
    ensures k in Apply(t, op).links ==>
              Apply(t, op).links[k] == if op.Attach? && k == LinkKey(op.entry, op.name) then Sha(op.bytes) else t.links[k]
  {
  }

  /** And the history rows: an added one refers to what it has attached, an archived one
      to what the live version links. */
  lemma RowsAfter(t: Tables, op: Op, k: RowKey)
    requires !op.Reingest?
    ensures k in Apply(t, op).history <==>
              ((op.AddHistory? || op.ArchiveLive?) && k == RowKey(op.entry, op.index))
              || (k in t.history && !(op.DropHistory? && k == RowKey(op.entry, op.index)) && !(op.DeleteEntry? && k.entry == op.entry))
    ensures k in Apply(t, op).history ==>
              Apply(t, op).history[k] ==
                if op.AddHistory? && k == RowKey(op.entry, op.index)
                then WellFormed(HashesOf(op.attachments, op.binaries))
                else if op.ArchiveLive? && k == RowKey(op.entry, op.index) then WellFormed(LiveShas(t, op.entry))
                else t.history[k]
  {
    if op.AddHistory? {
      ViewMeans(op.attachments, op.binaries);
    }
  }

  // ----- the tables in place

  class BlobStore {
    var t: Tables

    constructor ()
      ensures t == Tables(map[], map[], map[], map[], {})
      ensures Sound(t)
    {
      t := Tables(map[], map[], map[], map[], {});
    }

    /** Removes exactly the blobs nothing refers to. */
    method CollectGarbage() returns (removed: nat)
      modifies this
      ensures t == Collected(old(t))
      ensures removed == |old(t).pool| - |t.pool|
    {
      var roots := (set k | k in t.links :: t.links[k]) + (set r | r in t.refs :: r.sha);
      var rows := t.history.Keys;
      while rows != {}
        invariant rows <= t.history.Keys && t == old(t)
        invariant roots == (set k | k in t.links :: t.links[k]) + (set r | r in t.refs :: r.sha)
                           + RowRoots(t.history, t.history.Keys - rows)
      {
        var k :| k in rows;
        RowRootsGrow(t.history, t.history.Keys - rows, k);
        assert t.history.Keys - (rows - {k}) == (t.history.Keys - rows) + {k};
        if t.history[k].WellFormed? {
          roots := roots + t.history[k].shas;
        }
        rows := rows - {k};
      }
      assert t.history.Keys - {} == t.history.Keys;
      assert roots == Roots(t);
      var kept := map s | s in t.pool && s in roots :: t.pool[s];
      assert kept.Keys <= t.pool.Keys;
      FewerKeys(kept.Keys, t.pool.Keys);
      removed := |t.pool| - |kept|;
      t := t.(pool := kept);
    }

    /** Store each attachment's bytes; dangling references store nothing. */
    method StoreAttachmentBlobs(attachments: seq<Att>, binaries: seq<Bytes>) returns (shas: set<Sha>)
      requires forall s :: s in t.pool ==> t.pool[s] == s.of
      modifies this
      ensures t == old(t).(pool := WithBlobs(old(t).pool, View(attachments, binaries)))
      ensures shas == ShasOf(View(attachments, binaries))
    {
      shas := {};
      ghost var before := t;
      assert before == before.(pool := WithBlobs(before.pool, View(attachments[..0], binaries)));
      for i := 0 to |attachments|
        invariant t == before.(pool := WithBlobs(before.pool, View(attachments[..i], binaries)))
        invariant shas == ShasOf(View(attachments[..i], binaries))
      {
        ViewGrows(attachments, binaries, i);
        if attachments[i].refId < |binaries| {
          var bytes := binaries[attachments[i].refId];
          OneMoreBlob(before.pool, View(attachments[..i], binaries), Named(attachments[i].name, bytes));
          if Sha(bytes) !in t.pool {
            t := t.(pool := t.pool[Sha(bytes) := bytes]);
          }
          shas := shas + {Sha(bytes)};
        }
      }
      assert attachments[..|attachments|] == attachments;
    }

    /** Park a peer's version as `owner`'s row, in place of any it had. */
    method WritePeerEntry(owner: string, entry: Uuid, peer: PeerEntry, binaries: seq<Bytes>)
      requires Sound(t)
      modifies this
      ensures t == Parked(old(t), Owned(owner, entry), peer, binaries)
      ensures Sound(t)
    {
      ParkKeeps(t, Owned(owner, entry), peer, binaries);
      DropConflictRowsForOwner(owner, entry);
      t := t.(parked := t.parked[Owned(owner, entry) := RecordOf(peer, binaries)]);
      var shas := StoreAttachmentBlobs(AllAttachments(peer), binaries);
      t := t.(refs := t.refs + set s | s in shas :: BlobRef(Owned(owner, entry), s));
      ParkingSteps(old(t), Owned(owner, entry), peer, binaries);
    }

    method DropConflictRowsForOwner(owner: string, entry: Uuid)
      modifies this
      ensures t == Unparked(old(t), {Owned(owner, entry)})
    {
      var owned := Owned(owner, entry);
      t := t.(refs := set r | r in t.refs && r.owned != owned);
      t := t.(parked := t.parked - {owned});
    }

    method DropConflictRows(entry: Uuid) returns (removed: nat)
      modifies this
      ensures t == Unparked(old(t), OwnedFor(old(t), entry))
      ensures removed == |set o | o in old(t).parked && o.entry == entry|
    {
      var mine := set o | o in t.parked && o.entry == entry;
      t := t.(refs := set r | r in t.refs && r.owned.entry != entry);
      t := t.(parked := t.parked - mine);
      removed := |mine|;
    }
  }

  lemma {:induction false} FewerKeys(a: set<Sha>, b: set<Sha>)
    requires a <= b
    ensures |a| <= |b|
  {
    if s :| s in a {
      FewerKeys(a - {s}, b - {s});
    }
  }

  /** Parking step by step: drop the old row, insert the record, store the bytes,
      list the hashes. */
  lemma ParkingSteps(t: Tables, owned: Owned, peer: PeerEntry, binaries: seq<Bytes>)
    ensures var view := View(AllAttachments(peer), binaries);
            var inserted := Unparked(t, {owned});
            var stored := inserted.(parked := inserted.parked[owned := RecordOf(peer, binaries)], pool := WithBlobs(t.pool, view));
            Parked(t, owned, peer, binaries) == stored.(refs := stored.refs + set s | s in ShasOf(view) :: BlobRef(owned, s))
  {
    RefsByHash(owned, View(AllAttachments(peer), binaries));
  }

  lemma RefsByHash(owned: Owned, view: seq<Named>)
    ensures (set s | s in ShasOf(view) :: BlobRef(owned, s)) == set n | n in view :: BlobRef(owned, Sha(n.bytes))
  {
    forall n | n in view ensures Sha(n.bytes) in ShasOf(view) {
    }
  }

  lemma {:induction false} ViewGrows(attachments: seq<Att>, binaries: seq<Bytes>, i: nat)
    requires i < |attachments|
    ensures View(attachments[..i + 1], binaries) == View(attachments[..i], binaries)
              + if attachments[i].refId < |binaries| then [Named(attachments[i].name, binaries[attachments[i].refId])] else []
  {
    assert attachments[..i + 1] == attachments[..i] + [attachments[i]];
    ViewJoins(attachments[..i], [attachments[i]], binaries);
  }

  /** What one more attachment adds to the pool and to the hashes seen. */
  lemma OneMoreBlob(pool: map<Sha, Bytes>, seen: seq<Named>, n: Named)
    requires forall s :: s in pool ==> pool[s] == s.of
    ensures ShasOf(seen + [n]) == ShasOf(seen) + {Sha(n.bytes)}
    ensures WithBlobs(pool, seen + [n]) == if Sha(n.bytes) in WithBlobs(pool, seen) then WithBlobs(pool, seen)
                                           else WithBlobs(pool, seen)[Sha(n.bytes) := n.bytes]
  {
    assert ShasOf(seen + [n]) == ShasOf(seen) + {Sha(n.bytes)} by {
      assert n in seen + [n];
      forall m | m in seen ensures Sha(m.bytes) in ShasOf(seen + [n]) {
        assert m in seen + [n];
      }
    }
  }
}
