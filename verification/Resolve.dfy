/** Applying a user's resolution of a held conflict. */
module Resolve {
  import opened Order
  import opened Store
  import opened EntryRules
  import opened EntrySync
  import opened PeerPass
  import opened FullIngest

  /** The user's choices by entry: of fields, attachments, the icon, and between
      an edit and a deletion. */
  datatype Choices = Choices(fields: map<Uuid, set<string>>, attachments: map<Uuid, set<string>>,
                             icons: set<Uuid>, deleteEdits: set<Uuid>)

  /** What opening a resolver puts aside: both vaults, and the mirror's counter
      when the local one was projected. */
  datatype Context = Context(projectedAtSeq: nat, local: Vault, remote: Vault)

  /** The merge library's merge under a resolution; `None` if they do not match. */
  type Merge = (Vault, Vault, Choices) -> Option<Vault>

  // ----- resolution records

  /** The entries a record is written for. Choosing between an edit and a deletion
      writes none. */
  function Recorded(c: Choices): set<Uuid> {
    WithFacets(c.fields) + WithFacets(c.attachments) + c.icons
  }

  function WithFacets(facets: map<Uuid, set<string>>): set<Uuid> {
    set u | u in facets && facets[u] != {}
  }

  /** The entries whose conflict rows go. */
  function Resolved(c: Choices): set<Uuid> {
    c.fields.Keys + c.attachments.Keys + c.icons + c.deleteEdits
  }

  /** The resolution times once `who` are resolved at `t`; times never go back. */
  function Stamped(times: map<Uuid, int>, who: set<Uuid>, t: int): map<Uuid, int> {
    map u | u in times.Keys + who ::
      if u in who && !(u in times && times[u] >= t) then t else times[u]
  }

  /** The user chose some field or attachment of `u`, or its icon. */
  ghost predicate HasFacet(c: Choices, u: Uuid) {
    || (exists name :: u in c.fields && name in c.fields[u])
    || (exists name :: u in c.attachments && name in c.attachments[u])
    || u in c.icons
  }

  /** Entries with a chosen facet have the later of `now`, to the second, and what they
      had; the others have what they had. */
  ghost predicate TimesRecorded(before: map<Uuid, int>, after: map<Uuid, int>, c: Choices, now: int) {
    && (forall u {:trigger u in after} :: u in after <==> u in before || HasFacet(c, u))
    && (forall u {:trigger after[u]} :: u in after && !HasFacet(c, u) ==> after[u] == before[u])
    && (forall u {:trigger after[u]} :: u in after && HasFacet(c, u) ==>
          && after[u] >= now / 1000 * 1000 && (u in before ==> after[u] >= before[u])
          && (after[u] == now / 1000 * 1000 || (u in before && after[u] == before[u])))
  }

  lemma StampedMeans(before: map<Uuid, int>, c: Choices, now: int)
    ensures TimesRecorded(before, Stamped(before, Recorded(c), FloorToSecond(now)), c, now)
  {
    FloorMeans(now);
    forall u ensures u in Recorded(c) <==> HasFacet(c, u) {
      FacetsMean(c.fields, u);
      FacetsMean(c.attachments, u);
    }
  }

  lemma FacetsMean(facets: map<Uuid, set<string>>, u: Uuid)
    ensures u in WithFacets(facets) <==> exists name :: u in facets && name in facets[u]
  {
    if u in facets && facets[u] != {} {
      var name :| name in facets[u];
    }
  }

  lemma StampOne(records: seq<Resolution>, u: Uuid, now: int)
    ensures ResolutionTimes(records + [Resolution(u, now)]) == Stamped(ResolutionTimes(records), {u}, FloorToSecond(now))
  {
    assert (records + [Resolution(u, now)])[..|records|] == records;
  }

  lemma StampMore(times: map<Uuid, int>, a: set<Uuid>, b: set<Uuid>, t: int)
    ensures Stamped(Stamped(times, a, t), b, t) == Stamped(times, a + b, t)
  {
  }

  /** One record per chosen facet of each entry. */
  method RecordFacets(records: seq<Resolution>, facets: map<Uuid, set<string>>, now: int) returns (r: seq<Resolution>)
    ensures ResolutionTimes(r) ==
              Stamped(ResolutionTimes(records), WithFacets(facets), FloorToSecond(now))
  {
    r := records;
    var rest := facets.Keys;
    ghost var t := FloorToSecond(now);
    ghost var done: set<Uuid> := {};
    while rest != {}
      invariant rest <= facets.Keys && done == set u | u in facets.Keys - rest && facets[u] != {}
      invariant ResolutionTimes(r) == Stamped(ResolutionTimes(records), done, t)
    {
      var u :| u in rest;
      ghost var more := if facets[u] == {} then {} else {u};
      StampMore(ResolutionTimes(records), done, more, t);
      r := RecordNames(r, u, facets[u], now);
      done := done + more;
      rest := rest - {u};
    }
  }

  method RecordNames(records: seq<Resolution>, u: Uuid, names: set<string>, now: int) returns (r: seq<Resolution>)
    ensures ResolutionTimes(r) == Stamped(ResolutionTimes(records), if names == {} then {} else {u}, FloorToSecond(now))
  {
    r := records;
    var left := names;
    ghost var t := FloorToSecond(now);
    while left != {}
      invariant left <= names
      invariant ResolutionTimes(r) == Stamped(ResolutionTimes(records), if left == names then {} else {u}, t)
    {
      var name :| name in left;
      StampOne(r, u, now);
      StampMore(ResolutionTimes(records), if left == names then {} else {u}, {u}, t);
      assert (if left == names then {} else {u}) + {u} == {u};
      r := r + [Resolution(u, now)];
      left := left - {name};
    }
  }

  method RecordResolutions(records: seq<Resolution>, c: Choices, now: int) returns (r: seq<Resolution>)
    ensures ResolutionTimes(r) == Stamped(ResolutionTimes(records), Recorded(c), FloorToSecond(now))
    ensures TimesRecorded(ResolutionTimes(records), ResolutionTimes(r), c, now)
  {
    r := RecordFacets(records, c.fields, now);
    r := RecordFacets(r, c.attachments, now);
    ghost var t := FloorToSecond(now);
    ghost var before := ResolutionTimes(r);
    var rest := c.icons;
    while rest != {}
      invariant rest <= c.icons
      invariant ResolutionTimes(r) == Stamped(before, c.icons - rest, t)
    {
      var u :| u in rest;
      StampOne(r, u, now);
      StampMore(before, c.icons - rest, {u}, t);
      assert c.icons - (rest - {u}) == (c.icons - rest) + {u};
      r := r + [Resolution(u, now)];
      rest := rest - {u};
    }
    assert c.icons - {} == c.icons;
    StampMore(ResolutionTimes(records), WithFacets(c.fields), WithFacets(c.attachments), t);
    StampMore(ResolutionTimes(records), WithFacets(c.fields) + WithFacets(c.attachments), c.icons, t);
    StampedMeans(ResolutionTimes(records), c, now);
  }

  // ----- applying

  /** The conflict rows of all entries but `gone`. */
  function RowsWithout(conflicts: map<Owned, Entry>, gone: set<Uuid>): map<Owned, Entry> {
    map k | k in conflicts && k.entry !in gone :: conflicts[k]
  }

  /** Exactly the rows of entries that the choices do not mention are left. */
  ghost predicate RowsLeft(before: map<Owned, Entry>, after: map<Owned, Entry>, c: Choices) {
    && (forall k {:trigger k in after} :: k in after <==>
          k in before && k.entry !in c.fields && k.entry !in c.attachments && k.entry !in c.icons && k.entry !in c.deleteEdits)
    && forall k {:trigger after[k]} :: k in after ==> after[k] == before[k]
  }

  method DropConflictRows(m: Mirror, resolved: set<Uuid>)
    modifies m`conflicts
    ensures m.conflicts == RowsWithout(old(m.conflicts), resolved)
  {
    var rest := resolved;
    while rest != {}
      invariant rest <= resolved
      invariant m.conflicts == RowsWithout(old(m.conflicts), resolved - rest)
    {
      var u :| u in rest;
      m.conflicts := map k | k in m.conflicts && k.entry != u :: m.conflicts[k];
      rest := rest - {u};
    }
    assert resolved - {} == resolved;
  }

  datatype Outcome = NoSuchConflict | Mismatch | Malformed | Applied

  class Engine {
    const m: Mirror
    var stashes: map<int, Context>

    constructor (m: Mirror)
      ensures this.m == m && stashes == map[]
    {
      this.m := m;
      stashes := map[];
    }

    /** The stashed context is used up before anything else, so no outcome leaves
        it behind. The merge is applied exactly if it matches, the mirror has not
        been written since the local vault was projected, and the result is a
        vault; otherwise the mirror is untouched. The merge is one transaction, and
        `between` what it leaves; the conflict rows go after it. */
    method ApplyConflictResolution(id: int, choices: Choices, now: int, merge: Merge)
        returns (outcome: Outcome, merged: Option<Vault>, ghost between: Tables)
      modifies this, m
      ensures stashes == old(stashes) - {id}
      ensures outcome == NoSuchConflict <==> id !in old(stashes)
      ensures outcome != Applied ==> Contents(m) == old(Contents(m)) && m.mutationSeq == old(m.mutationSeq)
      ensures outcome == Applied <==>
        && id in old(stashes)
        && var ctx := old(stashes)[id];
        && ctx.projectedAtSeq == old(m.mutationSeq)
        && merge(ctx.local, ctx.remote, choices).Some?
        && Insertable(merge(ctx.local, ctx.remote, choices).value)
      ensures outcome == Applied ==>
        && merged.Some?
        && var ctx := old(stashes)[id];
        && merged.value.(resolutions := merge(ctx.local, ctx.remote, choices).value.resolutions) == merge(ctx.local, ctx.remote, choices).value
        && TimesRecorded(ResolutionTimes(merge(ctx.local, ctx.remote, choices).value.resolutions),
                         ResolutionTimes(merged.value.resolutions), choices, now)
      ensures outcome == Applied ==> HoldsVault(between, merged.value)
      ensures outcome == Applied && BinResolves(merged.value) ==> Represents(between, merged.value) && Represents(Contents(m), merged.value)
      ensures outcome == Applied ==> between.conflicts == old(m.conflicts)
      ensures outcome == Applied ==> Contents(m) == between.(conflicts := m.conflicts) && RowsLeft(old(m.conflicts), m.conflicts, choices)
      ensures outcome == Applied ==> m.mutationSeq > old(m.mutationSeq)
    {
      merged, between := None, Contents(m);
      if id !in stashes {
        return NoSuchConflict, None, between;
      }
      var ctx := stashes[id];
      stashes := stashes - {id};
      var result := merge(ctx.local, ctx.remote, choices);
      if result.None? {
        return Mismatch, None, between;
      }
      var records := RecordResolutions(result.value.resolutions, choices, now);
      merged := Some(result.value.(resolutions := records));
      if ctx.projectedAtSeq != m.mutationSeq {
        return Mismatch, merged, between;
      }
      var ok := IngestVault(m, merged.value);
      if !ok {
        return Malformed, merged, between;
      }
      between := Contents(m);
      DropConflictRows(m, Resolved(choices));
      SameVault(between, Contents(m), merged.value);
      outcome := Applied;
    }
  }

  /** Conflict rows are not part of what a vault says. */
  lemma SameVault(a: Tables, b: Tables, v: Vault)
    requires b == a.(conflicts := b.conflicts)
    ensures Represents(a, v) <==> Represents(b, v)
  {
  }

  /** A conflict row that is left because the second step never came goes with the next
      pass over that peer, unless the peer edited after the recorded resolution. */
  lemma LeftRowGoes(pass: Pass, conflicts: map<Owned, Entry>, u: Uuid)
    requires u in pass.local && u in pass.peer && pass.peer[u].entry.id == u
    requires u in pass.rules.localResolved && !EditedAfter(pass.peer[u].entry.live.modified, Some(pass.rules.localResolved[u]))
    ensures Owned(pass.owner, u) !in ConflictsAfter(pass, conflicts)
  {
    assert DecideFor(pass.rules, pass.local[u].entry, pass.peer[u].entry) == LocalHolds;
    assert u in pass.peer.Keys * pass.local.Keys && u !in ParkedBy(pass);
  }

  /** A recorded resolution is what both replicas then go by: the resolver keeps
      its value and the other side adopts it, unless an edit on the other side is
      later than the record. */
  lemma ResolverPrevails(times: map<Uuid, int>, who: set<Uuid>, now: int, u: Uuid, resolver: Option<int>, other: Option<int>)
    requires u in who
    ensures var at := Some(Stamped(times, who, FloorToSecond(now))[u]);
            BothDecide(at, None, resolver, other) ==
              if EditedAfter(other, at) then (HoldOpen, HoldOpen) else (LocalHolds, AdoptPeer)
  {
  }
}
