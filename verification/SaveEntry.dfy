/** The entry editor's save: exact detection of a save that changes nothing, and
    one archived version for a save that changes something. */
module SaveEntry {
  import opened Order
  import opened History
  import Store

  // ----- sealed values

  /** A sealed value. Sealing picks a fresh nonce each time, so two blobs of one
      plaintext differ. */
  datatype Blob = Blob(key: nat, nonce: nat, plain: string)

  function Open(session: nat, blob: Blob): Option<string> {
    if blob.key == session then Some(blob.plain) else None
  }

  datatype Digest = Sha256(of: string)

  datatype SealedValue = Known(digest: Digest) | Unreadable

  function SealedValueOf(session: nat, blob: Blob): SealedValue {
    match Open(session, blob)
    case Some(plain) => Known(Sha256(plain))
    case None => Unreadable
  }

  /** An unreadable value equals nothing, not even itself. */
  predicate SealedEqual(a: SealedValue, b: SealedValue) {
    a.Known? && b.Known? && a.digest == b.digest
  }

  // ----- rows

  datatype Icon = Builtin(index: nat) | Custom(id: Uuid)

  datatype Columns = Columns(title: string, username: string, url: string, notes: string,
                             iconIndex: Option<nat>, iconCustom: Option<Uuid>, expiresAt: Option<int>)

  /** One entry's rows in the content tables. */
  datatype Row = Row(columns: Columns, protected: map<string, Blob>, plain: map<string, string>,
                     tags: set<string>, attachments: set<(string, seq<int>)>, customData: map<string, string>)

  datatype Field = Field(name: string, value: string, protected: bool)

  datatype Save = Save(title: string, username: string, url: string, notes: string, icon: Icon,
                       expiresAt: Option<int>, password: string, fields: seq<Field>, tags: seq<string>)

  function ColumnsOf(save: Save): Columns {
    Columns(save.title, save.username, save.url, save.notes,
            if save.icon.Builtin? then Some(save.icon.index) else None,
            if save.icon.Custom? then Some(save.icon.id) else None,
            save.expiresAt)
  }

  // ----- tags

  /** The characters with the Unicode property White_Space. */
  predicate IsWhitespace(c: char) {
    || '\U{9}' <= c <= '\U{D}' || c == ' ' || c == '\U{85}' || c == '\U{A0}' || c == '\U{1680}'
    || '\U{2000}' <= c <= '\U{200A}' || c == '\U{2028}' || c == '\U{2029}' || c == '\U{202F}'
    || c == '\U{205F}' || c == '\U{3000}'
  }

  function Trim(s: string): string {
    if s != [] && IsWhitespace(s[0]) then Trim(s[1..])
    else if s != [] && IsWhitespace(s[|s| - 1]) then Trim(s[..|s| - 1])
    else s
  }

  /** `t` is `s` without `i` white-space characters in front and all after `j`. */
  ghost predicate Stretch(s: string, t: string, i: int, j: int) {
    && 0 <= i <= j <= |s| && t == s[i..j]
    && (forall k :: 0 <= k < i ==> IsWhitespace(s[k])) && (forall k :: j <= k < |s| ==> IsWhitespace(s[k]))
  }

  /** Trimming leaves the stretch between the first and the last character that
      is not white space. */
  lemma {:induction false} TrimMeans(s: string)
    ensures exists i, j :: Stretch(s, Trim(s), i, j)
    ensures Trim(s) != [] ==> !IsWhitespace(Trim(s)[0]) && !IsWhitespace(Trim(s)[|Trim(s)| - 1])
  {
    if s != [] && IsWhitespace(s[0]) {
      TrimMeans(s[1..]);
      var i, j :| Stretch(s[1..], Trim(s[1..]), i, j);
      StretchInFront(s, Trim(s), i, j);
    } else if s != [] && IsWhitespace(s[|s| - 1]) {
      TrimMeans(s[..|s| - 1]);
      var i, j :| Stretch(s[..|s| - 1], Trim(s[..|s| - 1]), i, j);
      assert Stretch(s, Trim(s), i, j);
    } else {
      assert Stretch(s, Trim(s), 0, |s|);
    }
  }

  lemma StretchInFront(s: string, t: string, i: int, j: int)
    requires s != [] && IsWhitespace(s[0]) && Stretch(s[1..], t, i, j)
    ensures Stretch(s, t, i + 1, j + 1)
  {
    forall k | 0 < k < |s| ensures s[k] == s[1..][k - 1] {
    }
  }

  ghost function AskedTags(tags: seq<string>): set<string> {
    set i | 0 <= i < |tags| && Trim(tags[i]) != [] :: Trim(tags[i])
  }

  method InsertTags(tags: seq<string>) returns (written: set<string>)
    ensures written == AskedTags(tags)
  {
    written := {};
    var seen: set<string> := {};
    for i := 0 to |tags|
      invariant written == seen == set k | 0 <= k < i && Trim(tags[k]) != [] :: Trim(tags[k])
    {
      var name := Trim(tags[i]);
      if name == [] || name in seen {
        continue;
      }
      seen := seen + {name};
      written := written + {name};
    }
  }

  // ----- custom fields

  /** `i` is the last field of that name and kind, which is the one that counts. */
  ghost predicate LastOf(fields: seq<Field>, protected: bool, name: string, i: int) {
    && 0 <= i < |fields| && fields[i].name == name && fields[i].protected == protected
    && forall k :: i < k < |fields| ==> !(fields[k].name == name && fields[k].protected == protected)
  }

  ghost predicate Asked(fields: seq<Field>, protected: bool, name: string) {
    exists i :: 0 <= i < |fields| && fields[i].name == name && fields[i].protected == protected
  }

  /** The protected fields hold what the editor asked for: the password in its own
      slot, which no custom field can shadow, and each other name's last value. */
  ghost predicate HoldsProtected(protected: map<string, Blob>, password: string, fields: seq<Field>, session: nat) {
    && Store.PASSWORD_FIELD in protected && Open(session, protected[Store.PASSWORD_FIELD]) == Some(password)
    && (forall name :: name != Store.PASSWORD_FIELD ==> (name in protected <==> Asked(fields, true, name)))
    && (forall i {:trigger fields[i]} :: 0 <= i < |fields| && fields[i].name != Store.PASSWORD_FIELD && LastOf(fields, true, fields[i].name, i) ==>
          fields[i].name in protected && Open(session, protected[fields[i].name]) == Some(fields[i].value))
  }

  ghost predicate HoldsPlain(plain: map<string, string>, fields: seq<Field>) {
    && (forall name :: name in plain <==> Asked(fields, false, name))
    && (forall i {:trigger fields[i]} :: 0 <= i < |fields| && LastOf(fields, false, fields[i].name, i) ==>
          fields[i].name in plain && plain[fields[i].name] == fields[i].value)
  }

  /** Replace-all: write the password slot, then the fields in turn. Each sealing
      uses the next nonce. */
  method WriteFields(password: string, fields: seq<Field>, session: nat, nonce: nat)
      returns (protected: map<string, Blob>, plain: map<string, string>)
    ensures HoldsProtected(protected, password, fields, session)
    ensures HoldsPlain(plain, fields)
  {
    protected, plain := map[Store.PASSWORD_FIELD := Blob(session, nonce, password)], map[];
    for i := 0 to |fields|
      invariant HoldsProtected(protected, password, fields[..i], session)
      invariant HoldsPlain(plain, fields[..i])
    {
      var f := fields[i];
      ProtectedStep(protected, password, fields, i, session, nonce + i + 1);
      PlainStep(plain, fields, i);
      if f.protected {
        if f.name == Store.PASSWORD_FIELD {
          continue;
        }
        protected := protected[f.name := Blob(session, nonce + i + 1, f.value)];
      } else {
        plain := plain[f.name := f.value];
      }
    }
    assert fields[..|fields|] == fields;
  }

  lemma ProtectedStep(held: map<string, Blob>, password: string, fields: seq<Field>, i: nat, session: nat, nonce: nat)
    requires i < |fields| && HoldsProtected(held, password, fields[..i], session)
    ensures var f := fields[i];
            HoldsProtected(if f.protected && f.name != Store.PASSWORD_FIELD then held[f.name := Blob(session, nonce, f.value)] else held,
                           password, fields[..i + 1], session)
  {
    assert fields[..i + 1] == fields[..i] + [fields[i]];
    LastShifts(fields[..i], fields[i]);
  }

  lemma PlainStep(held: map<string, string>, fields: seq<Field>, i: nat)
    requires i < |fields| && HoldsPlain(held, fields[..i])
    ensures HoldsPlain(if fields[i].protected then held else held[fields[i].name := fields[i].value], fields[..i + 1])
  {
    assert fields[..i + 1] == fields[..i] + [fields[i]];
    LastShifts(fields[..i], fields[i]);
  }

  /** One more field: it becomes the last of its name and kind, and the others'
      last stay. */
  lemma LastShifts(fields: seq<Field>, f: Field)
    ensures forall protected, name :: Asked(fields + [f], protected, name) <==>
              Asked(fields, protected, name) || (f.name == name && f.protected == protected)
    ensures forall protected, name, i :: LastOf(fields + [f], protected, name, i) <==>
              if f.name == name && f.protected == protected then i == |fields| else LastOf(fields, protected, name, i)
  {
    var more := fields + [f];
    forall protected, name
      ensures Asked(more, protected, name) <==> Asked(fields, protected, name) || (f.name == name && f.protected == protected)
    {
      if Asked(fields, protected, name) {
        var i :| 0 <= i < |fields| && fields[i].name == name && fields[i].protected == protected;
        assert more[i] == fields[i];
      }
      assert more[|fields|] == f;
    }
    forall protected, name, i
      ensures LastOf(more, protected, name, i) <==>
                if f.name == name && f.protected == protected then i == |fields| else LastOf(fields, protected, name, i)
    {
      assert more[|fields|] == f;
      assert forall k :: 0 <= k < |fields| ==> more[k] == fields[k];
    }
  }

  // ----- content

  /** An entry's content in the form two reads are compared by. */
  datatype Content = Content(columns: Columns, password: Option<SealedValue>, protected: map<string, SealedValue>,
                             plain: map<string, string>, tags: set<string>,
                             attachments: set<(string, seq<int>)>, customData: map<string, string>)

  function ReadContent(row: Row, session: nat): Content {
    Content(row.columns,
            if Store.PASSWORD_FIELD in row.protected then Some(SealedValueOf(session, row.protected[Store.PASSWORD_FIELD])) else None,
            map name | name in row.protected && name != Store.PASSWORD_FIELD :: SealedValueOf(session, row.protected[name]),
            row.plain, row.tags, row.attachments, row.customData)
  }

  predicate ContentEqual(a: Content, b: Content) {
    && a.columns == b.columns && a.plain == b.plain && a.tags == b.tags
    && a.attachments == b.attachments && a.customData == b.customData
    && a.password.Some? == b.password.Some?
    && (a.password.Some? ==> SealedEqual(a.password.value, b.password.value))
    && a.protected.Keys == b.protected.Keys
    && forall name :: name in a.protected ==> SealedEqual(a.protected[name], b.protected[name])
  }

  /** Each column holds what the request has under its name; of the two icon columns
      exactly the one for its kind is set. */
  ghost predicate HoldsColumns(columns: Columns, save: Save) {
    && columns.title == save.title && columns.username == save.username
    && columns.url == save.url && columns.notes == save.notes && columns.expiresAt == save.expiresAt
    && match save.icon
       case Builtin(index) => columns.iconIndex == Some(index) && columns.iconCustom == None
       case Custom(id) => columns.iconIndex == None && columns.iconCustom == Some(id)
  }

  /** The entry already is what the editor asks for. */
  ghost predicate Holds(row: Row, save: Save, session: nat) {
    && HoldsColumns(row.columns, save)
    && HoldsProtected(row.protected, save.password, save.fields, session)
    && HoldsPlain(row.plain, save.fields)
    && row.tags == AskedTags(save.tags)
  }

  lemma {:induction false} LastExists(fields: seq<Field>, protected: bool, name: string)
    requires Asked(fields, protected, name)
    ensures exists i :: LastOf(fields, protected, name, i)
  {
    var front, f := fields[..|fields| - 1], fields[|fields| - 1];
    assert fields == front + [f];
    LastShifts(front, f);
    if f.name == name && f.protected == protected {
      assert LastOf(fields, protected, name, |front|);
    } else {
      LastExists(front, protected, name);
      var i :| LastOf(front, protected, name, i);
      assert LastOf(fields, protected, name, i);
    }
  }

  /** What is held for one request is determined: the plaintexts agree name by
      name, whatever the blobs. */
  lemma HeldAlike(a: map<string, Blob>, b: map<string, Blob>, password: string, fields: seq<Field>, session: nat)
    requires HoldsProtected(a, password, fields, session) && HoldsProtected(b, password, fields, session)
    ensures a.Keys == b.Keys
    ensures forall name :: name in a ==> Open(session, a[name]).Some? && Open(session, a[name]) == Open(session, b[name])
  {
    assert forall name :: name in a <==> name in b;
    forall name | name in a
      ensures Open(session, a[name]).Some? && Open(session, a[name]) == Open(session, b[name])
    {
      if name != Store.PASSWORD_FIELD {
        LastExists(fields, true, name);
        var i :| LastOf(fields, true, name, i);
        assert fields[i].name == name;
      }
    }
  }

  lemma PlainAlike(a: map<string, string>, b: map<string, string>, fields: seq<Field>)
    requires HoldsPlain(a, fields) && HoldsPlain(b, fields)
    ensures a == b
  {
    assert forall name :: name in a <==> name in b;
    forall name | name in a ensures a[name] == b[name] {
      LastExists(fields, false, name);
      var i :| LastOf(fields, false, name, i);
      assert fields[i].name == name;
    }
  }

  /** The comparison of two reads, before and after the save's writes, is exact:
      it finds them equal if and only if the entry already held what was asked. */
  lemma NoOpExactly(before: Row, after: Row, save: Save, session: nat)
    requires Holds(after, save, session)
    requires after.attachments == before.attachments && after.customData == before.customData
    ensures ContentEqual(ReadContent(after, session), ReadContent(before, session)) <==> Holds(before, save, session)
  {
    if Holds(before, save, session) {
      HeldAlike(after.protected, before.protected, save.password, save.fields, session);
      PlainAlike(after.plain, before.plain, save.fields);
      var a, b := ReadContent(after, session), ReadContent(before, session);
      assert a.protected.Keys == after.protected.Keys - {Store.PASSWORD_FIELD};
      assert b.protected.Keys == before.protected.Keys - {Store.PASSWORD_FIELD};
    }
    if ContentEqual(ReadContent(after, session), ReadContent(before, session)) {
      EqualHolds(before, after, save, session);
    }
  }

  lemma EqualHolds(before: Row, after: Row, save: Save, session: nat)
    requires Holds(after, save, session)
    requires ContentEqual(ReadContent(after, session), ReadContent(before, session))
    ensures Holds(before, save, session)
  {
    var a, b := ReadContent(after, session), ReadContent(before, session);
    forall name
      ensures name in after.protected <==> name in before.protected
      ensures name in after.protected ==> Open(session, before.protected[name]) == Open(session, after.protected[name])
    {
      if name != Store.PASSWORD_FIELD {
        assert name in a.protected <==> name in after.protected;
        assert name in b.protected <==> name in before.protected;
      }
    }
  }

  // ----- the save

  /** What this model takes from elsewhere: the serialised form of a version, and
      the custom data after the tombstones of trimmed versions are folded in. */
  datatype Library = Library(snapshot: (Row, int) -> Snapshot,
                             recordTrims: (map<string, string>, seq<Snapshot>, int) -> map<string, string>)

  /** One entry: its rows if it exists, its modification time and its history. */
  class EntryState {
    var row: Option<Row>
    var modifiedAt: int
    var mutationSeq: nat
    const history: HistoryTable

    constructor (row: Row, modifiedAt: int)
      ensures this.row == Some(row) && this.modifiedAt == modifiedAt && mutationSeq == 0
      ensures fresh(history) && history.rows == map[] && history.tombstoned == []
    {
      this.row, this.modifiedAt, mutationSeq := Some(row), modifiedAt, 0;
      history := new HistoryTable();
    }
  }

  ghost predicate Archivable(h: HistoryTable, snap: Snapshot)
    reads h
  {
    && BelowShift(h.rows) && SHIFT - 1 !in h.rows
    && |h.Snapshots()| + 1 < I32_MAX && SizeFrom(h.Snapshots() + [snap], 0) <= I64_MAX
  }

  datatype Outcome = NotFound | Unchanged | Changed

  /** Save: reports `Unchanged` exactly when the entry already holds what is asked,
      and then touches nothing; otherwise archives the pre-save version once. */
  method SaveEntry(e: EntryState, save: Save, session: nat, nonce: nat, now: int, lib: Library, maxItems: int, maxSize: int)
      returns (outcome: Outcome, ghost keep: seq<bool>)
    requires e.row.Some? && !Holds(e.row.value, save, session) ==> Archivable(e.history, lib.snapshot(e.row.value, e.modifiedAt))
    modifies e, e.history
    ensures outcome == NotFound <==> old(e.row.None?)
    ensures outcome == Unchanged <==> old(e.row.Some?) && Holds(old(e.row.value), save, session)
    ensures outcome != Changed ==> e.row == old(e.row) && e.modifiedAt == old(e.modifiedAt) && e.mutationSeq == old(e.mutationSeq)
    ensures outcome != Changed ==> e.history.rows == old(e.history.rows) && e.history.tombstoned == old(e.history.tombstoned)
    ensures outcome == Changed ==>
      Archived(old(e.history.Snapshots()) + [lib.snapshot(old(e.row.value), old(e.modifiedAt))], old(e.history.tombstoned),
               e.history.Snapshots(), e.history.tombstoned, keep, maxItems, maxSize)
    ensures outcome == Changed ==>
      && e.row.Some? && Holds(e.row.value, save, session) && e.row.value.attachments == old(e.row.value.attachments)
      && e.modifiedAt == now && e.mutationSeq > old(e.mutationSeq)
    ensures outcome == Changed ==>
      var columns := e.row.value.columns;
      && columns.title == save.title && columns.username == save.username
      && columns.url == save.url && columns.notes == save.notes && columns.expiresAt == save.expiresAt
      && columns.iconIndex == (if save.icon.Builtin? then Some(save.icon.index) else None)
      && columns.iconCustom == (if save.icon.Custom? then Some(save.icon.id) else None)
    ensures outcome == Changed ==>
      e.row.value.customData == Recorded(old(e.row.value.customData), old(e.history.tombstoned), e.history.tombstoned, now, lib)
  {
    keep := [];
    if e.row.None? {
      return NotFound, keep;
    }
    var before := e.row.value;
    var written, same := EditRow(before, save, session, nonce);
    if same {
      return Unchanged, keep;
    }
    keep := CommitEdit(e, written, now, lib, maxItems, maxSize);
    CustomDataIsNotAsked(e.row.value, written.customData, save, session);
    outcome := Changed;
  }

  /** Archive what the entry was, then write `written`. */
  method CommitEdit(e: EntryState, written: Row, now: int, lib: Library, maxItems: int, maxSize: int) returns (ghost keep: seq<bool>)
    requires e.row.Some? && Archivable(e.history, lib.snapshot(e.row.value, e.modifiedAt))
    modifies e, e.history
    ensures e.row.Some? && e.row.value.(customData := written.customData) == written
    ensures e.row.value.customData == Recorded(written.customData, old(e.history.tombstoned), e.history.tombstoned, now, lib)
    ensures e.modifiedAt == now && e.mutationSeq > old(e.mutationSeq)
    ensures Archived(old(e.history.Snapshots()) + [lib.snapshot(old(e.row.value), old(e.modifiedAt))], old(e.history.tombstoned),
                     e.history.Snapshots(), e.history.tombstoned, keep, maxItems, maxSize)
  {
    var customData;
    customData, keep := ArchiveBefore(e.history, lib.snapshot(e.row.value, e.modifiedAt), written.customData, now, lib, maxItems, maxSize);
    e.row, e.modifiedAt, e.mutationSeq := Some(written.(customData := customData)), now, e.mutationSeq + 1;
  }

  lemma CustomDataIsNotAsked(row: Row, customData: map<string, string>, save: Save, session: nat)
    ensures Holds(row.(customData := customData), save, session) <==> Holds(row, save, session)
  {
  }

  /** The custom data once the versions trimmed meanwhile are recorded in it: as it was
      if there are none. */
  ghost function Recorded(customData: map<string, string>, before: seq<Snapshot>, after: seq<Snapshot>, now: int, lib: Library): map<string, string>
  {
    if |after| <= |before| then customData else lib.recordTrims(customData, after[|before|..], now)
  }

  /** Archive the pre-save version and record the trims in the custom data. */
  method ArchiveBefore(h: HistoryTable, snap: Snapshot, customData: map<string, string>, now: int, lib: Library, maxItems: int, maxSize: int)
      returns (recorded: map<string, string>, ghost keep: seq<bool>)
    requires Archivable(h, snap)
    modifies h
    ensures Archived(old(h.Snapshots()) + [snap], old(h.tombstoned), h.Snapshots(), h.tombstoned, keep, maxItems, maxSize)
    ensures recorded == Recorded(customData, old(h.tombstoned), h.tombstoned, now, lib)
  {
    var trimmed := |h.tombstoned|;
    var k := ArchiveSnapshot(h, snap, maxItems, maxSize);
    keep := k;
    recorded := customData;
    if |h.tombstoned| > trimmed {
      recorded := lib.recordTrims(customData, h.tombstoned[trimmed..], now);
    }
  }

  /** The history is `all` pruned to the caps, and what was dropped is handed to
      the tombstone pass. */
  ghost predicate Archived(all: seq<Snapshot>, tombstonedBefore: seq<Snapshot>, kept: seq<Snapshot>, tombstoned: seq<Snapshot>,
                           keep: seq<bool>, maxItems: int, maxSize: int) {
    && |keep| == |all| && KeepsWhatFits(all, keep, maxItems, maxSize)
    && kept == Kept(all, keep) && tombstoned == tombstonedBefore + Unkept(all, keep)
  }

  /** The writes of one save, and whether a read of the content finds a change. */
  method EditRow(before: Row, save: Save, session: nat, nonce: nat) returns (written: Row, same: bool)
    ensures Holds(written, save, session)
    ensures written.attachments == before.attachments && written.customData == before.customData
    ensures same <==> Holds(before, save, session)
  {
    var protected, plain := WriteFields(save.password, save.fields, session, nonce);
    var tags := InsertTags(save.tags);
    written := Row(ColumnsOf(save), protected, plain, tags, before.attachments, before.customData);
    NoOpExactly(before, written, save, session);
    same := ContentEqual(ReadContent(written, session), ReadContent(before, session));
  }

  /** Repeating any save changes nothing, whatever its duplicate fields, its
      password-named fields or its untrimmed tags. */
  method SaveTwice(e: EntryState, save: Save, session: nat, nonce: nat, now: int, later: int, lib: Library, maxItems: int, maxSize: int)
      returns (first: Outcome, second: Outcome, ghost keep: seq<bool>)
    requires e.row.Some?
    requires !Holds(e.row.value, save, session) ==> Archivable(e.history, lib.snapshot(e.row.value, e.modifiedAt))
    modifies e, e.history
    ensures second == Unchanged
    ensures e.modifiedAt == if first == Changed then now else old(e.modifiedAt)
    ensures first == Changed ==>
      Archived(old(e.history.Snapshots()) + [lib.snapshot(old(e.row.value), old(e.modifiedAt))], old(e.history.tombstoned),
               e.history.Snapshots(), e.history.tombstoned, keep, maxItems, maxSize)
  {
    ghost var none;
    first, keep := SaveEntry(e, save, session, nonce, now, lib, maxItems, maxSize);
    second, none := SaveEntry(e, save, session, nonce + 1 + |save.fields|, later, lib, maxItems, maxSize);
  }
}
