/** The field and custom-data rows of an entry that is inserted for the first time. */
module EntryFields {
  import opened Order
  import opened Store

  /** Values as they read once unsealed. */
  datatype FieldRows = FieldRows(protected: map<string, string>, plain: map<string, string>)

  /** A protected field of the password's name gives way to the password's own slot. */
  predicate Skipped(f: CustomField) {
    f.protected && f.key == PASSWORD_FIELD
  }

  ghost predicate Clash(f: CustomField, g: CustomField) {
    f.key == g.key && f.protected == g.protected && !(f.protected && f.key == PASSWORD_FIELD)
  }

  /** No two fields of one kind share a name, skipped ones apart. */
  ghost predicate Fits(fields: seq<CustomField>) {
    forall i, j :: 0 <= i < j < |fields| ==> !Clash(fields[i], fields[j])
  }

  ghost predicate Names(fields: seq<CustomField>, protected: bool, key: string) {
    exists i :: 0 <= i < |fields| && fields[i].key == key && fields[i].protected == protected && (key == PASSWORD_FIELD ==> !protected)
  }

  /** The rows are the password's slot and one row for each field, but for protected ones
      of the password's name. */
  ghost predicate Holds(rows: FieldRows, password: string, fields: seq<CustomField>) {
    && PASSWORD_FIELD in rows.protected && rows.protected[PASSWORD_FIELD] == password
    && (forall key :: key in rows.protected <==> key == PASSWORD_FIELD || Names(fields, true, key))
    && (forall key :: key in rows.plain <==> Names(fields, false, key))
    && (forall i :: 0 <= i < |fields| && (fields[i].key == PASSWORD_FIELD ==> !fields[i].protected) ==> HoldsField(rows, fields[i]))
  }

  ghost predicate HoldsField(rows: FieldRows, f: CustomField) {
    if f.protected then f.key in rows.protected && rows.protected[f.key] == f.value
    else f.key in rows.plain && rows.plain[f.key] == f.value
  }

  /** Plain inserts: a name that is there already fails the whole entry. */
  method InsertFields(password: string, fields: seq<CustomField>) returns (rows: Option<FieldRows>)
    ensures rows.Some? <==> Fits(fields)
    ensures rows.Some? ==> Holds(rows.value, password, fields)
  {
    var done := FieldRows(map[PASSWORD_FIELD := password], map[]);
    for i := 0 to |fields|
      invariant Fits(fields[..i]) && Holds(done, password, fields[..i])
    {
      var f := fields[i];
      assert fields[..i + 1] == fields[..i] + [f];
      FitsOneMore(done, password, fields[..i], f);
      if !Skipped(f) && f.key in (if f.protected then done.protected else done.plain) {
        FitsInFront(fields, i + 1);
        return None;
      }
      HoldsOneMore(done, password, fields[..i], f);
      done := WithField(done, f);
    }
    assert fields[..|fields|] == fields;
    rows := Some(done);
  }

  lemma FitsInFront(fields: seq<CustomField>, n: nat)
    requires n <= |fields| && !Fits(fields[..n])
    ensures !Fits(fields)
  {
    var i, j :| 0 <= i < j < n && Clash(fields[..n][i], fields[..n][j]);
    assert Clash(fields[i], fields[j]);
  }

  lemma NamesOneMore(fields: seq<CustomField>, f: CustomField)
    ensures forall protected, key :: Names(fields + [f], protected, key) <==>
              Names(fields, protected, key) || (f.key == key && f.protected == protected && !Skipped(f))
  {
    var more := fields + [f];
    forall protected, key | Names(fields, protected, key) ensures Names(more, protected, key) {
      var i :| 0 <= i < |fields| && fields[i].key == key && fields[i].protected == protected && !Skipped(fields[i]);
      assert more[i] == fields[i];
    }
    assert more[|fields|] == f;
  }

  /** One more field fits exactly if its name is free. */
  lemma FitsOneMore(rows: FieldRows, password: string, fields: seq<CustomField>, f: CustomField)
    requires Fits(fields) && Holds(rows, password, fields)
    ensures Fits(fields + [f]) <==> Skipped(f) || f.key !in (if f.protected then rows.protected else rows.plain)
  {
    var more := fields + [f];
    assert more[|fields|] == f;
    if !Skipped(f) && Names(fields, f.protected, f.key) {
      var i :| 0 <= i < |fields| && fields[i].key == f.key && fields[i].protected == f.protected && !Skipped(fields[i]);
      assert Clash(more[i], more[|fields|]);
    }
    forall i | 0 <= i < |fields| && Clash(more[i], f) ensures Names(fields, f.protected, f.key) {
      assert fields[i].key == f.key;
    }
  }

  function WithField(rows: FieldRows, f: CustomField): FieldRows {
    if Skipped(f) then rows
    else if f.protected then rows.(protected := rows.protected[f.key := f.value])
    else rows.(plain := rows.plain[f.key := f.value])
  }

  lemma HoldsOneMore(rows: FieldRows, password: string, fields: seq<CustomField>, f: CustomField)
    requires Holds(rows, password, fields) && Fits(fields + [f])
    ensures Holds(WithField(rows, f), password, fields + [f])
  {
    var more, after := fields + [f], WithField(rows, f);
    NamesOneMore(fields, f);
    forall i | 0 <= i < |more| && !Skipped(more[i]) ensures HoldsField(after, more[i]) {
      if i < |fields| {
        assert HoldsField(rows, fields[i]) && !Clash(more[i], more[|fields|]);
      }
    }
  }

  // ----- custom data

  ghost predicate Distinct(keys: seq<string>) {
    forall i, j :: 0 <= i < j < |keys| ==> keys[i] != keys[j]
  }

  method InsertData(keys: seq<string>) returns (ok: bool)
    ensures ok <==> Distinct(keys)
  {
    var held: set<string> := {};
    for i := 0 to |keys|
      invariant Distinct(keys[..i]) && held == set k | k in keys[..i]
    {
      if keys[i] in held {
        RepeatedKey(keys, i);
        return false;
      }
      held := held + {keys[i]};
      assert keys[..i + 1] == keys[..i] + [keys[i]];
    }
    assert keys[..|keys|] == keys;
    ok := true;
  }

  lemma RepeatedKey(keys: seq<string>, i: nat)
    requires i < |keys| && keys[i] in keys[..i]
    ensures !Distinct(keys)
  {
    var j :| 0 <= j < i && keys[j] == keys[i];
  }

  // ----- an entry

  /** No two rows of the entry would have one key. */
  ghost predicate EntryFits(e: Entry) {
    Fits(e.live.customFields) && Distinct(e.dataKeys)
  }

  /** The child rows of one entry. */
  method InsertRows(e: Entry) returns (rows: Option<FieldRows>)
    ensures rows.Some? <==> EntryFits(e)
    ensures rows.Some? ==> Holds(rows.value, e.live.password, e.live.customFields)
  {
    rows := InsertFields(e.live.password, e.live.customFields);
    if rows.Some? {
      var ok := InsertData(e.dataKeys);
      rows := if ok then rows else None;
    }
  }
}
