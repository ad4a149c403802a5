/** The tables of the local mirror and the vault values that are folded into it.
    Only the columns the modelled rules read or write are kept. */
module Store {
  import opened Order
  import opened GroupGraph

  // ----- vault values (what a file or a peer hands over)

  /** `bytes` is the attachment looked up in its vault's binary pool, `None` for
      a reference past the end of the pool. */
  datatype Attachment = Attachment(name: string, bytes: Option<seq<int>>, protected: bool)

  /** The name under which the password is kept among the protected fields. */
  const PASSWORD_FIELD: string := "Password"

  datatype CustomField = CustomField(key: string, value: string, protected: bool)

  /** One version of an entry: the live one, or a record of its history. */
  datatype Version = Version(
    title: string, username: string, password: string, url: string, notes: string,
    customFields: seq<CustomField>, tags: seq<string>, attachments: seq<Attachment>,
    icon: int, modified: Option<int>)

  /** `dataKeys` are the keys of its custom data, in order, as it is handed over. */
  datatype Entry = Entry(
    id: Uuid, live: Version, history: seq<Version>, historyTombstones: Option<string>,
    locationChanged: Option<int>, previousParent: Option<Uuid>, dataKeys: seq<string>)

  datatype GroupNode = GroupNode(
    id: Uuid, name: string, notes: string, icon: int, customIcon: Option<Uuid>,
    modified: Option<int>, locationChanged: Option<int>,
    entries: seq<Entry>, groups: seq<GroupNode>)

  datatype DeletedObject = DeletedObject(id: Uuid, deletedAt: Option<int>)

  datatype Resolution = Resolution(entry: Uuid, resolvedAt: int)

  /** Each setting with the time it was last changed, which arbitrates its merge. */
  datatype Settings = Settings(
    databaseName: string, databaseNameChanged: Option<int>,
    historyMaxItems: int, historyMaxSize: int, settingsChanged: Option<int>,
    recycleBinEnabled: bool, recycleBinChanged: Option<int>)

  datatype Meta = Meta(settings: Settings, recycleBin: Option<Uuid>)

  datatype Vault = Vault(
    root: GroupNode, deletedObjects: seq<DeletedObject>, meta: Meta,
    resolutions: seq<Resolution>, icons: map<Uuid, seq<int>>)

  // ----- mirror rows

  datatype GroupRow = GroupRow(
    parent: Option<Uuid>, name: string, notes: string, icon: int, customIcon: Option<Uuid>,
    modifiedAt: int, locationChangedAt: Option<int>, isRecycleBin: bool, sortOrder: int)

  /** `entry` carries the row's location stamp and previous parent; `group` is
      where the entry lives. */
  datatype EntryRow = EntryRow(group: Uuid, isRecycled: bool, entry: Entry)

  datatype Owned = Owned(owner: string, entry: Uuid)

  /** The mirror database. Which group is the bin is the flag of its row alone.
      `mutationSeq` counts writes to rows that are projected back into the vault
      file; conflict rows are not among them. */
  class Mirror {
    var groups: map<Uuid, GroupRow>
    var entries: map<Uuid, EntryRow>
    var tombstones: map<Uuid, Option<int>>
    var conflicts: map<Owned, Entry>
    var icons: map<Uuid, seq<int>>
    var settings: Settings
    var mutationSeq: nat

    constructor (settings: Settings)
      ensures groups == map[] && entries == map[] && tombstones == map[]
      ensures conflicts == map[] && icons == map[] && this.settings == settings && mutationSeq == 0
    {
      groups, entries, tombstones, conflicts, icons := map[], map[], map[], map[], map[];
      this.settings := settings;
      mutationSeq := 0;
    }
  }

  // ----- the group table as a parent map

  function ParentsOf(groups: map<Uuid, GroupRow>): Parents {
    map u | u in groups && groups[u].parent.Some? :: groups[u].parent.value
  }

  /** The group table is one finite tree whose only parentless row is `root`. */
  ghost predicate GroupTree(groups: map<Uuid, GroupRow>, root: Uuid) {
    && GroupsClosed(groups, root)
    && Tree(ParentsOf(groups), root)
  }

  /** Every parent column resolves, and exactly the root has none. */
  ghost predicate GroupsClosed(groups: map<Uuid, GroupRow>, root: Uuid) {
    && root in groups
    && (forall u {:trigger groups[u]} :: u in groups ==> (groups[u].parent == None <==> u == root))
    && (forall u {:trigger groups[u]} :: u in groups && groups[u].parent.Some? ==> groups[u].parent.value in groups)
  }

  lemma GroupsClosedParents(groups: map<Uuid, GroupRow>, root: Uuid)
    requires GroupsClosed(groups, root)
    ensures Closed(ParentsOf(groups), root)
    ensures ParentsOf(groups).Keys == groups.Keys - {root}
  {
  }
}
