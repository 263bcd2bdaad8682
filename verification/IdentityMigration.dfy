/**
  A worktree whose folder is renamed gets a new id, and everything the Store keeps
  under the old id is moved. This is meant to be a renaming.
 */
module IdentityMigration {
  import opened Wrappers

  datatype WorktreeId = WorktreeId(text: string)

  datatype WorkspaceKey = Worktree(id: WorktreeId) | Folder(name: string)

  /** The session keeps its records under worktree ids or under workspace keys. */
  datatype Key = Id(id: WorktreeId) | Workspace(key: WorkspaceKey)

  /** Anything that names its worktree: a tab, an open file, a page, a sleeping agent. */
  datatype Item = Item(worktree: Key, data: string)

  datatype Meta = Meta(prior: seq<WorktreeId>, data: string)

  /** Who was created from whom. */
  datatype Lineage<K> = Lineage(self: K, parent: K, data: string)

  datatype ItemField = Tabs | OpenFiles | BrowserTabs | UnifiedTabs | TabGroups

  datatype ValueField =
    | ActiveFileId | ActiveBrowserTabId | ActiveTabType | ActiveTabId
    | TabGroupLayouts | ActiveGroupId | LastVisitedAt | DefaultTerminalTabsApplied

  /** `items` and `values` hold the records kept by worktree, field by field. */
  datatype Session = Session(
    items: map<ItemField, map<Key, seq<Item>>>,
    values: map<ValueField, map<Key, string>>,
    pages: map<string, seq<Item>>,
    shutdown: seq<Key>,
    activeWorktree: Option<Key>,
    activeWorkspace: Option<WorkspaceKey>,
    sleeping: map<string, Item>)

  datatype Contents = Contents(
    meta: map<WorktreeId, Meta>,
    lineage: map<WorktreeId, Lineage<WorktreeId>>,
    workspaceLineage: map<WorkspaceKey, Lineage<WorkspaceKey>>,
    local: Session,
    hosts: map<string, Session>,
    dotfiles: map<WorktreeId, bool>)

  // -------------------------------------------------------- The migration

  function MoveKey<K, V>(m: map<K, V>, from: K, to: K, f: V -> V): map<K, V> {
    if from in m then m[to := f(m[from])] - {from} else m
  }

  function MoveSessionKey<V>(m: map<Key, V>, a: WorktreeId, b: WorktreeId, f: V -> V): map<Key, V> {
    MoveKey(MoveKey(m, Id(a), Id(b), f), Workspace(Worktree(a)), Workspace(Worktree(b)), f)
  }

  function Same<V>(v: V): V { v }

  function Replace<K(==)>(k: K, from: K, to: K): K {
    if k == from then to else k
  }

  function WithNewId(item: Item, a: WorktreeId, b: WorktreeId): Item {
    item.(worktree := Replace(item.worktree, Id(a), Id(b)))
  }

  function AllWithNewId(items: seq<Item>, a: WorktreeId, b: WorktreeId): seq<Item> {
    seq(|items|, i requires 0 <= i < |items| => WithNewId(items[i], a, b))
  }

  function NewIds(a: WorktreeId, b: WorktreeId): seq<Item> -> seq<Item> {
    (items: seq<Item>) => AllWithNewId(items, a, b)
  }

  function AddPrior(meta: map<WorktreeId, Meta>, a: WorktreeId, b: WorktreeId): map<WorktreeId, Meta> {
    if b in meta && a !in meta[b].prior then meta[b := meta[b].(prior := meta[b].prior + [a])] else meta
  }

  function FixMoved(m: map<WorktreeId, Lineage<WorktreeId>>, a: WorktreeId, b: WorktreeId): map<WorktreeId, Lineage<WorktreeId>> {
    if b in m && m[b].self == a then m[b := m[b].(self := b)] else m
  }

  function WithNewParents<K(==)>(m: map<K, Lineage<K>>, from: K, to: K): map<K, Lineage<K>> {
    map k | k in m :: m[k].(parent := Replace(m[k].parent, from, to))
  }

  function MigrateLineage(m: map<WorktreeId, Lineage<WorktreeId>>, a: WorktreeId, b: WorktreeId): map<WorktreeId, Lineage<WorktreeId>> {
    WithNewParents(FixMoved(MoveKey(m, a, b, Same), a, b), a, b)
  }

  function MigrateWorkspaceLineage(m: map<WorkspaceKey, Lineage<WorkspaceKey>>, a: WorktreeId, b: WorktreeId): map<WorkspaceKey, Lineage<WorkspaceKey>> {
    var moved := MoveKey(m, Worktree(a), Worktree(b), (l: Lineage<WorkspaceKey>) => l.(self := Worktree(b)));
    WithNewParents(moved, Worktree(a), Worktree(b))
  }

  function MigrateSession(s: Session, a: WorktreeId, b: WorktreeId): Session {
    Session(
      map f | f in s.items :: MoveSessionKey(s.items[f], a, b, NewIds(a, b)),
      map f | f in s.values :: MoveSessionKey(s.values[f], a, b, Same),
      map p | p in s.pages :: AllWithNewId(s.pages[p], a, b),
      seq(|s.shutdown|, i requires 0 <= i < |s.shutdown| => Replace(s.shutdown[i], Id(a), Id(b))),
      Replace(s.activeWorktree, Some(Id(a)), Some(Id(b))),
      Replace(s.activeWorkspace, Some(Worktree(a)), Some(Worktree(b))),
      map p | p in s.sleeping :: WithNewId(s.sleeping[p], a, b))
  }

  /** What the method leaves behind. */
  function Migrate(c: Contents, a: WorktreeId, b: WorktreeId): Contents {
    if a == b then c
    else
      Contents(
        AddPrior(MoveKey(c.meta, a, b, Same), a, b),
        MigrateLineage(c.lineage, a, b),
        MigrateWorkspaceLineage(c.workspaceLineage, a, b),
        MigrateSession(c.local, a, b),
        MigrateHosts(c.hosts, a, b),
        MoveKey(c.dotfiles, a, b, Same))
  }

  function MigrateHosts(hosts: map<string, Session>, a: WorktreeId, b: WorktreeId): map<string, Session> {
    map h | h in hosts :: MigrateSession(hosts[h], a, b)
  }

  // ---------------------------------------------------- What a renaming is

  /** The two ids change places. */
  function SwapId(i: WorktreeId, a: WorktreeId, b: WorktreeId): WorktreeId {
    if i == a then b else if i == b then a else i
  }

  function SwapWorkspace(k: WorkspaceKey, a: WorktreeId, b: WorktreeId): WorkspaceKey {
    match k
    case Worktree(i) => Worktree(SwapId(i, a, b))
    case Folder(_) => k
  }

  function SwapKey(k: Key, a: WorktreeId, b: WorktreeId): Key {
    match k
    case Id(i) => Id(SwapId(i, a, b))
    case Workspace(w) => Workspace(SwapWorkspace(w, a, b))
  }

  function SwapItem(item: Item, a: WorktreeId, b: WorktreeId): Item {
    item.(worktree := SwapKey(item.worktree, a, b))
  }

  function SwapItems(items: seq<Item>, a: WorktreeId, b: WorktreeId): seq<Item> {
    seq(|items|, i requires 0 <= i < |items| => SwapItem(items[i], a, b))
  }

  // The same, as function values.

  function Ids(a: WorktreeId, b: WorktreeId): WorktreeId -> WorktreeId {
    (i: WorktreeId) => SwapId(i, a, b)
  }

  function Workspaces(a: WorktreeId, b: WorktreeId): WorkspaceKey -> WorkspaceKey {
    (k: WorkspaceKey) => SwapWorkspace(k, a, b)
  }

  function Keys(a: WorktreeId, b: WorktreeId): Key -> Key {
    (k: Key) => SwapKey(k, a, b)
  }

  function ItemLists(a: WorktreeId, b: WorktreeId): seq<Item> -> seq<Item> {
    (items: seq<Item>) => SwapItems(items, a, b)
  }

  function Lineages<K>(sw: K -> K): Lineage<K> -> Lineage<K> {
    (l: Lineage<K>) => Lineage(sw(l.self), sw(l.parent), l.data)
  }

  ghost predicate RekeyedAt<K, V>(m: map<K, V>, n: map<K, V>, sw: K -> K, r: V -> V, k: K) {
    (k in m <==> sw(k) in n) && (k in m ==> n[sw(k)] == r(m[k]))
  }

  /** `n` is `m` with its keys renamed by `sw` and its values by `r`. */
  ghost predicate Rekeyed<K(!new), V>(m: map<K, V>, n: map<K, V>, sw: K -> K, r: V -> V) {
    forall k :: RekeyedAt(m, n, sw, r, k)
  }

  ghost predicate ItemsRenamed(s: Session, t: Session, a: WorktreeId, b: WorktreeId) {
    && s.items.Keys == t.items.Keys
    && forall f :: f in s.items ==> Rekeyed(s.items[f], t.items[f], Keys(a, b), ItemLists(a, b))
  }

  ghost predicate ValuesRenamed(s: Session, t: Session, a: WorktreeId, b: WorktreeId) {
    && s.values.Keys == t.values.Keys
    && forall f :: f in s.values ==> Rekeyed(s.values[f], t.values[f], Keys(a, b), Same)
  }

  ghost predicate PagesRenamed(s: Session, t: Session, a: WorktreeId, b: WorktreeId) {
    && s.pages.Keys == t.pages.Keys && s.sleeping.Keys == t.sleeping.Keys
    && (forall p :: p in s.pages ==> t.pages[p] == SwapItems(s.pages[p], a, b))
    && forall p :: p in s.sleeping ==> t.sleeping[p] == SwapItem(s.sleeping[p], a, b)
  }

  ghost predicate PointersRenamed(s: Session, t: Session, a: WorktreeId, b: WorktreeId) {
    && |s.shutdown| == |t.shutdown|
    && (forall i :: 0 <= i < |s.shutdown| ==> t.shutdown[i] == SwapKey(s.shutdown[i], a, b))
    && t.activeWorktree == (if s.activeWorktree.Some? then Some(SwapKey(s.activeWorktree.value, a, b)) else None)
    && t.activeWorkspace == (if s.activeWorkspace.Some? then Some(SwapWorkspace(s.activeWorkspace.value, a, b)) else None)
  }

  ghost predicate SessionRenamed(s: Session, t: Session, a: WorktreeId, b: WorktreeId) {
    ItemsRenamed(s, t, a, b) && ValuesRenamed(s, t, a, b) && PagesRenamed(s, t, a, b) && PointersRenamed(s, t, a, b)
  }

  /** The metadata without the lists of prior ids. */
  function Data(meta: map<WorktreeId, Meta>): map<WorktreeId, string> {
    map k | k in meta :: meta[k].data
  }

  /** Everything but the lists of prior ids is renamed. */
  ghost predicate Renamed(c: Contents, d: Contents, a: WorktreeId, b: WorktreeId) {
    && Rekeyed(Data(c.meta), Data(d.meta), Ids(a, b), Same)
    && Rekeyed(c.lineage, d.lineage, Ids(a, b), Lineages(Ids(a, b)))
    && Rekeyed(c.workspaceLineage, d.workspaceLineage, Workspaces(a, b), Lineages(Workspaces(a, b)))
    && Rekeyed(c.dotfiles, d.dotfiles, Ids(a, b), Same)
    && SessionRenamed(c.local, d.local, a, b) && HostsRenamed(c.hosts, d.hosts, a, b)
  }

  ghost predicate HostsRenamed(hosts: map<string, Session>, renamed: map<string, Session>, a: WorktreeId, b: WorktreeId) {
    hosts.Keys == renamed.Keys && forall h :: HostRenamed(hosts, renamed, a, b, h)
  }

  ghost predicate HostRenamed(hosts: map<string, Session>, renamed: map<string, Session>, a: WorktreeId, b: WorktreeId, h: string) {
    h in hosts && h in renamed ==> SessionRenamed(hosts[h], renamed[h], a, b)
  }

  // -------------------------------------------------- When it is a renaming

  predicate Mentions(k: Key, id: WorktreeId) {
    k == Id(id) || k == Workspace(Worktree(id))
  }

  ghost predicate FreshItems(items: seq<Item>, id: WorktreeId) {
    forall i :: 0 <= i < |items| ==> !Mentions(items[i].worktree, id)
  }

  ghost predicate FreshKeys<V>(m: map<Key, V>, id: WorktreeId) {
    forall k :: k in m ==> !Mentions(k, id)
  }

  ghost predicate FreshLists(m: map<Key, seq<Item>>, id: WorktreeId) {
    FreshKeys(m, id) && forall k :: k in m ==> FreshItems(m[k], id)
  }

  ghost predicate FreshPointers(s: Session, id: WorktreeId) {
    && (forall i :: 0 <= i < |s.shutdown| ==> !Mentions(s.shutdown[i], id))
    && (s.activeWorktree.Some? ==> !Mentions(s.activeWorktree.value, id))
    && s.activeWorkspace != Some(Worktree(id))
  }

  ghost predicate FreshPages(s: Session, id: WorktreeId) {
    && (forall p :: p in s.pages ==> FreshItems(s.pages[p], id))
    && forall p :: p in s.sleeping ==> !Mentions(s.sleeping[p].worktree, id)
  }

  ghost predicate FreshSession(s: Session, id: WorktreeId) {
    && (forall f :: f in s.items ==> FreshLists(s.items[f], id))
    && (forall f :: f in s.values ==> FreshKeys(s.values[f], id))
    && FreshPages(s, id) && FreshPointers(s, id)
  }

  ghost predicate FreshLineage<K(!new)>(m: map<K, Lineage<K>>, k: K) {
    k !in m && forall j :: j in m ==> m[j].self != k && m[j].parent != k
  }

  /** Nothing but a list of prior ids mentions the worktree. */
  ghost predicate Fresh(c: Contents, id: WorktreeId) {
    && id !in c.meta && id !in c.dotfiles
    && FreshLineage(c.lineage, id) && FreshLineage(c.workspaceLineage, Worktree(id))
    && FreshSession(c.local, id) && forall h :: h in c.hosts ==> FreshSession(c.hosts[h], id)
  }

  /** Items name the worktree by its id, and then they are kept under it. */
  ghost predicate ItemsAgree(items: seq<Item>, a: WorktreeId, kept: bool) {
    forall i :: 0 <= i < |items| ==>
      items[i].worktree != Workspace(Worktree(a)) && (items[i].worktree == Id(a) ==> kept)
  }

  ghost predicate ListAgrees(m: map<Key, seq<Item>>, a: WorktreeId, k: Key) {
    k in m ==> ItemsAgree(m[k], a, Mentions(k, a))
  }

  ghost predicate ListsAgree(m: map<Key, seq<Item>>, a: WorktreeId) {
    forall k :: ListAgrees(m, a, k)
  }

  ghost predicate PagesAgree(s: Session, a: WorktreeId) {
    && (forall p :: p in s.pages ==> ItemsAgree(s.pages[p], a, true))
    && forall p :: p in s.sleeping ==> s.sleeping[p].worktree != Workspace(Worktree(a))
  }

  ghost predicate PointersAgree(s: Session, a: WorktreeId) {
    && (forall i :: 0 <= i < |s.shutdown| ==> s.shutdown[i] != Workspace(Worktree(a)))
    && s.activeWorktree != Some(Workspace(Worktree(a)))
  }

  ghost predicate SessionAgrees(s: Session, a: WorktreeId) {
    (forall f :: f in s.items ==> ListsAgree(s.items[f], a)) && PagesAgree(s, a) && PointersAgree(s, a)
  }

  ghost predicate OwnLineage(m: map<WorktreeId, Lineage<WorktreeId>>, a: WorktreeId, k: WorktreeId) {
    k in m && m[k].self == a ==> k == a
  }

  ghost predicate LineageAgrees(m: map<WorktreeId, Lineage<WorktreeId>>, a: WorktreeId) {
    forall k :: OwnLineage(m, a, k)
  }

  ghost predicate OwnWorkspaceLineage(m: map<WorkspaceKey, Lineage<WorkspaceKey>>, a: WorktreeId, k: WorkspaceKey) {
    k in m ==> (m[k].self == Worktree(a) <==> k == Worktree(a))
  }

  ghost predicate WorkspaceLineageAgrees(m: map<WorkspaceKey, Lineage<WorkspaceKey>>, a: WorktreeId) {
    forall k :: OwnWorkspaceLineage(m, a, k)
  }

  /** What is said of the worktree is said where it is kept. */
  ghost predicate Agrees(c: Contents, a: WorktreeId) {
    && LineageAgrees(c.lineage, a) && WorkspaceLineageAgrees(c.workspaceLineage, a)
    && SessionAgrees(c.local, a) && HostsAgree(c.hosts, a)
  }

  ghost predicate HostAgrees(hosts: map<string, Session>, a: WorktreeId, h: string) {
    h in hosts ==> SessionAgrees(hosts[h], a)
  }

  ghost predicate HostsAgree(hosts: map<string, Session>, a: WorktreeId) {
    forall h :: HostAgrees(hosts, a, h)
  }

  // ------------------------------------------------------------ The proof

  lemma MoveKeyRekeys<K(!new), V>(m: map<K, V>, from: K, to: K, sw: K -> K)
    requires from != to && to !in m && sw(from) == to && sw(to) == from
    requires forall k :: k != from && k != to ==> sw(k) == k
    ensures Rekeyed(m, MoveKey(m, from, to, Same), sw, Same)
  {
    forall k
      ensures RekeyedAt(m, MoveKey(m, from, to, Same), sw, Same, k)
    {
    }
  }

  /** What moving under both kinds of key does. */
  lemma MoveSessionKeyAt<V>(m: map<Key, V>, a: WorktreeId, b: WorktreeId, f: V -> V, k: Key)
    requires a != b && FreshKeys(m, b)
    ensures k in m <==> SwapKey(k, a, b) in MoveSessionKey(m, a, b, f)
    ensures k in m ==> MoveSessionKey(m, a, b, f)[SwapKey(k, a, b)] == if Mentions(k, a) then f(m[k]) else m[k]
  {
    assert Id(b) !in m && Workspace(Worktree(b)) !in m by {
      assert Mentions(Id(b), b) && Mentions(Workspace(Worktree(b)), b);
    }
  }

  function MovedList(items: seq<Item>, a: WorktreeId, b: WorktreeId, kept: bool): seq<Item> {
    if kept then AllWithNewId(items, a, b) else items
  }

  lemma ItemsFollow(items: seq<Item>, a: WorktreeId, b: WorktreeId, kept: bool)
    requires FreshItems(items, b) && a != b
    ensures MovedList(items, a, b, kept) == SwapItems(items, a, b) <==> ItemsAgree(items, a, kept)
  {
    var moved := MovedList(items, a, b, kept);
    var swapped := SwapItems(items, a, b);
    forall i | 0 <= i < |items|
      ensures moved[i] == swapped[i] <==>
              items[i].worktree != Workspace(Worktree(a)) && (items[i].worktree == Id(a) ==> kept)
    {
    }
    if ItemsAgree(items, a, kept) {
      assert moved == swapped;
    }
  }

  lemma ListFollows(m: map<Key, seq<Item>>, a: WorktreeId, b: WorktreeId, k: Key)
    requires FreshLists(m, b) && a != b
    ensures RekeyedAt(m, MoveSessionKey(m, a, b, NewIds(a, b)), Keys(a, b), ItemLists(a, b), k) <==> ListAgrees(m, a, k)
  {
    MoveSessionKeyAt(m, a, b, NewIds(a, b), k);
    if k in m {
      ItemsFollow(m[k], a, b, Mentions(k, a));
    }
  }

  lemma ListsFollow(m: map<Key, seq<Item>>, a: WorktreeId, b: WorktreeId)
    requires FreshLists(m, b) && a != b
    ensures Rekeyed(m, MoveSessionKey(m, a, b, NewIds(a, b)), Keys(a, b), ItemLists(a, b)) <==> ListsAgree(m, a)
  {
    forall k
      ensures RekeyedAt(m, MoveSessionKey(m, a, b, NewIds(a, b)), Keys(a, b), ItemLists(a, b), k) <==> ListAgrees(m, a, k)
    {
      ListFollows(m, a, b, k);
    }
  }

  lemma PagesFollow(s: Session, a: WorktreeId, b: WorktreeId)
    requires FreshPages(s, b) && a != b
    ensures PagesRenamed(s, MigrateSession(s, a, b), a, b) <==> PagesAgree(s, a)
  {
    forall p | p in s.pages
      ensures AllWithNewId(s.pages[p], a, b) == SwapItems(s.pages[p], a, b) <==> ItemsAgree(s.pages[p], a, true)
    {
      ItemsFollow(s.pages[p], a, b, true);
    }
  }

  lemma PointersFollow(s: Session, a: WorktreeId, b: WorktreeId)
    requires FreshPointers(s, b) && a != b
    ensures PointersRenamed(s, MigrateSession(s, a, b), a, b) <==> PointersAgree(s, a)
  {
    var t := MigrateSession(s, a, b);
    forall i | 0 <= i < |s.shutdown|
      ensures t.shutdown[i] == SwapKey(s.shutdown[i], a, b) <==> s.shutdown[i] != Workspace(Worktree(a))
    {
    }
  }

  lemma ItemFieldsFollow(s: Session, a: WorktreeId, b: WorktreeId)
    requires FreshSession(s, b) && a != b
    ensures ItemsRenamed(s, MigrateSession(s, a, b), a, b) <==> forall f :: f in s.items ==> ListsAgree(s.items[f], a)
  {
    forall f | f in s.items
      ensures Rekeyed(s.items[f], MoveSessionKey(s.items[f], a, b, NewIds(a, b)), Keys(a, b), ItemLists(a, b)) <==>
              ListsAgree(s.items[f], a)
    {
      ListsFollow(s.items[f], a, b);
    }
  }

  lemma ValuesFollow<V>(m: map<Key, V>, a: WorktreeId, b: WorktreeId)
    requires FreshKeys(m, b) && a != b
    ensures Rekeyed(m, MoveSessionKey(m, a, b, Same), Keys(a, b), Same)
  {
    forall k
      ensures RekeyedAt(m, MoveSessionKey(m, a, b, Same), Keys(a, b), Same, k)
    {
      MoveSessionKeyAt(m, a, b, Same, k);
    }
  }

  lemma ValueFieldsFollow(s: Session, a: WorktreeId, b: WorktreeId)
    requires FreshSession(s, b) && a != b
    ensures ValuesRenamed(s, MigrateSession(s, a, b), a, b)
  {
    forall f | f in s.values
      ensures Rekeyed(s.values[f], MoveSessionKey(s.values[f], a, b, Same), Keys(a, b), Same)
    {
      ValuesFollow(s.values[f], a, b);
    }
  }

  lemma SessionFollows(s: Session, a: WorktreeId, b: WorktreeId)
    requires FreshSession(s, b) && a != b
    ensures SessionRenamed(s, MigrateSession(s, a, b), a, b) <==> SessionAgrees(s, a)
  {
    ItemFieldsFollow(s, a, b);
    ValueFieldsFollow(s, a, b);
    PagesFollow(s, a, b);
    PointersFollow(s, a, b);
  }

  lemma OneLineageFollows(m: map<WorktreeId, Lineage<WorktreeId>>, a: WorktreeId, b: WorktreeId, k: WorktreeId)
    requires FreshLineage(m, b) && a != b
    ensures RekeyedAt(m, MigrateLineage(m, a, b), Ids(a, b), Lineages(Ids(a, b)), k) <==> OwnLineage(m, a, k)
  {
    var moved := MoveKey(m, a, b, Same);
    assert k in m <==> SwapId(k, a, b) in moved;
    assert k in m ==> moved[SwapId(k, a, b)] == m[k];
  }

  lemma LineageFollows(m: map<WorktreeId, Lineage<WorktreeId>>, a: WorktreeId, b: WorktreeId)
    requires FreshLineage(m, b) && a != b
    ensures Rekeyed(m, MigrateLineage(m, a, b), Ids(a, b), Lineages(Ids(a, b))) <==> LineageAgrees(m, a)
  {
    forall k
      ensures RekeyedAt(m, MigrateLineage(m, a, b), Ids(a, b), Lineages(Ids(a, b)), k) <==> OwnLineage(m, a, k)
    {
      OneLineageFollows(m, a, b, k);
    }
  }

  lemma OneWorkspaceLineageFollows(m: map<WorkspaceKey, Lineage<WorkspaceKey>>, a: WorktreeId, b: WorktreeId, k: WorkspaceKey)
    requires FreshLineage(m, Worktree(b)) && a != b
    ensures RekeyedAt(m, MigrateWorkspaceLineage(m, a, b), Workspaces(a, b), Lineages(Workspaces(a, b)), k) <==>
            OwnWorkspaceLineage(m, a, k)
  {
  }

  lemma WorkspaceLineageFollows(m: map<WorkspaceKey, Lineage<WorkspaceKey>>, a: WorktreeId, b: WorktreeId)
    requires FreshLineage(m, Worktree(b)) && a != b
    ensures Rekeyed(m, MigrateWorkspaceLineage(m, a, b), Workspaces(a, b), Lineages(Workspaces(a, b))) <==>
            WorkspaceLineageAgrees(m, a)
  {
    forall k
      ensures RekeyedAt(m, MigrateWorkspaceLineage(m, a, b), Workspaces(a, b), Lineages(Workspaces(a, b)), k) <==>
              OwnWorkspaceLineage(m, a, k)
    {
      OneWorkspaceLineageFollows(m, a, b, k);
    }
  }

  lemma MetaFollows(meta: map<WorktreeId, Meta>, a: WorktreeId, b: WorktreeId)
    requires b !in meta && a != b
    ensures Rekeyed(Data(meta), Data(AddPrior(MoveKey(meta, a, b, Same), a, b)), Ids(a, b), Same)
  {
    var n := Data(AddPrior(MoveKey(meta, a, b, Same), a, b));
    forall k
      ensures RekeyedAt(Data(meta), n, Ids(a, b), Same, k)
    {
    }
  }

  lemma DotfilesFollow(m: map<WorktreeId, bool>, a: WorktreeId, b: WorktreeId)
    requires b !in m && a != b
    ensures Rekeyed(m, MoveKey(m, a, b, Same), Ids(a, b), Same)
  {
    MoveKeyRekeys(m, a, b, Ids(a, b));
  }

  /** With a fresh new id, migrating is a renaming exactly when what is said of the
      worktree is said where it is kept. */
  lemma MigrationIsRenamingIff(c: Contents, a: WorktreeId, b: WorktreeId)
    requires Fresh(c, b) && a != b
    ensures Renamed(c, Migrate(c, a, b), a, b) <==> Agrees(c, a)
  {
    MetaFollows(c.meta, a, b);
    LineageFollows(c.lineage, a, b);
    WorkspaceLineageFollows(c.workspaceLineage, a, b);
    DotfilesFollow(c.dotfiles, a, b);
    SessionFollows(c.local, a, b);
    HostsFollow(c.hosts, a, b);
  }

  lemma HostsFollow(hosts: map<string, Session>, a: WorktreeId, b: WorktreeId)
    requires a != b && forall h :: h in hosts ==> FreshSession(hosts[h], b)
    ensures HostsRenamed(hosts, MigrateHosts(hosts, a, b), a, b) <==> HostsAgree(hosts, a)
  {
    hide FreshSession, SessionRenamed, SessionAgrees, MigrateSession;
    forall h
      ensures HostRenamed(hosts, MigrateHosts(hosts, a, b), a, b, h) <==> HostAgrees(hosts, a, h)
    {
      if h in hosts {
        SessionFollows(hosts[h], a, b);
      }
    }
  }

  // ------------------------------------------------- What a renaming keeps

  ghost predicate Inverse<K(!new)>(f: K -> K, g: K -> K) {
    forall k :: g(f(k)) == k && f(g(k)) == k
  }

  lemma IdsInvert(a: WorktreeId, b: WorktreeId)
    ensures Inverse(Ids(a, b), Ids(b, a))
  {
  }

  lemma WorkspacesInvert(a: WorktreeId, b: WorktreeId)
    ensures Inverse(Workspaces(a, b), Workspaces(b, a))
  {
  }

  lemma KeysInvert(a: WorktreeId, b: WorktreeId)
    ensures Inverse(Keys(a, b), Keys(b, a))
  {
    forall k
      ensures Keys(b, a)(Keys(a, b)(k)) == k && Keys(a, b)(Keys(b, a)(k)) == k
    {
      assert SwapKey(SwapKey(k, a, b), b, a) == k && SwapKey(SwapKey(k, b, a), a, b) == k;
    }
  }

  lemma LineagesInvert<K(!new)>(f: K -> K, g: K -> K)
    requires Inverse(f, g)
    ensures Inverse(Lineages(f), Lineages(g))
  {
    forall l: Lineage<K>
      ensures Lineages(g)(Lineages(f)(l)) == l && Lineages(f)(Lineages(g)(l)) == l
    {
      assert g(f(l.self)) == l.self && g(f(l.parent)) == l.parent && f(g(l.self)) == l.self && f(g(l.parent)) == l.parent;
    }
  }

  lemma ItemListsInvert(a: WorktreeId, b: WorktreeId)
    ensures Inverse(ItemLists(a, b), ItemLists(b, a))
  {
    forall items: seq<Item>
      ensures SwapItems(SwapItems(items, a, b), b, a) == items && SwapItems(SwapItems(items, b, a), a, b) == items
    {
      SwapItemsTwice(items, a, b);
      SwapItemsTwice(items, b, a);
    }
  }

  lemma SwapItemsTwice(items: seq<Item>, a: WorktreeId, b: WorktreeId)
    ensures SwapItems(SwapItems(items, a, b), b, a) == items
  {
    forall i | 0 <= i < |items|
      ensures SwapItem(SwapItem(items[i], a, b), b, a) == items[i]
    {
      assert SwapKey(SwapKey(items[i].worktree, a, b), b, a) == items[i].worktree;
    }
  }

  /** Renaming there and back is the identity. */
  lemma RekeyedTwice<K(!new), V(!new)>(m: map<K, V>, n: map<K, V>, o: map<K, V>, sw: K -> K, ws: K -> K, r: V -> V, q: V -> V)
    requires Rekeyed(m, n, sw, r) && Rekeyed(n, o, ws, q) && Inverse(sw, ws) && Inverse(r, q)
    ensures o == m
  {
    forall k
      ensures k in m <==> k in o
      ensures k in m ==> m[k] == o[k]
    {
      assert RekeyedAt(m, n, sw, r, k) && RekeyedAt(n, o, ws, q, sw(k));
    }
  }

  lemma ItemsTwice(s: Session, t: Session, u: Session, a: WorktreeId, b: WorktreeId)
    requires ItemsRenamed(s, t, a, b) && ItemsRenamed(t, u, b, a)
    ensures u.items == s.items
  {
    KeysInvert(a, b);
    ItemListsInvert(a, b);
    forall f | f in s.items
      ensures u.items[f] == s.items[f]
    {
      RekeyedTwice(s.items[f], t.items[f], u.items[f], Keys(a, b), Keys(b, a), ItemLists(a, b), ItemLists(b, a));
    }
  }

  lemma ValuesTwice(s: Session, t: Session, u: Session, a: WorktreeId, b: WorktreeId)
    requires ValuesRenamed(s, t, a, b) && ValuesRenamed(t, u, b, a)
    ensures u.values == s.values
  {
    KeysInvert(a, b);
    forall f | f in s.values
      ensures u.values[f] == s.values[f]
    {
      RekeyedTwice(s.values[f], t.values[f], u.values[f], Keys(a, b), Keys(b, a), Same, Same);
    }
  }

  lemma PagesTwice(s: Session, t: Session, u: Session, a: WorktreeId, b: WorktreeId)
    requires PagesRenamed(s, t, a, b) && PagesRenamed(t, u, b, a)
    ensures u.pages == s.pages && u.sleeping == s.sleeping
  {
    forall p | p in s.pages
      ensures u.pages[p] == s.pages[p]
    {
      SwapItemsTwice(s.pages[p], a, b);
    }
    assert u.pages == s.pages;
    forall p | p in s.sleeping
      ensures u.sleeping[p] == s.sleeping[p]
    {
      MentionMoves(s.sleeping[p].worktree, a, b);
      assert SwapItem(SwapItem(s.sleeping[p], a, b), b, a) == s.sleeping[p];
    }
    assert u.sleeping == s.sleeping;
  }

  lemma PointersTwice(s: Session, t: Session, u: Session, a: WorktreeId, b: WorktreeId)
    requires PointersRenamed(s, t, a, b) && PointersRenamed(t, u, b, a)
    ensures u.shutdown == s.shutdown && u.activeWorktree == s.activeWorktree && u.activeWorkspace == s.activeWorkspace
  {
    forall i | 0 <= i < |s.shutdown|
      ensures u.shutdown[i] == s.shutdown[i]
    {
      assert t.shutdown[i] == SwapKey(s.shutdown[i], a, b) && u.shutdown[i] == SwapKey(t.shutdown[i], b, a);
    }
  }

  lemma SessionTwice(s: Session, t: Session, u: Session, a: WorktreeId, b: WorktreeId)
    requires SessionRenamed(s, t, a, b) && SessionRenamed(t, u, b, a)
    ensures u == s
  {
    ItemsTwice(s, t, u, a, b);
    ValuesTwice(s, t, u, a, b);
    PagesTwice(s, t, u, a, b);
    PointersTwice(s, t, u, a, b);
  }

  lemma HostsTwice(s: map<string, Session>, t: map<string, Session>, u: map<string, Session>, a: WorktreeId, b: WorktreeId)
    requires HostsRenamed(s, t, a, b) && HostsRenamed(t, u, b, a)
    ensures u == s
  {
    forall h | h in s
      ensures u[h] == s[h]
    {
      assert HostRenamed(s, t, a, b, h) && HostRenamed(t, u, b, a, h);
      SessionTwice(s[h], t[h], u[h], a, b);
    }
  }

  /** Renamed there and back, nothing but the lists of prior ids can differ. */
  lemma RenamedTwice(c: Contents, d: Contents, e: Contents, a: WorktreeId, b: WorktreeId)
    requires Renamed(c, d, a, b) && Renamed(d, e, b, a)
    ensures Data(e.meta) == Data(c.meta) && e == c.(meta := e.meta)
  {
    IdsInvert(a, b);
    WorkspacesInvert(a, b);
    LineagesInvert(Ids(a, b), Ids(b, a));
    LineagesInvert(Workspaces(a, b), Workspaces(b, a));
    RekeyedTwice(Data(c.meta), Data(d.meta), Data(e.meta), Ids(a, b), Ids(b, a), Same, Same);
    RekeyedTwice(c.dotfiles, d.dotfiles, e.dotfiles, Ids(a, b), Ids(b, a), Same, Same);
    RekeyedTwice(c.lineage, d.lineage, e.lineage, Ids(a, b), Ids(b, a), Lineages(Ids(a, b)), Lineages(Ids(b, a)));
    RekeyedTwice(c.workspaceLineage, d.workspaceLineage, e.workspaceLineage, Workspaces(a, b), Workspaces(b, a),
                 Lineages(Workspaces(a, b)), Lineages(Workspaces(b, a)));
    SessionTwice(c.local, d.local, e.local, a, b);
    HostsTwice(c.hosts, d.hosts, e.hosts, a, b);
  }

  // Freshness and agreement follow the renaming.

  lemma LineageMoves(m: map<WorktreeId, Lineage<WorktreeId>>, n: map<WorktreeId, Lineage<WorktreeId>>, a: WorktreeId, b: WorktreeId)
    requires Rekeyed(m, n, Ids(a, b), Lineages(Ids(a, b)))
    ensures FreshLineage(m, b) ==> FreshLineage(n, a)
    ensures LineageAgrees(m, a) ==> LineageAgrees(n, b)
  {
    forall k
      ensures k in n ==> SwapId(k, a, b) in m && n[k] == Lineages(Ids(a, b))(m[SwapId(k, a, b)])
      ensures OwnLineage(m, a, SwapId(k, a, b)) ==> OwnLineage(n, b, k)
    {
      assert RekeyedAt(m, n, Ids(a, b), Lineages(Ids(a, b)), SwapId(k, a, b));
      assert SwapId(SwapId(k, a, b), a, b) == k;
    }
  }

  lemma WorkspaceLineageMoves(m: map<WorkspaceKey, Lineage<WorkspaceKey>>, n: map<WorkspaceKey, Lineage<WorkspaceKey>>, a: WorktreeId, b: WorktreeId)
    requires Rekeyed(m, n, Workspaces(a, b), Lineages(Workspaces(a, b)))
    ensures FreshLineage(m, Worktree(b)) ==> FreshLineage(n, Worktree(a))
    ensures WorkspaceLineageAgrees(m, a) ==> WorkspaceLineageAgrees(n, b)
  {
    forall k
      ensures k in n ==> SwapWorkspace(k, a, b) in m && n[k] == Lineages(Workspaces(a, b))(m[SwapWorkspace(k, a, b)])
      ensures OwnWorkspaceLineage(m, a, SwapWorkspace(k, a, b)) ==> OwnWorkspaceLineage(n, b, k)
    {
      assert RekeyedAt(m, n, Workspaces(a, b), Lineages(Workspaces(a, b)), SwapWorkspace(k, a, b));
      assert SwapWorkspace(SwapWorkspace(k, a, b), a, b) == k;
    }
  }

  lemma MentionMoves(k: Key, a: WorktreeId, b: WorktreeId)
    ensures Mentions(SwapKey(k, a, b), a) <==> Mentions(k, b)
    ensures Mentions(SwapKey(k, a, b), b) <==> Mentions(k, a)
    ensures SwapKey(k, a, b) == Id(b) <==> k == Id(a)
    ensures SwapKey(k, a, b) == Workspace(Worktree(b)) <==> k == Workspace(Worktree(a))
    ensures SwapKey(SwapKey(k, a, b), a, b) == k
  {
  }

  lemma ItemsMove(items: seq<Item>, a: WorktreeId, b: WorktreeId, kept: bool)
    ensures FreshItems(items, b) ==> FreshItems(SwapItems(items, a, b), a)
    ensures ItemsAgree(items, a, kept) ==> ItemsAgree(SwapItems(items, a, b), b, kept)
  {
    forall i | 0 <= i < |items|
      ensures Mentions(SwapItems(items, a, b)[i].worktree, a) <==> Mentions(items[i].worktree, b)
      ensures SwapItems(items, a, b)[i].worktree == Id(b) <==> items[i].worktree == Id(a)
      ensures SwapItems(items, a, b)[i].worktree == Workspace(Worktree(b)) <==> items[i].worktree == Workspace(Worktree(a))
    {
      MentionMoves(items[i].worktree, a, b);
    }
  }

  lemma ListsMove(m: map<Key, seq<Item>>, n: map<Key, seq<Item>>, a: WorktreeId, b: WorktreeId)
    requires Rekeyed(m, n, Keys(a, b), ItemLists(a, b))
    ensures FreshLists(m, b) ==> FreshLists(n, a)
    ensures ListsAgree(m, a) ==> ListsAgree(n, b)
  {
    forall k
      ensures k in n && FreshLists(m, b) ==> !Mentions(k, a) && FreshItems(n[k], a)
      ensures ListAgrees(m, a, SwapKey(k, a, b)) ==> ListAgrees(n, b, k)
    {
      var j := SwapKey(k, a, b);
      MentionMoves(k, a, b);
      assert RekeyedAt(m, n, Keys(a, b), ItemLists(a, b), j);
      if k in n {
        ItemsMove(m[j], a, b, Mentions(j, a));
      }
    }
  }

  lemma KeysMove<V>(m: map<Key, V>, n: map<Key, V>, a: WorktreeId, b: WorktreeId)
    requires Rekeyed(m, n, Keys(a, b), Same)
    ensures FreshKeys(m, b) ==> FreshKeys(n, a)
  {
    forall k
      ensures k in n && FreshKeys(m, b) ==> !Mentions(k, a)
    {
      MentionMoves(k, a, b);
      assert RekeyedAt(m, n, Keys(a, b), Same, SwapKey(k, a, b));
    }
  }

  lemma PagesMove(s: Session, t: Session, a: WorktreeId, b: WorktreeId)
    requires PagesRenamed(s, t, a, b)
    ensures FreshPages(s, b) ==> FreshPages(t, a)
    ensures PagesAgree(s, a) ==> PagesAgree(t, b)
  {
    forall p | p in s.pages
      ensures FreshItems(s.pages[p], b) ==> FreshItems(t.pages[p], a)
      ensures ItemsAgree(s.pages[p], a, true) ==> ItemsAgree(t.pages[p], b, true)
    {
      ItemsMove(s.pages[p], a, b, true);
    }
    forall p | p in s.sleeping
      ensures Mentions(t.sleeping[p].worktree, a) <==> Mentions(s.sleeping[p].worktree, b)
      ensures t.sleeping[p].worktree == Workspace(Worktree(b)) <==> s.sleeping[p].worktree == Workspace(Worktree(a))
    {
      MentionMoves(s.sleeping[p].worktree, a, b);
    }
  }

  lemma PointersMove(s: Session, t: Session, a: WorktreeId, b: WorktreeId)
    requires PointersRenamed(s, t, a, b)
    ensures FreshPointers(s, b) ==> FreshPointers(t, a)
    ensures PointersAgree(s, a) ==> PointersAgree(t, b)
  {
    forall i | 0 <= i < |s.shutdown|
      ensures Mentions(t.shutdown[i], a) <==> Mentions(s.shutdown[i], b)
      ensures t.shutdown[i] == Workspace(Worktree(b)) <==> s.shutdown[i] == Workspace(Worktree(a))
    {
      MentionMoves(s.shutdown[i], a, b);
    }
    if s.activeWorktree.Some? {
      MentionMoves(s.activeWorktree.value, a, b);
    }
  }

  lemma SessionMoves(s: Session, t: Session, a: WorktreeId, b: WorktreeId)
    requires SessionRenamed(s, t, a, b)
    ensures FreshSession(s, b) ==> FreshSession(t, a)
    ensures SessionAgrees(s, a) ==> SessionAgrees(t, b)
  {
    forall f | f in s.items
      ensures FreshLists(s.items[f], b) ==> FreshLists(t.items[f], a)
      ensures ListsAgree(s.items[f], a) ==> ListsAgree(t.items[f], b)
    {
      ListsMove(s.items[f], t.items[f], a, b);
    }
    forall f | f in s.values
      ensures FreshKeys(s.values[f], b) ==> FreshKeys(t.values[f], a)
    {
      KeysMove(s.values[f], t.values[f], a, b);
    }
    PagesMove(s, t, a, b);
    PointersMove(s, t, a, b);
  }

  lemma HostsMove(hosts: map<string, Session>, renamed: map<string, Session>, a: WorktreeId, b: WorktreeId)
    requires HostsRenamed(hosts, renamed, a, b)
    ensures (forall h :: h in hosts ==> FreshSession(hosts[h], b)) ==> forall h :: h in renamed ==> FreshSession(renamed[h], a)
    ensures HostsAgree(hosts, a) ==> HostsAgree(renamed, b)
  {
    forall h
      ensures h in renamed && FreshSession(hosts[h], b) ==> FreshSession(renamed[h], a)
      ensures HostAgrees(hosts, a, h) ==> HostAgrees(renamed, b, h)
    {
      assert HostRenamed(hosts, renamed, a, b, h);
      if h in hosts {
        SessionMoves(hosts[h], renamed[h], a, b);
      }
    }
  }

  lemma PlainKeyMoves<V>(m: map<WorktreeId, V>, n: map<WorktreeId, V>, a: WorktreeId, b: WorktreeId)
    requires Rekeyed(m, n, Ids(a, b), Same)
    ensures b !in m ==> a !in n
  {
    assert RekeyedAt(m, n, Ids(a, b), Same, b);
  }

  /** Once renamed, the old id is as fresh as the new one was, and what agreed about
      the worktree still does. */
  lemma RenamingMoves(c: Contents, d: Contents, a: WorktreeId, b: WorktreeId)
    requires Renamed(c, d, a, b) && Fresh(c, b) && Agrees(c, a)
    ensures Fresh(d, a) && Agrees(d, b)
  {
    PlainKeyMoves(Data(c.meta), Data(d.meta), a, b);
    PlainKeyMoves(c.dotfiles, d.dotfiles, a, b);
    LineageMoves(c.lineage, d.lineage, a, b);
    WorkspaceLineageMoves(c.workspaceLineage, d.workspaceLineage, a, b);
    SessionMoves(c.local, d.local, a, b);
    HostsMove(c.hosts, d.hosts, a, b);
  }

  // ----------------------------------------------------------- Main results

  // When the old id is free

  ghost predicate FreedWorkspaceLineage(m: map<WorkspaceKey, Lineage<WorkspaceKey>>, a: WorktreeId, k: WorkspaceKey) {
    k in m && m[k].self == Worktree(a) ==> k == Worktree(a)
  }

  ghost predicate WorkspaceLineageFreed(m: map<WorkspaceKey, Lineage<WorkspaceKey>>, a: WorktreeId) {
    forall k :: FreedWorkspaceLineage(m, a, k)
  }

  /** What is said of the worktree is said where it is kept; only a lineage kept under
      its workspace key may call itself anything, since the migration renames it. */
  ghost predicate Freed(c: Contents, a: WorktreeId) {
    && LineageAgrees(c.lineage, a) && WorkspaceLineageFreed(c.workspaceLineage, a)
    && SessionAgrees(c.local, a) && HostsAgree(c.hosts, a)
  }

  ghost predicate FreshLineageAt<K>(m: map<K, Lineage<K>>, x: K, k: K) {
    k in m ==> k != x && m[k].self != x && m[k].parent != x
  }

  lemma AllLineageFresh<K(!new)>(m: map<K, Lineage<K>>, x: K)
    ensures FreshLineage(m, x) <==> forall k :: FreshLineageAt(m, x, k)
  {
    if forall k :: FreshLineageAt(m, x, k) {
      assert FreshLineageAt(m, x, x);
      forall k | k in m ensures m[k].self != x && m[k].parent != x {
        assert FreshLineageAt(m, x, k);
      }
    }
  }

  lemma LineageFreedAt(m: map<WorktreeId, Lineage<WorktreeId>>, a: WorktreeId, b: WorktreeId, k: WorktreeId)
    requires FreshLineage(m, b) && a != b
    ensures FreshLineageAt(MigrateLineage(m, a, b), a, SwapId(k, a, b)) <==> OwnLineage(m, a, k)
  {
    var moved := MoveKey(m, a, b, Same);
    assert k in m <==> SwapId(k, a, b) in moved;
    assert k in m ==> moved[SwapId(k, a, b)] == m[k];
  }

  lemma LineageFreedIff(m: map<WorktreeId, Lineage<WorktreeId>>, a: WorktreeId, b: WorktreeId)
    requires FreshLineage(m, b) && a != b
    ensures FreshLineage(MigrateLineage(m, a, b), a) <==> LineageAgrees(m, a)
  {
    var n := MigrateLineage(m, a, b);
    AllLineageFresh(n, a);
    forall k
      ensures FreshLineageAt(n, a, SwapId(k, a, b)) <==> OwnLineage(m, a, k)
      ensures FreshLineageAt(n, a, k) <==> OwnLineage(m, a, SwapId(k, a, b))
    {
      LineageFreedAt(m, a, b, k);
      LineageFreedAt(m, a, b, SwapId(k, a, b));
      assert SwapId(SwapId(k, a, b), a, b) == k;
    }
  }

  lemma WorkspaceLineageFreedAt(m: map<WorkspaceKey, Lineage<WorkspaceKey>>, a: WorktreeId, b: WorktreeId, k: WorkspaceKey)
    requires FreshLineage(m, Worktree(b)) && a != b
    ensures FreshLineageAt(MigrateWorkspaceLineage(m, a, b), Worktree(a), SwapWorkspace(k, a, b)) <==> FreedWorkspaceLineage(m, a, k)
  {
  }

  lemma WorkspaceLineageFreedIff(m: map<WorkspaceKey, Lineage<WorkspaceKey>>, a: WorktreeId, b: WorktreeId)
    requires FreshLineage(m, Worktree(b)) && a != b
    ensures FreshLineage(MigrateWorkspaceLineage(m, a, b), Worktree(a)) <==> WorkspaceLineageFreed(m, a)
  {
    var n := MigrateWorkspaceLineage(m, a, b);
    AllLineageFresh(n, Worktree(a));
    forall k
      ensures FreshLineageAt(n, Worktree(a), SwapWorkspace(k, a, b)) <==> FreedWorkspaceLineage(m, a, k)
      ensures FreshLineageAt(n, Worktree(a), k) <==> FreedWorkspaceLineage(m, a, SwapWorkspace(k, a, b))
    {
      WorkspaceLineageFreedAt(m, a, b, k);
      WorkspaceLineageFreedAt(m, a, b, SwapWorkspace(k, a, b));
      assert SwapWorkspace(SwapWorkspace(k, a, b), a, b) == k;
    }
  }

  lemma MovedListIsFreshIff(items: seq<Item>, a: WorktreeId, b: WorktreeId, kept: bool)
    requires a != b
    ensures FreshItems(MovedList(items, a, b, kept), a) <==> ItemsAgree(items, a, kept)
  {
    var moved := MovedList(items, a, b, kept);
    forall i | 0 <= i < |items|
      ensures !Mentions(moved[i].worktree, a) <==>
              items[i].worktree != Workspace(Worktree(a)) && (items[i].worktree == Id(a) ==> kept)
    {
    }
  }

  ghost predicate FreshListAt(m: map<Key, seq<Item>>, a: WorktreeId, k: Key) {
    k in m ==> !Mentions(k, a) && FreshItems(m[k], a)
  }

  lemma ListsFreedIff(m: map<Key, seq<Item>>, a: WorktreeId, b: WorktreeId)
    requires FreshKeys(m, b) && a != b
    ensures FreshLists(MoveSessionKey(m, a, b, NewIds(a, b)), a) <==> ListsAgree(m, a)
  {
    var n := MoveSessionKey(m, a, b, NewIds(a, b));
    forall k
      ensures FreshListAt(n, a, SwapKey(k, a, b)) <==> ListAgrees(m, a, k)
    {
      MoveSessionKeyAt(m, a, b, NewIds(a, b), k);
      MentionMoves(k, a, b);
      if k in m {
        assert n[SwapKey(k, a, b)] == MovedList(m[k], a, b, Mentions(k, a));
        MovedListIsFreshIff(m[k], a, b, Mentions(k, a));
      }
    }
    forall k
      ensures ListAgrees(m, a, SwapKey(k, a, b)) <==> FreshListAt(n, a, k)
    {
      MentionMoves(k, a, b);
      assert FreshListAt(n, a, SwapKey(SwapKey(k, a, b), a, b)) <==> ListAgrees(m, a, SwapKey(k, a, b));
    }
    AllListsFresh(n, a);
  }

  lemma AllListsFresh(m: map<Key, seq<Item>>, a: WorktreeId)
    ensures FreshLists(m, a) <==> forall k :: FreshListAt(m, a, k)
  {
    if FreshLists(m, a) {
      forall k ensures FreshListAt(m, a, k) {}
    } else if forall k :: FreshListAt(m, a, k) {
      forall k | k in m ensures !Mentions(k, a) && FreshItems(m[k], a) {
        assert FreshListAt(m, a, k);
      }
    }
  }

  lemma ValuesAreFreed<V>(m: map<Key, V>, a: WorktreeId, b: WorktreeId)
    requires FreshKeys(m, b) && a != b
    ensures FreshKeys(MoveSessionKey(m, a, b, Same), a)
  {
  }

  lemma PagesFreedIff(s: Session, a: WorktreeId, b: WorktreeId)
    requires a != b
    ensures FreshPages(MigrateSession(s, a, b), a) <==> PagesAgree(s, a)
  {
    var t := MigrateSession(s, a, b);
    forall p | p in s.pages
      ensures FreshItems(t.pages[p], a) <==> ItemsAgree(s.pages[p], a, true)
    {
      MovedListIsFreshIff(s.pages[p], a, b, true);
    }
    forall p | p in s.sleeping
      ensures !Mentions(t.sleeping[p].worktree, a) <==> s.sleeping[p].worktree != Workspace(Worktree(a))
    {
    }
  }

  lemma PointersFreedIff(s: Session, a: WorktreeId, b: WorktreeId)
    requires a != b
    ensures FreshPointers(MigrateSession(s, a, b), a) <==> PointersAgree(s, a)
  {
    var t := MigrateSession(s, a, b);
    forall i | 0 <= i < |s.shutdown|
      ensures !Mentions(t.shutdown[i], a) <==> s.shutdown[i] != Workspace(Worktree(a))
    {
    }
    assert t.activeWorkspace != Some(Worktree(a));
    assert (t.activeWorktree.Some? ==> !Mentions(t.activeWorktree.value, a)) <==> s.activeWorktree != Some(Workspace(Worktree(a)));
    assert |t.shutdown| == |s.shutdown|;
  }

  lemma ItemFieldsFreedIff(s: Session, a: WorktreeId, b: WorktreeId)
    requires FreshSession(s, b) && a != b
    ensures var t := MigrateSession(s, a, b);
            (forall f :: f in t.items ==> FreshLists(t.items[f], a)) <==> forall f :: f in s.items ==> ListsAgree(s.items[f], a)
  {
    var t := MigrateSession(s, a, b);
    forall f | f in s.items
      ensures FreshLists(t.items[f], a) <==> ListsAgree(s.items[f], a)
    {
      ListsFreedIff(s.items[f], a, b);
    }
    assert t.items.Keys == s.items.Keys;
  }

  lemma ValueFieldsAreFreed(s: Session, a: WorktreeId, b: WorktreeId)
    requires FreshSession(s, b) && a != b
    ensures forall f :: f in MigrateSession(s, a, b).values ==> FreshKeys(MigrateSession(s, a, b).values[f], a)
  {
    forall f | f in s.values
      ensures FreshKeys(MoveSessionKey(s.values[f], a, b, Same), a)
    {
      ValuesAreFreed(s.values[f], a, b);
    }
  }

  lemma SessionFreedIff(s: Session, a: WorktreeId, b: WorktreeId)
    requires FreshSession(s, b) && a != b
    ensures FreshSession(MigrateSession(s, a, b), a) <==> SessionAgrees(s, a)
  {
    ItemFieldsFreedIff(s, a, b);
    ValueFieldsAreFreed(s, a, b);
    PagesFreedIff(s, a, b);
    PointersFreedIff(s, a, b);
  }

  lemma HostsFreedIff(hosts: map<string, Session>, a: WorktreeId, b: WorktreeId)
    requires a != b && forall h :: h in hosts ==> FreshSession(hosts[h], b)
    ensures (forall h :: h in MigrateHosts(hosts, a, b) ==> FreshSession(MigrateHosts(hosts, a, b)[h], a)) <==> HostsAgree(hosts, a)
  {
    hide FreshSession, SessionAgrees, MigrateSession;
    var migrated := MigrateHosts(hosts, a, b);
    forall h | h in hosts
      ensures FreshSession(migrated[h], a) <==> HostAgrees(hosts, a, h)
    {
      SessionFreedIff(hosts[h], a, b);
    }
    assert migrated.Keys == hosts.Keys;
  }

  /** With a fresh new id, after the migration nothing but the lists of prior ids
      mentions the old id, exactly when what is said of the worktree is said where it
      is kept. */
  lemma MigrationFreesOldIdIff(c: Contents, a: WorktreeId, b: WorktreeId)
    requires Fresh(c, b) && a != b
    ensures Fresh(Migrate(c, a, b), a) <==> Freed(c, a)
  {
    LineageFreedIff(c.lineage, a, b);
    WorkspaceLineageFreedIff(c.workspaceLineage, a, b);
    SessionFreedIff(c.local, a, b);
    HostsFreedIff(c.hosts, a, b);
  }

  /** A case where it is not: a tab that names the worktree, but is kept under another,
      still names it by the old id afterwards. */
  lemma StrayItemKeepsOldId(c: Contents, a: WorktreeId, b: WorktreeId, f: ItemField, k: Key, i: nat)
    requires Fresh(c, b) && a != b
    requires f in c.local.items && k in c.local.items[f] && !Mentions(k, a)
    requires i < |c.local.items[f][k]| && c.local.items[f][k][i].worktree == Id(a)
    ensures !Fresh(Migrate(c, a, b), a)
  {
    var m := c.local.items[f];
    MoveSessionKeyAt(m, a, b, NewIds(a, b), k);
    assert FreshLists(m, b) && !Mentions(k, b);
    assert SwapKey(k, a, b) == k;
    var n := Migrate(c, a, b).local.items[f];
    assert n[k] == m[k] && !FreshItems(n[k], a);
  }

  /** Migrating back restores everything but the lists of prior ids. */
  lemma MigrationIsUndone(c: Contents, a: WorktreeId, b: WorktreeId)
    requires Fresh(c, b) && Agrees(c, a) && a != b
    ensures var back := Migrate(Migrate(c, a, b), b, a);
            Data(back.meta) == Data(c.meta) && back == c.(meta := back.meta)
  {
    var d := Migrate(c, a, b);
    MigrationIsRenamingIff(c, a, b);
    RenamingMoves(c, d, a, b);
    MigrationIsRenamingIff(d, b, a);
    RenamedTwice(c, d, Migrate(d, b, a), a, b);
  }

  /** Whatever the two ids, records kept under other ids stay; of a lineage only the
      parent can change, and only from the old id to the new one. */
  lemma OtherRecordsStay(c: Contents, a: WorktreeId, b: WorktreeId, k: WorktreeId)
    requires k != a && k != b
    ensures var d := Migrate(c, a, b);
            && (k in d.meta <==> k in c.meta) && (k in c.meta ==> d.meta[k] == c.meta[k])
            && (k in d.dotfiles <==> k in c.dotfiles) && (k in c.dotfiles ==> d.dotfiles[k] == c.dotfiles[k])
            && (k in d.lineage <==> k in c.lineage)
            && (k in c.lineage ==> d.lineage[k] == c.lineage[k].(parent := Replace(c.lineage[k].parent, a, b)))
  {
    if a != b {
      OtherLineageStays(c.lineage, a, b, k);
    }
  }

  lemma OtherLineageStays(m: map<WorktreeId, Lineage<WorktreeId>>, a: WorktreeId, b: WorktreeId, k: WorktreeId)
    requires a != b && k != a && k != b
    ensures k in MigrateLineage(m, a, b) <==> k in m
    ensures k in m ==> MigrateLineage(m, a, b)[k] == m[k].(parent := Replace(m[k].parent, a, b))
  {
    var moved := MoveKey(m, a, b, Same);
    assert k in moved <==> k in m;
    assert k in moved ==> FixMoved(moved, a, b)[k] == m[k];
  }

  lemma OtherKeyStays<V>(m: map<Key, V>, a: WorktreeId, b: WorktreeId, f: V -> V, key: Key)
    requires a != b && !Mentions(key, a) && !Mentions(key, b)
    ensures key in MoveSessionKey(m, a, b, f) <==> key in m
    ensures key in m ==> MoveSessionKey(m, a, b, f)[key] == m[key]
  {
  }

  /** And so do a session's records under other keys. */
  lemma OtherSessionRecordsStay(s: Session, a: WorktreeId, b: WorktreeId, key: Key, f: ItemField, v: ValueField)
    requires a != b && !Mentions(key, a) && !Mentions(key, b)
    ensures var t := MigrateSession(s, a, b);
            && t.items.Keys == s.items.Keys && t.values.Keys == s.values.Keys
            && (f in s.items ==> (key in t.items[f] <==> key in s.items[f]) && (key in s.items[f] ==> t.items[f][key] == s.items[f][key]))
            && (v in s.values ==> (key in t.values[v] <==> key in s.values[v]) && (key in s.values[v] ==> t.values[v][key] == s.values[v][key]))
  {
    if f in s.items {
      OtherKeyStays(s.items[f], a, b, NewIds(a, b), key);
    }
    if v in s.values {
      OtherKeyStays(s.values[v], a, b, Same, key);
    }
  }

  /** Whatever stood under the new id, its metadata is that of the old id if there was
      any, and records the old id among the prior ones, once; nothing is kept under the
      old id, and other worktrees' metadata stays. */
  lemma PriorIdsAreRecorded(c: Contents, a: WorktreeId, b: WorktreeId)
    requires a != b
    ensures var meta := Migrate(c, a, b).meta;
            && meta.Keys == (if a in c.meta then c.meta.Keys - {a} + {b} else c.meta.Keys)
            && (forall k :: k in meta && k != b ==> meta[k] == c.meta[k])
            && (b in meta ==>
                  var kept := if a in c.meta then c.meta[a] else c.meta[b];
                  meta[b] == kept.(prior := if a in kept.prior then kept.prior else kept.prior + [a]))
  {
  }

  // Who was created from whom

  /** Each node of the path is the parent of the one before. */
  ghost predicate Ancestry<K(!new)>(m: map<K, Lineage<K>>, path: seq<K>) {
    forall i :: 0 <= i < |path| - 1 ==> path[i] in m && m[path[i]].parent == path[i + 1]
  }

  ghost predicate HasCycle<K(!new)>(m: map<K, Lineage<K>>) {
    exists path :: |path| > 1 && Ancestry(m, path) && path[0] == path[|path| - 1]
  }

  lemma CycleMoves<K(!new)>(m: map<K, Lineage<K>>, n: map<K, Lineage<K>>, sw: K -> K)
    requires Rekeyed(m, n, sw, Lineages(sw)) && HasCycle(m)
    ensures HasCycle(n)
  {
    var path :| |path| > 1 && Ancestry(m, path) && path[0] == path[|path| - 1];
    var moved := seq(|path|, i requires 0 <= i < |path| => sw(path[i]));
    forall i | 0 <= i < |moved| - 1
      ensures moved[i] in n && n[moved[i]].parent == moved[i + 1]
    {
      assert RekeyedAt(m, n, sw, Lineages(sw), path[i]);
    }
    assert Ancestry(n, moved) && moved[0] == moved[|moved| - 1];
  }

  /** Migrating neither closes a cycle of ancestors nor opens one. */
  lemma MigrationKeepsAncestry(c: Contents, a: WorktreeId, b: WorktreeId)
    requires Fresh(c, b) && Agrees(c, a) && a != b
    ensures HasCycle(Migrate(c, a, b).lineage) <==> HasCycle(c.lineage)
    ensures HasCycle(Migrate(c, a, b).workspaceLineage) <==> HasCycle(c.workspaceLineage)
  {
    var d := Migrate(c, a, b);
    MigrationIsRenamingIff(c, a, b);
    RenamingMoves(c, d, a, b);
    MigrationIsRenamingIff(d, b, a);
    MigrationIsUndone(c, a, b);
    if HasCycle(c.lineage) { CycleMoves(c.lineage, d.lineage, Ids(a, b)); }
    if HasCycle(d.lineage) { CycleMoves(d.lineage, c.lineage, Ids(b, a)); }
    if HasCycle(c.workspaceLineage) { CycleMoves(c.workspaceLineage, d.workspaceLineage, Workspaces(a, b)); }
    if HasCycle(d.workspaceLineage) { CycleMoves(d.workspaceLineage, c.workspaceLineage, Workspaces(b, a)); }
  }
}
