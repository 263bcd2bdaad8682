/**
  The program of the identity migration: the Store's records, changed in place.
 */
module MigrationStore {
  import opened Wrappers
  import opened IdentityMigration

  predicate SomeItem(items: seq<Item>, a: WorktreeId) {
    exists i :: 0 <= i < |items| && items[i].worktree == Id(a)
  }

  lemma NewIdsChangeIff(items: seq<Item>, a: WorktreeId, b: WorktreeId)
    requires a != b
    ensures AllWithNewId(items, a, b) != items <==> SomeItem(items, a)
  {
    if i :| 0 <= i < |items| && items[i].worktree == Id(a) {
      assert AllWithNewId(items, a, b)[i] != items[i];
    } else {
      assert AllWithNewId(items, a, b) == items;
    }
  }

  /** `moveKey` */
  method MoveRecord<K(==), V>(record: map<K, V>, from: K, to: K, f: V -> V) returns (moved: map<K, V>, changed: bool)
    requires from != to
    ensures moved == MoveKey(record, from, to, f) && (changed <==> moved != record)
  {
    if from !in record {
      return record, false;
    }
    moved := record[to := f(record[from])];
    moved := moved - {from};
    assert from in record && from !in moved;
    changed := true;
  }

  /** `moveSessionKey` */
  method MoveSessionRecord<V>(record: map<Key, V>, a: WorktreeId, b: WorktreeId, f: V -> V) returns (moved: map<Key, V>, changed: bool)
    requires a != b
    ensures moved == MoveSessionKey(record, a, b, f) && (changed <==> moved != record)
  {
    var byId, movedId := MoveRecord(record, Id(a), Id(b), f);
    var movedKey;
    moved, movedKey := MoveRecord(byId, Workspace(Worktree(a)), Workspace(Worktree(b)), f);
    changed := movedId || movedKey;
    assert movedId ==> Id(a) in record && Id(a) !in moved;
  }

  method MigrateItemFields(s: Session, a: WorktreeId, b: WorktreeId) returns (items: map<ItemField, map<Key, seq<Item>>>, changed: bool)
    requires a != b
    ensures items == MigrateSession(s, a, b).items && (changed <==> items != s.items)
  {
    items, changed := s.items, false;
    var rest := s.items.Keys;
    while rest != {}
      invariant items.Keys == s.items.Keys && rest <= s.items.Keys
      invariant forall f :: f in s.items ==>
        items[f] == if f in rest then s.items[f] else MoveSessionKey(s.items[f], a, b, NewIds(a, b))
      invariant changed <==> items != s.items
      decreases rest
    {
      var f :| f in rest;
      rest := rest - {f};
      var moved, movedAny := MoveSessionRecord(items[f], a, b, NewIds(a, b));
      items := items[f := moved];
      changed := movedAny || changed;
    }
  }

  method MigrateValueFields(s: Session, a: WorktreeId, b: WorktreeId) returns (values: map<ValueField, map<Key, string>>, changed: bool)
    requires a != b
    ensures values == MigrateSession(s, a, b).values && (changed <==> values != s.values)
  {
    values, changed := s.values, false;
    var rest := s.values.Keys;
    while rest != {}
      invariant values.Keys == s.values.Keys && rest <= s.values.Keys
      invariant forall f :: f in s.values ==>
        values[f] == if f in rest then s.values[f] else MoveSessionKey(s.values[f], a, b, Same)
      invariant changed <==> values != s.values
      decreases rest
    {
      var f :| f in rest;
      rest := rest - {f};
      var moved, movedAny := MoveSessionRecord(values[f], a, b, Same);
      values := values[f := moved];
      changed := movedAny || changed;
    }
  }

  method MigratePages(s: Session, a: WorktreeId, b: WorktreeId) returns (pages: map<string, seq<Item>>, changed: bool)
    requires a != b
    ensures pages == MigrateSession(s, a, b).pages && (changed <==> pages != s.pages)
  {
    pages, changed := s.pages, false;
    var rest := s.pages.Keys;
    while rest != {}
      invariant pages.Keys == s.pages.Keys && rest <= s.pages.Keys
      invariant forall p :: p in s.pages ==>
        pages[p] == if p in rest then s.pages[p] else AllWithNewId(s.pages[p], a, b)
      invariant changed <==> pages != s.pages
      decreases rest
    {
      var p :| p in rest;
      rest := rest - {p};
      NewIdsChangeIff(pages[p], a, b);
      if !SomeItem(pages[p], a) {
        continue;
      }
      pages := pages[p := AllWithNewId(pages[p], a, b)];
      changed := true;
    }
  }

  method MigrateSleeping(s: Session, a: WorktreeId, b: WorktreeId) returns (sleeping: map<string, Item>, changed: bool)
    requires a != b
    ensures sleeping == MigrateSession(s, a, b).sleeping && (changed <==> sleeping != s.sleeping)
  {
    sleeping, changed := s.sleeping, false;
    var rest := s.sleeping.Keys;
    while rest != {}
      invariant sleeping.Keys == s.sleeping.Keys && rest <= s.sleeping.Keys
      invariant forall p :: p in s.sleeping ==>
        sleeping[p] == if p in rest then s.sleeping[p] else WithNewId(s.sleeping[p], a, b)
      invariant changed <==> sleeping != s.sleeping
      decreases rest
    {
      var p :| p in rest;
      rest := rest - {p};
      if sleeping[p].worktree != Id(a) {
        continue;
      }
      sleeping := sleeping[p := sleeping[p].(worktree := Id(b))];
      changed := true;
    }
  }

  /** `migrateSession` */
  method MigrateOneSession(s: Session, a: WorktreeId, b: WorktreeId) returns (t: Session, changed: bool)
    requires a != b
    ensures t == MigrateSession(s, a, b) && (changed <==> t != s)
  {
    var items, itemsChanged := MigrateItemFields(s, a, b);
    var values, valuesChanged := MigrateValueFields(s, a, b);
    var pages, pagesChanged := MigratePages(s, a, b);
    var shutdown := s.shutdown;
    if Id(a) in shutdown {
      shutdown := seq(|s.shutdown|, i requires 0 <= i < |s.shutdown| => Replace(s.shutdown[i], Id(a), Id(b)));
      assert Id(a) !in shutdown;
    }
    assert shutdown == MigrateSession(s, a, b).shutdown;
    var activeWorktree := s.activeWorktree;
    if activeWorktree == Some(Id(a)) {
      activeWorktree := Some(Id(b));
    }
    var activeWorkspace := s.activeWorkspace;
    if activeWorkspace == Some(Worktree(a)) {
      activeWorkspace := Some(Worktree(b));
    }
    var sleeping, sleepingChanged := MigrateSleeping(s, a, b);
    t := Session(items, values, pages, shutdown, activeWorktree, activeWorkspace, sleeping);
    changed := itemsChanged || valuesChanged || pagesChanged || sleepingChanged ||
      shutdown != s.shutdown || activeWorktree != s.activeWorktree || activeWorkspace != s.activeWorkspace;
  }

  method MigrateHostSessions(hosts: map<string, Session>, a: WorktreeId, b: WorktreeId) returns (migrated: map<string, Session>, changed: bool)
    requires a != b
    ensures migrated == MigrateHosts(hosts, a, b) && (changed <==> migrated != hosts)
  {
    hide MigrateSession;
    migrated, changed := hosts, false;
    var rest := hosts.Keys;
    while rest != {}
      invariant migrated.Keys == hosts.Keys && rest <= hosts.Keys
      invariant forall h :: h in hosts ==> migrated[h] == if h in rest then hosts[h] else MigrateSession(hosts[h], a, b)
      invariant changed <==> migrated != hosts
      decreases rest
    {
      var h :| h in rest;
      rest := rest - {h};
      var session, sessionChanged := MigrateOneSession(migrated[h], a, b);
      migrated := migrated[h := session];
      changed := sessionChanged || changed;
    }
  }

  method UpdateParents<K(==)>(m: map<K, Lineage<K>>, from: K, to: K) returns (updated: map<K, Lineage<K>>, changed: bool)
    requires from != to
    ensures updated == WithNewParents(m, from, to) && (changed <==> updated != m)
  {
    updated, changed := m, false;
    var rest := m.Keys;
    while rest != {}
      invariant updated.Keys == m.Keys && rest <= m.Keys
      invariant forall k :: k in m ==>
        updated[k] == if k in rest then m[k] else m[k].(parent := Replace(m[k].parent, from, to))
      invariant changed <==> updated != m
      decreases rest
    {
      var k :| k in rest;
      rest := rest - {k};
      if updated[k].parent == from {
        updated := updated[k := updated[k].(parent := to)];
        changed := true;
      }
    }
  }

  /** A lineage already kept under the new id that still calls itself by the old one is
      put right, but that alone schedules no save. */
  function Unsaved(m: map<WorktreeId, Lineage<WorktreeId>>, a: WorktreeId, b: WorktreeId): map<WorktreeId, Lineage<WorktreeId>> {
    if a in m then m else FixMoved(m, a, b)
  }

  /** The record moves, and the new one remembers the old id. */
  method MigrateMeta(meta: map<WorktreeId, Meta>, a: WorktreeId, b: WorktreeId) returns (migrated: map<WorktreeId, Meta>, changed: bool)
    requires a != b
    ensures migrated == AddPrior(MoveKey(meta, a, b, Same), a, b) && (changed <==> migrated != meta)
  {
    migrated, changed := MoveRecord(meta, a, b, Same);
    if b in migrated && a !in migrated[b].prior {
      migrated := migrated[b := migrated[b].(prior := migrated[b].prior + [a])];
      changed := true;
    }
    assert a in meta ==> a !in migrated;
  }

  method MigrateWorktreeLineage(m: map<WorktreeId, Lineage<WorktreeId>>, a: WorktreeId, b: WorktreeId)
    returns (migrated: map<WorktreeId, Lineage<WorktreeId>>, changed: bool)
    requires a != b
    ensures migrated == MigrateLineage(m, a, b)
    ensures changed <==> migrated != Unsaved(m, a, b)
  {
    var moved, parentsChanged;
    migrated, moved := MoveRecord(m, a, b, Same);
    if b in migrated && migrated[b].self == a {
      migrated := migrated[b := migrated[b].(self := b)];
    }
    migrated, parentsChanged := UpdateParents(migrated, a, b);
    changed := moved || parentsChanged;
    assert a in m ==> a !in migrated;
  }

  method MigrateChildLineage(m: map<WorkspaceKey, Lineage<WorkspaceKey>>, a: WorktreeId, b: WorktreeId)
    returns (migrated: map<WorkspaceKey, Lineage<WorkspaceKey>>, changed: bool)
    requires a != b
    ensures migrated == MigrateWorkspaceLineage(m, a, b) && (changed <==> migrated != m)
  {
    var moved, parentsChanged;
    migrated, moved := MoveRecord(m, Worktree(a), Worktree(b), (l: Lineage<WorkspaceKey>) => l.(self := Worktree(b)));
    migrated, parentsChanged := UpdateParents(migrated, Worktree(a), Worktree(b));
    changed := moved || parentsChanged;
    assert Worktree(a) in m ==> Worktree(a) !in migrated;
  }

  // ------------------------------------------------- When a save is scheduled

  ghost predicate NoKey<V>(m: map<Key, V>, a: WorktreeId) {
    Id(a) !in m && Workspace(Worktree(a)) !in m
  }

  /** Nothing in the session is kept under the old id or named by it. */
  ghost predicate SessionQuiet(s: Session, a: WorktreeId) {
    && (forall f :: f in s.items ==> NoKey(s.items[f], a)) && (forall f :: f in s.values ==> NoKey(s.values[f], a))
    && (forall p :: p in s.pages ==> !SomeItem(s.pages[p], a))
    && (forall p :: p in s.sleeping ==> s.sleeping[p].worktree != Id(a))
    && Id(a) !in s.shutdown && s.activeWorktree != Some(Id(a)) && s.activeWorkspace != Some(Worktree(a))
  }

  ghost predicate NoParent<K(!new)>(m: map<K, Lineage<K>>, k: K) {
    forall j :: j in m ==> m[j].parent != k
  }

  /** Nothing is kept under the old id, and nothing that the migration looks at names
      it, but for a lineage under the new id that calls itself by the old one. */
  ghost predicate OtherwiseQuiet(c: Contents, a: WorktreeId, b: WorktreeId) {
    && a !in c.meta && (b in c.meta ==> a in c.meta[b].prior)
    && a !in c.lineage && NoParent(c.lineage, a)
    && Worktree(a) !in c.workspaceLineage && NoParent(c.workspaceLineage, Worktree(a))
    && SessionQuiet(c.local, a) && (forall h :: h in c.hosts ==> SessionQuiet(c.hosts[h], a))
    && a !in c.dotfiles
  }

  ghost predicate SchedulesSave(c: Contents, a: WorktreeId, b: WorktreeId) {
    a != b && !OtherwiseQuiet(c, a, b)
  }

  lemma MovedKeyUnchangedIff<V>(m: map<Key, V>, a: WorktreeId, b: WorktreeId, f: V -> V)
    requires a != b
    ensures MoveSessionKey(m, a, b, f) == m <==> NoKey(m, a)
  {
    var n := MoveSessionKey(m, a, b, f);
    assert Id(a) !in n && Workspace(Worktree(a)) !in n;
  }

  lemma FieldsUnchangedIff(s: Session, a: WorktreeId, b: WorktreeId)
    requires a != b
    ensures MigrateSession(s, a, b).items == s.items <==> forall f :: f in s.items ==> NoKey(s.items[f], a)
    ensures MigrateSession(s, a, b).values == s.values <==> forall f :: f in s.values ==> NoKey(s.values[f], a)
  {
    var t := MigrateSession(s, a, b);
    forall f | f in s.items ensures t.items[f] == s.items[f] <==> NoKey(s.items[f], a) {
      MovedKeyUnchangedIff(s.items[f], a, b, NewIds(a, b));
    }
    forall f | f in s.values ensures t.values[f] == s.values[f] <==> NoKey(s.values[f], a) {
      MovedKeyUnchangedIff(s.values[f], a, b, Same);
    }
  }

  lemma PagesUnchangedIff(s: Session, a: WorktreeId, b: WorktreeId)
    requires a != b
    ensures MigrateSession(s, a, b).pages == s.pages <==> forall p :: p in s.pages ==> !SomeItem(s.pages[p], a)
    ensures MigrateSession(s, a, b).sleeping == s.sleeping <==> forall p :: p in s.sleeping ==> s.sleeping[p].worktree != Id(a)
  {
    var t := MigrateSession(s, a, b);
    forall p | p in s.pages ensures t.pages[p] == s.pages[p] <==> !SomeItem(s.pages[p], a) {
      NewIdsChangeIff(s.pages[p], a, b);
    }
    forall p | p in s.sleeping ensures t.sleeping[p] == s.sleeping[p] <==> s.sleeping[p].worktree != Id(a) {
    }
  }

  lemma ShutdownUnchangedIff(s: Session, a: WorktreeId, b: WorktreeId)
    requires a != b
    ensures MigrateSession(s, a, b).shutdown == s.shutdown <==> Id(a) !in s.shutdown
  {
    var t := MigrateSession(s, a, b);
    if i :| 0 <= i < |s.shutdown| && s.shutdown[i] == Id(a) {
      assert t.shutdown[i] == Id(b);
    } else {
      assert t.shutdown == s.shutdown;
    }
  }

  lemma SessionUnchangedIff(s: Session, a: WorktreeId, b: WorktreeId)
    requires a != b
    ensures MigrateSession(s, a, b) == s <==> SessionQuiet(s, a)
  {
    FieldsUnchangedIff(s, a, b);
    PagesUnchangedIff(s, a, b);
    ShutdownUnchangedIff(s, a, b);
  }

  lemma HostsUnchangedIff(hosts: map<string, Session>, a: WorktreeId, b: WorktreeId)
    requires a != b
    ensures MigrateHosts(hosts, a, b) == hosts <==> forall h :: h in hosts ==> SessionQuiet(hosts[h], a)
  {
    var migrated := MigrateHosts(hosts, a, b);
    forall h | h in hosts ensures migrated[h] == hosts[h] <==> SessionQuiet(hosts[h], a) {
      SessionUnchangedIff(hosts[h], a, b);
    }
  }

  lemma ParentsUnchangedIff<K(!new)>(m: map<K, Lineage<K>>, from: K, to: K)
    requires from != to
    ensures WithNewParents(m, from, to) == m <==> NoParent(m, from)
  {
    var n := WithNewParents(m, from, to);
    forall k | k in m ensures n[k] == m[k] <==> m[k].parent != from {
    }
  }

  lemma LineageUnchangedIff(m: map<WorktreeId, Lineage<WorktreeId>>, a: WorktreeId, b: WorktreeId)
    requires a != b
    ensures MigrateLineage(m, a, b) == Unsaved(m, a, b) <==> a !in m && NoParent(m, a)
  {
    var moved := FixMoved(MoveKey(m, a, b, Same), a, b);
    assert a !in moved;
    ParentsUnchangedIff(moved, a, b);
    if a !in m {
      assert moved == FixMoved(m, a, b);
      assert forall k :: k in m <==> k in moved;
      assert forall k :: k in m ==> moved[k].parent == m[k].parent;
    }
  }

  lemma ChildLineageUnchangedIff(m: map<WorkspaceKey, Lineage<WorkspaceKey>>, a: WorktreeId, b: WorktreeId)
    requires a != b
    ensures MigrateWorkspaceLineage(m, a, b) == m <==> Worktree(a) !in m && NoParent(m, Worktree(a))
  {
    if Worktree(a) in m {
      assert Worktree(a) !in MigrateWorkspaceLineage(m, a, b);
    } else {
      ParentsUnchangedIff(m, Worktree(a), Worktree(b));
    }
  }

  /** The migration leaves everything but a stray lineage alone exactly when nothing
      else is there for it to change. */
  lemma UnchangedButStrayIff(c: Contents, a: WorktreeId, b: WorktreeId)
    requires a != b
    ensures Migrate(c, a, b) == c.(lineage := Unsaved(c.lineage, a, b)) <==> OtherwiseQuiet(c, a, b)
  {
    var meta := Migrate(c, a, b).meta;
    assert a !in meta;
    LineageUnchangedIff(c.lineage, a, b);
    ChildLineageUnchangedIff(c.workspaceLineage, a, b);
    SessionUnchangedIff(c.local, a, b);
    HostsUnchangedIff(c.hosts, a, b);
    assert a !in MoveKey(c.dotfiles, a, b, Same);
  }

  /** The migration changes something and schedules no save exactly when a lineage kept
      under the new id calls itself by the old one, none is kept under the old one, and
      there is nothing else to change. */
  lemma SaveIsLostIff(c: Contents, a: WorktreeId, b: WorktreeId)
    requires a != b
    ensures Migrate(c, a, b) != c && !SchedulesSave(c, a, b) <==>
            b in c.lineage && c.lineage[b].self == a && OtherwiseQuiet(c, a, b)
  {
    UnchangedButStrayIff(c, a, b);
    if b in c.lineage && c.lineage[b].self == a && a !in c.lineage {
      assert Unsaved(c.lineage, a, b)[b].self == b;
    }
  }

  /** An id that stays the same changes nothing, and saves nothing. */
  lemma SameIdIsNoMigration(c: Contents, a: WorktreeId)
    ensures Migrate(c, a, a) == c && !SchedulesSave(c, a, a)
  {
  }

  class Store {
    var worktreeMeta: map<WorktreeId, Meta>
    var worktreeLineageById: map<WorktreeId, Lineage<WorktreeId>>
    var workspaceLineageByChildKey: map<WorkspaceKey, Lineage<WorkspaceKey>>
    var workspaceSession: Session
    var workspaceSessionsByHostId: map<string, Session>
    var showDotfilesByWorktree: map<WorktreeId, bool>
    var saveScheduled: bool

    function View(): Contents
      reads this
    {
      Contents(worktreeMeta, worktreeLineageById, workspaceLineageByChildKey,
               workspaceSession, workspaceSessionsByHostId, showDotfilesByWorktree)
    }

    method MoveRecords(a: WorktreeId, b: WorktreeId) returns (changed: bool)
      requires a != b
      modifies this
      ensures View() == Migrate(old(View()), a, b) && saveScheduled == old(saveScheduled)
      ensures changed <==> View() != old(View()).(lineage := Unsaved(old(worktreeLineageById), a, b))
    {
      hide MigrateLineage, MigrateWorkspaceLineage, MigrateSession, MigrateHosts, MoveKey, AddPrior, Unsaved;
      var lineageChanged, workspaceChanged, localChanged, hostsChanged, dotfilesChanged;
      worktreeMeta, changed := MigrateMeta(worktreeMeta, a, b);
      worktreeLineageById, lineageChanged := MigrateWorktreeLineage(worktreeLineageById, a, b);
      workspaceLineageByChildKey, workspaceChanged := MigrateChildLineage(workspaceLineageByChildKey, a, b);
      workspaceSession, localChanged := MigrateOneSession(workspaceSession, a, b);
      workspaceSessionsByHostId, hostsChanged := MigrateHostSessions(workspaceSessionsByHostId, a, b);
      showDotfilesByWorktree, dotfilesChanged := MoveRecord(showDotfilesByWorktree, a, b, Same);
      changed := changed || lineageChanged || workspaceChanged || localChanged || hostsChanged || dotfilesChanged;
    }

    /** The records under the old id move, and a save is scheduled exactly when there is
        more to change than a stray lineage. */
    method MigrateWorktreeIdentity(a: WorktreeId, b: WorktreeId)
      modifies this
      ensures View() == Migrate(old(View()), a, b)
      ensures old(saveScheduled) ==> saveScheduled
      ensures !old(saveScheduled) ==> (saveScheduled <==> SchedulesSave(old(View()), a, b))
    {
      if a == b {
        return;
      }
      UnchangedButStrayIff(View(), a, b);
      var changed := MoveRecords(a, b);
      if changed {
        saveScheduled := true;
      }
    }
  }

  /** So a migration can change the records and leave the change unsaved. */
  lemma ChangeCanStayUnsaved(c: Contents, a: WorktreeId, b: WorktreeId)
    requires a != b && Migrate(c, a, b) == c
    requires b !in c.lineage
    ensures var stray := c.(lineage := c.lineage[b := Lineage(a, b, "")]);
            Migrate(stray, a, b) != stray && Migrate(stray, a, b) == stray.(lineage := Unsaved(stray.lineage, a, b))
  {
    assert a !in c.lineage by {
      assert Migrate(c, a, b).lineage == c.lineage;
    }
    var m := c.lineage[b := Lineage(a, b, "")];
    assert MigrateLineage(m, a, b)[b] == Lineage(b, b, "");
    forall k | k in c.lineage
      ensures MigrateLineage(m, a, b)[k] == m[k]
    {
      assert MigrateLineage(c.lineage, a, b)[k] == c.lineage[k];
    }
    assert MigrateLineage(m, a, b) == Unsaved(m, a, b);
  }
}
