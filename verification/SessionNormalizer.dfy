/**
  Normalising a whole session: every tab's layout, the index from a PTY to the one
  leaf it is bound to, and the leaf ids held by SSH leases and acknowledgements.

  `order` is the order in which JavaScript enumerates the tabs; the results hold
  for every order.
 */
module SessionNormalizer {
  import opened Wrappers
  import opened Sequences
  import opened PtyIds
  import opened PaneLayout
  import opened LayoutNormalizer

  type TabId = string

  // -------------------------------------------------------------- PTY index

  predicate BoundAt<V(==)>(bindings: map<LeafId, V>, leaf: LeafId, value: V) {
    leaf in bindings && bindings[leaf] == value
  }

  /** `leaf` is the only leaf bound to `pty`. */
  ghost predicate BoundOnlyAt(bindings: map<LeafId, PtyId>, leaf: LeafId, pty: PtyId) {
    BoundAt(bindings, leaf, pty) && forall other :: BoundAt(bindings, other, pty) ==> other == leaf
  }

  ghost function PtyIndex(bindings: map<LeafId, PtyId>): map<PtyId, LeafId> {
    map pty | pty in bindings.Values && exists leaf :: BoundOnlyAt(bindings, leaf, pty) ::
      var leaf :| BoundOnlyAt(bindings, leaf, pty); leaf
  }

  lemma PtyIndexIsExact(bindings: map<LeafId, PtyId>, pty: PtyId, leaf: LeafId)
    ensures pty in PtyIndex(bindings) && PtyIndex(bindings)[pty] == leaf <==> BoundOnlyAt(bindings, leaf, pty)
  {
    if BoundOnlyAt(bindings, leaf, pty) {
      assert bindings[leaf] in bindings.Values;
    }
  }

  /** The program's insert, delete and remember-duplicates loop, in any order. */
  method IndexPtys(bindings: map<LeafId, PtyId>) returns (leafIdByPtyId: map<PtyId, LeafId>)
    ensures forall pty, leaf :: pty in leafIdByPtyId && leafIdByPtyId[pty] == leaf <==> BoundOnlyAt(bindings, leaf, pty)
    ensures leafIdByPtyId == PtyIndex(bindings)
  {
    leafIdByPtyId := map[];
    var duplicatePtyIds: set<PtyId> := {};
    var todo := bindings.Keys;
    while todo != {}
      invariant todo <= bindings.Keys
      invariant forall pty :: pty in leafIdByPtyId ==> pty !in duplicatePtyIds
      invariant forall pty :: pty in duplicatePtyIds ==>
        exists a, b :: a != b && BoundAt(bindings, a, pty) && BoundAt(bindings, b, pty)
      invariant forall pty :: pty in leafIdByPtyId ==>
        BoundAt(bindings, leafIdByPtyId[pty], pty) && leafIdByPtyId[pty] !in todo
      invariant forall leaf :: leaf in bindings && leaf !in todo ==>
        bindings[leaf] in duplicatePtyIds ||
        (bindings[leaf] in leafIdByPtyId && leafIdByPtyId[bindings[leaf]] == leaf)
      decreases |todo|
    {
      var leafId :| leafId in todo;
      todo := todo - {leafId};
      var ptyId := bindings[leafId];
      if ptyId in duplicatePtyIds {
        continue;
      }
      if ptyId in leafIdByPtyId {
        assert BoundAt(bindings, leafIdByPtyId[ptyId], ptyId) && BoundAt(bindings, leafId, ptyId);
        leafIdByPtyId := leafIdByPtyId - {ptyId};
        duplicatePtyIds := duplicatePtyIds + {ptyId};
        continue;
      }
      leafIdByPtyId := leafIdByPtyId[ptyId := leafId];
    }
    forall pty, leaf
      ensures pty in leafIdByPtyId && leafIdByPtyId[pty] == leaf <==> BoundOnlyAt(bindings, leaf, pty)
    {
      if BoundOnlyAt(bindings, leaf, pty) {
        assert pty !in duplicatePtyIds;
      }
    }
    forall pty
      ensures pty in leafIdByPtyId <==> pty in PtyIndex(bindings)
      ensures pty in leafIdByPtyId ==> leafIdByPtyId[pty] == PtyIndex(bindings)[pty]
    {
      if pty in leafIdByPtyId {
        PtyIndexIsExact(bindings, pty, leafIdByPtyId[pty]);
      }
      if pty in PtyIndex(bindings) {
        PtyIndexIsExact(bindings, pty, PtyIndex(bindings)[pty]);
      }
    }
  }

  // ------------------------------------------------------------ All layouts

  datatype SessionPass = SessionPass(
    layouts: map<TabId, Layout>,
    changed: bool,
    leafMaps: map<TabId, map<LeafId, LeafId>>,
    next: nat)

  /** The index of every tab, read off its normalised layout. */
  ghost function PtyIndexes(layouts: map<TabId, Layout>): map<TabId, map<PtyId, LeafId>> {
    map tab | tab in layouts :: PtyIndex(Entries(layouts[tab].ptys))
  }

  function PriorLayout(prior: map<TabId, Layout>, tab: TabId): Option<Layout> {
    if tab in prior then Some(prior[tab]) else None
  }

  ghost predicate Enumerates(order: seq<TabId>, layouts: map<TabId, Layout>) {
    Distinct(order) && forall tab :: tab in order <==> tab in layouts
  }

  /** How one tab's layout is normalised, from a given point of the supply on. */
  type TabPasser = (TabId, nat) -> Normalization

  const EMPTY_LAYOUT := Layout(None, None, None, None, None, None, None)

  ghost function TabPasserOf(layouts: map<TabId, Layout>, prior: map<TabId, Layout>): TabPasser {
    (tab: TabId, seed: nat) =>
      if tab in layouts then Normalize(layouts[tab], PriorLayout(prior, tab), seed)
      else Normalization(EMPTY_LAYOUT, false, map[], seed)
  }

  function PassTab(p: SessionPass, tab: TabId, r: Normalization): SessionPass {
    SessionPass(
      p.layouts[tab := r.snapshot],
      p.changed || r.changed,
      p.leafMaps[tab := r.leafMap],
      r.next)
  }

  /** The pass over the first `n` tabs. */
  ghost function PassUpTo(order: seq<TabId>, n: nat, f: TabPasser, next: nat): SessionPass
    requires n <= |order|
  {
    if n == 0 then SessionPass(map[], false, map[], next)
    else
      var p := PassUpTo(order, n - 1, f, next);
      PassTab(p, order[n - 1], f(order[n - 1], p.next))
  }

  ghost function NormalizeSession(order: seq<TabId>, layouts: map<TabId, Layout>, prior: map<TabId, Layout>, next: nat): SessionPass {
    PassUpTo(order, |order|, TabPasserOf(layouts, prior), next)
  }

  /** Each tab's share of the pass is the normalisation of its own layout, from
      some point of the supply on. */
  ghost predicate TabPass(p: SessionPass, tab: TabId, r: Normalization) {
    && r.next <= p.next
    && tab in p.layouts && p.layouts[tab] == r.snapshot
    && tab in p.leafMaps && p.leafMaps[tab] == r.leafMap
    && (r.changed ==> p.changed)
  }

  ghost predicate TabPassed(p: SessionPass, tab: TabId, f: TabPasser, next: nat) {
    exists seed: nat :: next <= seed && TabPass(p, tab, f(tab, seed))
  }

  ghost predicate DrawsForward(f: TabPasser) {
    forall tab, seed: nat :: seed <= f(tab, seed).next
  }

  lemma TabPasserDrawsForward(layouts: map<TabId, Layout>, prior: map<TabId, Layout>)
    ensures DrawsForward(TabPasserOf(layouts, prior))
  {
    forall tab, seed: nat ensures seed <= TabPasserOf(layouts, prior)(tab, seed).next {
      if tab in layouts {
        NormalizeDrawsForward(layouts[tab], PriorLayout(prior, tab), seed);
      }
    }
  }

  lemma NormalizeDrawsForward(snapshot: Layout, preferred: Option<Layout>, next: nat)
    ensures next <= Normalize(snapshot, preferred, next).next
  {
    var input := ResolveRoot(snapshot, preferred);
    if input.root.Some? {
      RootedPassFields(snapshot, input, PreferredLeafIds(preferred), snapshot.root.None?, next);
      RenameTreeDrawsForward(input.root.value, PreferredLeafIds(preferred), snapshot.root.None?, next);
    }
  }

  lemma {:induction false} PassUpToCovers(order: seq<TabId>, n: nat, f: TabPasser, next: nat)
    requires n <= |order| && DrawsForward(f)
    ensures var p := PassUpTo(order, n, f, next);
            next <= p.next && p.layouts.Keys == p.leafMaps.Keys &&
            (forall tab :: tab in p.layouts <==> tab in order[..n])
  {
    if n > 0 {
      PassUpToCovers(order, n - 1, f, next);
      assert order[..n] == order[..n - 1] + [order[n - 1]];
    }
  }

  lemma DrawnForward(f: TabPasser, tab: TabId, seed: nat)
    requires DrawsForward(f)
    ensures seed <= f(tab, seed).next
  {
  }

  lemma LastTabPasses(p: SessionPass, tab: TabId, f: TabPasser, next: nat)
    requires next <= p.next
    ensures TabPassed(PassTab(p, tab, f(tab, p.next)), tab, f, next)
  {
    assert TabPass(PassTab(p, tab, f(tab, p.next)), tab, f(tab, p.next));
  }

  lemma {:induction false} PassUpToByTab(order: seq<TabId>, n: nat, f: TabPasser, next: nat, k: nat)
    requires k < n <= |order| && Distinct(order) && DrawsForward(f)
    ensures TabPassed(PassUpTo(order, n, f, next), order[k], f, next)
  {
    hide PassTab, TabPassed, DrawsForward;
    var p := PassUpTo(order, n - 1, f, next);
    var r := f(order[n - 1], p.next);
    PassUpToCovers(order, n - 1, f, next);
    if k == n - 1 {
      LastTabPasses(p, order[k], f, next);
    } else {
      PassUpToByTab(order, n - 1, f, next, k);
      DrawnForward(f, order[n - 1], p.next);
      TabPassedPersists(p, order[n - 1], r, order[k], f, next);
    }
  }

  /** A later tab's turn leaves an earlier tab's share alone. */
  lemma TabPassedPersists(p: SessionPass, last: TabId, r: Normalization, tab: TabId, f: TabPasser, next: nat)
    requires TabPassed(p, tab, f, next) && tab != last && p.next <= r.next
    ensures TabPassed(PassTab(p, last, r), tab, f, next)
  {
    var seed: nat :| next <= seed && TabPass(p, tab, f(tab, seed));
    assert TabPass(PassTab(p, last, r), tab, f(tab, seed));
  }

  /** Every tab of the session, and no other, has its share in the pass. */
  lemma SessionPassByTab(order: seq<TabId>, layouts: map<TabId, Layout>, prior: map<TabId, Layout>, next: nat)
    requires Enumerates(order, layouts)
    ensures var p := NormalizeSession(order, layouts, prior, next);
            p.layouts.Keys == p.leafMaps.Keys == layouts.Keys
    ensures forall tab :: tab in layouts ==>
      TabPassed(NormalizeSession(order, layouts, prior, next), tab, TabPasserOf(layouts, prior), next)
  {
    hide TabPasserOf, TabPassed, PassUpTo, DrawsForward;
    TabPasserDrawsForward(layouts, prior);
    PassUpToCovers(order, |order|, TabPasserOf(layouts, prior), next);
    assert order[..|order|] == order;
    forall tab | tab in layouts
      ensures TabPassed(NormalizeSession(order, layouts, prior, next), tab, TabPasserOf(layouts, prior), next)
    {
      assert tab in order;
      var k :| 0 <= k < |order| && order[k] == tab;
      PassUpToByTab(order, |order|, TabPasserOf(layouts, prior), next, k);
    }
  }

  lemma SessionPassOfTab(order: seq<TabId>, layouts: map<TabId, Layout>, prior: map<TabId, Layout>, next: nat, tab: TabId)
    returns (seed: nat)
    requires Enumerates(order, layouts) && tab in layouts
    ensures next <= seed
    ensures TabPass(NormalizeSession(order, layouts, prior, next), tab, Normalize(layouts[tab], PriorLayout(prior, tab), seed))
  {
    SessionPassByTab(order, layouts, prior, next);
    var f := TabPasserOf(layouts, prior);
    assert TabPassed(NormalizeSession(order, layouts, prior, next), tab, f, next);
    seed :| next <= seed && TabPass(NormalizeSession(order, layouts, prior, next), tab, f(tab, seed));
  }

  // ------------------------------------------------------------ Fixed point

  /** Passing the tab changes nothing, wherever the supply stands. */
  ghost predicate FixedBy(f: TabPasser, tab: TabId, layout: Layout) {
    forall seed: nat :: f(tab, seed).snapshot == layout && !f(tab, seed).changed && f(tab, seed).next == seed && IsIdentity(f(tab, seed).leafMap)
  }

  lemma FixedAt(f: TabPasser, tab: TabId, layout: Layout, seed: nat)
    requires FixedBy(f, tab, layout)
    ensures f(tab, seed).snapshot == layout && !f(tab, seed).changed && f(tab, seed).next == seed && IsIdentity(f(tab, seed).leafMap)
  {
  }

  lemma {:induction false} FixedTabsAreFixed(order: seq<TabId>, n: nat, f: TabPasser, layouts: map<TabId, Layout>, next: nat)
    requires n <= |order| && Enumerates(order, layouts)
    requires forall tab :: tab in layouts ==> FixedBy(f, tab, layouts[tab])
    ensures var p := PassUpTo(order, n, f, next);
            !p.changed && p.next == next &&
            (forall k :: 0 <= k < n ==> order[k] in p.layouts && p.layouts[order[k]] == layouts[order[k]]) &&
            (forall tab :: tab in p.leafMaps ==> IsIdentity(p.leafMaps[tab]))
  {
    hide FixedBy, IsIdentity, Distinct;
    if n > 0 {
      FixedTabsAreFixed(order, n - 1, f, layouts, next);
      assert order[n - 1] in layouts;
      FixedAt(f, order[n - 1], layouts[order[n - 1]], next);
    }
  }

  lemma NormalTabIsFixed(layouts: map<TabId, Layout>, tab: TabId)
    requires tab in layouts && Normal(layouts[tab])
    ensures FixedBy(TabPasserOf(layouts, layouts), tab, layouts[tab])
  {
    hide Normal, IsIdentity;
    var f := TabPasserOf(layouts, layouts);
    forall seed: nat
      ensures f(tab, seed).snapshot == layouts[tab] && !f(tab, seed).changed && f(tab, seed).next == seed && IsIdentity(f(tab, seed).leafMap)
    {
      NormalIsFixed(layouts[tab], Some(layouts[tab]), seed);
    }
  }

  /** A session of normal layouts is left alone. */
  lemma NormalSessionIsFixed(order: seq<TabId>, layouts: map<TabId, Layout>, next: nat)
    requires Enumerates(order, layouts)
    requires forall tab :: tab in layouts ==> Normal(layouts[tab])
    ensures var p := NormalizeSession(order, layouts, layouts, next);
            !p.changed && p.next == next && p.layouts == layouts &&
            (forall tab :: tab in p.leafMaps ==> IsIdentity(p.leafMaps[tab]))
  {
    hide PassUpTo, Normal, FixedBy, IsIdentity, TabPasserOf, TabPassed;
    var f := TabPasserOf(layouts, layouts);
    forall tab | tab in layouts ensures FixedBy(f, tab, layouts[tab]) {
      NormalTabIsFixed(layouts, tab);
    }
    FixedTabsAreFixed(order, |order|, f, layouts, next);
    SessionPassByTab(order, layouts, layouts, next);
    assert forall tab :: tab in layouts ==> tab in order;
  }

  ghost predicate NoTabClashes(layouts: map<TabId, Layout>, prior: map<TabId, Layout>) {
    forall tab :: tab in layouts ==> !LayoutClash(layouts[tab], PriorLayout(prior, tab))
  }

  ghost predicate SessionSupplied(layouts: map<TabId, Layout>, prior: map<TabId, Layout>, next: nat) {
    forall tab :: tab in layouts ==> SuppliedFor(layouts[tab], PriorLayout(prior, tab), next)
  }

  /** Normalising a session whose layouts did not clash reaches a fixed point:
      a second pass, with the session itself as the prior one, draws no id and
      changes nothing. */
  lemma SecondSessionPassIsIdentity(order: seq<TabId>, layouts: map<TabId, Layout>, prior: map<TabId, Layout>,
                                    next: nat, order2: seq<TabId>, later: nat)
    requires Enumerates(order, layouts) && NoTabClashes(layouts, prior) && SessionSupplied(layouts, prior, next)
    requires Enumerates(order2, NormalizeSession(order, layouts, prior, next).layouts)
    ensures var once := NormalizeSession(order, layouts, prior, next).layouts;
            var twice := NormalizeSession(order2, once, once, later);
            !twice.changed && twice.next == later && twice.layouts == once &&
            (forall tab :: tab in twice.leafMaps ==> IsIdentity(twice.leafMaps[tab]))
  {
    var once := NormalizeSession(order, layouts, prior, next).layouts;
    SessionPassByTab(order, layouts, prior, next);
    forall tab | tab in once ensures Normal(once[tab]) {
      var seed := SessionPassOfTab(order, layouts, prior, next, tab);
      SuppliedLater(layouts[tab], PriorLayout(prior, tab), next, seed);
      NormalizeMakesNormal(layouts[tab], PriorLayout(prior, tab), seed);
    }
    NormalSessionIsFixed(order2, once, later);
  }

  lemma SuppliedLater(snapshot: Layout, preferred: Option<Layout>, next: nat, seed: nat)
    requires SuppliedFor(snapshot, preferred, next) && next <= seed
    ensures SuppliedFor(snapshot, preferred, seed)
  {
  }

  ghost predicate Fits(layouts: map<TabId, Layout>, prior: map<TabId, Layout>, next: nat) {
    NoTabClashes(layouts, prior) && SessionSupplied(layouts, prior, next)
  }

  /** An outcome of the pass over the first `n` tabs. */
  ghost predicate PassesUpTo(order: seq<TabId>, n: nat, layouts: map<TabId, Layout>, prior: map<TabId, Layout>, next: nat, p: SessionPass)
    requires n <= |order| && forall k :: 0 <= k < |order| ==> order[k] in layouts
    decreases n, 1
  {
    if n == 0 then p == SessionPass(map[], false, map[], next)
    else exists before, r :: PassesTab(order, n, layouts, prior, next, before, r) && p == PassTab(before, order[n - 1], r)
  }

  ghost predicate PassesTab(order: seq<TabId>, n: nat, layouts: map<TabId, Layout>, prior: map<TabId, Layout>, next: nat,
                            before: SessionPass, r: Normalization)
    requires 0 < n <= |order| && forall k :: 0 <= k < |order| ==> order[k] in layouts
    decreases n, 0
  {
    && PassesUpTo(order, n - 1, layouts, prior, next, before)
    && Normalizes(layouts[order[n - 1]], PriorLayout(prior, order[n - 1]), before.next, r)
  }

  /** An outcome of the whole pass. */
  ghost predicate SessionPasses(order: seq<TabId>, layouts: map<TabId, Layout>, prior: map<TabId, Layout>, next: nat, p: SessionPass) {
    Enumerates(order, layouts) && PassesUpTo(order, |order|, layouts, prior, next, p)
  }

  /** The tab's turn comes with ids to spare. */
  lemma TabIsSupplied(order: seq<TabId>, i: nat, layouts: map<TabId, Layout>, prior: map<TabId, Layout>, next: nat)
    requires i < |order| && order[i] in layouts && SessionSupplied(layouts, prior, next)
    ensures SuppliedFor(layouts[order[i]], PriorLayout(prior, order[i]), PassUpTo(order, i, TabPasserOf(layouts, prior), next).next)
  {
    TabPasserDrawsForward(layouts, prior);
    PassUpToCovers(order, i, TabPasserOf(layouts, prior), next);
    SuppliedLater(layouts[order[i]], PriorLayout(prior, order[i]), next, PassUpTo(order, i, TabPasserOf(layouts, prior), next).next);
  }

  /** Without a clash the pass has one outcome. */
  lemma {:induction false} PassIsDetermined(order: seq<TabId>, n: nat, layouts: map<TabId, Layout>, prior: map<TabId, Layout>, next: nat, p: SessionPass)
    requires n <= |order| && (forall k :: 0 <= k < |order| ==> order[k] in layouts) && Fits(layouts, prior, next)
    requires PassesUpTo(order, n, layouts, prior, next, p)
    ensures p == PassUpTo(order, n, TabPasserOf(layouts, prior), next)
  {
    hide Normalizes, Normalize, SuppliedFor, LayoutClash, PassTab;
    if n > 0 {
      var before, r :| PassesTab(order, n, layouts, prior, next, before, r) && p == PassTab(before, order[n - 1], r);
      PassIsDetermined(order, n - 1, layouts, prior, next, before);
      TabIsSupplied(order, n - 1, layouts, prior, next);
      OutcomesAgree(layouts[order[n - 1]], PriorLayout(prior, order[n - 1]), before.next, r);
    }
  }

  lemma SessionPassIsDetermined(order: seq<TabId>, layouts: map<TabId, Layout>, prior: map<TabId, Layout>, next: nat, p: SessionPass)
    requires SessionPasses(order, layouts, prior, next, p) && Fits(layouts, prior, next)
    ensures p == NormalizeSession(order, layouts, prior, next)
  {
    hide Fits, PassUpTo, PassesUpTo;
    PassIsDetermined(order, |order|, layouts, prior, next, p);
  }

  lemma PassesOneMore(order: seq<TabId>, i: nat, layouts: map<TabId, Layout>, prior: map<TabId, Layout>, next: nat,
                      before: SessionPass, r: Normalization)
    requires i < |order| && forall k :: 0 <= k < |order| ==> order[k] in layouts
    requires PassesUpTo(order, i, layouts, prior, next, before)
    requires Normalizes(layouts[order[i]], PriorLayout(prior, order[i]), before.next, r)
    ensures PassesUpTo(order, i + 1, layouts, prior, next, PassTab(before, order[i], r))
  {
    hide Normalizes;
    assert PassesTab(order, i + 1, layouts, prior, next, before, r);
  }

  /** The loop over the tabs, in the order they are enumerated. */
  method NormalizeSessionLayouts(order: seq<TabId>, layouts: map<TabId, Layout>, prior: map<TabId, Layout>, supply: nat)
    returns (pass: SessionPass)
    requires Enumerates(order, layouts)
    ensures SessionPasses(order, layouts, prior, supply, pass)
  {
    hide Normalizes;
    pass := SessionPass(map[], false, map[], supply);
    for i := 0 to |order|
      invariant PassesUpTo(order, i, layouts, prior, supply, pass)
    {
      var normalized := NormalizeLayout(layouts[order[i]], PriorLayout(prior, order[i]), pass.next);
      PassesOneMore(order, i, layouts, prior, supply, pass, normalized);
      pass := PassTab(pass, order[i], normalized);
    }
  }

  // ---------------------------------------------------------- Lease leaf ids

  datatype LeaseState = Attached | Detached | Terminated | Expired

  /** A durable lease on a remote PTY. Its PTY id is local to the target. */
  datatype Lease = Lease(
    target: string,
    pty: PtyId,
    worktree: Option<string>,
    tab: Option<TabId>,
    leaf: Option<LeafId>,
    state: LeaseState)

  predicate NamesTab(lease: Lease) {
    lease.tab.Some? && lease.tab.value != ""
  }

  function Lookup<K, V>(maps: map<TabId, map<K, V>>, tab: TabId, key: K): Option<V> {
    if tab in maps && key in maps[tab] then Some(maps[tab][key]) else None
  }

  function RemapLease(lease: Lease, leafMaps: map<TabId, map<LeafId, LeafId>>, ptyIndex: map<TabId, map<PtyId, LeafId>>): Lease {
    if lease.leaf.None? || lease.leaf.value.Stable? then lease
    else
      var remapped := if NamesTab(lease) then Lookup(leafMaps, lease.tab.value, lease.leaf.value) else None;
      var leafForPty := if NamesTab(lease) then Lookup(ptyIndex, lease.tab.value, lease.pty) else None;
      var next := if remapped.Some? then remapped else leafForPty;
      lease.(leaf := if TruthyLeaf(next) then next else None)
  }

  function RemapLeases(leases: seq<Lease>, leafMaps: map<TabId, map<LeafId, LeafId>>, ptyIndex: map<TabId, map<PtyId, LeafId>>): (r: seq<Lease>)
    ensures |r| == |leases| && forall i :: 0 <= i < |r| ==> r[i] == RemapLease(leases[i], leafMaps, ptyIndex)
  {
    seq(|leases|, i requires 0 <= i < |leases| => RemapLease(leases[i], leafMaps, ptyIndex))
  }

  /** The one way a legacy leaf id survives: the lease's tab has a layout with no
      tree, so its records were not renamed, and the lease's PTY is bound there
      once, under a legacy id. */
  ghost predicate Exposed(lease: Lease, layouts: map<TabId, Layout>, prior: map<TabId, Layout>) {
    && lease.leaf.Some? && !lease.leaf.value.Stable? && NamesTab(lease)
    && lease.tab.value in layouts
    && ResolveRoot(layouts[lease.tab.value], PriorLayout(prior, lease.tab.value)).root.None?
    && exists leaf :: BoundOnlyAt(Entries(layouts[lease.tab.value].ptys), leaf, lease.pty) && LegacyId(leaf)
  }

  predicate LegacyId(leaf: LeafId) {
    !leaf.Stable? && TruthyLeaf(Some(leaf))
  }

  lemma RootedLayoutHasStableKeys(snapshot: Layout, preferred: Option<Layout>, next: nat, leaf: LeafId)
    requires ResolveRoot(snapshot, preferred).root.Some?
    ensures var n := Normalize(snapshot, preferred, next);
            (leaf in Entries(n.snapshot.ptys) ==> leaf.Stable?) &&
            (leaf in n.leafMap ==> n.leafMap[leaf].Stable?)
  {
    var input := ResolveRoot(snapshot, preferred);
    var n := Normalize(snapshot, preferred, next);
    RootedPass(snapshot, input, PreferredLeafIds(preferred), snapshot.root.None?, next);
    var ids, out := LeafIds(input.root.value), LeafIds(n.snapshot.root.value);
    RenamedIsStable(ids, PreferredLeafIds(preferred), out, next, n.next);
    RenamedKeysAreStable(input, n.snapshot, n.leafMap, ids, out, n.snapshot.root.value, leaf);
  }

  lemma RenamedKeysAreStable(input: Layout, snapshot: Layout, leafMap: map<LeafId, LeafId>, ids: seq<LeafId>, out: seq<LeafId>, root: Node, leaf: LeafId)
    requires FollowsMap(ids, out, leafMap) && AllStable(out)
    requires SameContents(snapshot, RenameSnapshot(input, leafMap, DuplicatedIds(ids), root))
    ensures leaf in Entries(snapshot.ptys) ==> leaf.Stable?
    ensures leaf in leafMap ==> leafMap[leaf].Stable?
  {
    MappedIdsAreStable(ids, out, leafMap);
    RemappedKeysAreStable(Entries(input.ptys), leafMap, DuplicatedIds(ids));
  }

  lemma MappedIdsAreStable(ids: seq<LeafId>, out: seq<LeafId>, leafMap: map<LeafId, LeafId>)
    requires FollowsMap(ids, out, leafMap) && AllStable(out)
    ensures forall id :: id in leafMap ==> leafMap[id].Stable?
  {
    forall id | id in leafMap ensures leafMap[id].Stable? {
      var i := CarriedIsUnique(ids, out, leafMap, id);
    }
  }

  lemma RemappedKeysAreStable(source: map<LeafId, PtyId>, leafMap: map<LeafId, LeafId>, duplicated: set<LeafId>)
    requires forall id :: id in leafMap ==> leafMap[id].Stable?
    ensures forall leaf :: leaf in RemapEntries(source, leafMap, duplicated) ==> leaf.Stable?
  {
  }

  /** After the pass a lease's leaf id is absent or stable, except in the one case
      named above. */
  lemma RemappedLeaseIsStableUnlessExposed(order: seq<TabId>, layouts: map<TabId, Layout>, prior: map<TabId, Layout>, next: nat, lease: Lease)
    requires Enumerates(order, layouts)
    ensures var p := NormalizeSession(order, layouts, prior, next);
            var leaf := RemapLease(lease, p.leafMaps, PtyIndexes(p.layouts)).leaf;
            (leaf.None? || leaf.value.Stable?) <==> !Exposed(lease, layouts, prior)
  {
    var p := NormalizeSession(order, layouts, prior, next);
    SessionPassByTab(order, layouts, prior, next);
    if lease.leaf.Some? && !lease.leaf.value.Stable? && NamesTab(lease) && lease.tab.value in layouts {
      var tab := lease.tab.value;
      var seed := SessionPassOfTab(order, layouts, prior, next, tab);
      RemappedByTabPass(lease, p, layouts[tab], PriorLayout(prior, tab), seed);
    }
  }

  lemma RemappedByTabPass(lease: Lease, p: SessionPass, layout: Layout, preferred: Option<Layout>, seed: nat)
    requires lease.leaf.Some? && !lease.leaf.value.Stable? && NamesTab(lease)
    requires TabPass(p, lease.tab.value, Normalize(layout, preferred, seed))
    ensures var leaf := RemapLease(lease, p.leafMaps, PtyIndexes(p.layouts)).leaf;
            (leaf.None? || leaf.value.Stable?) <==>
            !(ResolveRoot(layout, preferred).root.None? &&
              exists l :: BoundOnlyAt(Entries(layout.ptys), l, lease.pty) && LegacyId(l))
  {
    var n := Normalize(layout, preferred, seed);
    if ResolveRoot(layout, preferred).root.Some? {
      forall leaf ensures leaf in Entries(n.snapshot.ptys) ==> leaf.Stable?
                  ensures leaf in n.leafMap ==> n.leafMap[leaf].Stable?
      {
        RootedLayoutHasStableKeys(layout, preferred, seed, leaf);
      }
      RemappedThrough(lease, p, n);
    } else {
      RemappedThrough(lease, p, n);
    }
  }

  /** What remapping does, given the share of the lease's tab. */
  lemma RemappedThrough(lease: Lease, p: SessionPass, n: Normalization)
    requires lease.leaf.Some? && !lease.leaf.value.Stable? && NamesTab(lease)
    requires TabPass(p, lease.tab.value, n)
    requires forall id :: id in n.leafMap ==> n.leafMap[id].Stable?
    ensures var leaf := RemapLease(lease, p.leafMaps, PtyIndexes(p.layouts)).leaf;
            (leaf.None? || leaf.value.Stable?) <==>
            !(lease.leaf.value !in n.leafMap &&
              exists l :: BoundOnlyAt(Entries(n.snapshot.ptys), l, lease.pty) && LegacyId(l))
  {
    var bindings := Entries(n.snapshot.ptys);
    var index := PtyIndex(bindings);
    if lease.pty in index {
      PtyIndexIsExact(bindings, lease.pty, index[lease.pty]);
    }
    if l :| BoundOnlyAt(bindings, l, lease.pty) && LegacyId(l) {
      PtyIndexIsExact(bindings, lease.pty, l);
    }
  }

  /** The case arises: a pane without a tree, whose one PTY is bound under a legacy id. */
  lemma LeaseCanBeExposed(next: nat)
    ensures var layouts := map["tab" := EMPTY_LAYOUT.(ptys := Some(map[Legacy("pane:1") := Raw("7")]))];
            var lease := Lease("host", Raw("7"), None, Some("tab"), Some(Legacy("pane:0")), Attached);
            var p := NormalizeSession(["tab"], layouts, map[], next);
            var leaf := RemapLease(lease, p.leafMaps, PtyIndexes(p.layouts)).leaf;
            Exposed(lease, layouts, map[]) && leaf.Some? && !leaf.value.Stable?
  {
    var bindings: map<LeafId, PtyId> := map[Legacy("pane:1") := Raw("7")];
    var layouts := map["tab" := EMPTY_LAYOUT.(ptys := Some(bindings))];
    var lease := Lease("host", Raw("7"), None, Some("tab"), Some(Legacy("pane:0")), Attached);
    assert BoundOnlyAt(bindings, Legacy("pane:1"), Raw("7")) && LegacyId(Legacy("pane:1"));
    assert Exposed(lease, layouts, map[]);
    RemappedLeaseIsStableUnlessExposed(["tab"], layouts, map[], next, lease);
  }

  /** A lease that one pass has settled is not touched by a later one, whatever that
      one maps. */
  lemma SecondRemapKeepsLease(order: seq<TabId>, layouts: map<TabId, Layout>, prior: map<TabId, Layout>, next: nat, lease: Lease,
                              leafMaps: map<TabId, map<LeafId, LeafId>>, ptyIndex: map<TabId, map<PtyId, LeafId>>)
    requires Enumerates(order, layouts) && !Exposed(lease, layouts, prior)
    ensures var p := NormalizeSession(order, layouts, prior, next);
            var once := RemapLease(lease, p.leafMaps, PtyIndexes(p.layouts));
            RemapLease(once, leafMaps, ptyIndex) == once
  {
    RemappedLeaseIsStableUnlessExposed(order, layouts, prior, next, lease);
  }

  // --------------------------------------------------------- Acknowledgements

  /** The key of an acknowledgement: `tab:leaf`, or a string the program cannot split so. */
  datatype PaneKey = Pane(tab: TabId, leaf: LeafId) | Unsplit(text: string)

  function RemapPaneKey(key: PaneKey, leafMaps: map<TabId, map<LeafId, LeafId>>): PaneKey {
    if key.Pane? && key.tab != "" && LegacyId(key.leaf) then
      var remapped := Lookup(leafMaps, key.tab, key.leaf);
      if remapped.Some? && remapped.value.Stable? then Pane(key.tab, remapped.value) else key
    else key
  }

  /** Under each new key stands the latest time of the keys that became it. */
  ghost predicate AcknowledgementsMerged(before: map<PaneKey, int>, leafMaps: map<TabId, map<LeafId, LeafId>>, after: map<PaneKey, int>) {
    && (forall key :: key in before ==>
          RemapPaneKey(key, leafMaps) in after && before[key] <= after[RemapPaneKey(key, leafMaps)])
    && (forall key :: key in after ==>
          exists source :: source in before && RemapPaneKey(source, leafMaps) == key && before[source] == after[key])
  }

  /** The acknowledgement at `source` has had its turn, and its key became `key`. */
  predicate CameFrom(before: map<PaneKey, int>, leafMaps: map<TabId, map<LeafId, LeafId>>, todo: set<PaneKey>, source: PaneKey, key: PaneKey) {
    source in before && source !in todo && RemapPaneKey(source, leafMaps) == key
  }

  /** The times whose turn has come are merged. */
  ghost predicate MergedBut(before: map<PaneKey, int>, leafMaps: map<TabId, map<LeafId, LeafId>>, todo: set<PaneKey>, next: map<PaneKey, int>) {
    && (forall source, key :: CameFrom(before, leafMaps, todo, source, key) ==> key in next && before[source] <= next[key])
    && (forall key :: key in next ==> exists source :: CameFrom(before, leafMaps, todo, source, key) && before[source] == next[key])
  }

  ghost predicate SomeMoved(before: map<PaneKey, int>, leafMaps: map<TabId, map<LeafId, LeafId>>, todo: set<PaneKey>) {
    exists source, key :: CameFrom(before, leafMaps, todo, source, key) && source != key
  }

  function Latest(next: map<PaneKey, int>, key: PaneKey, at: int): map<PaneKey, int> {
    next[key := if key in next && next[key] > at then next[key] else at]
  }

  lemma NoneMerged(before: map<PaneKey, int>, leafMaps: map<TabId, map<LeafId, LeafId>>)
    ensures MergedBut(before, leafMaps, before.Keys, map[]) && !SomeMoved(before, leafMaps, before.Keys)
  {
  }

  lemma MergedOneMore(before: map<PaneKey, int>, leafMaps: map<TabId, map<LeafId, LeafId>>, todo: set<PaneKey>,
                      next: map<PaneKey, int>, key: PaneKey)
    requires MergedBut(before, leafMaps, todo, next) && key in todo && key in before
    ensures MergedBut(before, leafMaps, todo - {key}, Latest(next, RemapPaneKey(key, leafMaps), before[key]))
  {
    hide RemapPaneKey;
    var nextKey := RemapPaneKey(key, leafMaps);
    var after := Latest(next, nextKey, before[key]);
    forall source, k | CameFrom(before, leafMaps, todo - {key}, source, k)
      ensures k in after && before[source] <= after[k]
    {
      assert source == key || CameFrom(before, leafMaps, todo, source, k);
    }
    forall k | k in after
      ensures exists source :: CameFrom(before, leafMaps, todo - {key}, source, k) && before[source] == after[k]
    {
      if k == nextKey && after[k] == before[key] {
        assert CameFrom(before, leafMaps, todo - {key}, key, k);
      } else {
        var source :| CameFrom(before, leafMaps, todo, source, k) && before[source] == next[k];
        assert CameFrom(before, leafMaps, todo - {key}, source, k);
      }
    }
  }

  lemma MovedOneMore(before: map<PaneKey, int>, leafMaps: map<TabId, map<LeafId, LeafId>>, todo: set<PaneKey>, key: PaneKey)
    requires key in todo && key in before
    ensures SomeMoved(before, leafMaps, todo - {key}) <==> SomeMoved(before, leafMaps, todo) || RemapPaneKey(key, leafMaps) != key
  {
    hide RemapPaneKey;
    if source, k :| CameFrom(before, leafMaps, todo, source, k) && source != k {
      assert CameFrom(before, leafMaps, todo - {key}, source, k);
    }
    assert CameFrom(before, leafMaps, todo - {key}, key, RemapPaneKey(key, leafMaps));
    if source, k :| CameFrom(before, leafMaps, todo - {key}, source, k) && source != k {
      assert source == key || CameFrom(before, leafMaps, todo, source, k);
    }
  }

  lemma AllMerged(before: map<PaneKey, int>, leafMaps: map<TabId, map<LeafId, LeafId>>, next: map<PaneKey, int>)
    requires MergedBut(before, leafMaps, {}, next)
    ensures AcknowledgementsMerged(before, leafMaps, next)
    ensures SomeMoved(before, leafMaps, {}) <==> exists key :: key in before && RemapPaneKey(key, leafMaps) != key
  {
    hide RemapPaneKey;
    forall key | key in before
      ensures CameFrom(before, leafMaps, {}, key, RemapPaneKey(key, leafMaps))
    {
    }
  }

  method RemapAcknowledgements(acknowledgements: map<PaneKey, int>, leafMaps: map<TabId, map<LeafId, LeafId>>)
    returns (next: map<PaneKey, int>, changed: bool)
    ensures AcknowledgementsMerged(acknowledgements, leafMaps, next)
    ensures changed <==> exists key :: key in acknowledgements && RemapPaneKey(key, leafMaps) != key
  {
    hide CameFrom, MergedBut, SomeMoved, AcknowledgementsMerged;
    next, changed := map[], false;
    var todo := acknowledgements.Keys;
    NoneMerged(acknowledgements, leafMaps);
    while todo != {}
      invariant todo <= acknowledgements.Keys && MergedBut(acknowledgements, leafMaps, todo, next)
      invariant changed <==> SomeMoved(acknowledgements, leafMaps, todo)
      decreases |todo|
    {
      var key :| key in todo;
      MergedOneMore(acknowledgements, leafMaps, todo, next, key);
      MovedOneMore(acknowledgements, leafMaps, todo, key);
      todo := todo - {key};
      var at := acknowledgements[key];
      var nextKey := RemapPaneKey(key, leafMaps);
      changed := changed || nextKey != key;
      next := next[nextKey := if nextKey in next && next[nextKey] > at then next[nextKey] else at];
    }
    AllMerged(acknowledgements, leafMaps, next);
  }

  /** With the maps of a second pass nothing is acknowledged under another key. */
  lemma AcknowledgementsAreFixed(before: map<PaneKey, int>, leafMaps: map<TabId, map<LeafId, LeafId>>, after: map<PaneKey, int>)
    requires forall tab :: tab in leafMaps ==> IsIdentity(leafMaps[tab])
    requires AcknowledgementsMerged(before, leafMaps, after)
    ensures after == before
  {
    assert forall key :: RemapPaneKey(key, leafMaps) == key;
  }
}
