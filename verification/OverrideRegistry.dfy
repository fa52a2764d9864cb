/**
 * AttributeAccessInterfaceRegistry: overrides for clusters, kept in a singly linked
 * list that is edited in place, and the lookup cache in front of it.
 */
module OverrideRegistry {
  import opened Ids

  class Override {
    const endpoint: Option<nat>
    const cluster: nat
    var next: Override?

    constructor (endpoint: Option<nat>, cluster: nat)
      ensures this.endpoint == endpoint && this.cluster == cluster && next == null
    {
      this.endpoint, this.cluster, next := endpoint, cluster, null;
    }

    predicate Matches(e: nat, c: nat) {
      (endpoint.None? || endpoint.value == e) && cluster == c
    }

    predicate MatchesEndpoint(e: nat) {
      endpoint.Some? && endpoint.value == e
    }

    /** `Matches(const AttributeAccessInterface &)`: both want some attribute. */
    predicate Overlaps(other: Override) {
      cluster == other.cluster && (endpoint.None? || other.endpoint.None? || endpoint.value == other.endpoint.value)
    }
  }

  /** Which lookups an override answers: those of its cluster, on its endpoint or, if it names none, on all. */
  predicate Answers(n: Override, e: nat, c: nat) {
    n.cluster == c && (n.endpoint == None || n.endpoint == Some(e))
  }

  lemma AnswersIff(n: Override, e: nat, c: nat)
    ensures n.Matches(e, c) <==> Answers(n, e, c)
  {
    assert n.endpoint.Some? ==> n.endpoint == Some(n.endpoint.value);
  }

  /** Two overrides overlap exactly when they answer a lookup in common. */
  lemma OverlapsIff(a: Override, b: Override)
    ensures a.Overlaps(b) <==> exists e, c :: Answers(a, e, c) && Answers(b, e, c)
  {
    if a.Overlaps(b) {
      var e := if a.endpoint.Some? then a.endpoint.value else if b.endpoint.Some? then b.endpoint.value else 0;
      assert Answers(a, e, a.cluster) && Answers(b, e, a.cluster);
    }
  }

  // ---------------------------------------------------------------------------
  // The list as a sequence
  // ---------------------------------------------------------------------------

  /** The nodes are linked one after the other, starting at `from` and leading to `to`. */
  ghost predicate Linked(from: Override?, nodes: seq<Override>, to: Override?)
    reads nodes
  {
    && from == (if nodes == [] then to else nodes[0])
    && (forall i :: 0 <= i < |nodes| ==> nodes[i].next == if i + 1 < |nodes| then nodes[i + 1] else to)
  }

  /** The nodes from index `m` on are still linked to the end. */
  ghost predicate LinkedFrom(from: Override?, all: seq<Override>, m: nat)
    reads all
  {
    && m <= |all| && from == (if m == |all| then null else all[m])
    && (forall i :: m <= i < |all| ==> all[i].next == if i + 1 < |all| then all[i + 1] else null)
  }

  lemma NextNode(cur: Override, all: seq<Override>, m: nat)
    requires LinkedFrom(cur, all, m)
    ensures m < |all| && cur == all[m] && LinkedFrom(cur.next, all, m + 1)
  {
    assert all[m].next == if m + 1 < |all| then all[m + 1] else null;
  }

  lemma LinkedSnoc(from: Override?, nodes: seq<Override>, cur: Override)
    requires Linked(from, nodes, cur)
    ensures Linked(from, nodes + [cur], cur.next)
  {
    var more := nodes + [cur];
    forall i | 0 <= i < |more|
      ensures more[i].next == if i + 1 < |more| then more[i + 1] else cur.next
    {
      if i < |nodes| {
        assert more[i] == nodes[i] && nodes[i].next == if i + 1 < |nodes| then nodes[i + 1] else cur;
        assert i + 1 < |nodes| ==> more[i + 1] == nodes[i + 1];
      }
    }
  }

  lemma LinkAt(from: Override?, nodes: seq<Override>, k: nat)
    requires Linked(from, nodes, null) && k < |nodes|
    ensures nodes[k].next == if k + 1 < |nodes| then nodes[k + 1] else null
  {
  }

  lemma LinkedCons(nodes: seq<Override>, front: Override)
    requires Linked(front.next, nodes, null)
    ensures Linked(front, [front] + nodes, null)
  {
    var more := [front] + nodes;
    forall i | 0 <= i < |more|
      ensures more[i].next == if i + 1 < |more| then more[i + 1] else null
    {
      if i > 0 {
        LinkAt(front.next, nodes, i - 1);
        assert more[i] == nodes[i - 1];
      }
    }
    assert Linked(front, more, null);
  }

  ghost predicate Distinct(nodes: seq<Override>) {
    forall i, j :: 0 <= i < j < |nodes| ==> nodes[i] != nodes[j]
  }

  ghost predicate NoOverlap(nodes: seq<Override>) {
    forall i, j :: 0 <= i < j < |nodes| ==> !nodes[i].Overlaps(nodes[j])
  }

  /** What a linear search of the list finds. */
  ghost function Search(nodes: seq<Override>, e: nat, c: nat): Override? {
    if nodes == [] then null
    else if nodes[0].Matches(e, c) then nodes[0]
    else Search(nodes[1..], e, c)
  }

  ghost function Without(nodes: seq<Override>, removes: Override -> bool): seq<Override> {
    if nodes == [] then []
    else
      var front := Without(nodes[..|nodes| - 1], removes);
      if removes(nodes[|nodes| - 1]) then front else front + [nodes[|nodes| - 1]]
  }

  /** The nodes of `kept` are the nodes at the increasing positions `at` among the first `m`, none of which goes. */
  ghost predicate KeptAt(all: seq<Override>, m: nat, kept: seq<Override>, at: seq<nat>, removes: Override -> bool) {
    && m <= |all| && |at| == |kept|
    && (forall i :: 0 <= i < |at| ==> at[i] < m && kept[i] == all[at[i]] && !removes(all[at[i]]))
    && (forall i, j :: 0 <= i < j < |at| ==> at[i] < at[j])
  }

  ghost predicate Processed(all: seq<Override>, m: nat, kept: seq<Override>, at: seq<nat>, removes: Override -> bool) {
    KeptAt(all, m, kept, at, removes) && kept == Without(all[..m], removes)
  }

  lemma ProcessOne(all: seq<Override>, m: nat, kept: seq<Override>, at: seq<nat>, removes: Override -> bool)
    requires Processed(all, m, kept, at, removes) && m < |all|
    ensures if removes(all[m]) then Processed(all, m + 1, kept, at, removes)
            else Processed(all, m + 1, kept + [all[m]], at + [m], removes)
  {
    assert all[..m + 1][..m] == all[..m];
  }

  /** What stays of a list without overlaps has none. */
  lemma KeptApart(all: seq<Override>, m: nat, kept: seq<Override>, at: seq<nat>, removes: Override -> bool)
    requires Distinct(all) && NoOverlap(all) && KeptAt(all, m, kept, at, removes)
    ensures Distinct(kept) && NoOverlap(kept)
  {
  }

  /** In a list without overlaps, a lookup matches one override at most, so the search finds whichever there is. */
  lemma {:induction false} SearchUnique(nodes: seq<Override>, e: nat, c: nat, i: nat)
    requires NoOverlap(nodes) && i < |nodes| && nodes[i].Matches(e, c)
    ensures Search(nodes, e, c) == nodes[i]
    ensures forall j :: 0 <= j < |nodes| && nodes[j].Matches(e, c) ==> j == i
  {
    forall j | 0 <= j < |nodes| && nodes[j].Matches(e, c)
      ensures j == i
    {
      assert nodes[i].Overlaps(nodes[j]) && nodes[j].Overlaps(nodes[i]);
    }
    if i > 0 {
      SearchUnique(nodes[1..], e, c, i - 1);
    }
  }

  lemma {:induction false} SearchNone(nodes: seq<Override>, e: nat, c: nat)
    ensures Search(nodes, e, c) == null <==> forall i :: 0 <= i < |nodes| ==> !nodes[i].Matches(e, c)
  {
    if nodes != [] {
      SearchNone(nodes[1..], e, c);
      if !nodes[0].Matches(e, c) {
        forall i | 0 <= i < |nodes| && Search(nodes, e, c) == null
          ensures !nodes[i].Matches(e, c)
        {
          assert i > 0 ==> nodes[i] == nodes[1..][i - 1];
        }
      }
    }
  }

  /** The search finds an override exactly if it is in the list and answers the lookup. */
  lemma SearchIff(nodes: seq<Override>, e: nat, c: nat, n: Override)
    requires NoOverlap(nodes)
    ensures Search(nodes, e, c) == n <==> n in nodes && Answers(n, e, c)
    ensures Search(nodes, e, c) == null <==> forall k :: k in nodes ==> !Answers(k, e, c)
  {
    SearchNone(nodes, e, c);
    forall k: Override ensures k.Matches(e, c) <==> Answers(k, e, c) {
      AnswersIff(k, e, c);
    }
    if Search(nodes, e, c) != null {
      var i :| 0 <= i < |nodes| && nodes[i].Matches(e, c);
      SearchUnique(nodes, e, c, i);
      assert nodes[i] in nodes && Answers(nodes[i], e, c);
    }
    if n in nodes && Answers(n, e, c) {
      var i :| 0 <= i < |nodes| && nodes[i] == n;
      SearchUnique(nodes, e, c, i);
    }
  }

  lemma {:induction false} WithoutIn(nodes: seq<Override>, removes: Override -> bool, n: Override)
    ensures n in Without(nodes, removes) <==> n in nodes && !removes(n)
  {
    if nodes != [] {
      WithoutIn(nodes[..|nodes| - 1], removes, n);
      assert nodes == nodes[..|nodes| - 1] + [nodes[|nodes| - 1]];
    }
  }

  /** After a removal a lookup finds what it found before, unless that went. */
  lemma SearchWithout(nodes: seq<Override>, removes: Override -> bool, e: nat, c: nat)
    requires NoOverlap(nodes) && NoOverlap(Without(nodes, removes))
    ensures var n := Search(nodes, e, c);
            Search(Without(nodes, removes), e, c) == if n == null || removes(n) then null else n
  {
    var kept, n := Without(nodes, removes), Search(nodes, e, c);
    var m := Search(kept, e, c);
    if m != null {
      SearchIff(kept, e, c, m);
      WithoutIn(nodes, removes, m);
      SearchIff(nodes, e, c, m);
    } else if n != null {
      SearchIff(nodes, e, c, n);
      WithoutIn(nodes, removes, n);
      SearchIff(kept, e, c, n);
    }
  }

  // ---------------------------------------------------------------------------
  // The registry
  // ---------------------------------------------------------------------------

  datatype CacheEntry = CacheEntry(endpoint: nat, cluster: nat, accessor: Override?) {
    predicate Matches(e: nat, c: nat) { endpoint == e && cluster == c }
  }

  datatype CacheResult = CacheMiss | DefinitelyUnused | DefinitelyUsed(accessor: Override)

  const INVALID_ENTRY := CacheEntry(INVALID_ENDPOINT, INVALID_CLUSTER, null)

  class Registry {
    var head: Override?
    var slot: CacheEntry
    var lastUnused: CacheEntry
    ghost var list: seq<Override>

    ghost predicate ListValid()
      reads this, list
    {
      Linked(head, list, null) && Distinct(list) && NoOverlap(list)
    }

    /** The cache says nothing that a search would not say. */
    ghost predicate CacheValid()
      reads this
    {
      && (slot.accessor != null ==> Search(list, slot.endpoint, slot.cluster) == slot.accessor)
      && (lastUnused.Matches(INVALID_ENDPOINT, INVALID_CLUSTER) || Search(list, lastUnused.endpoint, lastUnused.cluster) == null)
    }

    ghost predicate Valid()
      reads this, list
    {
      ListValid() && CacheValid()
    }

    constructor ()
      ensures Valid() && list == []
    {
      head, list := null, [];
      slot, lastUnused := INVALID_ENTRY, INVALID_ENTRY;
    }

    method InvalidateCache()
      modifies this`slot, this`lastUnused
      ensures slot == lastUnused == INVALID_ENTRY
    {
      slot, lastUnused := INVALID_ENTRY, INVALID_ENTRY;
    }

    method CachedGet(e: nat, c: nat) returns (r: CacheResult)
      ensures r == if lastUnused.Matches(e, c) then DefinitelyUnused
                   else if slot.Matches(e, c) && slot.accessor != null then DefinitelyUsed(slot.accessor)
                   else CacheMiss
    {
      if lastUnused.Matches(e, c) {
        return DefinitelyUnused;
      }
      if slot.Matches(e, c) && slot.accessor != null {
        return DefinitelyUsed(slot.accessor);
      }
      return CacheMiss;
    }

    /** Takes node `m` out of the list, behind the kept ones. */
    method Unlink(prev: Override?, cur: Override, ghost all: seq<Override>, ghost m: nat, ghost kept: seq<Override>,
                  ghost at: seq<nat>, removes: Override -> bool)
      requires Distinct(all) && m < |all| && KeptAt(all, m, kept, at, removes)
      requires Linked(head, kept, cur) && LinkedFrom(cur, all, m)
      requires prev == if kept == [] then null else kept[|kept| - 1]
      modifies this`head, prev, cur
      ensures cur.next == null
      ensures Linked(head, kept, old(cur.next)) && LinkedFrom(old(cur.next), all, m + 1)
    {
      var next := cur.next;
      NextNode(cur, all, m);
      if prev != null {
        assert prev == all[at[|at| - 1]];
        prev.next := next;
      } else {
        head := next;
      }
      cur.next := null;
    }

    /** The loop of the removal stands before node `m`: it is the one behind the kept ones. */
    ghost predicate Between(all: seq<Override>, m: nat, kept: seq<Override>, prev: Override?, cur: Override?)
      reads this, kept, all
    {
      && Linked(head, kept, cur) && LinkedFrom(cur, all, m)
      && prev == if kept == [] then null else kept[|kept| - 1]
    }

    ghost predicate Cleared(all: seq<Override>, m: nat, removes: Override -> bool)
      requires m <= |all|
      reads all
    {
      forall i :: 0 <= i < m && removes(all[i]) ==> all[i].next == null
    }

    /** The body of the removal loop: keeps the node or takes it out. */
    method Visit(prev: Override?, cur: Override, removes: Override -> bool, ghost all: seq<Override>, ghost m: nat,
                 ghost kept: seq<Override>, ghost at: seq<nat>)
      returns (prev': Override?, next: Override?, ghost kept': seq<Override>, ghost at': seq<nat>)
      requires Distinct(all) && m < |all| && Processed(all, m, kept, at, removes)
      requires Between(all, m, kept, prev, cur) && Cleared(all, m, removes)
      modifies this`head, all
      ensures Processed(all, m + 1, kept', at', removes)
      ensures Between(all, m + 1, kept', prev', next) && Cleared(all, m + 1, removes)
    {
      next := cur.next;
      NextNode(cur, all, m);
      ProcessOne(all, m, kept, at, removes);
      if removes(cur) {
        Unlink(prev, cur, all, m, kept, at, removes);
        prev', kept', at' := prev, kept, at;
      } else {
        LinkedSnoc(head, kept, cur);
        prev', kept', at' := cur, kept + [cur], at + [m];
      }
    }

    /**
     * Unlinks every override that should go: what stays keeps its order, and what
     * goes no longer points into the list.
     */
    method UnregisterMatching(removes: Override -> bool)
      requires ListValid()
      modifies this`head, this`list, list
      ensures ListValid()
      ensures list == Without(old(list), removes)
      ensures Cleared(old(list), |old(list)|, removes)
    {
      ghost var all := list;
      ghost var m: nat, at: seq<nat> := 0, [];
      ghost var kept: seq<Override> := [];
      var prev: Override? := null;
      var cur := head;
      while cur != null
        invariant Processed(all, m, kept, at, removes)
        invariant Between(all, m, kept, prev, cur) && Cleared(all, m, removes)
        decreases |all| - m
      {
        prev, cur, kept, at := Visit(prev, cur, removes, all, m, kept, at);
        m := m + 1;
      }
      assert all[..m] == all;
      KeptApart(all, m, kept, at, removes);
      list := kept;
    }

    method Unregister(which: Override)
      requires Valid()
      modifies this, list
      ensures Valid() && slot == lastUnused == INVALID_ENTRY
      ensures list == Without(old(list), n => n == which)
      ensures forall e, c :: Search(list, e, c) == if Search(old(list), e, c) == which then null else Search(old(list), e, c)
      ensures which in old(list) ==> which.next == null
    {
      ghost var all := list;
      InvalidateCache();
      UnregisterMatching(n => n == which);
      forall e, c ensures Search(list, e, c) == if Search(all, e, c) == which then null else Search(all, e, c) {
        SearchWithout(all, n => n == which, e, c);
      }
    }

    method UnregisterAllForEndpoint(e: nat)
      requires Valid()
      modifies this, list
      ensures Valid() && slot == lastUnused == INVALID_ENTRY
      ensures list == Without(old(list), (n: Override) => n.MatchesEndpoint(e))
      ensures Cleared(old(list), |old(list)|, (n: Override) => n.MatchesEndpoint(e))
      ensures forall n :: n in list <==> n in old(list) && n.endpoint != Some(e)
      ensures forall f, c :: var n := Search(old(list), f, c);
                             Search(list, f, c) == if n != null && n.endpoint == Some(e) then null else n
    {
      ghost var all, removes := list, (n: Override) => n.MatchesEndpoint(e);
      InvalidateCache();
      UnregisterMatching((n: Override) => n.MatchesEndpoint(e));
      forall n ensures n in list <==> n in all && n.endpoint != Some(e) {
        WithoutIn(all, removes, n);
      }
      forall f, c ensures var n := Search(all, f, c); Search(list, f, c) == if n != null && n.endpoint == Some(e) then null else n {
        SearchWithout(all, removes, f, c);
      }
    }

    /** Whether a registered override overlaps the given one. */
    method HasOverlap(which: Override) returns (found: bool)
      requires ListValid()
      ensures found == exists i :: 0 <= i < |list| && list[i].Overlaps(which)
    {
      ghost var m: nat := 0;
      var cur := head;
      while cur != null
        invariant LinkedFrom(cur, list, m)
        invariant forall i :: 0 <= i < m ==> !list[i].Overlaps(which)
        decreases |list| - m
      {
        NextNode(cur, list, m);
        if cur.Overlaps(which) {
          return true;
        }
        cur, m := cur.next, m + 1;
      }
      return false;
    }

    /** The linear search of the list. */
    method Find(e: nat, c: nat) returns (found: Override?)
      requires ListValid()
      ensures found == Search(list, e, c)
    {
      ghost var m: nat := 0;
      var cur := head;
      while cur != null
        invariant LinkedFrom(cur, list, m)
        invariant forall i :: 0 <= i < m ==> !list[i].Matches(e, c)
        decreases |list| - m
      {
        NextNode(cur, list, m);
        if cur.Matches(e, c) {
          SearchUnique(list, e, c, m);
          return cur;
        }
        cur, m := cur.next, m + 1;
      }
      SearchNone(list, e, c);
      return null;
    }

    /** Adds an override in front unless it overlaps a registered one, which it does if it is registered already. */
    method Register(which: Override) returns (added: bool)
      requires Valid()
      modifies this, which
      ensures Valid() && slot == lastUnused == INVALID_ENTRY
      ensures added == forall i :: 0 <= i < |old(list)| ==> !old(list)[i].Overlaps(which)
      ensures list == if added then [which] + old(list) else old(list)
      ensures forall e, c :: Search(list, e, c) == if added && Answers(which, e, c) then which else Search(old(list), e, c)
      ensures !added ==> which.next == old(which.next) && head == old(head)
    {
      InvalidateCache();
      var clash := HasOverlap(which);
      if clash {
        return false;
      }
      assert which.Overlaps(which);
      which.next := head;
      assert Linked(which.next, list, null);
      LinkedCons(list, which);
      head, list := which, [which] + list;
      return true;
    }

    /**
     * The override for a cluster, from the cache or by searching the list and
     * remembering the outcome. The pair of invalid ids marks an empty cache entry,
     * so only for that pair may the answer differ from the search.
     */
    method Get(e: nat, c: nat) returns (found: Override?)
      requires Valid()
      modifies this`slot, this`lastUnused
      ensures Valid()
      ensures found == if old(lastUnused).Matches(e, c) then null else Search(list, e, c)
      ensures (e, c) != (INVALID_ENDPOINT, INVALID_CLUSTER) ==> found == Search(list, e, c)
      ensures (e, c) == (INVALID_ENDPOINT, INVALID_CLUSTER) ==>
                (found == Search(list, e, c) <==> !old(lastUnused).Matches(e, c) || Search(list, e, c) == null)
    {
      var cached := CachedGet(e, c);
      match cached
      case DefinitelyUnused => return null;
      case DefinitelyUsed(accessor) => return accessor;
      case CacheMiss =>
        found := Find(e, c);
        if found != null {
          slot := CacheEntry(e, c, found);
        } else {
          lastUnused := CacheEntry(e, c, null);
        }
    }
  }

  /** The pair of invalid ids: the search finds the override that was just registered, and the lookup does not. */
  method InvalidPairMissed() returns (registry: Registry, which: Override, found: Override?)
    ensures registry.list == [which] && Search(registry.list, INVALID_ENDPOINT, INVALID_CLUSTER) == which
    ensures found == null
  {
    registry := new Registry();
    which := new Override(None, INVALID_CLUSTER);
    var added := registry.Register(which);
    found := registry.Get(INVALID_ENDPOINT, INVALID_CLUSTER);
    SearchUnique([which], INVALID_ENDPOINT, INVALID_CLUSTER, 0);
  }
}
