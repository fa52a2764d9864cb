/** AccessRestrictionProvider: restrictions on attributes, commands and events, stored per fabric. */
module AccessRestriction {
  import opened Ids
  import opened AccessTypes

  datatype Forbids = AttributeAccess | AttributeWriting | Commands | Events

  /** A restriction; without an id it applies to all of its kind. */
  datatype Restriction = Restriction(forbids: Forbids, id: Option<nat>)

  datatype Entry = Entry(fabric: nat, endpoint: nat, cluster: nat, restrictions: seq<Restriction>)

  const WIFI_NETWORK_MANAGEMENT: nat := 0x451
  const THREAD_BORDER_ROUTER_MANAGEMENT: nat := 0x452
  const THREAD_NETWORK_DIRECTORY: nat := 0x453

  /** Only these clusters may be restricted, and never on the root endpoint. */
  predicate AreRestrictionsAllowed(endpoint: nat, cluster: nat) {
    && endpoint != 0
    && (cluster == WIFI_NETWORK_MANAGEMENT || cluster == THREAD_BORDER_ROUTER_MANAGEMENT || cluster == THREAD_NETWORK_DIRECTORY)
  }

  // ---------------------------------------------------------------------------
  // What restrictions mean
  // ---------------------------------------------------------------------------

  /** The kinds of request that a restriction stops. */
  function Stops(forbids: Forbids): set<RequestType> {
    match forbids
    case AttributeAccess => {AttributeRead, AttributeWrite}
    case AttributeWriting => {AttributeWrite}
    case Commands => {CommandInvoke}
    case Events => {EventRead}
  }

  predicate IsAttributeRequest(kind: RequestType) {
    kind == AttributeRead || kind == AttributeWrite
  }

  /** The restriction applies to a request for one entity; global attributes are exempt. */
  predicate Applies(x: Restriction, r: Request)
    requires r.entity.Some?
  {
    && (x.id.None? || x.id == r.entity)
    && r.kind in Stops(x.forbids)
    && !(IsAttributeRequest(r.kind) && IsGlobalAttribute(r.entity.value))
  }

  predicate EntryApplies(e: Entry, r: Request)
    requires r.entity.Some?
  {
    && e.endpoint == r.endpoint && e.cluster == r.cluster
    && exists j :: 0 <= j < |e.restrictions| && Applies(e.restrictions[j], r)
  }

  predicate Restricted(entries: seq<Entry>, r: Request)
    requires r.entity.Some?
  {
    exists i :: 0 <= i < |entries| && EntryApplies(entries[i], r)
  }

  predicate AllRestrictable(entries: seq<Entry>) {
    forall i :: 0 <= i < |entries| ==> AreRestrictionsAllowed(entries[i].endpoint, entries[i].cluster)
  }

  /** No set of restrictions stops access to a global attribute. */
  lemma GlobalAttributesStayOpen(entries: seq<Entry>, r: Request)
    requires r.entity.Some? && IsAttributeRequest(r.kind) && IsGlobalAttribute(r.entity.value)
    ensures !Restricted(entries, r)
  {
  }

  /** A list restricts at least as much as another if it has every restriction of it. */
  ghost predicate Subsumes(more: seq<Entry>, less: seq<Entry>) {
    forall i, j :: 0 <= i < |less| && 0 <= j < |less[i].restrictions| ==> Holds(more, less[i], less[i].restrictions[j])
  }

  ghost predicate Holds(entries: seq<Entry>, e: Entry, x: Restriction) {
    exists k :: 0 <= k < |entries| && entries[k].endpoint == e.endpoint && entries[k].cluster == e.cluster && x in entries[k].restrictions
  }

  /** More restrictions only ever stop more, wherever they are added. */
  lemma MoreRestrictions(less: seq<Entry>, more: seq<Entry>, r: Request)
    requires r.entity.Some? && Subsumes(more, less) && Restricted(less, r)
    ensures Restricted(more, r)
  {
    var i :| 0 <= i < |less| && EntryApplies(less[i], r);
    var j :| 0 <= j < |less[i].restrictions| && Applies(less[i].restrictions[j], r);
    assert Holds(more, less[i], less[i].restrictions[j]);
    var k :| 0 <= k < |more| && more[k].endpoint == less[i].endpoint && more[k].cluster == less[i].cluster
      && less[i].restrictions[j] in more[k].restrictions;
    var m :| 0 <= m < |more[k].restrictions| && more[k].restrictions[m] == less[i].restrictions[j];
    assert EntryApplies(more[k], r);
  }

  // ---------------------------------------------------------------------------
  // The check
  // ---------------------------------------------------------------------------

  /** What the check answers for the stored entries that it consults. */
  function Verdict(entries: seq<Entry>, r: Request): Error {
    if !AreRestrictionsAllowed(r.endpoint, r.cluster) then NoError
    else if r.kind.UnknownRequest? then InvalidArgument
    else if r.entity.None? then (if r.kind.EventRead? then NoError else InvalidArgument)
    else if Restricted(entries, r) then RestrictedByArl else NoError
  }

  /** What each kind of request is denied by; attributes with a global id are never denied. */
  ghost predicate Denies(x: Restriction, kind: RequestType, id: nat) {
    && x.id in {None, Some(id)}
    && match kind
       case UnknownRequest => false
       case AttributeRead => x.forbids == AttributeAccess && !IsGlobalId(id)
       case AttributeWrite => (x.forbids == AttributeAccess || x.forbids == AttributeWriting) && !IsGlobalId(id)
       case CommandInvoke => x.forbids == Commands
       case EventRead => x.forbids == Events
  }

  ghost predicate IsGlobalId(id: nat) {
    exists suffix :: HasParts(id, 0, suffix) && 0xF000 <= suffix <= 0xFFFE
  }

  lemma DeniesIff(x: Restriction, r: Request)
    requires r.entity.Some?
    ensures Denies(x, r.kind, r.entity.value) <==> Applies(x, r)
  {
    var id := r.entity.value;
    PartsIff(id, MeiVendor(id), MeiSuffix(id));
    IdsIff(id, MeiVendor(id), MeiSuffix(id));
    if suffix :| HasParts(id, 0, suffix) && 0xF000 <= suffix <= 0xFFFE {
      PartsIff(id, 0, suffix);
    }
  }

  /** When the check denies: on a cluster of network management off the root endpoint, by an entry and a restriction for the request. */
  lemma DeniedIff(entries: seq<Entry>, r: Request)
    ensures Verdict(entries, r) == RestrictedByArl <==>
            && r.endpoint != 0 && r.cluster in {0x451, 0x452, 0x453} && r.entity.Some?
            && exists e, x :: e in entries && x in e.restrictions && (e.endpoint, e.cluster) == (r.endpoint, r.cluster)
                              && Denies(x, r.kind, r.entity.value)
    ensures Verdict(entries, r) == InvalidArgument <==>
            && r.endpoint != 0 && r.cluster in {0x451, 0x452, 0x453}
            && (r.kind == UnknownRequest || (r.entity.None? && r.kind != EventRead))
    ensures Verdict(entries, r) in {NoError, RestrictedByArl, InvalidArgument}
  {
    if r.entity.Some? {
      forall x ensures Denies(x, r.kind, r.entity.value) <==> Applies(x, r) {
        DeniesIff(x, r);
      }
      RestrictedIff(entries, r);
    }
  }

  lemma RestrictedIff(entries: seq<Entry>, r: Request)
    requires r.entity.Some?
    ensures Restricted(entries, r) <==>
            exists e, x :: e in entries && x in e.restrictions && (e.endpoint, e.cluster) == (r.endpoint, r.cluster) && Applies(x, r)
  {
    if Restricted(entries, r) {
      var i :| 0 <= i < |entries| && EntryApplies(entries[i], r);
      var j :| 0 <= j < |entries[i].restrictions| && Applies(entries[i].restrictions[j], r);
      assert entries[i] in entries && entries[i].restrictions[j] in entries[i].restrictions;
    }
    if e, x :| e in entries && x in e.restrictions && (e.endpoint, e.cluster) == (r.endpoint, r.cluster) && Applies(x, r) {
      var i :| 0 <= i < |entries| && entries[i] == e;
      var j :| 0 <= j < |e.restrictions| && e.restrictions[j] == x;
      assert EntryApplies(entries[i], r);
    }
  }

  method CheckEntry(e: Entry, r: Request) returns (stopped: bool)
    requires r.entity.Some?
    ensures stopped == EntryApplies(e, r)
  {
    if e.endpoint != r.endpoint || e.cluster != r.cluster {
      return false;
    }
    for j := 0 to |e.restrictions|
      invariant forall k :: 0 <= k < j ==> !Applies(e.restrictions[k], r)
    {
      var x := e.restrictions[j];
      if x.id.Some? && x.id.value != r.entity.value {
        continue;
      }
      match x.forbids {
        case AttributeAccess =>
          if r.kind == AttributeRead || r.kind == AttributeWrite {
            if !IsGlobalAttribute(r.entity.value) {
              return true;
            }
          }
        case AttributeWriting =>
          if r.kind == AttributeWrite {
            if !IsGlobalAttribute(r.entity.value) {
              return true;
            }
          }
        case Commands =>
          if r.kind == CommandInvoke {
            return true;
          }
        case Events =>
          if r.kind == EventRead {
            return true;
          }
      }
    }
    return false;
  }

  method DoCheck(entries: seq<Entry>, r: Request) returns (err: Error)
    ensures err == Verdict(entries, r)
  {
    if !AreRestrictionsAllowed(r.endpoint, r.cluster) {
      return NoError;
    }
    if r.kind == UnknownRequest {
      return InvalidArgument;
    }
    if r.entity.None? {
      return if r.kind == EventRead then NoError else InvalidArgument;
    }
    for i := 0 to |entries|
      invariant forall k :: 0 <= k < i ==> !EntryApplies(entries[k], r)
    {
      var stopped := CheckEntry(entries[i], r);
      if stopped {
        return RestrictedByArl;
      }
    }
    return NoError;
  }

  /** Entries as they are stored for a fabric. */
  function Stamped(entries: seq<Entry>, fabric: nat): (r: seq<Entry>)
    ensures |r| == |entries|
    ensures forall i :: 0 <= i < |r| ==> r[i] == entries[i].(fabric := fabric)
  {
    seq(|entries|, i requires 0 <= i < |entries| => entries[i].(fabric := fabric))
  }

  class AccessRestrictionProvider {
    var commissioningEntries: seq<Entry>
    var fabricEntries: map<nat, seq<Entry>>

    /** Everything stored may be restricted and belongs to the fabric it is stored for. */
    ghost predicate Valid()
      reads this
    {
      && AllRestrictable(commissioningEntries)
      && forall f :: f in fabricEntries ==>
           AllRestrictable(fabricEntries[f]) && forall i :: 0 <= i < |fabricEntries[f]| ==> fabricEntries[f][i].fabric == f
    }

    constructor ()
      ensures Valid() && commissioningEntries == [] && fabricEntries == map[]
    {
      commissioningEntries, fabricEntries := [], map[];
    }

    /** The entries that a request of the subject is checked against. */
    function Consulted(s: Subject): seq<Entry>
      reads this
    {
      if s.isCommissioning then commissioningEntries
      else if s.fabric in fabricEntries then fabricEntries[s.fabric] else []
    }

    /** Replaces the list whole, or leaves all as it was if any entry may not be restricted. */
    method SetCommissioningEntries(entries: seq<Entry>) returns (err: Error)
      requires Valid()
      modifies this`commissioningEntries
      ensures Valid()
      ensures err == if AllRestrictable(entries) then NoError else InvalidArgument
      ensures commissioningEntries == if err == NoError then entries else old(commissioningEntries)
    {
      for i := 0 to |entries|
        invariant forall k :: 0 <= k < i ==> AreRestrictionsAllowed(entries[k].endpoint, entries[k].cluster)
        invariant commissioningEntries == old(commissioningEntries)
      {
        if !AreRestrictionsAllowed(entries[i].endpoint, entries[i].cluster) {
          return InvalidArgument;
        }
      }
      commissioningEntries := entries;
      return NoError;
    }

    /** Replaces the list of a fabric whole, or leaves all as it was; other fabrics never change. */
    method SetEntries(fabric: nat, entries: seq<Entry>) returns (err: Error)
      requires Valid()
      modifies this`fabricEntries
      ensures Valid()
      ensures err == if AllRestrictable(entries) then NoError else InvalidArgument
      ensures fabricEntries == if err == NoError then old(fabricEntries)[fabric := Stamped(entries, fabric)] else old(fabricEntries)
    {
      var updated: seq<Entry> := [];
      for i := 0 to |entries|
        invariant forall k :: 0 <= k < i ==> AreRestrictionsAllowed(entries[k].endpoint, entries[k].cluster)
        invariant |updated| == i && forall k :: 0 <= k < i ==> updated[k] == entries[k].(fabric := fabric)
        invariant fabricEntries == old(fabricEntries)
      {
        if !AreRestrictionsAllowed(entries[i].endpoint, entries[i].cluster) {
          return InvalidArgument;
        }
        updated := updated + [entries[i].(fabric := fabric)];
      }
      assert updated == Stamped(entries, fabric);
      fabricEntries := fabricEntries[fabric := updated];
      return NoError;
    }

    method CheckForCommissioning(r: Request) returns (err: Error)
      ensures err == Verdict(commissioningEntries, r)
    {
      err := DoCheck(commissioningEntries, r);
    }

    /** Looking up a fabric without a list creates an empty one. */
    method Check(s: Subject, r: Request) returns (err: Error)
      requires Valid()
      modifies this`fabricEntries
      ensures Valid()
      ensures fabricEntries == if s.fabric in old(fabricEntries) then old(fabricEntries) else old(fabricEntries)[s.fabric := []]
      ensures err == Verdict(fabricEntries[s.fabric], r)
    {
      if s.fabric !in fabricEntries {
        fabricEntries := fabricEntries[s.fabric := []];
      }
      err := DoCheck(fabricEntries[s.fabric], r);
    }
  }
}
