/**
 * ClusterStateCache: what the client knows of every cluster, and which data version
 * it may claim for it. A version is pending while the cluster is being reported and
 * committed once the report has moved on.
 */
module ClusterStateCache {
  import opened Ids
  import opened VersionFilters
  import ListEncoder
  import TlvWriter

  /** What is kept of an attribute: a status, its data, or only the size of either. */
  datatype AttributeState =
    | Status(status: nat, clusterStatus: Option<nat>)
    | Data(value: TlvWriter.Elem)
    | SizeOnly(bytes: nat)
  {
    /** The size on the wire. */
    function Size(): nat {
      match this
      case Status(_, clusterStatus) => if clusterStatus.Some? then 8 else 5
      case Data(value) => TlvWriter.Size(value)
      case SizeOnly(bytes) => bytes
    }
  }

  /** A status is counted with the bytes that it takes as a structure of one-byte numbers. */
  lemma StatusSize(status: nat, clusterStatus: Option<nat>)
    requires status <= 0xFF && (clusterStatus.Some? ==> clusterStatus.value <= 0xFF)
    ensures Status(status, clusterStatus).Size() ==
            TlvWriter.Size(TlvWriter.Node(TlvWriter.Anonymous, TlvWriter.Structure,
                                          [ListEncoder.Unsigned(0, status)]
                                          + if clusterStatus.Some? then [ListEncoder.Unsigned(1, clusterStatus.value)] else []))
  {
    var first, second := ListEncoder.Unsigned(0, status), if clusterStatus.Some? then [ListEncoder.Unsigned(1, clusterStatus.value)] else [];
    var open, close := [TlvWriter.Open(TlvWriter.Anonymous, TlvWriter.Structure)], [TlvWriter.Close];
    TlvWriter.FlatAllAppend([first], second);
    TlvWriter.FlatOne(first);
    TlvWriter.BytesAppend(open + TlvWriter.FlatAll([first] + second), close);
    TlvWriter.BytesAppend(open, TlvWriter.FlatAll([first] + second));
    TlvWriter.BytesAppend(TlvWriter.Flat(first), TlvWriter.FlatAll(second));
    assert open[1..] == [] && close[1..] == [] && TlvWriter.Flat(first)[1..] == [];
    if clusterStatus.Some? {
      TlvWriter.FlatOne(second[0]);
      assert second == [second[0]] && TlvWriter.Flat(second[0])[1..] == [];
    }
  }

  /** What the cache keeps of a state, depending on whether it keeps data. */
  function Kept(state: AttributeState, cacheData: bool): AttributeState {
    if cacheData then state else SizeOnly(state.Size())
  }

  datatype ClusterState = ClusterState(attributes: map<nat, AttributeState>, pending: Option<nat>, committed: Option<nat>)

  datatype VersionResult = InvalidArgument | KeyNotFound | Version(version: Option<nat>)

  const NO_STATE := ClusterState(map[], None, None)

  const NO_PATH := ClusterPath(INVALID_ENDPOINT, INVALID_CLUSTER)

  type Cache = map<ClusterPath, ClusterState>

  /** The state of a cluster, created empty if there is none, as indexing a map does. */
  function At(cache: Cache, c: ClusterPath): ClusterState {
    if c in cache then cache[c] else NO_STATE
  }

  ghost predicate Covered(paths: set<PathParams>, c: ClusterPath) {
    exists p :: p in paths && p.CoversCluster(c)
  }

  /** `CommitPendingDataVersion` for the cluster reported last. */
  function Commit(cache: Cache, last: ClusterPath): Cache {
    if !last.IsValid() then cache
    else
      var s := At(cache, last);
      cache[last := if s.pending.Some? then s.(committed := s.pending, pending := None) else s]
  }

  /** Data of a cluster arrives: its committed version goes, and that of the cluster before is committed. */
  function MoveOn(cache: Cache, last: ClusterPath, c: ClusterPath): Cache {
    var withdrawn := cache[c := At(cache, c).(committed := None)];
    if last == c then withdrawn else Commit(withdrawn, last)
  }

  function Pend(cache: Cache, c: ClusterPath, covered: bool, version: Option<nat>): Cache {
    if covered then cache[c := At(cache, c).(pending := version)] else cache
  }

  /** What is kept of an attribute, if anything. */
  function AttributeOf(cache: Cache, path: AttributePath): Option<AttributeState> {
    var attributes := At(cache, path.OfCluster()).attributes;
    if path.attribute in attributes then Some(attributes[path.attribute]) else None
  }

  function Store(cache: Cache, path: AttributePath, state: AttributeState): Cache {
    var s := At(cache, path.OfCluster());
    cache[path.OfCluster() := s.(attributes := s.attributes[path.attribute := state])]
  }

  // ---------------------------------------------------------------------------
  // Filter entries
  // ---------------------------------------------------------------------------

  /** The size of the attributes under the given ids. */
  ghost function SizeOf(attributes: map<nat, AttributeState>, ids: set<nat>): nat
    requires ids <= attributes.Keys
  {
    if ids == {} then 0
    else
      var id :| id in ids;
      attributes[id].Size() + SizeOf(attributes, ids - {id})
  }

  /** The size does not depend on the order in which attributes are counted. */
  lemma {:induction false} SizeOfAny(attributes: map<nat, AttributeState>, ids: set<nat>, id: nat)
    requires ids <= attributes.Keys && id in ids
    ensures SizeOf(attributes, ids) == attributes[id].Size() + SizeOf(attributes, ids - {id})
    decreases ids
  {
    var first :| first in ids && SizeOf(attributes, ids) == attributes[first].Size() + SizeOf(attributes, ids - {first});
    if first != id {
      SizeOfAny(attributes, ids - {first}, id);
      SizeOfAny(attributes, ids - {id}, first);
      assert ids - {first} - {id} == ids - {id} - {first};
    }
  }

  /** The entry of a cluster with a committed version and some data. */
  ghost predicate IsEntry(cache: Cache, e: Entry) {
    && e.cluster in cache && cache[e.cluster].committed == Some(e.version)
    && e.size == SizeOf(cache[e.cluster].attributes, cache[e.cluster].attributes.Keys) && e.size > 0
  }

  method ClusterSize(attributes: map<nat, AttributeState>) returns (size: nat)
    ensures size == SizeOf(attributes, attributes.Keys)
  {
    size := 0;
    var left := attributes.Keys;
    while left != {}
      invariant left <= attributes.Keys
      invariant size + SizeOf(attributes, left) == SizeOf(attributes, attributes.Keys)
      decreases left
    {
      var id :| id in left;
      SizeOfAny(attributes, left, id);
      size := size + attributes[id].Size();
      left := left - {id};
    }
  }

  // ---------------------------------------------------------------------------
  // The history that versions are judged by
  // ---------------------------------------------------------------------------

  /**
   * The data report that came last for a cluster: its version, whether a requested
   * path covered the whole cluster then, and whether data of another cluster or the
   * end of the report followed.
   */
  datatype Latest = Latest(version: Option<nat>, covered: bool, settled: bool)

  type History = map<ClusterPath, Latest>

  ghost function Settle(h: History): History {
    map c | c in h :: h[c].(settled := true)
  }

  /**
   * A committed version means that data of another cluster or the end of the report
   * followed the last data of its cluster, and it came with that data if that was covered.
   */
  ghost predicate CommittedSound(cache: Cache, h: History) {
    forall c :: c in cache && cache[c].committed.Some? ==>
      c in h && h[c].settled && (h[c].covered ==> h[c].version == cache[c].committed)
  }

  /** A pending version came with the last data of its cluster if that was covered. */
  ghost predicate PendingSound(cache: Cache, h: History) {
    forall c :: c in cache && cache[c].pending.Some? ==>
      c in h && (h[c].covered ==> h[c].version == cache[c].pending)
  }

  /** No version is pending but that of the cluster reported last. */
  ghost predicate OnlyLastPending(cache: Cache, last: ClusterPath) {
    forall c :: c in cache && c.IsValid() && cache[c].pending.Some? ==> c == last
  }

  /** Every version belongs to covered data, and every pending one to a cluster that is still covered. */
  ghost predicate AllCovered(cache: Cache, h: History, paths: set<PathParams>) {
    forall c :: c in cache && c.IsValid() && c in h ==>
      && (cache[c].committed.Some? ==> h[c].covered)
      && (cache[c].pending.Some? ==> h[c].covered && Covered(paths, c))
  }

  /** The version of covered data is held: committed once the data is settled, and pending before. */
  ghost predicate Complete(cache: Cache, last: ClusterPath, h: History) {
    forall c :: c in h && c.IsValid() && h[c].covered ==>
      && c in cache
      && if h[c].settled then cache[c].committed == h[c].version else c == last && cache[c].pending == h[c].version
  }

  /**
   * The cluster being reported has no committed version, and a version came with the last
   * data of its cluster if that data was covered. It always was as long as requests are
   * finished between reports (`bracketed`).
   */
  ghost predicate Held(cache: Cache, last: ClusterPath, paths: set<PathParams>, h: History, bracketed: bool) {
    && (last.IsValid() ==> At(cache, last).committed.None?)
    && (forall c :: c in cache && !c.IsValid() ==> cache[c].committed.None?)
    && CommittedSound(cache, h) && PendingSound(cache, h)
    && (bracketed ==> OnlyLastPending(cache, last) && AllCovered(cache, h, paths))
  }

  /** What holds in every reachable state; bracketed, the version of covered data is always held. */
  ghost predicate Sound(cache: Cache, last: ClusterPath, paths: set<PathParams>, h: History, bracketed: bool) {
    Held(cache, last, paths, h, bracketed) && (bracketed ==> Complete(cache, last, h))
  }

  /** Committing the pending version of a settled cluster is sound. */
  lemma CommitSound(cache: Cache, h: History, paths: set<PathParams>, last: ClusterPath)
    requires CommittedSound(cache, h) && PendingSound(cache, h)
    requires last in h ==> h[last].settled
    ensures CommittedSound(Commit(cache, last), h) && PendingSound(Commit(cache, last), h)
    ensures AllCovered(cache, h, paths) ==> AllCovered(Commit(cache, last), h, paths)
  {
  }

  lemma SettleSound(cache: Cache, h: History, paths: set<PathParams>)
    requires CommittedSound(cache, h) && PendingSound(cache, h)
    ensures CommittedSound(cache, Settle(h)) && PendingSound(cache, Settle(h))
    ensures AllCovered(cache, h, paths) ==> AllCovered(cache, Settle(h), paths)
  {
  }

  lemma MorePathsSound(cache: Cache, last: ClusterPath, paths: set<PathParams>, more: set<PathParams>, h: History, bracketed: bool)
    requires Sound(cache, last, paths, h, bracketed) && paths <= more
    ensures Sound(cache, last, more, h, bracketed)
  {
    assert forall c :: Covered(paths, c) ==> Covered(more, c);
  }

  lemma WithdrawSound(cache: Cache, h: History, paths: set<PathParams>, c: ClusterPath)
    requires CommittedSound(cache, h) && PendingSound(cache, h)
    ensures var withdrawn := cache[c := At(cache, c).(committed := None)];
            && CommittedSound(withdrawn, h) && PendingSound(withdrawn, h)
            && (AllCovered(cache, h, paths) ==> AllCovered(withdrawn, h, paths))
  {
  }

  /** Once the report has moved on from a cluster, or ended, the version of covered data is committed. */
  lemma CommitComplete(cache: Cache, last: ClusterPath, h: History)
    requires Complete(cache, last, h) && PendingSound(cache, h) && (last.IsValid() ==> At(cache, last).committed.None?)
    ensures forall c :: c in h && c.IsValid() && h[c].covered ==>
              c in Commit(cache, last) && Commit(cache, last)[c].committed == h[c].version
  {
  }

  /** The same before data of a cluster, for all clusters but that. */
  lemma MoveOnComplete(cache: Cache, last: ClusterPath, h: History, c: ClusterPath)
    requires Complete(cache, last, h) && PendingSound(cache, h) && (last.IsValid() ==> At(cache, last).committed.None?)
    ensures forall d :: d in h && d != c && d.IsValid() && h[d].covered ==>
              d in MoveOn(cache, last, c) && MoveOn(cache, last, c)[d].committed == h[d].version
  {
  }

  lemma ReportComplete(cache: Cache, h: History, paths: set<PathParams>, path: AttributePath, version: Option<nat>, state: AttributeState)
    requires path.OfCluster() in cache
    requires forall d :: d in h && d != path.OfCluster() && d.IsValid() && h[d].covered ==> d in cache && cache[d].committed == h[d].version
    ensures var c := path.OfCluster();
            var covered := Covered(paths, c);
            Complete(Store(Pend(cache, c, covered, version), path, state), c, Settle(h)[c := Latest(version, covered, false)])
  {
  }

  lemma MoveOnSound(cache: Cache, last: ClusterPath, paths: set<PathParams>, h: History, c: ClusterPath, bracketed: bool)
    requires Held(cache, last, paths, h, bracketed)
    ensures Held(MoveOn(cache, last, c), c, paths, Settle(h), bracketed)
    ensures c in MoveOn(cache, last, c) && MoveOn(cache, last, c)[c].committed.None?
  {
    var withdrawn := cache[c := At(cache, c).(committed := None)];
    SettleSound(cache, h, paths);
    WithdrawSound(cache, Settle(h), paths, c);
    CommitSound(withdrawn, Settle(h), paths, last);
  }

  lemma PendSound(cache: Cache, h: History, paths: set<PathParams>, c: ClusterPath, version: Option<nat>, bracketed: bool)
    requires Held(cache, c, paths, h, bracketed)
    requires c in cache && cache[c].committed.None?
    ensures var covered := Covered(paths, c);
            Held(Pend(cache, c, covered, version), c, paths, h[c := Latest(version, covered, false)], bracketed)
  {
  }

  lemma StoreSound(cache: Cache, last: ClusterPath, paths: set<PathParams>, h: History, path: AttributePath,
                   state: AttributeState, bracketed: bool)
    requires Held(cache, last, paths, h, bracketed)
    ensures Held(Store(cache, path, state), last, paths, h, bracketed)
    ensures Complete(cache, last, h) ==> Complete(Store(cache, path, state), last, h)
  {
  }

  /** A report of data keeps versions sound, keeps pending to the cluster being reported, and leaves it uncommitted. */
  lemma ReportSound(cache: Cache, last: ClusterPath, paths: set<PathParams>, h: History, path: AttributePath,
                    version: Option<nat>, state: AttributeState, bracketed: bool)
    requires Sound(cache, last, paths, h, bracketed)
    ensures var c := path.OfCluster();
            var covered := Covered(paths, c);
            Sound(Store(Pend(MoveOn(cache, last, c), c, covered, version), path, state), c, paths,
                  Settle(h)[c := Latest(version, covered, false)], bracketed)
  {
    var c := path.OfCluster();
    var covered := Covered(paths, c);
    MoveOnSound(cache, last, paths, h, c, bracketed);
    PendSound(MoveOn(cache, last, c), Settle(h), paths, c, version, bracketed);
    StoreSound(Pend(MoveOn(cache, last, c), c, covered, version), c, paths,
               Settle(h)[c := Latest(version, covered, false)], path, state, bracketed);
    if bracketed {
      MoveOnComplete(cache, last, h, c);
      ReportComplete(MoveOn(cache, last, c), h, paths, path, version, state);
    }
  }

  class ClusterStateCache {
    const cacheData: bool
    var cache: Cache
    var lastReport: ClusterPath
    var requestPaths: set<PathParams>
    ghost var history: History
    ghost var bracketed: bool

    ghost predicate Valid()
      reads this
    {
      Sound(cache, lastReport, requestPaths, history, bracketed)
    }

    constructor (cacheData: bool)
      ensures Valid() && bracketed && cache == map[] && requestPaths == {} && history == map[]
    {
      this.cacheData := cacheData;
      cache, lastReport, requestPaths := map[], NO_PATH, {};
      history, bracketed := map[], true;
    }

    method CommitPendingDataVersion()
      modifies this`cache
      ensures cache == Commit(old(cache), lastReport)
    {
      if !lastReport.IsValid() {
        return;
      }
      var s := At(cache, lastReport);
      if s.pending.Some? {
        s := s.(committed := s.pending, pending := None);
      }
      cache := cache[lastReport := s];
    }

    method OnReportBegin()
      requires Valid()
      modifies this`lastReport, this`bracketed
      ensures Valid() && lastReport == NO_PATH
      ensures bracketed == (old(bracketed) && !old(lastReport).IsValid())
    {
      bracketed := bracketed && !lastReport.IsValid();
      lastReport := NO_PATH;
    }

    method OnReportEnd()
      requires Valid()
      modifies this`cache, this`lastReport, this`history
      ensures Valid() && lastReport == NO_PATH
      ensures cache == Commit(old(cache), old(lastReport)) && history == Settle(old(history))
    {
      SettleSound(cache, history, requestPaths);
      CommitSound(cache, Settle(history), requestPaths, lastReport);
      if bracketed {
        CommitComplete(cache, lastReport, history);
      }
      history := Settle(history);
      CommitPendingDataVersion();
      lastReport := NO_PATH;
    }

    /** Whether a requested path asks for every attribute of the cluster. */
    method FindCovering(c: ClusterPath) returns (found: bool)
      ensures found == Covered(requestPaths, c)
    {
      var left := requestPaths;
      while left != {}
        invariant left <= requestPaths
        invariant forall p :: p in requestPaths && p !in left ==> !p.CoversCluster(c)
        decreases left
      {
        var p :| p in left;
        if p.CoversCluster(c) {
          return true;
        }
        left := left - {p};
      }
      return false;
    }

    method WithdrawVersion(c: ClusterPath)
      modifies this`cache
      ensures cache == MoveOn(old(cache), lastReport, c)
    {
      cache := cache[c := At(cache, c).(committed := None)];
      if lastReport.IsValid() && lastReport != c {
        CommitPendingDataVersion();
      }
    }

    /** Data for an attribute: withdraws the committed version and commits that of the cluster before. */
    method UpdateCacheWithData(path: AttributePath, version: Option<nat>, value: TlvWriter.Elem)
      requires Valid()
      modifies this`cache, this`lastReport, this`history
      ensures Valid() && lastReport == path.OfCluster()
      ensures var covered := Covered(requestPaths, lastReport);
              && history == Settle(old(history))[lastReport := Latest(version, covered, false)]
              && cache == Store(Pend(MoveOn(old(cache), old(lastReport), lastReport), lastReport, covered, version),
                                path, Kept(Data(TlvWriter.Retag(value, TlvWriter.Anonymous)), cacheData))
    {
      var c := path.OfCluster();
      WithdrawVersion(c);
      var covered := FindCovering(c);
      if covered {
        cache := cache[c := At(cache, c).(pending := version)];
      }
      var data := TlvWriter.Retag(value, TlvWriter.Anonymous);
      var state := if cacheData then Data(data) else SizeOnly(TlvWriter.Size(data));
      cache := cache[c := At(cache, c).(attributes := At(cache, c).attributes[path.attribute := state])];
      ReportSound(old(cache), lastReport, requestPaths, history, path, version, state, bracketed);
      history := Settle(history)[c := Latest(version, covered, false)];
      lastReport := c;
    }

    /** A status for an attribute. */
    method UpdateCacheWithStatus(path: AttributePath, status: nat, clusterStatus: Option<nat>)
      requires Valid()
      modifies this`cache
      ensures Valid()
      ensures cache == Store(old(cache), path, Kept(Status(status, clusterStatus), cacheData))
    {
      var c := path.OfCluster();
      var state := if cacheData then Status(status, clusterStatus) else SizeOnly(Status(status, clusterStatus).Size());
      cache := cache[c := At(cache, c).(attributes := At(cache, c).attributes[path.attribute := state])];
    }

    /** The request is over: none of its paths counts any more. */
    method OnDone()
      requires Valid()
      modifies this`requestPaths, this`bracketed
      ensures Valid() && requestPaths == {}
      ensures bracketed == (old(bracketed) && !lastReport.IsValid())
    {
      requestPaths := {};
      bracketed := bracketed && !lastReport.IsValid();
    }

    method ClearEndpoint(endpoint: nat)
      requires Valid()
      modifies this`cache, this`history
      ensures Valid()
      ensures cache == map c | c in old(cache) && c.endpoint != endpoint :: old(cache)[c]
      ensures history == map c | c in old(history) && c.endpoint != endpoint :: old(history)[c]
    {
      cache := map c | c in cache && c.endpoint != endpoint :: cache[c];
      history := map c | c in history && c.endpoint != endpoint :: history[c];
    }

    method ClearCluster(c: ClusterPath)
      requires Valid()
      modifies this`cache, this`history
      ensures Valid()
      ensures cache == old(cache) - {c} && history == old(history) - {c}
    {
      cache := cache - {c};
      history := history - {c};
    }

    method ClearAttribute(path: AttributePath)
      requires Valid()
      modifies this`cache
      ensures Valid()
      ensures var c := path.OfCluster();
              cache == if c !in old(cache) then old(cache)
                       else old(cache)[c := At(old(cache), c).(attributes := At(old(cache), c).attributes - {path.attribute})]
    {
      var c := path.OfCluster();
      if c !in cache {
        return;
      }
      cache := cache[c := cache[c].(attributes := cache[c].attributes - {path.attribute})];
    }

    /** What is kept of an attribute. */
    method GetAttributeState(path: AttributePath) returns (state: Option<AttributeState>)
      ensures state == AttributeOf(cache, path)
    {
      var c := path.OfCluster();
      if c !in cache {
        return None;
      }
      if path.attribute !in cache[c].attributes {
        return None;
      }
      return Some(cache[c].attributes[path.attribute]);
    }

    /**
     * The committed version of a cluster. It came with the last data of the cluster, and
     * other data or the end of the report followed, if and only if that data was covered.
     * Between whole reports there is one exactly for such data, and it is its version.
     */
    method GetVersion(c: ClusterPath) returns (r: VersionResult)
      requires Valid()
      ensures r.InvalidArgument? <==> c.endpoint == INVALID_ENDPOINT || c.cluster == INVALID_CLUSTER
      ensures r.KeyNotFound? <==> !r.InvalidArgument? && c !in cache
      ensures r.Version? ==> r.version == cache[c].committed
      ensures r.Version? && c == lastReport ==> r.version.None?
      ensures r.Version? && r.version.Some? ==>
                c in history && (history[c] == Latest(r.version, true, true) <==> history[c].covered)
      ensures bracketed && r.Version? ==>
                r.version == if c in history && history[c].covered && history[c].settled then history[c].version else None
    {
      if !c.IsValid() {
        return InvalidArgument;
      }
      if c !in cache {
        return KeyNotFound;
      }
      return Version(cache[c].committed);
    }

    /** The entries of all committed clusters that have data, largest first. */
    method GetSortedFilters() returns (es: seq<Entry>)
      ensures Descending(es) && Distinct(es)
      ensures forall e :: e in es <==> IsEntry(cache, e)
    {
      var found: seq<Entry> := [];
      var left := cache.Keys;
      while left != {}
        invariant left <= cache.Keys && Distinct(found)
        invariant forall e :: e in found <==> IsEntry(cache, e) && e.cluster !in left
        decreases left
      {
        var c :| c in left;
        left := left - {c};
        if cache[c].committed.None? {
          continue;
        }
        var size := ClusterSize(cache[c].attributes);
        if size == 0 {
          continue;
        }
        found := found + [Entry(c, cache[c].committed.value, size)];
      }
      es := Sort(found);
      SamePermuted(found, es);
    }

    /** Keeps the requested paths that cover clusters as a whole with no other path naming an attribute there. */
    method AdmitPaths(paths: seq<PathParams>)
      requires Valid()
      modifies this`requestPaths
      ensures Valid() && requestPaths == old(requestPaths) + set p | p in paths && Admitted(paths, p)
    {
      for i := 0 to |paths|
        invariant requestPaths == old(requestPaths) + set p | p in paths[..i] && Admitted(paths, p)
      {
        if paths[i].WildcardAttribute() {
          var meets := MeetsSpecific(paths, paths[i]);
          if !meets {
            requestPaths := requestPaths + {paths[i]};
          }
        }
        assert paths[..i + 1] == paths[..i] + [paths[i]];
      }
      assert paths[..|paths|] == paths;
      MorePathsSound(cache, lastReport, old(requestPaths), requestPaths, history, bracketed);
    }

    /**
     * Adds the version filters for a request to a builder: of the committed clusters with
     * data that the request reaches, the largest ones, as many as fit.
     */
    method OnUpdateDataVersionFilterList(w: TlvWriter.Writer, paths: seq<PathParams>)
      returns (w': TlvWriter.Writer, encoded: bool, ghost wanted: seq<Entry>)
      requires Valid()
      modifies this`requestPaths
      ensures Valid() && requestPaths == old(requestPaths) + set p | p in paths && Admitted(paths, p)
      ensures Descending(wanted) && Distinct(wanted)
      ensures forall e :: e in wanted <==> IsEntry(cache, e) && Reached(paths, e.cluster)
      ensures var n := Fitting(wanted, w.remaining);
              EncodedBytes(wanted[..n]) <= w.remaining && w' == WithFilters(w, wanted[..n]) && encoded == (n > 0)
    {
      AdmitPaths(paths);
      var es := GetSortedFilters();
      w', encoded := EncodeFilters(es, paths, w);
      wanted := Wanted(es, paths);
      WantedSorted(es, paths);
      forall e ensures e in wanted <==> IsEntry(cache, e) && Reached(paths, e.cluster) {
        WantedIn(es, paths, e);
      }
    }
  }

  /**
   * Finishing a request with a version pending is never safe: from every such state, data
   * that is not covered makes the cache come to claim the old version for the new data.
   */
  method StaleVersion(cc: ClusterStateCache, path: AttributePath, newer: Option<nat>, value: TlvWriter.Elem) returns (r: VersionResult)
    requires cc.Valid() && path.OfCluster().IsValid()
    requires At(cc.cache, path.OfCluster()).pending.Some?
    modifies cc
    ensures r == Version(old(At(cc.cache, path.OfCluster()).pending))
    ensures path.OfCluster() in cc.history && cc.history[path.OfCluster()] == Latest(newer, false, true)
  {
    cc.OnDone();
    cc.OnReportBegin();
    cc.UpdateCacheWithData(path, newer, value);
    cc.OnReportEnd();
    r := cc.GetVersion(path.OfCluster());
  }

  /** Such a state is reached by a covered report that the end of the request cuts off. */
  method StaleRun(value: TlvWriter.Elem) returns (cc: ClusterStateCache, r: VersionResult)
    ensures r == Version(Some(1))
    ensures ClusterPath(1, 6) in cc.history && cc.history[ClusterPath(1, 6)] == Latest(Some(2), false, true)
  {
    cc := new ClusterStateCache(true);
    var request := [PathParams(1, 6, INVALID_ATTRIBUTE)];
    cc.AdmitPaths(request);
    assert Admitted(request, request[0]) && request[0].CoversCluster(ClusterPath(1, 6));
    cc.OnReportBegin();
    cc.UpdateCacheWithData(AttributePath(1, 6, 0), Some(1), value);
    r := StaleVersion(cc, AttributePath(1, 6, 0), Some(2), value);
  }

  // ---------------------------------------------------------------------------
  // Bracketed runs
  // ---------------------------------------------------------------------------

  /** What may happen to the cache within a report. */
  datatype Update =
    | DataUpdate(path: AttributePath, version: Option<nat>, value: TlvWriter.Elem)
    | StatusUpdate(path: AttributePath, status: nat, clusterStatus: Option<nat>)
    | ClearedEndpoint(endpoint: nat)
    | ClearedCluster(cluster: ClusterPath)
    | ClearedAttribute(path: AttributePath)

  /** A request with its reports. */
  datatype Session = Session(paths: seq<PathParams>, reports: seq<seq<Update>>)

  /** What is known of the last data of every cluster after an update. */
  ghost function Told(h: History, paths: set<PathParams>, u: Update): History {
    match u
    case DataUpdate(path, version, _) => Settle(h)[path.OfCluster() := Latest(version, Covered(paths, path.OfCluster()), false)]
    case StatusUpdate(_, _, _) => h
    case ClearedEndpoint(endpoint) => map c | c in h && c.endpoint != endpoint :: h[c]
    case ClearedCluster(cluster) => h - {cluster}
    case ClearedAttribute(_) => h
  }

  ghost function ToldByReport(h: History, paths: set<PathParams>, updates: seq<Update>): History
    decreases |updates|
  {
    if updates == [] then Settle(h) else ToldByReport(Told(h, paths, updates[0]), paths, updates[1..])
  }

  ghost function ToldByReports(h: History, paths: set<PathParams>, reports: seq<seq<Update>>): History
    decreases |reports|
  {
    if reports == [] then h else ToldByReports(ToldByReport(h, paths, reports[0]), paths, reports[1..])
  }

  /** What is known after whole requests; each counts with the paths it admits, the first also with those left over. */
  ghost function ToldBySessions(h: History, paths: set<PathParams>, sessions: seq<Session>): History
    decreases |sessions|
  {
    if sessions == [] then h
    else
      var s := sessions[0];
      ToldBySessions(ToldByReports(h, paths + (set p | p in s.paths && Admitted(s.paths, p)), s.reports), {}, sessions[1..])
  }

  /** What is to be kept of an attribute after an update. */
  function Keeps(before: Option<AttributeState>, cacheData: bool, path: AttributePath, u: Update): Option<AttributeState> {
    match u
    case DataUpdate(p, _, value) => if p == path then Some(Kept(Data(TlvWriter.Retag(value, TlvWriter.Anonymous)), cacheData)) else before
    case StatusUpdate(p, status, clusterStatus) => if p == path then Some(Kept(Status(status, clusterStatus), cacheData)) else before
    case ClearedEndpoint(endpoint) => if path.endpoint == endpoint then None else before
    case ClearedCluster(cluster) => if path.OfCluster() == cluster then None else before
    case ClearedAttribute(p) => if p == path then None else before
  }

  function KeptAfter(before: Option<AttributeState>, cacheData: bool, path: AttributePath, updates: seq<Update>): Option<AttributeState>
    decreases |updates|
  {
    if updates == [] then before else KeptAfter(Keeps(before, cacheData, path, updates[0]), cacheData, path, updates[1..])
  }

  /** Storing changes one attribute, and nothing that is done to versions changes any. */
  lemma StoreReads(cache: Cache, path: AttributePath, state: AttributeState, p: AttributePath)
    ensures AttributeOf(Store(cache, path, state), p) == if p == path then Some(state) else AttributeOf(cache, p)
  {
  }

  lemma VersionsOnly(cache: Cache, last: ClusterPath, c: ClusterPath, covered: bool, version: Option<nat>, p: AttributePath)
    ensures AttributeOf(Pend(MoveOn(cache, last, c), c, covered, version), p) == AttributeOf(cache, p)
  {
  }

  method ApplyUpdate(cc: ClusterStateCache, u: Update)
    requires cc.Valid()
    modifies cc
    ensures cc.Valid() && cc.bracketed == old(cc.bracketed) && cc.requestPaths == old(cc.requestPaths)
    ensures cc.history == Told(old(cc.history), cc.requestPaths, u)
    ensures forall path :: AttributeOf(cc.cache, path) == Keeps(AttributeOf(old(cc.cache), path), cc.cacheData, path, u)
  {
    match u {
      case DataUpdate(path, version, value) =>
        ghost var cache, last, c := cc.cache, cc.lastReport, path.OfCluster();
        cc.UpdateCacheWithData(path, version, value);
        ghost var data := Kept(Data(TlvWriter.Retag(value, TlvWriter.Anonymous)), cc.cacheData);
        ghost var covered := Covered(cc.requestPaths, c);
        forall p ensures AttributeOf(cc.cache, p) == Keeps(AttributeOf(cache, p), cc.cacheData, p, u) {
          VersionsOnly(cache, last, c, covered, version, p);
          StoreReads(Pend(MoveOn(cache, last, c), c, covered, version), path, data, p);
        }
      case StatusUpdate(path, status, clusterStatus) =>
        ghost var cache := cc.cache;
        cc.UpdateCacheWithStatus(path, status, clusterStatus);
        forall p ensures AttributeOf(cc.cache, p) == Keeps(AttributeOf(cache, p), cc.cacheData, p, u) {
          StoreReads(cache, path, Kept(Status(status, clusterStatus), cc.cacheData), p);
        }
      case ClearedEndpoint(endpoint) => cc.ClearEndpoint(endpoint);
      case ClearedCluster(c) => cc.ClearCluster(c);
      case ClearedAttribute(path) => cc.ClearAttribute(path);
    }
  }

  /** A whole report: of every attribute the last thing that was told is kept. */
  method RunReport(cc: ClusterStateCache, updates: seq<Update>)
    requires cc.Valid() && cc.bracketed && !cc.lastReport.IsValid()
    modifies cc
    ensures cc.Valid() && cc.bracketed && !cc.lastReport.IsValid() && cc.requestPaths == old(cc.requestPaths)
    ensures cc.history == ToldByReport(old(cc.history), cc.requestPaths, updates)
    ensures forall path :: AttributeOf(cc.cache, path) == KeptAfter(AttributeOf(old(cc.cache), path), cc.cacheData, path, updates)
  {
    ghost var before, paths := cc.cache, cc.requestPaths;
    cc.OnReportBegin();
    for i := 0 to |updates|
      invariant cc.Valid() && cc.bracketed && cc.requestPaths == paths
      invariant ToldByReport(cc.history, paths, updates[i..]) == ToldByReport(old(cc.history), paths, updates)
      invariant forall path :: KeptAfter(AttributeOf(cc.cache, path), cc.cacheData, path, updates[i..]) ==
                               KeptAfter(AttributeOf(before, path), cc.cacheData, path, updates)
    {
      assert updates[i..][0] == updates[i] && updates[i..][1..] == updates[i + 1..];
      ApplyUpdate(cc, updates[i]);
    }
    cc.OnReportEnd();
  }

  method RunSession(cc: ClusterStateCache, session: Session, w: TlvWriter.Writer)
    requires cc.Valid() && cc.bracketed && !cc.lastReport.IsValid()
    modifies cc
    ensures cc.Valid() && cc.bracketed && !cc.lastReport.IsValid() && cc.requestPaths == {}
    ensures cc.history ==
            ToldByReports(old(cc.history), old(cc.requestPaths) + (set p | p in session.paths && Admitted(session.paths, p)), session.reports)
  {
    var w', encoded, _ := cc.OnUpdateDataVersionFilterList(w, session.paths);
    ghost var h, paths := cc.history, cc.requestPaths;
    for j := 0 to |session.reports|
      invariant cc.Valid() && cc.bracketed && !cc.lastReport.IsValid() && cc.requestPaths == paths
      invariant ToldByReports(cc.history, paths, session.reports[j..]) == ToldByReports(h, paths, session.reports)
    {
      assert session.reports[j..][0] == session.reports[j] && session.reports[j..][1..] == session.reports[j + 1..];
      RunReport(cc, session.reports[j]);
    }
    cc.OnDone();
  }

  /**
   * Requests one after the other, each with whole reports and finished after them: at
   * the end the cache holds a version exactly for the clusters whose last data was
   * covered, and it is the version of that data.
   */
  method RunSessions(cc: ClusterStateCache, sessions: seq<Session>, w: TlvWriter.Writer)
    requires cc.Valid() && cc.bracketed && !cc.lastReport.IsValid()
    modifies cc
    ensures cc.Valid() && cc.bracketed && !cc.lastReport.IsValid()
    ensures cc.history == ToldBySessions(old(cc.history), old(cc.requestPaths), sessions)
    ensures OnlyLastPending(cc.cache, NO_PATH)
    ensures forall c :: c in cc.history && c.IsValid() && cc.history[c].covered ==> c in cc.cache
    ensures forall c :: c in cc.cache && c.IsValid() ==>
              cc.cache[c].committed == if c in cc.history && cc.history[c].covered then cc.history[c].version else None
  {
    for i := 0 to |sessions|
      invariant cc.Valid() && cc.bracketed && !cc.lastReport.IsValid()
      invariant ToldBySessions(cc.history, cc.requestPaths, sessions[i..]) ==
                ToldBySessions(old(cc.history), old(cc.requestPaths), sessions)
    {
      assert sessions[i..][0] == sessions[i] && sessions[i..][1..] == sessions[i + 1..];
      RunSession(cc, sessions[i], w);
    }
  }
}
