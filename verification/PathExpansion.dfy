/**
 * What the expansion of requested attribute paths means: the finite tree of
 * endpoints, clusters and attributes, the nested comprehension over it, and the
 * cursor that a resumable iterator moves over the expansion.
 */
module PathExpansion {
  import opened Ids

  datatype Cluster = Cluster(id: nat, attributes: seq<nat>)

  datatype Endpoint = Endpoint(id: nat, enabled: bool, clusters: seq<Cluster>)

  type Tree = seq<Endpoint>

  type Request = seq<PathParams>

  const U16_MAX: nat := 0xFFFF
  const U8_MAX: nat := 0xFF

  /** Attributes that every cluster has and that no attribute metadata lists. */
  const GLOBALS: seq<nat> := [0xFFF8, 0xFFF9, 0xFFFB]

  /** The attribute index whose successor is the 16-bit sentinel 0xFFFF. */
  const LAST_ATTRIBUTE_INDEX: nat := 0xFFFE

  ghost predicate ValidCluster(c: Cluster) {
    && c.id != INVALID_CLUSTER
    && |c.attributes| <= 0xFFFF
    && (forall i :: 0 <= i < |c.attributes| ==>
          c.attributes[i] != INVALID_ATTRIBUTE && c.attributes[i] !in GLOBALS)
    && (forall i, j :: 0 <= i < j < |c.attributes| ==> c.attributes[i] != c.attributes[j])
  }

  ghost predicate ValidEndpoint(e: Endpoint) {
    && (e.enabled ==> e.id != INVALID_ENDPOINT)
    && |e.clusters| <= 0xFF
    && (forall i :: 0 <= i < |e.clusters| ==> ValidCluster(e.clusters[i]))
    && (forall i, j :: 0 <= i < j < |e.clusters| ==> e.clusters[i].id != e.clusters[j].id)
  }

  /**
   * The tables hold at most as many rows as their counters can count, and an id
   * names one row. A disabled endpoint may have any id.
   */
  ghost predicate ValidTree(t: Tree) {
    && |t| <= 0xFFFF
    && (forall i :: 0 <= i < |t| ==> ValidEndpoint(t[i]))
    && (forall i, j :: 0 <= i < j < |t| && t[i].enabled && t[j].enabled ==> t[i].id != t[j].id)
  }

  // ---------------------------------------------------------------------------
  // Looking up ids in the tables
  // ---------------------------------------------------------------------------

  /** The first enabled endpoint with the id at or after `i`, or the sentinel. */
  function EndpointIndex(t: Tree, id: nat, i: nat): (r: nat)
    requires i <= |t| <= U16_MAX
    ensures r == U16_MAX || i <= r < |t|
    ensures r != U16_MAX ==> t[r].enabled && t[r].id == id
    ensures forall j :: i <= j < |t| && (r == U16_MAX || j < r) ==> !(t[j].enabled && t[j].id == id)
    decreases |t| - i
  {
    if i == |t| then U16_MAX
    else if t[i].enabled && t[i].id == id then i
    else EndpointIndex(t, id, i + 1)
  }

  /** The first cluster with the id at or after `i`, or the sentinel. */
  function ClusterIndex(cs: seq<Cluster>, id: nat, i: nat): (r: nat)
    requires i <= |cs| <= U8_MAX
    ensures r == U8_MAX || i <= r < |cs|
    ensures r != U8_MAX ==> cs[r].id == id
    ensures forall j :: i <= j < |cs| && (r == U8_MAX || j < r) ==> cs[j].id != id
    decreases |cs| - i
  {
    if i == |cs| then U8_MAX else if cs[i].id == id then i else ClusterIndex(cs, id, i + 1)
  }

  /** The first attribute with the id at or after `i`, or the sentinel. */
  function AttributeIndex(s: seq<nat>, id: nat, i: nat): (r: nat)
    requires i <= |s| <= U16_MAX
    ensures r == U16_MAX || i <= r < |s|
    ensures r != U16_MAX ==> s[r] == id
    ensures r == U16_MAX <==> id !in s[i..]
    decreases |s| - i
  {
    if i == |s| then U16_MAX else if s[i] == id then i else AttributeIndex(s, id, i + 1)
  }

  lemma LookUpEndpoint(t: Tree, e: nat)
    requires ValidTree(t) && e < |t| && t[e].enabled
    ensures EndpointIndex(t, t[e].id, 0) == e
  {
  }

  lemma LookUpCluster(e: Endpoint, c: nat)
    requires ValidEndpoint(e) && c < |e.clusters|
    ensures ClusterIndex(e.clusters, e.clusters[c].id, 0) == c
  {
  }

  lemma LookUpAttribute(c: Cluster, k: nat)
    requires ValidCluster(c) && k < |c.attributes|
    ensures AttributeIndex(c.attributes, c.attributes[k], 0) == k
  {
  }

  /** One expanded path. */
  datatype Output = Output(endpoint: nat, cluster: nat, attribute: nat, expanded: bool)

  // ---------------------------------------------------------------------------
  // The nested comprehension
  // ---------------------------------------------------------------------------

  predicate Wanted(p: PathParams, e: Endpoint) {
    e.enabled && p.MatchesEndpoint(e.id)
  }

  /** How many paths a request path yields in a cluster it matches. */
  function Yield(p: PathParams, c: Cluster): nat {
    if !p.MatchesCluster(c.id) then 0
    else if p.WildcardAttribute() then |c.attributes| + |GLOBALS|
    else if p.attribute in c.attributes || p.attribute in GLOBALS then 1
    else 0
  }

  /** The attribute of the path at position `k`: first the metadata attributes, then the global ones. */
  function AttributeAt(p: PathParams, c: Cluster, k: nat): nat
    requires k < Yield(p, c)
  {
    if !p.WildcardAttribute() then p.attribute
    else if k < |c.attributes| then c.attributes[k]
    else GLOBALS[k - |c.attributes|]
  }

  function ExpandCluster(p: PathParams, e: Endpoint, c: Cluster, k: nat): seq<Output>
    requires k <= Yield(p, c)
    decreases Yield(p, c) - k
  {
    if k == Yield(p, c) then []
    else [Output(e.id, c.id, AttributeAt(p, c, k), true)] + ExpandCluster(p, e, c, k + 1)
  }

  function ExpandClusters(p: PathParams, e: Endpoint, c: nat): seq<Output>
    requires c <= |e.clusters|
    decreases |e.clusters| - c
  {
    if c == |e.clusters| then [] else ExpandCluster(p, e, e.clusters[c], 0) + ExpandClusters(p, e, c + 1)
  }

  function ExpandEndpoints(t: Tree, p: PathParams, e: nat): seq<Output>
    requires e <= |t|
    decreases |t| - e
  {
    if e == |t| then []
    else (if Wanted(p, t[e]) then ExpandClusters(p, t[e], 0) else []) + ExpandEndpoints(t, p, e + 1)
  }

  /** A concrete path stands for itself; a wildcard path for every existing path it matches. */
  function ExpandPath(t: Tree, p: PathParams): seq<Output> {
    if p.IsWildcard() then ExpandEndpoints(t, p, 0) else [Output(p.endpoint, p.cluster, p.attribute, false)]
  }

  /** The expansion of the request from its path `i` on. */
  function Expand(t: Tree, req: Request, i: nat): seq<Output>
    requires i <= |req|
    decreases |req| - i
  {
    if i == |req| then [] else ExpandPath(t, req[i]) + Expand(t, req, i + 1)
  }

  // ---------------------------------------------------------------------------
  // The cursor machine
  // ---------------------------------------------------------------------------

  /** A position in the expansion: request path, endpoint, cluster and path within the cluster. */
  datatype Cursor = Done | At(path: nat, endpoint: nat, cluster: nat, k: nat)

  ghost predicate Bounds(t: Tree, req: Request, i: nat, e: nat, c: nat) {
    i <= |req| && e <= |t| && c <= if e < |t| then |t[e].clusters| else 0
  }

  /** The first position at or after the given cluster. */
  ghost function FirstFrom(t: Tree, req: Request, i: nat, e: nat, c: nat): Cursor
    requires Bounds(t, req, i, e, c)
    decreases |req| - i, |t| - e, if e < |t| then |t[e].clusters| - c else 0
  {
    if i == |req| then Done
    else if !req[i].IsWildcard() then At(i, 0, 0, 0)
    else if e == |t| then FirstFrom(t, req, i + 1, 0, 0)
    else if !Wanted(req[i], t[e]) || c == |t[e].clusters| then FirstFrom(t, req, i, e + 1, 0)
    else if Yield(req[i], t[e].clusters[c]) > 0 then At(i, e, c, 0)
    else FirstFrom(t, req, i, e, c + 1)
  }

  /** The position of a path of the expansion, or the end. */
  ghost predicate ValidCursor(t: Tree, req: Request, cur: Cursor) {
    cur.At? ==>
      && cur.path < |req|
      && if !req[cur.path].IsWildcard() then cur == At(cur.path, 0, 0, 0)
         else
           && cur.endpoint < |t| && Wanted(req[cur.path], t[cur.endpoint])
           && cur.cluster < |t[cur.endpoint].clusters|
           && cur.k < Yield(req[cur.path], t[cur.endpoint].clusters[cur.cluster])
  }

  ghost function Current(t: Tree, req: Request, cur: Cursor): Output
    requires ValidCursor(t, req, cur) && cur.At?
  {
    var p := req[cur.path];
    if !p.IsWildcard() then Output(p.endpoint, p.cluster, p.attribute, false)
    else
      var e := t[cur.endpoint];
      Output(e.id, e.clusters[cur.cluster].id, AttributeAt(p, e.clusters[cur.cluster], cur.k), true)
  }

  /** One move forward. */
  ghost function Step(t: Tree, req: Request, cur: Cursor): Cursor
    requires ValidCursor(t, req, cur)
  {
    if cur.Done? then Done
    else if !req[cur.path].IsWildcard() then FirstFrom(t, req, cur.path + 1, 0, 0)
    else if cur.k + 1 < Yield(req[cur.path], t[cur.endpoint].clusters[cur.cluster]) then cur.(k := cur.k + 1)
    else FirstFrom(t, req, cur.path, cur.endpoint, cur.cluster + 1)
  }

  /** Back to the first path of the cluster whose attributes are being expanded. */
  ghost function Rewind(t: Tree, req: Request, cur: Cursor): Cursor
    requires ValidCursor(t, req, cur)
  {
    if cur.At? && req[cur.path].WildcardAttribute() then cur.(k := 0) else cur
  }

  /** The path names the attribute at the one index whose successor is the sentinel. */
  predicate IsSticky(p: PathParams, c: Cluster) {
    && !p.WildcardAttribute()
    && |c.attributes| > LAST_ATTRIBUTE_INDEX
    && c.attributes[LAST_ATTRIBUTE_INDEX] == p.attribute
  }

  ghost predicate Stuck(t: Tree, req: Request, cur: Cursor)
    requires ValidCursor(t, req, cur)
  {
    && cur.At? && req[cur.path].IsWildcard()
    && IsSticky(req[cur.path], t[cur.endpoint].clusters[cur.cluster])
  }

  /** One move of the index-based iterator: it cannot leave a sticky path. */
  ghost function EmberStep(t: Tree, req: Request, cur: Cursor): Cursor
    requires ValidCursor(t, req, cur)
  {
    if Stuck(t, req, cur) then cur else Step(t, req, cur)
  }

  lemma {:induction false} FirstFromValid(t: Tree, req: Request, i: nat, e: nat, c: nat)
    requires Bounds(t, req, i, e, c)
    ensures ValidCursor(t, req, FirstFrom(t, req, i, e, c))
    decreases |req| - i, |t| - e, if e < |t| then |t[e].clusters| - c else 0
  {
    if i == |req| || !req[i].IsWildcard() {
    } else if e == |t| {
      FirstFromValid(t, req, i + 1, 0, 0);
    } else if !Wanted(req[i], t[e]) || c == |t[e].clusters| {
      FirstFromValid(t, req, i, e + 1, 0);
    } else if Yield(req[i], t[e].clusters[c]) == 0 {
      FirstFromValid(t, req, i, e, c + 1);
    }
  }

  /** Clusters that yield nothing are skipped. */
  lemma {:induction false} SkipClusters(t: Tree, req: Request, i: nat, e: nat, c: nat, d: nat)
    requires i < |req| && req[i].IsWildcard() && e < |t| && Wanted(req[i], t[e])
    requires c <= d <= |t[e].clusters|
    requires forall j :: c <= j < d ==> Yield(req[i], t[e].clusters[j]) == 0
    ensures FirstFrom(t, req, i, e, c) == FirstFrom(t, req, i, e, d)
    decreases d - c
  {
    if c < d {
      SkipClusters(t, req, i, e, c + 1, d);
    }
  }

  /** Endpoints that are disabled or not asked for are skipped. */
  lemma {:induction false} SkipEndpoints(t: Tree, req: Request, i: nat, e: nat, f: nat)
    requires i < |req| && req[i].IsWildcard() && e <= f <= |t|
    requires forall j :: e <= j < f ==> !Wanted(req[i], t[j])
    ensures FirstFrom(t, req, i, e, 0) == FirstFrom(t, req, i, f, 0)
    decreases f - e
  {
    if e < f {
      SkipEndpoints(t, req, i, e + 1, f);
    }
  }
}
