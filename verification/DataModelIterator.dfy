/**
 * The tree-walking iterator of AttributePathExpandIterator-DataModel.cpp: it keeps
 * nothing but the ids of the path it emitted last and asks the data model provider
 * for what comes first or next.
 */
module DataModelIterator {
  import opened Ids
  import opened PathExpansion

  // ---------------------------------------------------------------------------
  // The data model provider
  // ---------------------------------------------------------------------------

  /** The id of the first enabled endpoint at or after `i`, or the invalid id. */
  function EnabledFrom(t: Tree, i: nat): nat
    requires i <= |t|
    decreases |t| - i
  {
    if i == |t| then INVALID_ENDPOINT else if t[i].enabled then t[i].id else EnabledFrom(t, i + 1)
  }

  function NextEndpoint(t: Tree, before: nat): nat
    requires |t| <= U16_MAX
  {
    var i := EndpointIndex(t, before, 0);
    if i == U16_MAX then INVALID_ENDPOINT else EnabledFrom(t, i + 1)
  }

  /** The clusters of an endpoint; unknown and disabled endpoints have none. */
  function ClustersOf(t: Tree, endpoint: nat): seq<Cluster>
    requires |t| <= U16_MAX
  {
    var i := EndpointIndex(t, endpoint, 0);
    if i == U16_MAX then [] else t[i].clusters
  }

  function FirstCluster(cs: seq<Cluster>): Option<nat> {
    if cs == [] then None else Some(cs[0].id)
  }

  function NextCluster(cs: seq<Cluster>, before: nat): Option<nat>
    requires |cs| <= U8_MAX
  {
    var i := ClusterIndex(cs, before, 0);
    if i == U8_MAX || i + 1 == |cs| then None else Some(cs[i + 1].id)
  }

  function HasCluster(cs: seq<Cluster>, id: nat): bool
    requires |cs| <= U8_MAX
  {
    ClusterIndex(cs, id, 0) != U8_MAX
  }

  /** The attributes of a cluster; an unknown cluster has none. */
  function AttributesOf(cs: seq<Cluster>, id: nat): seq<nat>
    requires |cs| <= U8_MAX
  {
    var i := ClusterIndex(cs, id, 0);
    if i == U8_MAX then [] else cs[i].attributes
  }

  function NextAttribute(s: seq<nat>, before: nat): Option<nat>
    requires |s| <= U16_MAX
  {
    var i := AttributeIndex(s, before, 0);
    if i == U16_MAX || i + 1 == |s| then None else Some(s[i + 1])
  }

  // ---------------------------------------------------------------------------
  // Advancing one id of the output path
  // ---------------------------------------------------------------------------

  predicate IsValidAttributeId(attributes: seq<nat>, id: nat) {
    id == 0xFFF8 || id == 0xFFF9 || id == 0xFFFB || id in attributes
  }

  /** `NextAttributeId`, given the metadata attributes of the cluster of the output path. */
  function NextAttributeId(attributes: seq<nat>, p: PathParams, current: nat): Option<nat>
    requires |attributes| <= U16_MAX
  {
    if current == INVALID_ATTRIBUTE then
      if p.WildcardAttribute() then
        Some(if attributes == [] then 0xFFF8 else attributes[0])
      else if IsValidAttributeId(attributes, p.attribute) then Some(p.attribute)
      else None
    else if !p.WildcardAttribute() then None
    else
      var g := AttributeIndex(GLOBALS, current, 0);
      if g != U16_MAX then
        if g + 1 < |GLOBALS| then Some(GLOBALS[g + 1]) else None
      else
        var next := NextAttribute(attributes, current);
        if next.Some? then next else Some(GLOBALS[0])
  }

  /** `NextClusterId`, given the clusters of the endpoint of the output path. */
  function NextClusterId(cs: seq<Cluster>, p: PathParams, current: nat): Option<nat>
    requires |cs| <= U8_MAX
  {
    if current == INVALID_CLUSTER then
      if p.WildcardCluster() then FirstCluster(cs)
      else if HasCluster(cs, p.cluster) then Some(p.cluster)
      else None
    else if !p.WildcardCluster() then None
    else NextCluster(cs, current)
  }

  function NextEndpointId(t: Tree, p: PathParams, current: nat): Option<nat>
    requires |t| <= U16_MAX
  {
    if current == INVALID_ENDPOINT && !p.WildcardEndpoint() then Some(p.endpoint)
    else if !p.WildcardEndpoint() then None
    else
      var id := if current == INVALID_ENDPOINT then EnabledFrom(t, 0) else NextEndpoint(t, current);
      if id == INVALID_ENDPOINT then None else Some(id)
  }

  /** The first attribute of a cluster is where its expansion starts. */
  lemma FirstAttributeId(c: Cluster, p: PathParams)
    requires ValidCluster(c) && p.MatchesCluster(c.id)
    ensures NextAttributeId(c.attributes, p, INVALID_ATTRIBUTE) == if Yield(p, c) == 0 then None else Some(AttributeAt(p, c, 0))
  {
  }

  /** The next attribute is the next one of the expansion. */
  lemma FollowingAttributeId(c: Cluster, p: PathParams, k: nat)
    requires ValidCluster(c) && p.MatchesCluster(c.id) && k < Yield(p, c)
    ensures AttributeAt(p, c, k) != INVALID_ATTRIBUTE
    ensures NextAttributeId(c.attributes, p, AttributeAt(p, c, k)) ==
            if k + 1 == Yield(p, c) then None else Some(AttributeAt(p, c, k + 1))
  {
    if p.WildcardAttribute() && k < |c.attributes| {
      LookUpAttribute(c, k);
    }
  }

  // ---------------------------------------------------------------------------
  // Where the ids of the output path stand in the tree
  // ---------------------------------------------------------------------------

  /** How far the output path has been filled in; `Nowhere` is an endpoint that is not in the tree. */
  datatype Spot = Start | Nowhere | InEndpoint(e: nat) | InCluster(e: nat, c: nat) | OnPath(e: nat, c: nat, k: nat)

  ghost predicate ValidSpot(t: Tree, p: PathParams, s: Spot) {
    match s
    case Start => true
    case Nowhere => !p.WildcardEndpoint() && forall j :: 0 <= j < |t| ==> !Wanted(p, t[j])
    case InEndpoint(e) => e < |t| && Wanted(p, t[e])
    case InCluster(e, c) =>
      e < |t| && Wanted(p, t[e]) && c < |t[e].clusters| && p.MatchesCluster(t[e].clusters[c].id)
    case OnPath(e, c, k) =>
      e < |t| && Wanted(p, t[e]) && c < |t[e].clusters| && k < Yield(p, t[e].clusters[c])
  }

  /** The output path has the ids of the spot. The attribute is stale until a cluster is chosen. */
  ghost predicate Names(t: Tree, p: PathParams, s: Spot, o: Output)
    requires ValidSpot(t, p, s)
  {
    match s
    case Start => o.endpoint == INVALID_ENDPOINT && o.cluster == INVALID_CLUSTER
    case Nowhere => o.endpoint == p.endpoint && o.cluster == INVALID_CLUSTER
    case InEndpoint(e) => o.endpoint == t[e].id && o.cluster == INVALID_CLUSTER
    case InCluster(e, c) =>
      o.endpoint == t[e].id && o.cluster == t[e].clusters[c].id && o.attribute == INVALID_ATTRIBUTE
    case OnPath(e, c, k) =>
      && o.endpoint == t[e].id && o.cluster == t[e].clusters[c].id
      && o.attribute == AttributeAt(p, t[e].clusters[c], k)
  }

  /** The position that the search reaches from a spot. */
  ghost function SpotTarget(t: Tree, req: Request, i: nat, s: Spot): Cursor
    requires i < |req| && ValidSpot(t, req[i], s)
  {
    match s
    case Start => FirstFrom(t, req, i, 0, 0)
    case Nowhere => FirstFrom(t, req, i + 1, 0, 0)
    case InEndpoint(e) => FirstFrom(t, req, i, e, 0)
    case InCluster(e, c) => FirstFrom(t, req, i, e, c)
    case OnPath(e, c, k) =>
      if k + 1 < Yield(req[i], t[e].clusters[c]) then At(i, e, c, k + 1) else FirstFrom(t, req, i, e, c + 1)
  }

  ghost function EndpointsLeft(t: Tree, s: Spot): nat {
    match s
    case Start => |t| + 1
    case Nowhere => 0
    case InEndpoint(e) => if e < |t| then |t| - e else 0
    case InCluster(e, c) => if e < |t| then |t| - e else 0
    case OnPath(e, c, k) => if e < |t| then |t| - e else 0
  }

  ghost function ClustersLeft(t: Tree, s: Spot): nat {
    match s
    case InEndpoint(e) => if e < |t| then |t[e].clusters| + 1 else 0
    case InCluster(e, c) => if e < |t| && c < |t[e].clusters| then |t[e].clusters| - c else 0
    case OnPath(e, c, k) => if e < |t| && c < |t[e].clusters| then |t[e].clusters| - c else 0
    case _ => 0
  }

  /** The endpoint of a spot has the clusters that the provider lists for its id. */
  lemma ProviderClusters(t: Tree, e: nat)
    requires ValidTree(t) && e < |t| && t[e].enabled
    ensures ClustersOf(t, t[e].id) == t[e].clusters
    ensures t[e].id != INVALID_ENDPOINT
  {
    LookUpEndpoint(t, e);
  }

  lemma ProviderAttributes(e: Endpoint, c: nat)
    requires ValidEndpoint(e) && c < |e.clusters|
    ensures AttributesOf(e.clusters, e.clusters[c].id) == e.clusters[c].attributes
    ensures e.clusters[c].id != INVALID_CLUSTER
  {
    LookUpCluster(e, c);
  }

  /** From an endpoint, the next cluster is the first one asked for; the ones before it are not. */
  lemma FirstClusterId(t: Tree, req: Request, i: nat, e: nat) returns (c: nat)
    requires ValidTree(t) && i < |req| && req[i].IsWildcard() && e < |t| && Wanted(req[i], t[e])
    ensures var next := NextClusterId(t[e].clusters, req[i], INVALID_CLUSTER);
            && c <= |t[e].clusters|
            && (next.Some? <==> c < |t[e].clusters|)
            && (next.Some? ==> t[e].clusters[c].id == next.value && req[i].MatchesCluster(next.value))
    ensures FirstFrom(t, req, i, e, 0) == FirstFrom(t, req, i, e, c)
  {
    if req[i].WildcardCluster() {
      c := 0;
    } else {
      c := ClusterIndex(t[e].clusters, req[i].cluster, 0);
      if c == U8_MAX {
        c := |t[e].clusters|;
      }
      SkipClusters(t, req, i, e, 0, c);
    }
  }

  /** From a cluster, the next cluster is the following one, unless the path names its cluster. */
  lemma FollowingClusterId(t: Tree, req: Request, i: nat, e: nat, c: nat) returns (d: nat)
    requires ValidTree(t) && i < |req| && req[i].IsWildcard() && e < |t| && Wanted(req[i], t[e])
    requires c < |t[e].clusters| && req[i].MatchesCluster(t[e].clusters[c].id)
    ensures var next := NextClusterId(t[e].clusters, req[i], t[e].clusters[c].id);
            && c < d <= |t[e].clusters|
            && (next.Some? <==> d < |t[e].clusters|)
            && (next.Some? ==> t[e].clusters[d].id == next.value && req[i].MatchesCluster(next.value))
    ensures FirstFrom(t, req, i, e, c + 1) == FirstFrom(t, req, i, e, d)
  {
    LookUpCluster(t[e], c);
    if req[i].WildcardCluster() {
      d := c + 1;
    } else {
      d := |t[e].clusters|;
      SkipClusters(t, req, i, e, c + 1, d);
    }
  }

  lemma {:induction false} FirstEnabled(t: Tree, req: Request, i: nat, from: nat) returns (e: nat)
    requires ValidTree(t) && i < |req| && req[i].IsWildcard() && req[i].WildcardEndpoint() && from <= |t|
    ensures from <= e <= |t|
    ensures if e == |t| then EnabledFrom(t, from) == INVALID_ENDPOINT
            else t[e].enabled && EnabledFrom(t, from) == t[e].id != INVALID_ENDPOINT
    ensures FirstFrom(t, req, i, from, 0) == FirstFrom(t, req, i, e, 0)
    decreases |t| - from
  {
    if from == |t| || t[from].enabled {
      e := from;
    } else {
      e := FirstEnabled(t, req, i, from + 1);
    }
  }

  // ---------------------------------------------------------------------------
  // One move of the search
  // ---------------------------------------------------------------------------

  /** The attribute that the loop of `AdvanceOutputPath` tries, if a cluster is chosen. */
  function TriedAttribute(t: Tree, p: PathParams, o: Output): Option<nat>
    requires |t| <= U16_MAX && |ClustersOf(t, o.endpoint)| <= U8_MAX
    requires |AttributesOf(ClustersOf(t, o.endpoint), o.cluster)| <= U16_MAX
  {
    if o.cluster == INVALID_CLUSTER then None
    else NextAttributeId(AttributesOf(ClustersOf(t, o.endpoint), o.cluster), p, o.attribute)
  }

  /** The cluster that the loop tries, if an endpoint is chosen. */
  function TriedCluster(t: Tree, p: PathParams, o: Output): Option<nat>
    requires |t| <= U16_MAX && |ClustersOf(t, o.endpoint)| <= U8_MAX
  {
    if o.endpoint == INVALID_ENDPOINT then None else NextClusterId(ClustersOf(t, o.endpoint), p, o.cluster)
  }

  lemma TablesFit(t: Tree, endpoint: nat, cluster: nat)
    requires ValidTree(t)
    ensures |ClustersOf(t, endpoint)| <= U8_MAX
    ensures |AttributesOf(ClustersOf(t, endpoint), cluster)| <= U16_MAX
  {
  }

  /** Output path `o` stands at spot `s` of request path `i`. */
  ghost predicate Stands(t: Tree, req: Request, i: nat, s: Spot, o: Output) {
    && ValidTree(t) && i < |req| && req[i].IsWildcard()
    && ValidSpot(t, req[i], s) && Names(t, req[i], s, o)
  }

  /** Trying the attribute finds the next path of the cluster, or none is left in it. */
  lemma AttributeMove(t: Tree, req: Request, i: nat, e: nat, c: nat, s: Spot, o: Output)
    requires Stands(t, req, i, s, o)
    requires s == InCluster(e, c) || (s.OnPath? && s.e == e && s.c == c)
    requires |ClustersOf(t, o.endpoint)| <= U8_MAX && |AttributesOf(ClustersOf(t, o.endpoint), o.cluster)| <= U16_MAX
    ensures var k := if s.InCluster? then 0 else s.k + 1;
            TriedAttribute(t, req[i], o) ==
            if k < Yield(req[i], t[e].clusters[c]) then Some(AttributeAt(req[i], t[e].clusters[c], k)) else None
  {
    ProviderClusters(t, e);
    ProviderAttributes(t[e], c);
    if s.InCluster? {
      FirstAttributeId(t[e].clusters[c], req[i]);
    } else {
      FollowingAttributeId(t[e].clusters[c], req[i], s.k);
    }
  }

  /** Trying the cluster finds the next cluster asked for, or none is left in the endpoint. */
  lemma ClusterMove(t: Tree, req: Request, i: nat, e: nat, s: Spot, o: Output) returns (c: nat)
    requires Stands(t, req, i, s, o)
    requires s == InEndpoint(e) || ((s.InCluster? || s.OnPath?) && s.e == e)
    requires |ClustersOf(t, o.endpoint)| <= U8_MAX
    ensures c <= |t[e].clusters| && (s.InCluster? || s.OnPath? ==> s.c < c)
    ensures var next := TriedCluster(t, req[i], o);
            && (next.Some? <==> c < |t[e].clusters|)
            && (next.Some? ==> t[e].clusters[c].id == next.value && req[i].MatchesCluster(next.value))
    ensures FirstFrom(t, req, i, e, if s.InEndpoint? then 0 else s.c + 1) == FirstFrom(t, req, i, e, c)
  {
    ProviderClusters(t, e);
    if s.InEndpoint? {
      c := FirstClusterId(t, req, i, e);
    } else {
      ProviderAttributes(t[e], s.c);
      c := FollowingClusterId(t, req, i, e, s.c);
    }
  }

  /** Where the search goes on once the endpoint of the spot has nothing left. */
  ghost function BehindEndpoint(t: Tree, req: Request, i: nat, s: Spot): Cursor
    requires i < |req| && ValidSpot(t, req[i], s)
  {
    if s.Start? then FirstFrom(t, req, i, 0, 0)
    else if s.Nowhere? then FirstFrom(t, req, i + 1, 0, 0)
    else FirstFrom(t, req, i, s.e + 1, 0)
  }

  ghost predicate EndpointFound(t: Tree, req: Request, i: nat, s: Spot, s': Spot, id: nat)
    requires i < |req| && ValidSpot(t, req[i], s)
  {
    && ValidSpot(t, req[i], s') && EndpointsLeft(t, s') < EndpointsLeft(t, s)
    && (if s'.InEndpoint? then id == t[s'.e].id else s'.Nowhere? && id == req[i].endpoint)
    && SpotTarget(t, req, i, s') == BehindEndpoint(t, req, i, s)
  }

  lemma FirstEndpointMove(t: Tree, req: Request, i: nat) returns (s': Spot)
    requires ValidTree(t) && i < |req| && req[i].IsWildcard()
    ensures match NextEndpointId(t, req[i], INVALID_ENDPOINT)
            case Some(id) => EndpointFound(t, req, i, Start, s', id)
            case None => BehindEndpoint(t, req, i, Start) == FirstFrom(t, req, i + 1, 0, 0)
  {
    if req[i].WildcardEndpoint() {
      var e := FirstEnabled(t, req, i, 0);
      s' := InEndpoint(e);
    } else {
      var e := EndpointIndex(t, req[i].endpoint, 0);
      s' := if e == U16_MAX then Nowhere else InEndpoint(e);
      SkipEndpoints(t, req, i, 0, if e == U16_MAX then |t| else e);
    }
  }

  lemma FollowingEndpointMove(t: Tree, req: Request, i: nat, s: Spot) returns (s': Spot)
    requires ValidTree(t) && i < |req| && req[i].IsWildcard()
    requires ValidSpot(t, req[i], s) && !s.Start? && !s.Nowhere?
    ensures t[s.e].id != INVALID_ENDPOINT
    ensures match NextEndpointId(t, req[i], t[s.e].id)
            case Some(id) => EndpointFound(t, req, i, s, s', id)
            case None => BehindEndpoint(t, req, i, s) == FirstFrom(t, req, i + 1, 0, 0)
  {
    ProviderClusters(t, s.e);
    if req[i].WildcardEndpoint() {
      LookUpEndpoint(t, s.e);
      var e := FirstEnabled(t, req, i, s.e + 1);
      s' := InEndpoint(e);
    } else {
      SkipEndpoints(t, req, i, s.e + 1, |t|);
      s' := Nowhere;
    }
  }

  /** Trying the endpoint finds the next endpoint asked for, or none is left in the tree. */
  lemma EndpointMove(t: Tree, req: Request, i: nat, s: Spot, o: Output) returns (s': Spot)
    requires Stands(t, req, i, s, o)
    ensures match NextEndpointId(t, req[i], o.endpoint)
            case Some(id) => EndpointFound(t, req, i, s, s', id)
            case None => BehindEndpoint(t, req, i, s) == FirstFrom(t, req, i + 1, 0, 0)
  {
    if s.Start? {
      s' := FirstEndpointMove(t, req, i);
    } else if s.Nowhere? {
      s' := s;
    } else {
      s' := FollowingEndpointMove(t, req, i, s);
    }
  }

  class Iterator {
    const tree: Tree
    var request: Request
    var path: nat
    var output: Output
    ghost var spot: Spot
    ghost var cursor: Cursor

    ghost predicate Searching()
      reads this
    {
      Stands(tree, request, path, spot, output)
    }

    ghost function Target(): Cursor
      requires Searching()
      reads this
    {
      SpotTarget(tree, request, path, spot)
    }

    /** Tries the next attribute of the cluster. */
    method TryAttribute() returns (found: bool)
      requires Searching()
      modifies this`output, this`spot
      ensures found ==> Searching() && spot.OnPath? && old(Target()) == At(path, spot.e, spot.c, spot.k)
      ensures !found ==> unchanged(this)
      ensures output.expanded == old(output.expanded)
      ensures !found && (spot.InCluster? || spot.OnPath?) ==> Target() == FirstFrom(tree, request, path, spot.e, spot.c + 1)
    {
      TablesFit(tree, output.endpoint, output.cluster);
      if spot.InCluster? || spot.OnPath? {
        AttributeMove(tree, request, path, spot.e, spot.c, spot, output);
      }
      var next := TriedAttribute(tree, request[path], output);
      found := next.Some?;
      if found {
        output := output.(attribute := next.value);
        spot := OnPath(spot.e, spot.c, if spot.InCluster? then 0 else spot.k + 1);
      }
    }

    /** Tries the next cluster of the endpoint. */
    method TryCluster() returns (found: bool)
      requires Searching()
      requires spot.InCluster? || spot.OnPath? ==> Target() == FirstFrom(tree, request, path, spot.e, spot.c + 1)
      modifies this`output, this`spot
      ensures found ==> Searching() && spot.InCluster? && Target() == old(Target())
      ensures found ==> EndpointsLeft(tree, spot) == EndpointsLeft(tree, old(spot)) &&
                        ClustersLeft(tree, spot) < ClustersLeft(tree, old(spot))
      ensures !found ==> unchanged(this)
      ensures output.expanded == old(output.expanded)
      ensures !found && !spot.Start? && !spot.Nowhere? ==> Target() == FirstFrom(tree, request, path, spot.e + 1, 0)
    {
      TablesFit(tree, output.endpoint, output.cluster);
      ghost var c := 0;
      if !spot.Start? && !spot.Nowhere? {
        c := ClusterMove(tree, request, path, spot.e, spot, output);
      }
      var next := TriedCluster(tree, request[path], output);
      found := next.Some?;
      if found {
        output := output.(cluster := next.value, attribute := INVALID_ATTRIBUTE);
        spot := InCluster(spot.e, c);
      }
    }

    /** Tries the next endpoint. */
    method TryEndpoint() returns (found: bool)
      requires Searching()
      requires Target() == BehindEndpoint(tree, request, path, spot)
      modifies this`output, this`spot
      ensures found ==> Searching() && Target() == old(Target()) && EndpointsLeft(tree, spot) < EndpointsLeft(tree, old(spot))
      ensures output.expanded == old(output.expanded)
      ensures !found ==> unchanged(this) && Target() == FirstFrom(tree, request, path + 1, 0, 0)
    {
      ghost var s := EndpointMove(tree, request, path, spot, output);
      var next := NextEndpointId(tree, request[path], output.endpoint);
      found := next.Some?;
      if found {
        output := output.(endpoint := next.value, cluster := INVALID_CLUSTER);
        spot := s;
      }
    }

    /** `AdvanceOutputPath` on a wildcard path: the loop ends because every turn leaves a cluster or an endpoint behind. */
    method Search() returns (found: bool)
      requires Searching()
      modifies this`output, this`spot
      ensures found ==> Searching() && spot.OnPath? && old(Target()) == At(path, spot.e, spot.c, spot.k)
      ensures !found ==> old(Target()) == FirstFrom(tree, request, path + 1, 0, 0)
      ensures output.expanded == old(output.expanded)
    {
      ghost var target := Target();
      while true
        invariant Searching() && Target() == target
        invariant output.expanded == old(output.expanded)
        decreases EndpointsLeft(tree, spot), ClustersLeft(tree, spot)
      {
        found := TryAttribute();
        if found {
          return;
        }
        found := TryCluster();
        if !found {
          found := TryEndpoint();
          if !found {
            return;
          }
        }
      }
    }

    /** The search can be resumed. */
    ghost predicate Ready()
      reads this
    {
      && ValidTree(tree) && path <= |request|
      && (path < |request| && request[path].IsWildcard() ==> Searching() && output.expanded)
    }

    /** The position that `Next` reaches. */
    ghost function NextTarget(): Cursor
      requires Ready()
      reads this
    {
      if path == |request| then Done
      else if request[path].IsWildcard() then Target()
      else if output.endpoint == INVALID_ENDPOINT then At(path, 0, 0, 0)
      else FirstFrom(tree, request, path + 1, 0, 0)
    }

    /** The iterator rests on the path at `cursor`, or past the last one. */
    ghost predicate Valid()
      reads this
    {
      && ValidTree(tree) && path <= |request|
      && if path == |request| then cursor == Done
         else if !request[path].IsWildcard() then
           && cursor == At(path, 0, 0, 0)
           && output == Output(request[path].endpoint, request[path].cluster, request[path].attribute, false)
         else
           && Searching() && output.expanded && spot.OnPath?
           && cursor == At(path, spot.e, spot.c, spot.k)
    }

    method AdvanceOutputPath() returns (found: bool)
      requires Ready() && path < |request|
      modifies this`output, this`spot, this`cursor
      ensures found ==> Valid() && cursor == old(NextTarget())
      ensures !found ==> old(NextTarget()) == FirstFrom(tree, request, path + 1, 0, 0)
    {
      ghost var target := NextTarget();
      var p := request[path];
      if !p.IsWildcard() {
        if output.endpoint != INVALID_ENDPOINT {
          return false;
        }
        output := Output(p.endpoint, p.cluster, p.attribute, false);
        found := true;
      } else {
        found := Search();
      }
      cursor := target;
    }

    /** The body of `Next`. */
    method Advance() returns (more: bool)
      requires Ready()
      modifies this
      ensures Valid() && request == old(request)
      ensures cursor == old(NextTarget())
      ensures more == cursor.At?
    {
      ghost var target := NextTarget();
      while path < |request|
        invariant Ready() && request == old(request) && NextTarget() == target
        decreases |request| - path
      {
        more := AdvanceOutputPath();
        if more {
          return;
        }
        path, spot := path + 1, Start;
        output := Output(INVALID_ENDPOINT, INVALID_CLUSTER, INVALID_ATTRIBUTE, true);
      }
      output := Output(0, 0, 0, false);
      cursor := target;
      return false;
    }

    constructor (t: Tree, req: Request)
      requires ValidTree(t)
      ensures Valid() && tree == t && request == req
      ensures cursor == FirstFrom(t, req, 0, 0, 0)
    {
      tree, request, path, spot := t, req, 0, Start;
      output := Output(INVALID_ENDPOINT, INVALID_CLUSTER, INVALID_ATTRIBUTE, true);
      new;
      var _ := Advance();
    }

    /** Moves to the next path; false when all paths are exhausted. */
    method Next() returns (more: bool)
      requires Valid()
      modifies this
      ensures Valid() && request == old(request)
      ensures ValidCursor(tree, request, old(cursor)) && cursor == Step(tree, request, old(cursor))
      ensures more == cursor.At?
    {
      more := Advance();
    }

    /** The current path, if any is left. */
    method Get() returns (found: bool, current: Output)
      requires Valid()
      ensures ValidCursor(tree, request, cursor) && found == cursor.At?
      ensures found ==> current == Current(tree, request, cursor)
    {
      found, current := path < |request|, output;
    }

    /** Reports the cluster being expanded once more. */
    method ResetCurrentCluster()
      requires Valid()
      modifies this
      ensures Valid() && request == old(request)
      ensures ValidCursor(tree, request, old(cursor)) && cursor == Rewind(tree, request, old(cursor))
    {
      if path == |request| || !request[path].WildcardAttribute() {
        return;
      }
      output := output.(attribute := INVALID_ATTRIBUTE, expanded := true);
      spot := InCluster(spot.e, spot.c);
      var _ := Advance();
    }

    /** Starts over with another request. */
    method ResetTo(req: Request)
      requires Valid()
      modifies this
      ensures Valid() && request == req
      ensures cursor == FirstFrom(tree, req, 0, 0, 0)
    {
      request, path, spot := req, 0, Start;
      output := Output(INVALID_ENDPOINT, INVALID_CLUSTER, INVALID_ATTRIBUTE, true);
      var _ := Advance();
    }
  }
}
