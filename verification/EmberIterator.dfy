/**
 * The index-based iterator of AttributePathExpandIterator-Ember.cpp: resumable
 * nested loops over 16-bit and 8-bit indices whose maximum means "not prepared".
 */
module EmberIterator {
  import opened Ids
  import opened PathExpansion

  function Inc8(x: nat): nat { if x == U8_MAX then 0 else x + 1 }

  // ---------------------------------------------------------------------------
  // What the indices stand for
  // ---------------------------------------------------------------------------

  /** The attribute indices: a range of metadata attributes and a range of global ones. */
  datatype AttributeRange = AttributeRange(index: nat, end: nat, global: nat, endGlobal: nat) {
    predicate Unprepared() { index == U16_MAX && global == U8_MAX }

    function Reset(): AttributeRange { this.(index := U16_MAX, global := U8_MAX) }
  }

  const UNPREPARED := AttributeRange(U16_MAX, 0, U8_MAX, 0)

  /** The attribute indices once `n` paths of the cluster were emitted. */
  ghost function RangeAfter(p: PathParams, c: Cluster, n: nat): AttributeRange
    requires |c.attributes| <= U16_MAX
  {
    var count := |c.attributes|;
    if p.WildcardAttribute() then
      if n <= count then AttributeRange(n, count, 0, |GLOBALS|) else AttributeRange(count, count, n - count, |GLOBALS|)
    else
      var j := AttributeIndex(c.attributes, p.attribute, 0);
      var g := AttributeIndex(GLOBALS, p.attribute, 0);
      if j != U16_MAX then AttributeRange(j + n, j + 1, U8_MAX, 0)
      else if g != U16_MAX then AttributeRange(U16_MAX, 0, g + n, g + 1)
      else UNPREPARED
  }

  /** The range of clusters leaves out nothing that the path asks for at or behind its start. */
  ghost predicate ClusterRange(p: PathParams, e: Endpoint, lo: nat, hi: nat) {
    lo < hi ==>
      && hi <= |e.clusters|
      && (forall i :: lo <= i < hi ==> p.MatchesCluster(e.clusters[i].id))
      && (forall i :: hi <= i < |e.clusters| ==> !p.MatchesCluster(e.clusters[i].id))
  }

  /** The range of endpoints leaves out nothing that the path asks for at or behind its start. */
  ghost predicate EndpointRange(t: Tree, p: PathParams, lo: nat, hi: nat) {
    lo < hi ==>
      && hi <= |t|
      && (forall i :: lo <= i < hi && t[i].enabled ==> p.MatchesEndpoint(t[i].id))
      && (forall i :: hi <= i < |t| ==> !Wanted(p, t[i]))
  }

  /** The attribute indices are prepared with `n` paths emitted, or not prepared at all. */
  ghost predicate Resumable(p: PathParams, c: Cluster, r: AttributeRange, n: nat)
    requires |c.attributes| <= U16_MAX
  {
    r.Unprepared() || (n <= Yield(p, c) && r == RangeAfter(p, c, n))
  }

  /** The position reached next from inside a cluster of which `n` paths were emitted. */
  ghost function FromCluster(t: Tree, req: Request, i: nat, e: nat, c: nat, r: AttributeRange, n: nat): Cursor
    requires i < |req| && e < |t| && c < |t[e].clusters|
  {
    if r.Unprepared() then FirstFrom(t, req, i, e, c)
    else if n < Yield(req[i], t[e].clusters[c]) then At(i, e, c, n)
    else FirstFrom(t, req, i, e, c + 1)
  }

  /** Emitting a path of a cluster leaves the indices looking unprepared exactly at a sticky path. */
  lemma UnpreparedIffSticky(p: PathParams, c: Cluster, n: nat)
    requires ValidCluster(c) && 0 < n <= Yield(p, c)
    ensures RangeAfter(p, c, n).Unprepared() <==> IsSticky(p, c)
  {
    if !p.WildcardAttribute() {
      var j := AttributeIndex(c.attributes, p.attribute, 0);
      assert IsSticky(p, c) <==> j == LAST_ATTRIBUTE_INDEX;
    }
  }

  class Iterator {
    const tree: Tree
    var request: Request
    var path: nat
    var output: Output
    var endpointIndex: nat
    var endEndpointIndex: nat
    var clusterIndex: nat
    var endClusterIndex: nat
    var attributes: AttributeRange
    ghost var emitted: nat
    ghost var cursor: Cursor

    method PrepareEndpointIndexRange(p: PathParams)
      requires ValidTree(tree)
      modifies this`endpointIndex, this`endEndpointIndex
      ensures EndpointRange(tree, p, endpointIndex, endEndpointIndex)
      ensures forall i :: 0 <= i < |tree| && (endpointIndex < endEndpointIndex ==> i < endpointIndex) ==> !Wanted(p, tree[i])
    {
      if p.WildcardEndpoint() {
        endpointIndex, endEndpointIndex := 0, |tree|;
      } else {
        endpointIndex := EndpointIndex(tree, p.endpoint, 0);
        endEndpointIndex := Inc16(endpointIndex);
      }
    }

    method PrepareClusterIndexRange(p: PathParams, e: Endpoint)
      requires ValidEndpoint(e)
      modifies this`clusterIndex, this`endClusterIndex
      ensures ClusterRange(p, e, clusterIndex, endClusterIndex)
      ensures forall i :: 0 <= i < |e.clusters| && (clusterIndex < endClusterIndex ==> i < clusterIndex) ==>
                !p.MatchesCluster(e.clusters[i].id)
    {
      if p.WildcardCluster() {
        clusterIndex, endClusterIndex := 0, |e.clusters|;
      } else {
        clusterIndex := ClusterIndex(e.clusters, p.cluster, 0);
        endClusterIndex := Inc8(clusterIndex);
      }
    }

    method PrepareAttributeIndexRange(p: PathParams, c: Cluster)
      requires ValidCluster(c)
      modifies this`attributes
      ensures attributes == RangeAfter(p, c, 0)
    {
      if p.WildcardAttribute() {
        attributes := AttributeRange(0, |c.attributes|, 0, |GLOBALS|);
      } else {
        var index := AttributeIndex(c.attributes, p.attribute, 0);
        var global, endGlobal := U8_MAX, 0;
        if index == U16_MAX {
          var i := 0;
          while i < |GLOBALS|
            invariant i <= |GLOBALS|
            invariant global == U8_MAX
            invariant AttributeIndex(GLOBALS, p.attribute, 0) == AttributeIndex(GLOBALS, p.attribute, i)
          {
            if GLOBALS[i] == p.attribute {
              global := i;
              break;
            }
            i := i + 1;
          }
          endGlobal := Inc8(global);
        }
        attributes := AttributeRange(index, Inc16(index), global, endGlobal);
      }
    }

    /** The attribute part of the loop body: emits the next path of the cluster, if there is one. */
    method EmitAttribute(p: PathParams, e: Endpoint, c: Cluster) returns (found: bool)
      requires ValidCluster(c) && p.MatchesCluster(c.id)
      requires emitted <= Yield(p, c) && attributes == RangeAfter(p, c, emitted)
      modifies this`output, this`attributes, this`emitted
      ensures found == (old(emitted) < Yield(p, c))
      ensures found ==> emitted == old(emitted) + 1 && attributes == RangeAfter(p, c, emitted)
      ensures found ==> output == Output(e.id, c.id, AttributeAt(p, c, old(emitted)), true)
    {
      if attributes.index < attributes.end {
        output := Output(e.id, c.id, c.attributes[attributes.index], true);
        attributes := attributes.(index := Inc16(attributes.index));
        emitted := emitted + 1;
        return true;
      }
      if attributes.global < attributes.endGlobal {
        output := Output(e.id, c.id, GLOBALS[attributes.global], true);
        attributes := attributes.(global := Inc8(attributes.global));
        emitted := emitted + 1;
        return true;
      }
      return false;
    }

    /** The body of the loop over clusters. */
    method VisitCluster(p: PathParams, e: Endpoint, c: Cluster) returns (found: bool)
      requires ValidCluster(c) && p.MatchesCluster(c.id)
      requires Resumable(p, c, attributes, emitted)
      modifies this`output, this`attributes, this`emitted
      ensures !found ==> if old(attributes).Unprepared() then Yield(p, c) == 0 else Yield(p, c) <= old(emitted)
      ensures found ==> emitted == (if old(attributes).Unprepared() then 0 else old(emitted)) + 1 <= Yield(p, c)
      ensures found ==> attributes == RangeAfter(p, c, emitted)
      ensures found ==> output == Output(e.id, c.id, AttributeAt(p, c, emitted - 1), true)
    {
      if attributes.Unprepared() {
        PrepareAttributeIndexRange(p, c);
        emitted := 0;
      }
      found := EmitAttribute(p, e, c);
    }

    /** The cluster and attribute indices can be resumed. */
    ghost predicate InClusters(p: PathParams, e: Endpoint)
      requires ValidEndpoint(e)
      reads this
    {
      && ClusterRange(p, e, clusterIndex, endClusterIndex)
      && (clusterIndex < endClusterIndex ==> Resumable(p, e.clusters[clusterIndex], attributes, emitted))
    }

    /** The position that the loop over clusters reaches next. */
    ghost function ClusterTarget(i: nat, e: nat): Cursor
      requires i < |request| && e < |tree| && ValidEndpoint(tree[e]) && InClusters(request[i], tree[e])
      reads this
    {
      if clusterIndex < endClusterIndex then FromCluster(tree, request, i, e, clusterIndex, attributes, emitted)
      else FirstFrom(tree, request, i, e + 1, 0)
    }

    /** The iterator rests on a path of the cluster. */
    ghost predicate RestsInCluster(p: PathParams, e: Endpoint, c: Cluster)
      requires |c.attributes| <= U16_MAX
      reads this
    {
      && 0 < emitted <= Yield(p, c)
      && attributes == RangeAfter(p, c, emitted)
      && output == Output(e.id, c.id, AttributeAt(p, c, emitted - 1), true)
    }

    /** The innermost loop of `Next`, over the clusters of an endpoint. */
    method ScanClusters(i: nat, e: nat) returns (found: bool)
      requires i < |request| && request[i].IsWildcard() && e < |tree| && Wanted(request[i], tree[e])
      requires ValidEndpoint(tree[e]) && InClusters(request[i], tree[e])
      modifies this`output, this`clusterIndex, this`attributes, this`emitted
      ensures found ==> clusterIndex < endClusterIndex && ClusterRange(request[i], tree[e], clusterIndex, endClusterIndex)
      ensures found ==> RestsInCluster(request[i], tree[e], tree[e].clusters[clusterIndex])
      ensures found ==> old(ClusterTarget(i, e)) == At(i, e, clusterIndex, emitted - 1)
      ensures !found ==> old(ClusterTarget(i, e)) == FirstFrom(tree, request, i, e + 1, 0)
    {
      ghost var target := ClusterTarget(i, e);
      var p := request[i];
      while clusterIndex < endClusterIndex
        invariant InClusters(p, tree[e])
        invariant ClusterTarget(i, e) == target
      {
        found := VisitCluster(p, tree[e], tree[e].clusters[clusterIndex]);
        if found {
          return;
        }
        assert target == FirstFrom(tree, request, i, e, clusterIndex + 1);
        clusterIndex, attributes := Inc8(clusterIndex), attributes.Reset();
        if clusterIndex == endClusterIndex {
          SkipClusters(tree, request, i, e, clusterIndex, |tree[e].clusters|);
        }
      }
      found := false;
    }

    /** The endpoint, cluster and attribute indices can be resumed. */
    ghost predicate InEndpoints(p: PathParams)
      requires ValidTree(tree)
      reads this
    {
      && EndpointRange(tree, p, endpointIndex, endEndpointIndex)
      && (endpointIndex < endEndpointIndex && clusterIndex != U8_MAX ==>
            tree[endpointIndex].enabled && InClusters(p, tree[endpointIndex]))
    }

    /** The position that the loop over endpoints reaches next. */
    ghost function EndpointTarget(i: nat): Cursor
      requires ValidTree(tree) && i < |request| && InEndpoints(request[i])
      reads this
    {
      if endpointIndex >= endEndpointIndex then FirstFrom(tree, request, i + 1, 0, 0)
      else if clusterIndex == U8_MAX then FirstFrom(tree, request, i, endpointIndex, 0)
      else ClusterTarget(i, endpointIndex)
    }

    /** The iterator rests on a path of the request path. */
    ghost predicate Rests(p: PathParams)
      requires ValidTree(tree)
      reads this
    {
      && endpointIndex < endEndpointIndex
      && EndpointRange(tree, p, endpointIndex, endEndpointIndex)
      && var e := tree[endpointIndex];
      && e.enabled
      && clusterIndex < endClusterIndex
      && ClusterRange(p, e, clusterIndex, endClusterIndex)
      && RestsInCluster(p, e, e.clusters[clusterIndex])
    }

    /** The body of the loop over endpoints. */
    method VisitEndpoint(i: nat) returns (found: bool)
      requires ValidTree(tree) && i < |request| && request[i].IsWildcard()
      requires endpointIndex < endEndpointIndex && InEndpoints(request[i])
      modifies this`output, this`clusterIndex, this`endClusterIndex, this`attributes, this`emitted
      ensures found ==> Rests(request[i])
      ensures found ==> old(EndpointTarget(i)) == At(i, endpointIndex, clusterIndex, emitted - 1)
      ensures !found ==> old(EndpointTarget(i)) == FirstFrom(tree, request, i, endpointIndex + 1, 0)
    {
      var e := tree[endpointIndex];
      if !e.enabled {
        return false;
      }
      if clusterIndex == U8_MAX {
        PrepareClusterIndexRange(request[i], e);
        attributes := attributes.Reset();
        SkipClusters(tree, request, i, endpointIndex, 0,
                     if clusterIndex < endClusterIndex then clusterIndex else |e.clusters|);
      }
      found := ScanClusters(i, endpointIndex);
    }

    /** The middle loop of `Next`, over the endpoints of a request path. */
    method ScanEndpoints(i: nat) returns (found: bool)
      requires ValidTree(tree) && i < |request| && (request[i].IsWildcard() || endpointIndex >= endEndpointIndex)
      requires InEndpoints(request[i])
      modifies this`output, this`endpointIndex, this`clusterIndex, this`endClusterIndex, this`attributes, this`emitted
      ensures found ==> request[i].IsWildcard() && Rests(request[i])
      ensures found ==> old(EndpointTarget(i)) == At(i, endpointIndex, clusterIndex, emitted - 1)
      ensures !found ==> old(EndpointTarget(i)) == FirstFrom(tree, request, i + 1, 0, 0)
    {
      ghost var target := EndpointTarget(i);
      while endpointIndex < endEndpointIndex
        invariant InEndpoints(request[i])
        invariant EndpointTarget(i) == target
      {
        found := VisitEndpoint(i);
        if found {
          return;
        }
        endpointIndex, clusterIndex, attributes := Inc16(endpointIndex), U8_MAX, attributes.Reset();
        if endpointIndex == endEndpointIndex {
          SkipEndpoints(tree, request, i, endpointIndex, |tree|);
        }
      }
      found := false;
    }

    /** The loops can be resumed. */
    ghost predicate InPaths()
      reads this
    {
      && ValidTree(tree) && path <= |request|
      && (path < |request| && endpointIndex != U16_MAX ==>
            InEndpoints(request[path]) && (request[path].IsWildcard() || endpointIndex >= endEndpointIndex))
    }

    /** The position that `Next` reaches. */
    ghost function Target(): Cursor
      requires InPaths()
      reads this
    {
      if path == |request| then Done
      else if endpointIndex == U16_MAX then FirstFrom(tree, request, path, 0, 0)
      else EndpointTarget(path)
    }

    /** The iterator rests on the path at `cursor`, or past the last one. */
    ghost predicate Valid()
      reads this
    {
      && ValidTree(tree) && path <= |request|
      && if path == |request| then cursor == Done
         else if !request[path].IsWildcard() then
           && endpointIndex == endEndpointIndex == 0
           && cursor == At(path, 0, 0, 0)
           && output == Output(request[path].endpoint, request[path].cluster, request[path].attribute, false)
         else Rests(request[path]) && cursor == At(path, endpointIndex, clusterIndex, emitted - 1)
    }

    /** The body of the loop over request paths. */
    method VisitPath() returns (found: bool)
      requires InPaths() && path < |request|
      modifies this`output, this`endpointIndex, this`endEndpointIndex, this`clusterIndex, this`endClusterIndex,
               this`attributes, this`emitted, this`cursor
      ensures found ==> Valid() && cursor == old(Target())
      ensures !found ==> old(Target()) == FirstFrom(tree, request, path + 1, 0, 0)
    {
      ghost var target := Target();
      var p := request[path];
      if endpointIndex == U16_MAX {
        if !p.IsWildcard() {
          output := Output(p.endpoint, p.cluster, p.attribute, false);
          endpointIndex, endEndpointIndex := 0, 0;
          cursor := target;
          return true;
        }
        PrepareEndpointIndexRange(p);
        clusterIndex := U8_MAX;
        SkipEndpoints(tree, request, path, 0, if endpointIndex < endEndpointIndex then endpointIndex else |tree|);
      }
      found := ScanEndpoints(path);
      cursor := target;
    }

    /** The loops of `Next`, resumed where the indices say. */
    method Advance() returns (more: bool)
      requires InPaths()
      modifies this
      ensures Valid() && request == old(request)
      ensures cursor == old(Target())
      ensures more == cursor.At?
    {
      ghost var target := Target();
      while path < |request|
        invariant InPaths() && request == old(request) && Target() == target
        decreases |request| - path
      {
        more := VisitPath();
        if more {
          return;
        }
        path, endpointIndex := path + 1, U16_MAX;
      }
      output := Output(0, 0, 0, false);
      cursor := target;
      return false;
    }

    constructor (t: Tree, req: Request)
      requires ValidTree(t)
      ensures Valid() && tree == t && request == req
      ensures cursor == FirstFrom(t, req, 0, 0, 0)
    {
      tree, request, path := t, req, 0;
      endpointIndex, endEndpointIndex := U16_MAX, 0;
      clusterIndex, endClusterIndex := U8_MAX, 0;
      attributes, output := UNPREPARED, Output(0, 0, 0, false);
      new;
      var _ := Advance();
    }

    /** Moves to the next path; false when all paths are exhausted. */
    method Next() returns (more: bool)
      requires Valid()
      modifies this
      ensures Valid() && request == old(request)
      ensures ValidCursor(tree, request, old(cursor)) && cursor == EmberStep(tree, request, old(cursor))
      ensures more == cursor.At?
    {
      RestingTarget();
      more := Advance();
    }

    /** The current path, if any is left. */
    method Get() returns (found: bool, current: Output)
      requires Valid()
      ensures ValidCursor(tree, request, cursor) && found == cursor.At?
      ensures found ==> current == Current(tree, request, cursor)
    {
      found, current := path < |request|, output;
    }

    /** Reports the cluster being expanded once more. */
    method ResetCurrentCluster()
      requires Valid()
      modifies this
      ensures Valid() && request == old(request)
      ensures ValidCursor(tree, request, old(cursor)) && cursor == Rewind(tree, request, old(cursor))
    {
      if path == |request| || !request[path].WildcardAttribute() {
        return;
      }
      attributes := attributes.Reset();
      var _ := Advance();
    }

    /** Starts over with another request. */
    method ResetTo(req: Request)
      requires Valid()
      modifies this
      ensures Valid() && request == req
      ensures cursor == FirstFrom(tree, req, 0, 0, 0)
    {
      request, path := req, 0;
      endpointIndex, endEndpointIndex := U16_MAX, 0;
      clusterIndex, endClusterIndex := U8_MAX, 0;
      attributes, output := UNPREPARED, Output(0, 0, 0, false);
      var _ := Advance();
    }

    /** After the paths emitted so far, the indices lead one step on, or nowhere from a sticky path. */
    lemma RestingTarget()
      requires Valid()
      ensures ValidCursor(tree, request, cursor)
      ensures InPaths() && Target() == EmberStep(tree, request, cursor)
    {
      if path < |request| && request[path].IsWildcard() {
        var c := tree[endpointIndex].clusters[clusterIndex];
        assert attributes.Unprepared() <==> IsSticky(request[path], c) by {
          UnpreparedIffSticky(request[path], c, emitted);
        }
      }
    }
  }
}
