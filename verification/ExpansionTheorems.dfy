/** What every run over the expansion visits, and what the expansion contains. */
module ExpansionTheorems {
  import opened Ids
  import opened PathExpansion

  // ---------------------------------------------------------------------------
  // Stepping visits the nested comprehension
  // ---------------------------------------------------------------------------

  /** The paths at and after path `k` of a cluster, as one walk over all positions. */
  ghost function Walk(t: Tree, req: Request, i: nat, e: nat, c: nat, k: nat): seq<Output>
    requires Bounds(t, req, i, e, c)
    decreases |req| - i, |t| - e, (if e < |t| then |t[e].clusters| - c else 0),
              if i < |req| && e < |t| && c < |t[e].clusters| && k < Yield(req[i], t[e].clusters[c])
              then Yield(req[i], t[e].clusters[c]) - k else 0
  {
    if i == |req| then []
    else if !req[i].IsWildcard() then
      [Output(req[i].endpoint, req[i].cluster, req[i].attribute, false)] + Walk(t, req, i + 1, 0, 0, 0)
    else if e == |t| then Walk(t, req, i + 1, 0, 0, 0)
    else if !Wanted(req[i], t[e]) || c == |t[e].clusters| then Walk(t, req, i, e + 1, 0, 0)
    else if k < Yield(req[i], t[e].clusters[c]) then
      [Output(t[e].id, t[e].clusters[c].id, AttributeAt(req[i], t[e].clusters[c], k), true)] + Walk(t, req, i, e, c, k + 1)
    else Walk(t, req, i, e, c + 1, 0)
  }

  /** The paths at and after a position. */
  ghost function Remaining(t: Tree, req: Request, cur: Cursor): seq<Output>
    requires ValidCursor(t, req, cur)
  {
    if cur.Done? then [] else Walk(t, req, cur.path, cur.endpoint, cur.cluster, cur.k)
  }

  lemma StepValid(t: Tree, req: Request, cur: Cursor)
    requires ValidCursor(t, req, cur)
    ensures ValidCursor(t, req, Step(t, req, cur))
  {
    if cur.At? {
      if !req[cur.path].IsWildcard() {
        FirstFromValid(t, req, cur.path + 1, 0, 0);
      } else if cur.k + 1 == Yield(req[cur.path], t[cur.endpoint].clusters[cur.cluster]) {
        FirstFromValid(t, req, cur.path, cur.endpoint, cur.cluster + 1);
      }
    }
  }

  /** Looking for the first position skips no path. */
  lemma {:induction false} FirstFromSkipsNothing(t: Tree, req: Request, i: nat, e: nat, c: nat)
    requires Bounds(t, req, i, e, c) && ValidCursor(t, req, FirstFrom(t, req, i, e, c))
    ensures Remaining(t, req, FirstFrom(t, req, i, e, c)) == Walk(t, req, i, e, c, 0)
    decreases |req| - i, |t| - e, if e < |t| then |t[e].clusters| - c else 0
  {
    if i == |req| || !req[i].IsWildcard() {
    } else if e == |t| {
      FirstFromSkipsNothing(t, req, i + 1, 0, 0);
    } else if !Wanted(req[i], t[e]) || c == |t[e].clusters| {
      FirstFromSkipsNothing(t, req, i, e + 1, 0);
    } else if Yield(req[i], t[e].clusters[c]) == 0 {
      FirstFromSkipsNothing(t, req, i, e, c + 1);
    }
  }

  /** A step leaves exactly the current path behind. */
  lemma StepTakesOne(t: Tree, req: Request, cur: Cursor)
    requires ValidCursor(t, req, cur) && cur.At? && ValidCursor(t, req, Step(t, req, cur))
    ensures Remaining(t, req, cur) == [Current(t, req, cur)] + Remaining(t, req, Step(t, req, cur))
  {
    if !req[cur.path].IsWildcard() {
      FirstFromSkipsNothing(t, req, cur.path + 1, 0, 0);
    } else if cur.k + 1 == Yield(req[cur.path], t[cur.endpoint].clusters[cur.cluster]) {
      FirstFromSkipsNothing(t, req, cur.path, cur.endpoint, cur.cluster + 1);
      assert Walk(t, req, cur.path, cur.endpoint, cur.cluster, cur.k + 1) ==
             Walk(t, req, cur.path, cur.endpoint, cur.cluster + 1, 0);
    }
  }

  lemma {:induction false} WalkCluster(t: Tree, req: Request, i: nat, e: nat, c: nat, k: nat)
    requires i < |req| && req[i].IsWildcard() && e < |t| && Wanted(req[i], t[e]) && c < |t[e].clusters|
    requires k <= Yield(req[i], t[e].clusters[c])
    ensures Walk(t, req, i, e, c, k) == ExpandCluster(req[i], t[e], t[e].clusters[c], k) + Walk(t, req, i, e, c + 1, 0)
    decreases Yield(req[i], t[e].clusters[c]) - k
  {
    if k < Yield(req[i], t[e].clusters[c]) {
      WalkCluster(t, req, i, e, c, k + 1);
      Associate([Output(t[e].id, t[e].clusters[c].id, AttributeAt(req[i], t[e].clusters[c], k), true)],
            ExpandCluster(req[i], t[e], t[e].clusters[c], k + 1), Walk(t, req, i, e, c + 1, 0));
    }
  }

  lemma {:induction false} WalkClusters(t: Tree, req: Request, i: nat, e: nat, c: nat)
    requires i < |req| && req[i].IsWildcard() && e < |t| && Wanted(req[i], t[e]) && c <= |t[e].clusters|
    ensures Walk(t, req, i, e, c, 0) == ExpandClusters(req[i], t[e], c) + Walk(t, req, i, e + 1, 0, 0)
    decreases |t[e].clusters| - c
  {
    if c < |t[e].clusters| {
      WalkCluster(t, req, i, e, c, 0);
      WalkClusters(t, req, i, e, c + 1);
      Associate(ExpandCluster(req[i], t[e], t[e].clusters[c], 0), ExpandClusters(req[i], t[e], c + 1),
            Walk(t, req, i, e + 1, 0, 0));
    }
  }

  lemma {:induction false} WalkEndpoints(t: Tree, req: Request, i: nat, e: nat)
    requires i < |req| && req[i].IsWildcard() && e <= |t|
    ensures Walk(t, req, i, e, 0, 0) == ExpandEndpoints(t, req[i], e) + Walk(t, req, i + 1, 0, 0, 0)
    decreases |t| - e
  {
    if e < |t| {
      WalkEndpoints(t, req, i, e + 1);
      if Wanted(req[i], t[e]) {
        WalkClusters(t, req, i, e, 0);
        Associate(ExpandClusters(req[i], t[e], 0), ExpandEndpoints(t, req[i], e + 1), Walk(t, req, i + 1, 0, 0, 0));
      }
    }
  }

  lemma WalkPath(t: Tree, req: Request, i: nat)
    requires i < |req|
    ensures Walk(t, req, i, 0, 0, 0) == ExpandPath(t, req[i]) + Walk(t, req, i + 1, 0, 0, 0)
  {
    if req[i].IsWildcard() {
      WalkEndpoints(t, req, i, 0);
    }
  }

  lemma ExpandOne(t: Tree, req: Request, i: nat, here: seq<Output>, later: seq<Output>)
    requires i < |req| && here == ExpandPath(t, req[i]) && later == Expand(t, req, i + 1)
    ensures Expand(t, req, i) == here + later
  {
  }

  /** The walk is the nested comprehension. */
  lemma {:induction false} WalkIsExpand(t: Tree, req: Request, i: nat)
    requires i <= |req|
    ensures Walk(t, req, i, 0, 0, 0) == Expand(t, req, i)
    decreases |req| - i
  {
    if i < |req| {
      WalkIsExpand(t, req, i + 1);
      WalkPath(t, req, i);
      ExpandOne(t, req, i, ExpandPath(t, req[i]), Expand(t, req, i + 1));
    }
  }

  /** Starting at the first position and stepping to the end visits the comprehension. */
  lemma StartIsWhole(t: Tree, req: Request)
    ensures ValidCursor(t, req, FirstFrom(t, req, 0, 0, 0))
    ensures Remaining(t, req, FirstFrom(t, req, 0, 0, 0)) == Expand(t, req, 0)
  {
    FirstFromValid(t, req, 0, 0, 0);
    FirstFromSkipsNothing(t, req, 0, 0, 0);
    WalkIsExpand(t, req, 0);
  }

  // ---------------------------------------------------------------------------
  // What the comprehension contains
  // ---------------------------------------------------------------------------

  /** The path exists in cluster `c` of endpoint `e` and the request path asks for it. */
  ghost predicate Has(p: PathParams, e: Endpoint, c: Cluster, o: Output) {
    && o.expanded && o.endpoint == e.id && o.cluster == c.id
    && p.MatchesCluster(c.id)
    && (o.attribute in c.attributes || o.attribute in GLOBALS)
    && (p.WildcardAttribute() || o.attribute == p.attribute)
  }

  ghost predicate HasCluster(p: PathParams, e: Endpoint, from: nat, o: Output) {
    exists c :: from <= c < |e.clusters| && Has(p, e, e.clusters[c], o)
  }

  ghost predicate HasEndpoint(t: Tree, p: PathParams, from: nat, o: Output) {
    exists e :: from <= e < |t| && Wanted(p, t[e]) && HasCluster(p, t[e], 0, o)
  }

  lemma {:induction false} ClusterIndexed(p: PathParams, e: Endpoint, c: Cluster, k: nat)
    requires k <= Yield(p, c)
    ensures |ExpandCluster(p, e, c, k)| == Yield(p, c) - k
    ensures forall j :: 0 <= j < Yield(p, c) - k ==>
              ExpandCluster(p, e, c, k)[j] == Output(e.id, c.id, AttributeAt(p, c, k + j), true)
    decreases Yield(p, c) - k
  {
    if k < Yield(p, c) {
      ClusterIndexed(p, e, c, k + 1);
    }
  }

  lemma ClusterContents(p: PathParams, e: Endpoint, c: Cluster, o: Output)
    ensures o in ExpandCluster(p, e, c, 0) <==> Has(p, e, c, o)
  {
    var s := ExpandCluster(p, e, c, 0);
    ClusterIndexed(p, e, c, 0);
    if Has(p, e, c, o) {
      var j := PositionOf(p, c, o.attribute);
      assert s[j] == o;
    }
  }

  lemma PositionOf(p: PathParams, c: Cluster, a: nat) returns (j: nat)
    requires p.MatchesCluster(c.id) && (a in c.attributes || a in GLOBALS) && (p.WildcardAttribute() || a == p.attribute)
    ensures j < Yield(p, c) && AttributeAt(p, c, j) == a
  {
    if !p.WildcardAttribute() {
      j := 0;
    } else if a in c.attributes {
      j :| 0 <= j < |c.attributes| && c.attributes[j] == a;
    } else {
      var g :| 0 <= g < |GLOBALS| && GLOBALS[g] == a;
      j := |c.attributes| + g;
    }
  }

  lemma {:induction false} ClustersContents(p: PathParams, e: Endpoint, from: nat, o: Output)
    requires from <= |e.clusters|
    ensures o in ExpandClusters(p, e, from) <==> HasCluster(p, e, from, o)
    decreases |e.clusters| - from
  {
    if from < |e.clusters| {
      ClusterContents(p, e, e.clusters[from], o);
      ClustersContents(p, e, from + 1, o);
    }
  }

  lemma {:induction false} EndpointsContents(t: Tree, p: PathParams, from: nat, o: Output)
    requires from <= |t|
    ensures o in ExpandEndpoints(t, p, from) <==> HasEndpoint(t, p, from, o)
    decreases |t| - from
  {
    if from < |t| {
      ClustersContents(p, t[from], 0, o);
      EndpointsContents(t, p, from + 1, o);
    }
  }

  /** Some id of the requested path is left open. */
  ghost predicate Open(p: PathParams) {
    p.endpoint == INVALID_ENDPOINT || p.cluster == INVALID_CLUSTER || p.attribute == INVALID_ATTRIBUTE
  }

  /** Cluster `c` of endpoint `e` has the path, and every id that the requested path gives is its own. */
  ghost predicate Exists(t: Tree, p: PathParams, o: Output, e: nat, c: nat)
    requires e < |t| && c < |t[e].clusters|
  {
    && t[e].enabled && o.endpoint == t[e].id && o.cluster == t[e].clusters[c].id
    && (o.attribute in t[e].clusters[c].attributes || o.attribute == 0xFFF8 || o.attribute == 0xFFF9 || o.attribute == 0xFFFB)
    && (p.endpoint == INVALID_ENDPOINT || p.endpoint == o.endpoint)
    && (p.cluster == INVALID_CLUSTER || p.cluster == o.cluster)
    && (p.attribute == INVALID_ATTRIBUTE || p.attribute == o.attribute)
  }

  ghost predicate Asked(t: Tree, p: PathParams, o: Output) {
    exists e, c :: 0 <= e < |t| && 0 <= c < |t[e].clusters| && Exists(t, p, o, e, c)
  }

  lemma AskedIff(t: Tree, p: PathParams, o: Output)
    ensures o.expanded && Asked(t, p, o) <==> HasEndpoint(t, p, 0, o)
  {
    if HasEndpoint(t, p, 0, o) {
      var e :| 0 <= e < |t| && Wanted(p, t[e]) && HasCluster(p, t[e], 0, o);
      var c :| 0 <= c < |t[e].clusters| && Has(p, t[e], t[e].clusters[c], o);
      assert Exists(t, p, o, e, c);
    }
    if o.expanded && Asked(t, p, o) {
      var e, c :| 0 <= e < |t| && 0 <= c < |t[e].clusters| && Exists(t, p, o, e, c);
      assert Has(p, t[e], t[e].clusters[c], o);
      assert HasCluster(p, t[e], 0, o);
    }
  }

  /** What a requested path stands for: with an id left open, all existing paths that agree with the ids it gives; otherwise itself. */
  ghost predicate StandsFor(t: Tree, p: PathParams, o: Output) {
    if Open(p) then o.expanded && Asked(t, p, o) else o == Output(p.endpoint, p.cluster, p.attribute, false)
  }

  lemma PathContents(t: Tree, p: PathParams, o: Output)
    ensures o in ExpandPath(t, p) <==> StandsFor(t, p, o)
    ensures !Open(p) ==> |ExpandPath(t, p)| == 1
  {
    EndpointsContents(t, p, 0, o);
    AskedIff(t, p, o);
  }

  /** The expansion of a request holds exactly what its paths stand for. */
  lemma {:induction false} RequestContents(t: Tree, req: Request, i: nat, o: Output)
    requires i <= |req|
    ensures o in Expand(t, req, i) <==> exists j :: i <= j < |req| && StandsFor(t, req[j], o)
    decreases |req| - i
  {
    if i < |req| {
      PathContents(t, req[i], o);
      RequestContents(t, req, i + 1, o);
    }
  }

  /** No invalid id is ever produced. */
  lemma NoInvalidIds(t: Tree, req: Request, o: Output)
    requires ValidTree(t) && o in Expand(t, req, 0)
    ensures o.endpoint != INVALID_ENDPOINT && o.cluster != INVALID_CLUSTER && o.attribute != INVALID_ATTRIBUTE
  {
    RequestContents(t, req, 0, o);
    var j :| 0 <= j < |req| && StandsFor(t, req[j], o);
    if Open(req[j]) {
      var e, c :| 0 <= e < |t| && 0 <= c < |t[e].clusters| && Exists(t, req[j], o, e, c);
      assert ValidEndpoint(t[e]) && ValidCluster(t[e].clusters[c]);
    }
  }

  /** One request after the other is expanded one after the other. */
  lemma {:induction false} ExpandAppend(t: Tree, a: Request, b: Request, i: nat)
    requires i <= |a|
    ensures Expand(t, a + b, i) == Expand(t, a, i) + Expand(t, b, 0)
    decreases |a| - i
  {
    if i == |a| {
      ExpandLater(t, a, b, 0);
    } else {
      assert (a + b)[i] == a[i];
      ExpandAppend(t, a, b, i + 1);
      Associate(ExpandPath(t, a[i]), Expand(t, a, i + 1), Expand(t, b, 0));
    }
  }

  lemma {:induction false} ExpandLater(t: Tree, a: Request, b: Request, i: nat)
    requires i <= |b|
    ensures Expand(t, a + b, |a| + i) == Expand(t, b, i)
    decreases |b| - i
  {
    if i < |b| {
      assert (a + b)[|a| + i] == b[i];
      ExpandLater(t, a, b, i + 1);
    }
  }

  // ---------------------------------------------------------------------------
  // The order of the comprehension
  // ---------------------------------------------------------------------------

  /** The path is the `k`-th of cluster `c` of endpoint `e`: listed attributes come first, then the global ones. */
  ghost predicate Stands(t: Tree, o: Output, e: nat, c: nat, k: nat)
    requires e < |t| && c < |t[e].clusters|
  {
    var attributes := t[e].clusters[c].attributes + [0xFFF8, 0xFFF9, 0xFFFB];
    t[e].enabled && t[e].id == o.endpoint && t[e].clusters[c].id == o.cluster && k < |attributes| && attributes[k] == o.attribute
  }

  ghost predicate Before(e: nat, c: nat, k: nat, e': nat, c': nat, k': nat) {
    e < e' || (e == e' && (c < c' || (c == c' && k < k')))
  }

  ghost predicate Precedes(t: Tree, a: Output, b: Output) {
    exists e, c, k, e', c', k' ::
      && 0 <= e < |t| && 0 <= c < |t[e].clusters| && 0 <= k && 0 <= e' < |t| && 0 <= c' < |t[e'].clusters| && 0 <= k'
      && Stands(t, a, e, c, k) && Stands(t, b, e', c', k') && Before(e, c, k, e', c', k')
  }

  ghost predicate InOrder(t: Tree, s: seq<Output>) {
    forall i, j :: 0 <= i < j < |s| ==> Precedes(t, s[i], s[j])
  }

  lemma InOrderAppend(t: Tree, a: seq<Output>, b: seq<Output>)
    requires InOrder(t, a) && InOrder(t, b) && forall x, y :: x in a && y in b ==> Precedes(t, x, y)
    ensures InOrder(t, a + b)
  {
    forall i, j | 0 <= i < j < |a + b| ensures Precedes(t, (a + b)[i], (a + b)[j]) {
      if i < |a| <= j {
        assert a[i] in a && b[j - |a|] in b;
      }
    }
  }

  /** A path of a cluster stands somewhere in it. */
  lemma StandsIn(t: Tree, p: PathParams, e: nat, c: nat, o: Output) returns (k: nat)
    requires e < |t| && Wanted(p, t[e]) && c < |t[e].clusters| && Has(p, t[e], t[e].clusters[c], o)
    ensures Stands(t, o, e, c, k)
  {
    var listed := t[e].clusters[c].attributes;
    if o.attribute in listed {
      k :| 0 <= k < |listed| && listed[k] == o.attribute;
    } else {
      var g :| 0 <= g < |GLOBALS| && GLOBALS[g] == o.attribute;
      k := |listed| + g;
    }
  }

  lemma ClusterInOrder(t: Tree, p: PathParams, e: nat, c: nat)
    requires e < |t| && Wanted(p, t[e]) && c < |t[e].clusters|
    ensures InOrder(t, ExpandCluster(p, t[e], t[e].clusters[c], 0))
  {
    var s, listed := ExpandCluster(p, t[e], t[e].clusters[c], 0), t[e].clusters[c].attributes;
    ClusterIndexed(p, t[e], t[e].clusters[c], 0);
    forall i, j | 0 <= i < j < |s| ensures Precedes(t, s[i], s[j]) {
      assert Stands(t, s[i], e, c, i) && Stands(t, s[j], e, c, j) && Before(e, c, i, e, c, j);
    }
  }

  lemma {:induction false} ClustersInOrder(t: Tree, p: PathParams, e: nat, from: nat)
    requires e < |t| && Wanted(p, t[e]) && from <= |t[e].clusters|
    ensures InOrder(t, ExpandClusters(p, t[e], from))
    decreases |t[e].clusters| - from
  {
    if from < |t[e].clusters| {
      var here, later := ExpandCluster(p, t[e], t[e].clusters[from], 0), ExpandClusters(p, t[e], from + 1);
      ClusterInOrder(t, p, e, from);
      ClustersInOrder(t, p, e, from + 1);
      forall x, y | x in here && y in later ensures Precedes(t, x, y) {
        ClusterContents(p, t[e], t[e].clusters[from], x);
        ClustersContents(p, t[e], from + 1, y);
        var c' :| from + 1 <= c' < |t[e].clusters| && Has(p, t[e], t[e].clusters[c'], y);
        var k := StandsIn(t, p, e, from, x);
        var k' := StandsIn(t, p, e, c', y);
        assert Before(e, from, k, e, c', k');
      }
      InOrderAppend(t, here, later);
    }
  }

  lemma EndpointPrecedes(t: Tree, p: PathParams, from: nat, x: Output, y: Output)
    requires from < |t| && Wanted(p, t[from]) && x in ExpandClusters(p, t[from], 0) && y in ExpandEndpoints(t, p, from + 1)
    ensures Precedes(t, x, y)
  {
    ClustersContents(p, t[from], 0, x);
    EndpointsContents(t, p, from + 1, y);
    var c :| 0 <= c < |t[from].clusters| && Has(p, t[from], t[from].clusters[c], x);
    var e' :| from + 1 <= e' < |t| && Wanted(p, t[e']) && HasCluster(p, t[e'], 0, y);
    var c' :| 0 <= c' < |t[e'].clusters| && Has(p, t[e'], t[e'].clusters[c'], y);
    var k := StandsIn(t, p, from, c, x);
    var k' := StandsIn(t, p, e', c', y);
    assert Before(from, c, k, e', c', k');
  }

  lemma {:induction false} EndpointsInOrder(t: Tree, p: PathParams, from: nat)
    requires from <= |t|
    ensures InOrder(t, ExpandEndpoints(t, p, from))
    decreases |t| - from
  {
    if from < |t| {
      var later := ExpandEndpoints(t, p, from + 1);
      EndpointsInOrder(t, p, from + 1);
      if Wanted(p, t[from]) {
        var here := ExpandClusters(p, t[from], 0);
        ClustersInOrder(t, p, from, 0);
        forall x, y | x in here && y in later ensures Precedes(t, x, y) {
          EndpointPrecedes(t, p, from, x, y);
        }
        InOrderAppend(t, here, later);
      } else {
        assert [] + later == later;
      }
    }
  }

  /** The paths that a requested path expands to come in the order of the tables. */
  lemma PathInOrder(t: Tree, p: PathParams)
    ensures InOrder(t, ExpandPath(t, p))
  {
    EndpointsInOrder(t, p, 0);
  }

  ghost predicate Distinct(s: seq<Output>) {
    forall i, j :: 0 <= i < j < |s| ==> s[i] != s[j]
  }

  lemma DistinctAppend(a: seq<Output>, b: seq<Output>)
    requires Distinct(a) && Distinct(b) && forall o :: o in a ==> o !in b
    ensures Distinct(a + b)
  {
    forall i, j | 0 <= i < j < |a + b|
      ensures (a + b)[i] != (a + b)[j]
    {
      if i < |a| <= j {
        assert a[i] in a && b[j - |a|] in b;
      }
    }
  }

  lemma ClusterDistinct(p: PathParams, e: Endpoint, c: Cluster)
    requires ValidCluster(c)
    ensures Distinct(ExpandCluster(p, e, c, 0))
  {
    ClusterIndexed(p, e, c, 0);
    forall i, j | 0 <= i < j < Yield(p, c)
      ensures AttributeAt(p, c, i) != AttributeAt(p, c, j)
    {
      if i < |c.attributes| <= j {
        assert GLOBALS[j - |c.attributes|] in GLOBALS;
      }
    }
  }

  lemma {:induction false} ClustersDistinct(p: PathParams, e: Endpoint, from: nat)
    requires ValidEndpoint(e) && from <= |e.clusters|
    ensures Distinct(ExpandClusters(p, e, from))
    decreases |e.clusters| - from
  {
    if from < |e.clusters| {
      ClusterDistinct(p, e, e.clusters[from]);
      ClustersDistinct(p, e, from + 1);
      forall o | o in ExpandCluster(p, e, e.clusters[from], 0)
        ensures o !in ExpandClusters(p, e, from + 1)
      {
        ClusterContents(p, e, e.clusters[from], o);
        ClustersContents(p, e, from + 1, o);
      }
      DistinctAppend(ExpandCluster(p, e, e.clusters[from], 0), ExpandClusters(p, e, from + 1));
    }
  }

  lemma EndpointsApart(t: Tree, p: PathParams, from: nat)
    requires ValidTree(t) && from < |t| && Wanted(p, t[from])
    ensures forall o :: o in ExpandClusters(p, t[from], 0) ==> o !in ExpandEndpoints(t, p, from + 1)
  {
    forall o | o in ExpandClusters(p, t[from], 0)
      ensures o !in ExpandEndpoints(t, p, from + 1)
    {
      ClustersContents(p, t[from], 0, o);
      EndpointsContents(t, p, from + 1, o);
    }
  }

  lemma OneEndpointDistinct(t: Tree, p: PathParams, from: nat)
    requires ValidTree(t) && from < |t|
    ensures var here := if Wanted(p, t[from]) then ExpandClusters(p, t[from], 0) else [];
            Distinct(here) && forall o :: o in here ==> o !in ExpandEndpoints(t, p, from + 1)
  {
    if Wanted(p, t[from]) {
      ClustersDistinct(p, t[from], 0);
      EndpointsApart(t, p, from);
    }
  }

  lemma {:induction false} EndpointsDistinct(t: Tree, p: PathParams, from: nat)
    requires ValidTree(t) && from <= |t|
    ensures Distinct(ExpandEndpoints(t, p, from))
    decreases |t| - from
  {
    if from < |t| {
      EndpointsDistinct(t, p, from + 1);
      OneEndpointDistinct(t, p, from);
      DistinctAppend(if Wanted(p, t[from]) then ExpandClusters(p, t[from], 0) else [], ExpandEndpoints(t, p, from + 1));
    }
  }

  /** No request path expands to the same path twice. */
  lemma PathDistinct(t: Tree, p: PathParams)
    requires ValidTree(t)
    ensures Distinct(ExpandPath(t, p))
  {
    EndpointsDistinct(t, p, 0);
  }

  // ---------------------------------------------------------------------------
  // Two iterators in step
  // ---------------------------------------------------------------------------

  /** No wildcard path of the request names an attribute whose index precedes the sentinel. */
  ghost predicate NoCollision(t: Tree, req: Request) {
    forall i, e, c :: 0 <= i < |req| && 0 <= e < |t| && 0 <= c < |t[e].clusters| ==> !Collides(t, req, i, e, c)
  }

  ghost predicate Collides(t: Tree, req: Request, i: nat, e: nat, c: nat)
    requires i < |req| && e < |t| && c < |t[e].clusters|
  {
    && req[i].IsWildcard() && Wanted(req[i], t[e])
    && req[i].MatchesCluster(t[e].clusters[c].id)
    && IsSticky(req[i], t[e].clusters[c])
  }

  datatype Op = Next | ResetCurrentCluster | ResetTo(request: Request)

  /** A request and a position in its expansion. */
  datatype State = State(request: Request, cursor: Cursor) {
    ghost predicate Valid(t: Tree) { ValidCursor(t, request, cursor) }
  }

  ghost function Begin(t: Tree, req: Request): (s: State)
    ensures s.Valid(t)
  {
    FirstFromValid(t, req, 0, 0, 0);
    State(req, FirstFrom(t, req, 0, 0, 0))
  }

  /** One operation; `sticks` tells the index-based iterator from the tree-walking one. */
  ghost function Apply(t: Tree, s: State, op: Op, sticks: bool): (s': State)
    requires s.Valid(t)
    ensures s'.Valid(t)
  {
    StepValid(t, s.request, s.cursor);
    match op
    case Next => s.(cursor := if sticks then EmberStep(t, s.request, s.cursor) else Step(t, s.request, s.cursor))
    case ResetCurrentCluster => s.(cursor := Rewind(t, s.request, s.cursor))
    case ResetTo(req) => Begin(t, req)
  }

  ghost function Run(t: Tree, s: State, ops: seq<Op>, sticks: bool): (s': State)
    requires s.Valid(t)
    ensures s'.Valid(t)
    decreases |ops|
  {
    if ops == [] then s else Run(t, Apply(t, s, ops[0], sticks), ops[1..], sticks)
  }

  /** What the comparison of the two iterators looks at: exhaustion and the current path. */
  ghost predicate SameOutput(t: Tree, a: State, b: State)
    requires a.Valid(t) && b.Valid(t)
  {
    && a.cursor.At? == b.cursor.At?
    && (a.cursor.At? ==> Current(t, a.request, a.cursor) == Current(t, b.request, b.cursor))
  }

  ghost predicate RequestsClear(t: Tree, ops: seq<Op>) {
    forall i :: 0 <= i < |ops| && ops[i].ResetTo? ==> NoCollision(t, ops[i].request)
  }

  lemma NotStuck(t: Tree, req: Request, cur: Cursor)
    requires ValidCursor(t, req, cur) && NoCollision(t, req)
    ensures !Stuck(t, req, cur)
  {
    if cur.At? && req[cur.path].IsWildcard() {
      assert !Collides(t, req, cur.path, cur.endpoint, cur.cluster);
    }
  }

  /** Without collisions, both iterators stay at the same position whatever is done to them. */
  lemma {:induction false} RunsAgree(t: Tree, s: State, ops: seq<Op>)
    requires s.Valid(t) && NoCollision(t, s.request) && RequestsClear(t, ops)
    ensures Run(t, s, ops, true) == Run(t, s, ops, false)
    decreases |ops|
  {
    if ops != [] {
      NotStuck(t, s.request, s.cursor);
      RunsAgree(t, Apply(t, s, ops[0], true), ops[1..]);
    }
  }

  ghost function Nexts(n: nat): seq<Op> {
    if n == 0 then [] else [Next] + Nexts(n - 1)
  }

  /** The tree-walking iterator is exhausted after as many moves as paths remain. */
  lemma {:induction false} MovesExhaust(t: Tree, s: State)
    requires s.Valid(t)
    ensures Run(t, s, Nexts(|Remaining(t, s.request, s.cursor)|), false).cursor.Done?
    decreases |Remaining(t, s.request, s.cursor)|
  {
    var n := |Remaining(t, s.request, s.cursor)|;
    if s.cursor.At? {
      var s' := Apply(t, s, Next, false);
      StepTakesOne(t, s.request, s.cursor);
      MovesExhaust(t, s');
      assert Nexts(n)[0] == Next && Nexts(n)[1..] == Nexts(n - 1);
    }
  }

  /** The position is at or before cluster `c` of endpoint `e` under request path `i`. */
  ghost predicate NotPast(cur: Cursor, i: nat, e: nat, c: nat) {
    && cur.At?
    && (cur.path < i || (cur.path == i && (cur.endpoint < e || (cur.endpoint == e && cur.cluster <= c))))
  }

  lemma {:induction false} FirstFromNotPast(t: Tree, req: Request, i0: nat, e0: nat, c0: nat, i: nat, e: nat, c: nat)
    requires Bounds(t, req, i0, e0, c0)
    requires i < |req| && e < |t| && c < |t[e].clusters| && Collides(t, req, i, e, c)
    requires NotPast(At(i0, e0, c0, 0), i, e, c)
    ensures NotPast(FirstFrom(t, req, i0, e0, c0), i, e, c)
    decreases |req| - i0, |t| - e0, if e0 < |t| then |t[e0].clusters| - c0 else 0
  {
    if !req[i0].IsWildcard() {
    } else if e0 == |t| {
      FirstFromNotPast(t, req, i0 + 1, 0, 0, i, e, c);
    } else if !Wanted(req[i0], t[e0]) || c0 == |t[e0].clusters| {
      FirstFromNotPast(t, req, i0, e0 + 1, 0, i, e, c);
    } else if Yield(req[i0], t[e0].clusters[c0]) == 0 {
      FirstFromNotPast(t, req, i0, e0, c0 + 1, i, e, c);
    }
  }

  lemma EmberStepNotPast(t: Tree, req: Request, cur: Cursor, i: nat, e: nat, c: nat)
    requires ValidCursor(t, req, cur) && NotPast(cur, i, e, c)
    requires i < |req| && e < |t| && c < |t[e].clusters| && Collides(t, req, i, e, c)
    ensures NotPast(EmberStep(t, req, cur), i, e, c)
  {
    if !Stuck(t, req, cur) {
      if !req[cur.path].IsWildcard() {
        FirstFromNotPast(t, req, cur.path + 1, 0, 0, i, e, c);
      } else if cur.k + 1 == Yield(req[cur.path], t[cur.endpoint].clusters[cur.cluster]) {
        FirstFromNotPast(t, req, cur.path, cur.endpoint, cur.cluster + 1, i, e, c);
      }
    }
  }

  /** The index-based iterator never gets past a collision, so it is never exhausted. */
  lemma {:induction false} CollisionNeverEnds(t: Tree, s: State, n: nat, i: nat, e: nat, c: nat)
    requires s.Valid(t) && NotPast(s.cursor, i, e, c)
    requires i < |s.request| && e < |t| && c < |t[e].clusters| && Collides(t, s.request, i, e, c)
    ensures Run(t, s, Nexts(n), true).cursor.At?
    decreases n
  {
    if n > 0 {
      EmberStepNotPast(t, s.request, s.cursor, i, e, c);
      CollisionNeverEnds(t, Apply(t, s, Next, true), n - 1, i, e, c);
      assert Nexts(n)[0] == Next && Nexts(n)[1..] == Nexts(n - 1);
    }
  }

  /**
   * Moving both iterators over a request keeps them in agreement, however far, if
   * and only if no wildcard path of the request names an attribute at the index
   * before the sentinel.
   */
  lemma AgreeIffNoCollision(t: Tree, req: Request)
    ensures (forall n: nat :: SameOutput(t, Run(t, Begin(t, req), Nexts(n), true), Run(t, Begin(t, req), Nexts(n), false)))
            <==> NoCollision(t, req)
  {
    var s := Begin(t, req);
    if NoCollision(t, req) {
      forall n: nat
        ensures SameOutput(t, Run(t, s, Nexts(n), true), Run(t, s, Nexts(n), false))
      {
        NextsOnly(n);
        RunsAgree(t, s, Nexts(n));
      }
    } else {
      var i, e, c :| 0 <= i < |req| && 0 <= e < |t| && 0 <= c < |t[e].clusters| && Collides(t, req, i, e, c);
      var n := |Remaining(t, req, s.cursor)|;
      FirstFromNotPast(t, req, 0, 0, 0, i, e, c);
      CollisionNeverEnds(t, s, n, i, e, c);
      MovesExhaust(t, s);
      assert !SameOutput(t, Run(t, s, Nexts(n), true), Run(t, s, Nexts(n), false));
    }
  }

  lemma {:induction false} NextsOnly(n: nat)
    ensures forall i :: 0 <= i < |Nexts(n)| ==> Nexts(n)[i] == Next
  {
    if n > 0 {
      NextsOnly(n - 1);
    }
  }
}
