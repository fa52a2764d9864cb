/** What an iterator still produces after its current cluster was reset. */
module ResetTheorems {
  import opened Ids
  import opened PathExpansion
  import opened ExpansionTheorems

  lemma RewindValid(t: Tree, req: Request, cur: Cursor)
    requires ValidCursor(t, req, cur)
    ensures ValidCursor(t, req, Rewind(t, req, cur))
  {
  }

  /**
   * While a path for all attributes is expanded, a reset brings the whole cluster again
   * and then what lies behind it. It changes nothing for any other path, nor at the end.
   */
  lemma ResetRepeats(t: Tree, req: Request, cur: Cursor)
    requires ValidCursor(t, req, cur) && ValidCursor(t, req, Rewind(t, req, cur))
    ensures cur.Done? || req[cur.path].attribute != INVALID_ATTRIBUTE ==>
              Remaining(t, req, Rewind(t, req, cur)) == Remaining(t, req, cur)
    ensures cur.At? && req[cur.path].attribute == INVALID_ATTRIBUTE ==>
              && cur.endpoint < |t| && cur.cluster < |t[cur.endpoint].clusters|
              && var p, e, c := req[cur.path], t[cur.endpoint], t[cur.endpoint].clusters[cur.cluster];
                 var behind := Walk(t, req, cur.path, cur.endpoint, cur.cluster + 1, 0);
                 && cur.k <= Yield(p, c)
                 && Remaining(t, req, cur) == ExpandCluster(p, e, c, cur.k) + behind
                 && Remaining(t, req, Rewind(t, req, cur)) == ExpandCluster(p, e, c, 0) + behind
  {
    if cur.At? && req[cur.path].attribute == INVALID_ATTRIBUTE {
      var i, e, c := cur.path, cur.endpoint, cur.cluster;
      WalkCluster(t, req, i, e, c, cur.k);
      WalkCluster(t, req, i, e, c, 0);
    }
  }

  // ---------------------------------------------------------------------------
  // The same, by the numbers of the produced paths
  // ---------------------------------------------------------------------------

  ghost predicate SameCluster(a: Output, b: Output) {
    a.endpoint == b.endpoint && a.cluster == b.cluster
  }

  /** The `n`-th path of all is among those with at most `from` and more than `to` to go. */
  ghost predicate Within(all: seq<Output>, from: nat, to: nat, n: nat) {
    n < |all| && to < |all| - n <= from
  }

  /** The path to go on from after the `n`-th: the first one on its cluster in an unbroken run, or itself. */
  ghost predicate GoesOnFrom(all: seq<Output>, from: nat, to: nat, anew: bool, n: nat, start: nat) {
    && Within(all, from, to, n) && start <= n
    && if !anew then start == n
       else
         && Within(all, from, to, start)
         && (forall j :: start <= j <= n ==> SameCluster(all[j], all[n]))
         && (start > 0 && Within(all, from, to, start - 1) ==> !SameCluster(all[start - 1], all[n]))
  }

  /**
   * What is produced after `n` moves and a reset. The current path comes from path `i` of the
   * request; if that leaves the attribute open, the paths of the current cluster come again.
   */
  ghost predicate Resumed(t: Tree, req: Request, n: nat, outs: seq<Output>) {
    if n >= |Expand(t, req, 0)| then outs == []
    else exists i: nat, start: nat :: ResumesAt(t, req, n, i, start) && outs == Expand(t, req, 0)[start..]
  }

  ghost predicate ResumesAt(t: Tree, req: Request, n: nat, i: nat, start: nat) {
    && i < |req|
    && GoesOnFrom(Expand(t, req, 0), |Expand(t, req, i)|, |Expand(t, req, i + 1)|, req[i].attribute == INVALID_ATTRIBUTE, n, start)
  }

  lemma ExpandSuffix(t: Tree, req: Request, i: nat)
    requires i <= |req|
    ensures var all, rest := Expand(t, req, 0), Expand(t, req, i);
            |rest| <= |all| && all[|all| - |rest|..] == rest
  {
    var a, b := req[..i], req[i..];
    assert a + b == req;
    ExpandAppend(t, a, b, 0);
    ExpandLater(t, a, b, 0);
  }

  lemma {:induction false} EndpointsPrefix(t: Tree, req: Request, i: nat, e: nat) returns (pre: seq<Output>)
    requires i < |req| && req[i].IsWildcard() && e <= |t|
    ensures Walk(t, req, i, 0, 0, 0) == pre + Walk(t, req, i, e, 0, 0)
    ensures forall o :: o in pre ==> exists f :: 0 <= f < e && t[f].enabled && t[f].id == o.endpoint
    decreases e
  {
    if e == 0 {
      pre := [];
    } else {
      pre := EndpointsPrefix(t, req, i, e - 1);
      if Wanted(req[i], t[e - 1]) {
        var here := ExpandClusters(req[i], t[e - 1], 0);
        WalkClusters(t, req, i, e - 1, 0);
        Associate(pre, here, Walk(t, req, i, e, 0, 0));
        forall o | o in here ensures t[e - 1].enabled && t[e - 1].id == o.endpoint {
          ClustersContents(req[i], t[e - 1], 0, o);
        }
        pre := pre + here;
      }
    }
  }

  lemma {:induction false} ClustersPrefix(t: Tree, req: Request, i: nat, e: nat, c: nat) returns (pre: seq<Output>)
    requires i < |req| && req[i].IsWildcard() && e < |t| && Wanted(req[i], t[e]) && c <= |t[e].clusters|
    ensures Walk(t, req, i, e, 0, 0) == pre + Walk(t, req, i, e, c, 0)
    ensures forall o :: o in pre ==> exists d :: 0 <= d < c && t[e].clusters[d].id == o.cluster
    decreases c
  {
    if c == 0 {
      pre := [];
    } else {
      pre := ClustersPrefix(t, req, i, e, c - 1);
      var here := ExpandCluster(req[i], t[e], t[e].clusters[c - 1], 0);
      WalkCluster(t, req, i, e, c - 1, 0);
      Associate(pre, here, Walk(t, req, i, e, c, 0));
      forall o | o in here ensures t[e].clusters[c - 1].id == o.cluster {
        ClusterContents(req[i], t[e], t[e].clusters[c - 1], o);
      }
      pre := pre + here;
    }
  }

  /** What comes before a cluster, for the same requested path, is on other clusters. */
  lemma ClusterPrefix(t: Tree, req: Request, i: nat, e: nat, c: nat) returns (pre: seq<Output>)
    requires ValidTree(t) && i < |req| && req[i].IsWildcard()
    requires e < |t| && Wanted(req[i], t[e]) && c < |t[e].clusters|
    ensures Expand(t, req, i) == pre + Walk(t, req, i, e, c, 0)
    ensures forall o :: o in pre ==> !(o.endpoint == t[e].id && o.cluster == t[e].clusters[c].id)
  {
    var outer := EndpointsPrefix(t, req, i, e);
    var inner := ClustersPrefix(t, req, i, e, c);
    WalkIsExpand(t, req, i);
    Associate(outer, inner, Walk(t, req, i, e, c, 0));
    pre := outer + inner;
    assert ValidEndpoint(t[e]);
  }

  /** Behind a cluster comes what is left of its request path, and all later ones. */
  lemma BehindCluster(t: Tree, req: Request, i: nat, e: nat, c: nat)
    requires i < |req| && req[i].IsWildcard() && e < |t| && Wanted(req[i], t[e]) && c <= |t[e].clusters|
    ensures |Expand(t, req, i + 1)| <= |Walk(t, req, i, e, c, 0)|
  {
    WalkClusters(t, req, i, e, c);
    WalkEndpoints(t, req, i, e + 1);
    WalkIsExpand(t, req, i + 1);
  }

  /** What is left of all paths at the start of a cluster gives the numbers of the paths in it. */
  lemma NumbersFrom(all: seq<Output>, walk: seq<Output>, from: nat, to: nat, n: nat, k: nat, o: Output)
    requires |walk| <= from <= |all| && all[|all| - |walk|..] == walk && |all| - n == |walk| - k && to + k < |walk|
    requires forall j :: 0 <= j <= k ==> SameCluster(walk[j], o)
    requires |walk| < from ==> !SameCluster(all[|all| - |walk| - 1], o)
    ensures GoesOnFrom(all, from, to, false, n, n)
    ensures k <= n && GoesOnFrom(all, from, to, true, n, n - k) && all[n - k..] == walk
  {
    var s := |all| - |walk|;
    assert forall j :: s <= j <= n ==> all[j] == all[s..][j - s];
  }

  /** A cluster starts with its own paths, as many as it yields. */
  lemma ClusterHead(t: Tree, req: Request, i: nat, e: nat, c: nat, k: nat, walk: seq<Output>)
    requires i < |req| && req[i].IsWildcard()
    requires e < |t| && Wanted(req[i], t[e]) && c < |t[e].clusters| && k < Yield(req[i], t[e].clusters[c])
    requires walk == Walk(t, req, i, e, c, 0)
    ensures |Walk(t, req, i, e, c, k)| == |walk| - k && |Expand(t, req, i + 1)| + k < |walk|
    ensures forall j :: 0 <= j <= k ==> walk[j].endpoint == t[e].id && walk[j].cluster == t[e].clusters[c].id
  {
    WalkCluster(t, req, i, e, c, 0);
    WalkCluster(t, req, i, e, c, k);
    ClusterIndexed(req[i], t[e], t[e].clusters[c], 0);
    ClusterIndexed(req[i], t[e], t[e].clusters[c], k);
    BehindCluster(t, req, i, e, c + 1);
  }

  /** Just before a cluster comes, for the same requested path, a path on another cluster. */
  lemma ClusterBefore(t: Tree, req: Request, i: nat, e: nat, c: nat, all: seq<Output>, walk: seq<Output>)
    requires ValidTree(t) && i < |req| && req[i].IsWildcard()
    requires e < |t| && Wanted(req[i], t[e]) && c < |t[e].clusters|
    requires all == Expand(t, req, 0) && walk == Walk(t, req, i, e, c, 0)
    ensures |walk| <= |Expand(t, req, i)| <= |all| && all[|all| - |walk|..] == walk
    ensures |walk| < |Expand(t, req, i)| ==>
              !(all[|all| - |walk| - 1].endpoint == t[e].id && all[|all| - |walk| - 1].cluster == t[e].clusters[c].id)
  {
    var pre := ClusterPrefix(t, req, i, e, c);
    ExpandSuffix(t, req, i);
    LastBefore(all, Expand(t, req, i), pre, walk);
  }

  lemma LastBefore(all: seq<Output>, more: seq<Output>, pre: seq<Output>, walk: seq<Output>)
    requires |more| <= |all| && all[|all| - |more|..] == more && more == pre + walk
    ensures all[|all| - |walk|..] == walk
    ensures pre != [] ==> all[|all| - |walk| - 1] in pre
  {
    assert all[|all| - |walk|..] == all[|all| - |more|..][|pre|..];
    assert pre != [] ==> all[|all| - |walk| - 1] == all[|all| - |more|..][|pre| - 1];
  }

  /** A position in a cluster, by the number of the path there: the cluster starts `k` paths earlier. */
  lemma ClusterNumbers(t: Tree, req: Request, i: nat, e: nat, c: nat, k: nat, n: nat, all: seq<Output>, walk: seq<Output>)
    requires ValidTree(t) && i < |req| && req[i].IsWildcard()
    requires e < |t| && Wanted(req[i], t[e]) && c < |t[e].clusters| && k < Yield(req[i], t[e].clusters[c])
    requires all == Expand(t, req, 0) && walk == Walk(t, req, i, e, c, 0) && |Walk(t, req, i, e, c, k)| == |all| - n
    ensures GoesOnFrom(all, |Expand(t, req, i)|, |Expand(t, req, i + 1)|, false, n, n)
    ensures k <= n && GoesOnFrom(all, |Expand(t, req, i)|, |Expand(t, req, i + 1)|, true, n, n - k) && walk == all[n - k..]
  {
    ClusterHead(t, req, i, e, c, k, walk);
    ClusterBefore(t, req, i, e, c, all, walk);
    NumbersFrom(all, walk, |Expand(t, req, i)|, |Expand(t, req, i + 1)|, n, k, Output(t[e].id, t[e].clusters[c].id, 0, true));
  }

  lemma ConcreteNumbers(t: Tree, req: Request, i: nat, n: nat)
    requires i < |req| && !req[i].IsWildcard()
    requires n < |Expand(t, req, 0)| && Walk(t, req, i, 0, 0, 0) == Expand(t, req, 0)[n..]
    ensures GoesOnFrom(Expand(t, req, 0), |Expand(t, req, i)|, |Expand(t, req, i + 1)|, false, n, n)
  {
    WalkIsExpand(t, req, i);
  }

  /** The position after so many moves from the start. */
  ghost predicate Moved(t: Tree, req: Request, cur: Cursor, n: nat)
    requires ValidCursor(t, req, cur)
  {
    if cur.Done? then n >= |Expand(t, req, 0)|
    else n < |Expand(t, req, 0)| && Remaining(t, req, cur) == Expand(t, req, 0)[n..]
  }

  lemma MovedNone(t: Tree, req: Request)
    ensures ValidCursor(t, req, FirstFrom(t, req, 0, 0, 0)) && Moved(t, req, FirstFrom(t, req, 0, 0, 0), 0)
  {
    StartIsWhole(t, req);
    var all, cur := Expand(t, req, 0), FirstFrom(t, req, 0, 0, 0);
    assert all[0..] == all;
    if cur.At? {
      StepValid(t, req, cur);
      StepTakesOne(t, req, cur);
    }
  }

  lemma MovedOne(t: Tree, req: Request, cur: Cursor, n: nat)
    requires ValidCursor(t, req, cur) && Moved(t, req, cur, n)
    ensures ValidCursor(t, req, Step(t, req, cur)) && Moved(t, req, Step(t, req, cur), n + 1)
  {
    StepValid(t, req, cur);
    if cur.At? {
      StepTakesOne(t, req, cur);
      RestFollows(Expand(t, req, 0), n, Current(t, req, cur), Remaining(t, req, Step(t, req, cur)));
      if Step(t, req, cur).At? {
        StepValid(t, req, Step(t, req, cur));
        StepTakesOne(t, req, Step(t, req, cur));
      }
    }
  }

  lemma RestFollows(all: seq<Output>, n: nat, o: Output, rest: seq<Output>)
    requires n < |all| && all[n..] == [o] + rest
    ensures all[n + 1..] == rest
  {
    assert all[n + 1..] == all[n..][1..];
  }

  lemma ConcreteResumes(t: Tree, req: Request, i: nat, n: nat)
    requires i < |req| && !req[i].IsWildcard()
    requires n < |Expand(t, req, 0)| && Walk(t, req, i, 0, 0, 0) == Expand(t, req, 0)[n..]
    ensures Resumed(t, req, n, Walk(t, req, i, 0, 0, 0))
  {
    ConcreteNumbers(t, req, i, n);
    assert ResumesAt(t, req, n, i, n);
  }

  lemma ClusterResumes(t: Tree, req: Request, i: nat, e: nat, c: nat, k: nat, n: nat)
    requires ValidTree(t) && i < |req| && req[i].IsWildcard()
    requires e < |t| && Wanted(req[i], t[e]) && c < |t[e].clusters| && k < Yield(req[i], t[e].clusters[c])
    requires n < |Expand(t, req, 0)| && Walk(t, req, i, e, c, k) == Expand(t, req, 0)[n..]
    ensures Resumed(t, req, n, Walk(t, req, i, e, c, if req[i].attribute == INVALID_ATTRIBUTE then 0 else k))
  {
    ClusterNumbers(t, req, i, e, c, k, n, Expand(t, req, 0), Walk(t, req, i, e, c, 0));
    assert ResumesAt(t, req, n, i, if req[i].attribute == INVALID_ATTRIBUTE then n - k else n);
  }

  /** After `n` moves, what remains once the cluster was reset is what is to be produced then. */
  lemma ResetResumes(t: Tree, req: Request, cur: Cursor, n: nat)
    requires ValidTree(t) && ValidCursor(t, req, cur) && ValidCursor(t, req, Rewind(t, req, cur))
    requires Moved(t, req, cur, n)
    ensures Resumed(t, req, n, Remaining(t, req, Rewind(t, req, cur)))
  {
    if cur.At? {
      if !req[cur.path].IsWildcard() {
        ConcreteResumes(t, req, cur.path, n);
      } else {
        ClusterResumes(t, req, cur.path, cur.endpoint, cur.cluster, cur.k, n);
      }
    }
  }
}
