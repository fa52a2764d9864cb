/**
 * The data version filters a client sends with a request: which requested paths may
 * carry versions, the filters in order of cluster size, and as many of them as fit.
 */
module VersionFilters {
  import opened Ids
  import opened TlvWriter
  import opened ListEncoder

  // ---------------------------------------------------------------------------
  // Paths that are admitted to the request path set
  // ---------------------------------------------------------------------------

  /** The path asks for all attributes and meets no path of the request that names one. */
  predicate Admitted(paths: seq<PathParams>, p: PathParams) {
    p in paths && p.WildcardAttribute() && forall q :: q in paths && !q.WildcardAttribute() ==> !p.Intersects(q)
  }

  /** The requested path asks for the attribute: every id that it gives is that of the attribute. */
  predicate Asks(p: PathParams, a: AttributePath) {
    && (p.endpoint == INVALID_ENDPOINT || p.endpoint == a.endpoint)
    && (p.cluster == INVALID_CLUSTER || p.cluster == a.cluster)
    && (p.attribute == INVALID_ATTRIBUTE || p.attribute == a.attribute)
  }

  /** Requested paths meet exactly if they ask for an attribute in common. */
  lemma IntersectsIff(p: PathParams, q: PathParams)
    ensures p.Intersects(q) <==> exists a :: Asks(p, a) && Asks(q, a)
  {
    if p.Intersects(q) {
      var a := AttributePath(if p.endpoint == INVALID_ENDPOINT then q.endpoint else p.endpoint,
                             if p.cluster == INVALID_CLUSTER then q.cluster else p.cluster,
                             if p.attribute == INVALID_ATTRIBUTE then q.attribute else p.attribute);
      assert Asks(p, a) && Asks(q, a);
    }
  }

  /** A path reaches a cluster if it asks for some attribute there, and covers it if it asks for all of them. */
  lemma ReachesIff(p: PathParams, c: ClusterPath)
    ensures p.ReachesCluster(c) <==> exists id :: Asks(p, AttributePath(c.endpoint, c.cluster, id))
    ensures p.CoversCluster(c) <==> forall id: nat :: Asks(p, AttributePath(c.endpoint, c.cluster, id))
  {
    assert p.ReachesCluster(c) ==> Asks(p, AttributePath(c.endpoint, c.cluster, p.attribute));
    if forall id: nat :: Asks(p, AttributePath(c.endpoint, c.cluster, id)) {
      assert Asks(p, AttributePath(c.endpoint, c.cluster, p.attribute + 1));
    }
  }

  /** A path is admitted exactly if it leaves the attribute open and shares none with a path that names one. */
  lemma AdmittedIff(paths: seq<PathParams>, p: PathParams)
    ensures Admitted(paths, p) <==>
            && p in paths && p.attribute == INVALID_ATTRIBUTE
            && forall q, a :: q in paths && q.attribute != INVALID_ATTRIBUTE && Asks(p, a) ==> !Asks(q, a)
  {
    forall q ensures p.Intersects(q) <==> exists a :: Asks(p, a) && Asks(q, a) {
      IntersectsIff(p, q);
    }
  }

  /** A cluster that two meeting paths have in common. */
  function CommonCluster(p: PathParams, q: PathParams): ClusterPath {
    ClusterPath(if !p.WildcardEndpoint() then p.endpoint else if !q.WildcardEndpoint() then q.endpoint else 0,
                if !p.WildcardCluster() then p.cluster else if !q.WildcardCluster() then q.cluster else 0)
  }

  /** No cluster that an admitted path covers is reached by a path of the request that names an attribute. */
  lemma AdmittedAlone(paths: seq<PathParams>, p: PathParams, q: PathParams, c: ClusterPath)
    requires Admitted(paths, p) && p.CoversCluster(c)
    requires q in paths && !q.WildcardAttribute()
    ensures !q.ReachesCluster(c)
  {
    assert !p.Intersects(q);
  }

  /** A path for all attributes is left out only for a cluster where that would go wrong. */
  lemma LeftOutWitness(paths: seq<PathParams>, p: PathParams) returns (q: PathParams, c: ClusterPath)
    requires p in paths && p.WildcardAttribute() && !Admitted(paths, p)
    ensures c.IsValid() && p.CoversCluster(c)
    ensures q in paths && !q.WildcardAttribute() && q.ReachesCluster(c)
  {
    q :| q in paths && !q.WildcardAttribute() && p.Intersects(q);
    c := CommonCluster(p, q);
  }

  /** The inner loop over the request: does a path that names an attribute meet this one? */
  method MeetsSpecific(paths: seq<PathParams>, p: PathParams) returns (meets: bool)
    ensures meets <==> exists q :: q in paths && !q.WildcardAttribute() && p.Intersects(q)
  {
    for i := 0 to |paths|
      invariant forall k :: 0 <= k < i ==> paths[k].WildcardAttribute() || !p.Intersects(paths[k])
    {
      if !paths[i].WildcardAttribute() && p.Intersects(paths[i]) {
        return true;
      }
    }
    return false;
  }

  // ---------------------------------------------------------------------------
  // Sorting by size
  // ---------------------------------------------------------------------------

  /** A filter and the size of the data it may save. */
  datatype Entry = Entry(cluster: ClusterPath, version: nat, size: nat)

  predicate Descending(es: seq<Entry>) {
    forall i, j :: 0 <= i < j < |es| ==> es[i].size >= es[j].size
  }

  predicate Distinct(es: seq<Entry>) {
    forall i, j :: 0 <= i < j < |es| ==> es[i] != es[j]
  }

  /** Where an entry belongs among sorted ones. */
  method Place(es: seq<Entry>, e: Entry) returns (at: nat)
    requires Descending(es)
    ensures at <= |es|
    ensures forall k :: 0 <= k < at ==> es[k].size >= e.size
    ensures forall k :: at <= k < |es| ==> es[k].size < e.size
  {
    at := 0;
    while at < |es| && es[at].size >= e.size
      invariant at <= |es|
      invariant forall k :: 0 <= k < at ==> es[k].size >= e.size
    {
      at := at + 1;
    }
  }

  /** Sorts by falling size; entries of one size come in any order. */
  method Sort(es: seq<Entry>) returns (sorted: seq<Entry>)
    ensures Descending(sorted) && multiset(sorted) == multiset(es)
  {
    sorted := [];
    for i := 0 to |es|
      invariant Descending(sorted) && multiset(sorted) == multiset(es[..i])
    {
      var at := Place(sorted, es[i]);
      assert sorted == sorted[..at] + sorted[at..];
      assert es[..i + 1] == es[..i] + [es[i]];
      sorted := sorted[..at] + [es[i]] + sorted[at..];
    }
    assert es[..|es|] == es;
  }

  lemma {:induction false} DistinctCounts(es: seq<Entry>, e: Entry)
    requires Distinct(es)
    ensures multiset(es)[e] <= 1
  {
    if es != [] {
      assert es == [es[0]] + es[1..];
      DistinctCounts(es[1..], e);
      if e == es[0] {
        assert e !in es[1..];
      }
    }
  }

  /** A permutation has the same members, each as often. */
  lemma SamePermuted(a: seq<Entry>, b: seq<Entry>)
    requires multiset(a) == multiset(b) && Distinct(a)
    ensures Distinct(b) && forall e :: e in a <==> e in b
  {
    forall e ensures e in a <==> e in b {
      assert e in a <==> e in multiset(a);
      assert e in b <==> e in multiset(b);
    }
    forall i, j | 0 <= i < j < |b| ensures b[i] != b[j] {
      DistinctCounts(a, b[i]);
      var front, back := b[..j], b[j..];
      assert b == front + back && b[i] == front[i] && b[j] == back[0];
      assert multiset(b)[b[i]] == multiset(front)[b[i]] + multiset(back)[b[i]];
      assert b[i] in front && b[j] in back;
    }
  }

  // ---------------------------------------------------------------------------
  // The encoded list
  // ---------------------------------------------------------------------------

  predicate Reached(paths: seq<PathParams>, c: ClusterPath) {
    exists p :: p in paths && p.ReachesCluster(c)
  }

  /** The entries of clusters that the request reaches. */
  function Wanted(es: seq<Entry>, paths: seq<PathParams>): seq<Entry> {
    if es == [] then []
    else if Reached(paths, es[0].cluster) then [es[0]] + Wanted(es[1..], paths)
    else Wanted(es[1..], paths)
  }

  function WantedOne(e: Entry, paths: seq<PathParams>): seq<Entry> {
    if Reached(paths, e.cluster) then [e] else []
  }

  /** A data version filter on the wire. */
  function FilterElem(e: Entry): Elem {
    Node(Anonymous, Structure,
         [Node(Context(0), List, [Unsigned(1, e.cluster.endpoint), Unsigned(2, e.cluster.cluster)]), Unsigned(1, e.version)])
  }

  function FilterElems(es: seq<Entry>): seq<Elem> {
    if es == [] then [] else [FilterElem(es[0])] + FilterElems(es[1..])
  }

  /** The tokens of a filter: the cluster under tag 0, with its ids under tags 1 and 2, and the version under tag 1. */
  lemma FilterTokens(e: Entry)
    ensures Flat(FilterElem(e)) ==
            [Open(Anonymous, Structure), Open(Context(0), List),
             Data(Context(1), UnsignedBytes(e.cluster.endpoint), e.cluster.endpoint),
             Data(Context(2), UnsignedBytes(e.cluster.cluster), e.cluster.cluster), Close,
             Data(Context(1), UnsignedBytes(e.version), e.version), Close]
  {
    var a, b := Unsigned(1, e.cluster.endpoint), Unsigned(2, e.cluster.cluster);
    var ids, version := Node(Context(0), List, [a, b]), Unsigned(1, e.version);
    assert [a, b] == [a] + [b] && [ids, version] == [ids] + [version];
    FlatAllAppend([a], [b]);
    FlatAllAppend([ids], [version]);
    FlatOne(a);
    FlatOne(b);
    FlatOne(ids);
    FlatOne(version);
  }

  /** The cluster and version that a filter on the wire names. */
  function DecodeFilter(elem: Elem): Option<(ClusterPath, nat)> {
    match elem
    case Node(Anonymous, Structure, fields) =>
      if |fields| == 2 && fields[0].Node? && fields[0].tag == Context(0) && |fields[0].children| == 2
         && fields[1].Leaf? && fields[1].tag == Context(1)
         && fields[0].children[0].Leaf? && fields[0].children[0].tag == Context(1)
         && fields[0].children[1].Leaf? && fields[0].children[1].tag == Context(2)
      then Some((ClusterPath(fields[0].children[0].value, fields[0].children[1].value), fields[1].value))
      else None
    case _ => None
  }

  /** How many of the filters fit, taken in order until one does not. */
  function Fitting(es: seq<Entry>, room: nat): (n: nat)
    ensures n <= |es|
  {
    if es == [] || Size(FilterElem(es[0])) > room then 0
    else 1 + Fitting(es[1..], room - Size(FilterElem(es[0])))
  }

  function EncodedBytes(es: seq<Entry>): nat {
    if es == [] then 0 else Size(FilterElem(es[0])) + EncodedBytes(es[1..])
  }

  /** The prefix that fits cannot be made longer. */
  lemma {:induction false} FittingMaximal(es: seq<Entry>, room: nat)
    ensures var n := Fitting(es, room);
            EncodedBytes(es[..n]) <= room && (n < |es| ==> EncodedBytes(es[..n + 1]) > room)
  {
    if es != [] && Size(FilterElem(es[0])) <= room {
      var n := Fitting(es, room);
      FittingMaximal(es[1..], room - Size(FilterElem(es[0])));
      assert es[..n][1..] == es[1..][..n - 1];
      assert n < |es| ==> es[..n + 1][1..] == es[1..][..n];
    } else if es != [] {
      assert es[..1][0] == es[0];
    }
  }

  lemma {:induction false} WantedIn(es: seq<Entry>, paths: seq<PathParams>, e: Entry)
    ensures e in Wanted(es, paths) <==> e in es && Reached(paths, e.cluster)
  {
    if es != [] {
      assert es == [es[0]] + es[1..];
      WantedIn(es[1..], paths, e);
    }
  }

  lemma SortedMore(e: Entry, rest: seq<Entry>)
    requires Descending(rest) && Distinct(rest) && forall i :: 0 <= i < |rest| ==> e.size >= rest[i].size && e != rest[i]
    ensures Descending([e] + rest) && Distinct([e] + rest)
  {
  }

  /** Leaving out entries keeps the rest in order. */
  lemma {:induction false} WantedSorted(es: seq<Entry>, paths: seq<PathParams>)
    requires Descending(es) && Distinct(es)
    ensures Descending(Wanted(es, paths)) && Distinct(Wanted(es, paths))
  {
    if es != [] {
      WantedSorted(es[1..], paths);
      var rest := Wanted(es[1..], paths);
      forall i | 0 <= i < |rest| ensures es[0].size >= rest[i].size && es[0] != rest[i] {
        WantedIn(es[1..], paths, rest[i]);
      }
      SortedMore(es[0], rest);
    }
  }

  /** What a builder holds once filters were encoded into it. */
  function WithFilters(w: Writer, es: seq<Entry>): (w': Writer)
    requires EncodedBytes(es) <= w.remaining
  {
    Writer(w.remaining - EncodedBytes(es), w.reserved, w.open, w.content + FlatAll(FilterElems(es)))
  }

  /** A reader finds exactly the encoded filters, in order. */
  lemma FiltersReadBack(es: seq<Entry>)
    ensures Parse(FlatAll(FilterElems(es))) == Some((FilterElems(es), []))
    ensures |FilterElems(es)| == |es|
    ensures forall i :: 0 <= i < |es| ==> DecodeFilter(FilterElems(es)[i]) == Some((es[i].cluster, es[i].version))
  {
    ParseFlat(FilterElems(es), []);
    assert FlatAll(FilterElems(es)) + [] == FlatAll(FilterElems(es));
    DecodeEach(es);
  }

  lemma {:induction false} DecodeEach(es: seq<Entry>)
    ensures |FilterElems(es)| == |es|
    ensures forall i :: 0 <= i < |es| ==> DecodeFilter(FilterElems(es)[i]) == Some((es[i].cluster, es[i].version))
  {
    if es != [] {
      DecodeEach(es[1..]);
    }
  }

  lemma {:induction false} EncodedAppend(es: seq<Entry>, e: Entry)
    ensures EncodedBytes(es + [e]) == EncodedBytes(es) + Size(FilterElem(e))
    ensures FlatAll(FilterElems(es + [e])) == FlatAll(FilterElems(es)) + Flat(FilterElem(e))
  {
    if es == [] {
      assert es + [e] == [e] && [e][1..] == [];
      FlatOne(FilterElem(e));
      assert [FilterElem(e)] + [] == [FilterElem(e)];
      assert [] + Flat(FilterElem(e)) == Flat(FilterElem(e));
    } else {
      assert (es + [e])[1..] == es[1..] + [e];
      EncodedAppend(es[1..], e);
    }
  }

  /** Encoding one more filter either fits or fails for lack of room. */
  lemma EncodeOne(w: Writer, es: seq<Entry>, e: Entry)
    requires EncodedBytes(es) <= w.remaining
    ensures var r := WithFilters(w, es).PutAll(Flat(FilterElem(e)));
            if EncodedBytes(es + [e]) <= w.remaining then r == (NoError, WithFilters(w, es + [e])) else r.0 == NoMemory
  {
    EncodedAppend(es, e);
    PutElement(WithFilters(w, es), FilterElem(e));
    assert w.content + FlatAll(FilterElems(es)) + Flat(FilterElem(e)) == w.content + FlatAll(FilterElems(es + [e]));
  }

  lemma {:induction false} EncodedPrefix(es: seq<Entry>, n: nat)
    requires n <= |es|
    ensures EncodedBytes(es[..n]) <= EncodedBytes(es)
  {
    if n > 0 {
      assert es[..n][1..] == es[1..][..n - 1];
      EncodedPrefix(es[1..], n - 1);
    }
  }

  /** A prefix that fits and cannot be made longer is the one that `Fitting` gives. */
  lemma FittingUnique(es: seq<Entry>, room: nat, n: nat)
    requires n <= |es| && EncodedBytes(es[..n]) <= room && (n < |es| ==> EncodedBytes(es[..n + 1]) > room)
    ensures n == Fitting(es, room)
  {
    var m := Fitting(es, room);
    FittingMaximal(es, room);
    if n < m {
      assert es[..m][..n + 1] == es[..n + 1];
      EncodedPrefix(es[..m], n + 1);
    } else if m < n {
      assert es[..n][..m + 1] == es[..m + 1];
      EncodedPrefix(es[..n], m + 1);
    }
  }

  method Reaches(paths: seq<PathParams>, c: ClusterPath) returns (reached: bool)
    ensures reached == Reached(paths, c)
  {
    for i := 0 to |paths|
      invariant forall k :: 0 <= k < i ==> !paths[k].ReachesCluster(c)
    {
      if paths[i].ReachesCluster(c) {
        return true;
      }
    }
    return false;
  }

  lemma {:induction false} WantedAppend(es: seq<Entry>, paths: seq<PathParams>, e: Entry)
    ensures Wanted(es + [e], paths) == Wanted(es, paths) + WantedOne(e, paths)
  {
    if es == [] {
      assert es + [e] == [e] && [e][1..] == [];
    } else {
      assert (es + [e])[0] == es[0] && (es + [e])[1..] == es[1..] + [e];
      WantedAppend(es[1..], paths, e);
      Associate([es[0]], Wanted(es[1..], paths), WantedOne(e, paths));
    }
  }

  lemma {:induction false} WantedPrefix(es: seq<Entry>, paths: seq<PathParams>, i: nat)
    requires i <= |es|
    ensures Wanted(es[..i], paths) <= Wanted(es, paths)
  {
    if i > 0 {
      assert es[..i][1..] == es[1..][..i - 1];
      WantedPrefix(es[1..], paths, i - 1);
    }
  }

  lemma WantedNext(es: seq<Entry>, paths: seq<PathParams>, i: nat)
    requires i < |es|
    ensures Wanted(es[..i + 1], paths) == Wanted(es[..i], paths) + WantedOne(es[i], paths)
    ensures Wanted(es[..i + 1], paths) <= Wanted(es, paths)
  {
    assert es[..i + 1] == es[..i] + [es[i]];
    WantedAppend(es[..i], paths, es[i]);
    WantedPrefix(es, paths, i + 1);
  }

  /** Encoding stops at the first wanted filter that does not fit. */
  lemma StopsHere(es: seq<Entry>, paths: seq<PathParams>, i: nat, room: nat)
    requires i < |es| && Reached(paths, es[i].cluster)
    requires var done := Wanted(es[..i], paths); EncodedBytes(done) <= room < EncodedBytes(done + [es[i]])
    ensures var done, wanted := Wanted(es[..i], paths), Wanted(es, paths);
            Fitting(wanted, room) == |done| && |done| <= |wanted| && wanted[..|done|] == done
  {
    var done, wanted := Wanted(es[..i], paths), Wanted(es, paths);
    WantedNext(es, paths, i);
    assert done + [es[i]] <= wanted;
    assert wanted[..|done| + 1] == done + [es[i]] && wanted[..|done|] == done;
    FittingUnique(wanted, room, |done|);
  }

  /** Encodes the filters of the clusters the request reaches, in order, until one does not fit. */
  method EncodeFilters(es: seq<Entry>, paths: seq<PathParams>, w: Writer) returns (w': Writer, encoded: bool)
    ensures var wanted := Wanted(es, paths);
            var n := Fitting(wanted, w.remaining);
            EncodedBytes(wanted[..n]) <= w.remaining && w' == WithFilters(w, wanted[..n]) && encoded == (n > 0)
  {
    w', encoded := w, false;
    ghost var done: seq<Entry> := [];
    assert w.content + [] == w.content;
    for i := 0 to |es|
      invariant done == Wanted(es[..i], paths)
      invariant EncodedBytes(done) <= w.remaining && w' == WithFilters(w, done) && encoded == (done != [])
    {
      var backup := w';
      var reached := Reaches(paths, es[i].cluster);
      WantedNext(es, paths, i);
      if reached {
        var (err, after) := w'.PutAll(Flat(FilterElem(es[i])));
        EncodeOne(w, done, es[i]);
        if err != NoError {
          StopsHere(es, paths, i, w.remaining);
          w' := backup;
          return;
        }
        w', encoded := after, true;
        done := done + [es[i]];
      }
    }
    assert es[..|es|] == es && done[..|done|] == done;
    FittingUnique(done, w.remaining, |done|);
  }
}
