/** Identifiers and paths of the Interaction Model that the other modules share. */
module Ids {

  datatype Option<+T> = None | Some(value: T)

  /** The successor of a 16-bit number. */
  function Inc16(x: nat): nat { if x == 0xFFFF then 0 else x + 1 }

  lemma Associate<T>(a: seq<T>, b: seq<T>, c: seq<T>)
    ensures (a + b) + c == a + (b + c)
  {
  }

  const INVALID_ENDPOINT: nat := 0xFFFF
  const INVALID_CLUSTER: nat := 0xFFFF_FFFF
  const INVALID_ATTRIBUTE: nat := 0xFFFF_FFFF

  /** A concrete cluster path. */
  datatype ClusterPath = ClusterPath(endpoint: nat, cluster: nat) {
    predicate IsValid() {
      endpoint != INVALID_ENDPOINT && cluster != INVALID_CLUSTER
    }
  }

  /** A concrete attribute path. */
  datatype AttributePath = AttributePath(endpoint: nat, cluster: nat, attribute: nat) {
    function OfCluster(): ClusterPath {
      ClusterPath(endpoint, cluster)
    }
  }

  /** The list operation that a reported or written attribute path carries. */
  datatype ListOp = NotList | ReplaceAll | ReplaceItem | DeleteItem | AppendItem

  /** A requested path; an invalid id stands for a wildcard. */
  datatype PathParams = PathParams(endpoint: nat, cluster: nat, attribute: nat) {

    predicate WildcardEndpoint() { endpoint == INVALID_ENDPOINT }

    predicate WildcardCluster() { cluster == INVALID_CLUSTER }

    predicate WildcardAttribute() { attribute == INVALID_ATTRIBUTE }

    predicate IsWildcard() { WildcardEndpoint() || WildcardCluster() || WildcardAttribute() }

    predicate MatchesEndpoint(id: nat) { WildcardEndpoint() || endpoint == id }

    predicate MatchesCluster(id: nat) { WildcardCluster() || cluster == id }

    /** Two requested paths have a concrete path in common (`Intersects`). */
    predicate Intersects(other: PathParams) {
      && (WildcardEndpoint() || other.WildcardEndpoint() || endpoint == other.endpoint)
      && (WildcardCluster() || other.WildcardCluster() || cluster == other.cluster)
      && (WildcardAttribute() || other.WildcardAttribute() || attribute == other.attribute)
    }

    /** `IncludesAttributesInCluster`: the path asks for some attribute of the cluster. */
    predicate ReachesCluster(c: ClusterPath) {
      MatchesEndpoint(c.endpoint) && MatchesCluster(c.cluster)
    }

    /** `IncludesAllAttributesInCluster`: the path asks for every attribute of the cluster. */
    predicate CoversCluster(c: ClusterPath) {
      ReachesCluster(c) && WildcardAttribute()
    }
  }
}
