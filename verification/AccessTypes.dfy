/** What an access check is about: who asks, for what, and with which privilege. */
module AccessTypes {
  import opened Ids

  datatype Error =
    NoError | NotImplemented | IncorrectState | InvalidArgument | BufferTooSmall | Sentinel | AccessDenied | RestrictedByArl

  datatype AuthMode = NoAuth | Pase | Case | Group

  datatype Privilege = View | ProxyView | Operate | Manage | Administer

  datatype RequestType = UnknownRequest | AttributeRead | AttributeWrite | CommandInvoke | EventRead

  datatype Request = Request(cluster: nat, endpoint: nat, kind: RequestType, entity: Option<nat>)

  datatype Subject = Subject(fabric: nat, authMode: AuthMode, node: nat, cats: seq<nat>, isCommissioning: bool)

  const UNDEFINED_FABRIC: nat := 0

  /** The low and the high half of a 32-bit manufacturer extensible identifier. */
  function MeiSuffix(mei: nat): nat { mei % 0x1_0000 }

  function MeiVendor(mei: nat): nat { mei / 0x1_0000 % 0x1_0000 }

  /** The two halves of the low 32 bits are told apart. */
  lemma Halves(x: nat, high: nat, low: nat)
    ensures x / 0x1_0000 % 0x1_0000 == high && x % 0x1_0000 == low <==>
            high < 0x1_0000 && low < 0x1_0000 && x % 0x1_0000_0000 == high * 0x1_0000 + low
  {
    var top := x / 0x1_0000_0000;
    var rest := x % 0x1_0000_0000;
    var upper, lower := rest / 0x1_0000, rest % 0x1_0000;
    assert x == (top * 0x1_0000 + upper) * 0x1_0000 + lower;
    assert x / 0x1_0000 == top * 0x1_0000 + upper;
  }

  /** The identifier has the vendor prefix and the suffix. */
  predicate HasParts(mei: nat, vendor: nat, suffix: nat) {
    vendor < 0x1_0000 && suffix < 0x1_0000 && mei % 0x1_0000_0000 == vendor * 0x1_0000 + suffix
  }

  lemma PartsIff(mei: nat, vendor: nat, suffix: nat)
    ensures HasParts(mei, vendor, suffix) <==> vendor == MeiVendor(mei) && suffix == MeiSuffix(mei)
  {
    Halves(mei, vendor, suffix);
  }

  const MAX_VENDOR: nat := 0xFFF4

  predicate IsValidCluster(id: nat) {
    && MeiVendor(id) <= MAX_VENDOR
    && (if MeiVendor(id) == 0 then MeiSuffix(id) <= 0x7FFF else 0xFC00 <= MeiSuffix(id) <= 0xFFFE)
  }

  predicate IsValidDeviceType(id: nat) {
    MeiVendor(id) <= 0xFFFE && MeiSuffix(id) <= 0xBFFF
  }

  predicate IsGlobalAttribute(id: nat) {
    MeiVendor(id) == 0 && 0xF000 <= MeiSuffix(id) <= 0xFFFE
  }

  /** Which identifiers are valid clusters, valid device types and global attributes, by their parts. */
  lemma IdsIff(id: nat, vendor: nat, suffix: nat)
    requires HasParts(id, vendor, suffix)
    ensures IsValidCluster(id) <==> (vendor == 0 && suffix <= 0x7FFF) || (1 <= vendor <= 0xFFF4 && 0xFC00 <= suffix <= 0xFFFE)
    ensures IsValidDeviceType(id) <==> vendor < 0xFFFF && suffix < 0xC000
    ensures IsGlobalAttribute(id) <==> vendor == 0 && suffix != 0xFFFF && suffix >= 0xF000
  {
    PartsIff(id, vendor, suffix);
  }
}
