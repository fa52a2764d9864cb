/** AccessControl: the access control list of a node and the checks against it. */
module AccessControl {
  import opened Ids
  import opened AccessTypes
  import AR = AccessRestriction

  // ---------------------------------------------------------------------------
  // Node ids
  // ---------------------------------------------------------------------------

  const MAX_OPERATIONAL: nat := 0xFFFF_FFEF_FFFF_FFFF
  const MIN_CASE_TAG: nat := 0xFFFF_FFFD_0000_0000
  const MAX_CASE_TAG: nat := 0xFFFF_FFFD_FFFF_FFFF
  const MIN_GROUP: nat := 0xFFFF_FFFF_FFFF_0000

  predicate IsOperational(node: nat) { 0 < node <= MAX_OPERATIONAL }

  predicate IsCaseTag(node: nat) { MIN_CASE_TAG <= node <= MAX_CASE_TAG }

  predicate IsGroup(node: nat) { MIN_GROUP <= node }

  /** The two halves of a CASE authenticated tag, also of a node id that holds one. */
  function TagIdentifier(tag: nat): nat { tag / 0x1_0000 % 0x1_0000 }

  function TagVersion(tag: nat): nat { tag % 0x1_0000 }

  predicate IsValidCaseNode(node: nat) {
    IsOperational(node) || (IsCaseTag(node) && TagVersion(node) != 0)
  }

  predicate IsValidGroupNode(node: nat) {
    IsGroup(node) && node % 0x1_0000 != 0
  }

  /** Some tag of the subject has the identifier that is asked for, in that version or a later one. */
  predicate HasTag(cats: seq<nat>, node: nat) {
    exists i :: 0 <= i < |cats| && TagSatisfies(cats[i], node)
  }

  predicate TagSatisfies(cat: nat, node: nat) {
    cat != 0 && TagIdentifier(cat) == TagIdentifier(node) && 0 < TagVersion(node) <= TagVersion(cat)
  }

  // ---------------------------------------------------------------------------
  // Entries and what they grant
  // ---------------------------------------------------------------------------

  datatype Target = Target(cluster: Option<nat>, endpoint: Option<nat>, deviceType: Option<nat>)

  datatype Entry = Entry(fabric: nat, authMode: AuthMode, privilege: Privilege, subjects: seq<nat>, targets: seq<Target>)

  type Acl = seq<Entry>

  /** Which device types are on which endpoint. */
  type Resolver = set<(nat, nat)>

  function Granted(entryPrivilege: Privilege): set<Privilege> {
    match entryPrivilege
    case View => {View}
    case ProxyView => {ProxyView, View}
    case Operate => {Operate, View}
    case Manage => {Manage, Operate, View}
    case Administer => {Administer, Manage, Operate, ProxyView, View}
  }

  predicate ValidSubject(authMode: AuthMode, node: nat) {
    (authMode == Case && IsValidCaseNode(node)) || (authMode == Group && IsValidGroupNode(node))
  }

  predicate ValidTarget(t: Target) {
    && (t.cluster.Some? || t.endpoint.Some? || t.deviceType.Some?)
    && !(t.endpoint.Some? && t.deviceType.Some?)
    && (t.cluster.Some? ==> IsValidCluster(t.cluster.value))
    && (t.endpoint.Some? ==> t.endpoint.value != INVALID_ENDPOINT)
    && (t.deviceType.Some? ==> IsValidDeviceType(t.deviceType.value))
  }

  /** What every stored entry must meet. */
  predicate ValidEntry(e: Entry) {
    && e.fabric != UNDEFINED_FABRIC
    && (e.authMode == Case || (e.authMode == Group && e.privilege != Administer))
    && (forall i :: 0 <= i < |e.subjects| ==> ValidSubject(e.authMode, e.subjects[i]))
    && (forall i :: 0 <= i < |e.targets| ==> ValidTarget(e.targets[i]))
  }

  predicate AllValid(acl: Acl) {
    forall i :: 0 <= i < |acl| ==> ValidEntry(acl[i])
  }

  /** A listed subject stands for the one who asks. */
  predicate Names(node: nat, s: Subject) {
    if IsOperational(node) then node == s.node
    else if IsCaseTag(node) then HasTag(s.cats, node)
    else IsGroup(node) && node == s.node
  }

  predicate Hits(t: Target, r: Request, resolver: Resolver) {
    && (t.cluster.Some? ==> t.cluster.value == r.cluster)
    && (t.endpoint.Some? ==> t.endpoint.value == r.endpoint)
    && (t.deviceType.Some? ==> (t.deviceType.value, r.endpoint) in resolver)
  }

  predicate SubjectMatches(e: Entry, s: Subject) {
    e.subjects == [] || exists i :: 0 <= i < |e.subjects| && Names(e.subjects[i], s)
  }

  predicate TargetMatches(e: Entry, r: Request, resolver: Resolver) {
    e.targets == [] || exists i :: 0 <= i < |e.targets| && Hits(e.targets[i], r, resolver)
  }

  /** The entry grants the privilege: fabric, authentication, privilege, subject and target all match. */
  predicate Matches(e: Entry, s: Subject, r: Request, p: Privilege, resolver: Resolver) {
    && e.fabric == s.fabric && e.authMode == s.authMode && p in Granted(e.privilege)
    && SubjectMatches(e, s) && TargetMatches(e, r, resolver)
  }

  /** Some entry of the list grants the privilege. */
  predicate Allowed(acl: Acl, s: Subject, r: Request, p: Privilege, resolver: Resolver) {
    exists i :: 0 <= i < |acl| && Matches(acl[i], s, r, p, resolver)
  }

  /** The answer does not depend on the order of entries. */
  lemma OrderDoesNotMatter(a: Acl, b: Acl, s: Subject, r: Request, p: Privilege, resolver: Resolver)
    requires multiset(a) == multiset(b)
    ensures Allowed(a, s, r, p, resolver) == Allowed(b, s, r, p, resolver)
  {
    if Allowed(a, s, r, p, resolver) {
      SameEntry(a, b, s, r, p, resolver);
    }
    if Allowed(b, s, r, p, resolver) {
      SameEntry(b, a, s, r, p, resolver);
    }
  }

  lemma SameEntry(a: Acl, b: Acl, s: Subject, r: Request, p: Privilege, resolver: Resolver)
    requires multiset(a) == multiset(b) && Allowed(a, s, r, p, resolver)
    ensures Allowed(b, s, r, p, resolver)
  {
    var i :| 0 <= i < |a| && Matches(a[i], s, r, p, resolver);
    assert a[i] in multiset(a);
    assert a[i] in b;
  }

  /** More entries never take access away. */
  lemma MoreEntries(less: Acl, more: Acl, s: Subject, r: Request, p: Privilege, resolver: Resolver)
    requires multiset(less) <= multiset(more) && Allowed(less, s, r, p, resolver)
    ensures Allowed(more, s, r, p, resolver)
  {
    var i :| 0 <= i < |less| && Matches(less[i], s, r, p, resolver);
    assert less[i] in multiset(less);
    assert less[i] in more;
  }

  // ---------------------------------------------------------------------------
  // The order of privileges, and what access means
  // ---------------------------------------------------------------------------

  /** The one privilege is directly under the other. */
  predicate Under(lower: Privilege, upper: Privilege) {
    || (lower == View && (upper == ProxyView || upper == Operate))
    || (lower == Operate && upper == Manage)
    || (lower == Manage && upper == Administer)
    || (lower == ProxyView && upper == Administer)
  }

  ghost predicate Climbs(chain: seq<Privilege>, p: Privilege, q: Privilege) {
    && chain != [] && chain[0] == p && chain[|chain| - 1] == q
    && forall i :: 0 <= i < |chain| - 1 ==> Under(chain[i], chain[i + 1])
  }

  /** The one privilege is the other, or under it by any number of steps. */
  ghost predicate AtMost(p: Privilege, q: Privilege) {
    exists chain :: Climbs(chain, p, q)
  }

  lemma {:induction false} ClimbsGranted(chain: seq<Privilege>, p: Privilege, q: Privilege)
    requires Climbs(chain, p, q)
    ensures p in Granted(q)
  {
    if |chain| > 1 {
      ClimbsGranted(chain[1..], chain[1], q);
      assert Under(chain[0], chain[1]);
    }
  }

  /** An entry grants its own privilege and all that are under it, and no other. */
  lemma GrantedIff(p: Privilege, q: Privilege)
    ensures p in Granted(q) <==> AtMost(p, q)
  {
    if p in Granted(q) {
      assert Climbs(if p == q then [p]
                    else if Under(p, q) then [p, q]
                    else if q == Manage then [View, Operate, Manage]
                    else if p == Operate then [Operate, Manage, Administer]
                    else [View, ProxyView, Administer], p, q);
    } else if AtMost(p, q) {
      var chain :| Climbs(chain, p, q);
      ClimbsGranted(chain, p, q);
    }
  }

  /** A node id that stands for a CASE authenticated tag. */
  predicate IsTagNode(node: nat, identifier: nat, version: nat) {
    identifier < 0x1_0000 && version < 0x1_0000 && node == 0xFFFF_FFFD_0000_0000 + identifier * 0x1_0000 + version
  }

  /** The tag has the identifier and the version. */
  predicate IsTag(cat: nat, identifier: nat, version: nat) {
    identifier < 0x1_0000 && version < 0x1_0000 && cat % 0x1_0000_0000 == identifier * 0x1_0000 + version
  }

  /** The subject carries a tag of the node's identifier, in the same version or a later one, and version 0 is none. */
  ghost predicate Carries(cats: seq<nat>, node: nat) {
    exists i, identifier, asked, has :: 0 <= i < |cats| && IsTagNode(node, identifier, asked) && IsTag(cats[i], identifier, has)
                                        && 0 < asked <= has
  }

  lemma TagNodeIff(node: nat, identifier: nat, version: nat)
    ensures IsTagNode(node, identifier, version) <==> IsCaseTag(node) && identifier == TagIdentifier(node) && version == TagVersion(node)
  {
    Halves(node, identifier, version);
  }

  lemma CarriesIff(cats: seq<nat>, node: nat)
    ensures Carries(cats, node) <==> IsCaseTag(node) && HasTag(cats, node)
  {
    if Carries(cats, node) {
      var i, identifier, asked, has :| 0 <= i < |cats| && IsTagNode(node, identifier, asked) && IsTag(cats[i], identifier, has)
                                       && 0 < asked <= has;
      TagNodeIff(node, identifier, asked);
      Halves(cats[i], identifier, has);
      assert TagSatisfies(cats[i], node);
    }
    if IsCaseTag(node) && HasTag(cats, node) {
      var i :| 0 <= i < |cats| && TagSatisfies(cats[i], node);
      TagNodeIff(node, TagIdentifier(node), TagVersion(node));
      Halves(cats[i], TagIdentifier(cats[i]), TagVersion(cats[i]));
      assert IsTagNode(node, TagIdentifier(node), TagVersion(node)) && IsTag(cats[i], TagIdentifier(node), TagVersion(cats[i]));
    }
  }

  /** A listed subject is the one who asks: by node id, by group, or by a tag. */
  ghost predicate Is(node: nat, s: Subject) {
    (node == s.node && (0 < node <= 0xFFFF_FFEF_FFFF_FFFF || node >= 0xFFFF_FFFF_FFFF_0000)) || Carries(s.cats, node)
  }

  lemma IsIff(node: nat, s: Subject)
    ensures Is(node, s) <==> Names(node, s)
  {
    CarriesIff(s.cats, node);
  }

  /** Whatever the target names is what is asked for, or on its endpoint. */
  predicate Aims(t: Target, r: Request, resolver: Resolver) {
    && t.cluster in {None, Some(r.cluster)} && t.endpoint in {None, Some(r.endpoint)}
    && (t.deviceType == None || exists x :: x in resolver && t.deviceType == Some(x.0) && x.1 == r.endpoint)
  }

  /** What it takes for an entry to grant a privilege. */
  ghost predicate Grants(e: Entry, s: Subject, r: Request, p: Privilege, resolver: Resolver) {
    && e.fabric == s.fabric && e.authMode == s.authMode && AtMost(p, e.privilege)
    && (e.subjects == [] || exists node :: node in e.subjects && Is(node, s))
    && (e.targets == [] || exists t :: t in e.targets && Aims(t, r, resolver))
  }

  lemma SubjectsIff(e: Entry, s: Subject)
    ensures SubjectMatches(e, s) <==> e.subjects == [] || exists node :: node in e.subjects && Is(node, s)
  {
    forall node ensures Is(node, s) <==> Names(node, s) {
      IsIff(node, s);
    }
    if exists node :: node in e.subjects && Is(node, s) {
      var node :| node in e.subjects && Is(node, s);
      var i :| 0 <= i < |e.subjects| && e.subjects[i] == node;
      assert Names(e.subjects[i], s);
    }
  }

  lemma AimsIff(t: Target, r: Request, resolver: Resolver)
    ensures Aims(t, r, resolver) <==> Hits(t, r, resolver)
  {
    assert t.cluster.Some? ==> t.cluster == Some(t.cluster.value);
    assert t.endpoint.Some? ==> t.endpoint == Some(t.endpoint.value);
    if t.deviceType.Some? {
      assert t.deviceType == Some(t.deviceType.value);
      var x := (t.deviceType.value, r.endpoint);
      assert x in resolver ==> t.deviceType == Some(x.0) && x.1 == r.endpoint;
      if y :| y in resolver && t.deviceType == Some(y.0) && y.1 == r.endpoint {
        assert y == x;
      }
    }
  }

  lemma TargetsIff(e: Entry, r: Request, resolver: Resolver)
    ensures TargetMatches(e, r, resolver) <==> e.targets == [] || exists t :: t in e.targets && Aims(t, r, resolver)
  {
    forall t ensures Aims(t, r, resolver) <==> Hits(t, r, resolver) {
      AimsIff(t, r, resolver);
    }
    if exists t :: t in e.targets && Aims(t, r, resolver) {
      var t :| t in e.targets && Aims(t, r, resolver);
      var i :| 0 <= i < |e.targets| && e.targets[i] == t;
      assert Hits(e.targets[i], r, resolver);
    }
    if e.targets != [] && TargetMatches(e, r, resolver) {
      var i :| 0 <= i < |e.targets| && Hits(e.targets[i], r, resolver);
      assert e.targets[i] in e.targets && Aims(e.targets[i], r, resolver);
    }
  }

  lemma MatchesIff(e: Entry, s: Subject, r: Request, p: Privilege, resolver: Resolver)
    ensures Matches(e, s, r, p, resolver) <==> Grants(e, s, r, p, resolver)
  {
    GrantedIff(p, e.privilege);
    SubjectsIff(e, s);
    TargetsIff(e, r, resolver);
  }

  /** Access with a privilege takes an entry that matches in everything and has that privilege or one above it. */
  lemma AllowedIff(acl: Acl, s: Subject, r: Request, p: Privilege, resolver: Resolver)
    ensures Allowed(acl, s, r, p, resolver) <==> exists e :: e in acl && Grants(e, s, r, p, resolver)
  {
    forall e ensures Matches(e, s, r, p, resolver) <==> Grants(e, s, r, p, resolver) {
      MatchesIff(e, s, r, p, resolver);
    }
    if Allowed(acl, s, r, p, resolver) {
      var i :| 0 <= i < |acl| && Matches(acl[i], s, r, p, resolver);
      assert acl[i] in acl && Grants(acl[i], s, r, p, resolver);
    }
  }

  /** Access with one privilege is access with every privilege under it. */
  lemma LowerPrivileges(acl: Acl, s: Subject, r: Request, p: Privilege, q: Privilege, resolver: Resolver)
    requires Allowed(acl, s, r, p, resolver) && AtMost(q, p)
    ensures Allowed(acl, s, r, q, resolver)
  {
    var i :| 0 <= i < |acl| && Matches(acl[i], s, r, p, resolver);
    GrantedIff(q, p);
    assert Matches(acl[i], s, r, q, resolver);
  }

  /** A subject that an entry may list: a node or a tag with a version for CASE, a group other than 0 for groups. */
  ghost predicate MayList(authMode: AuthMode, node: nat) {
    || (authMode == Case && (0 < node <= 0xFFFF_FFEF_FFFF_FFFF || exists identifier, version :: IsTagNode(node, identifier, version) && version > 0))
    || (authMode == Group && node >= 0xFFFF_FFFF_FFFF_0000 && node % 0x1_0000 > 0)
  }

  lemma MayListIff(authMode: AuthMode, node: nat)
    ensures MayList(authMode, node) <==> ValidSubject(authMode, node)
  {
    TagNodeIff(node, TagIdentifier(node), TagVersion(node));
    if identifier, version :| IsTagNode(node, identifier, version) && version > 0 {
      TagNodeIff(node, identifier, version);
    }
  }

  /** A target that an entry may name: something, but not both an endpoint and a device type. */
  predicate MayAim(t: Target) {
    && t != Target(None, None, None) && (t.endpoint == None || t.deviceType == None)
    && t.endpoint != Some(INVALID_ENDPOINT)
    && (t.cluster == None || IsValidCluster(t.cluster.value)) && (t.deviceType == None || IsValidDeviceType(t.deviceType.value))
  }

  /** What an entry has to be, to be stored. */
  lemma ValidEntryIff(e: Entry)
    ensures ValidEntry(e) <==>
            && e.fabric != 0 && e.authMode in {Case, Group} && (e.authMode, e.privilege) != (Group, Administer)
            && (forall node :: node in e.subjects ==> MayList(e.authMode, node)) && (forall t :: t in e.targets ==> MayAim(t))
  {
    forall node ensures MayList(e.authMode, node) <==> ValidSubject(e.authMode, node) {
      MayListIff(e.authMode, node);
    }
    assert (forall i :: 0 <= i < |e.subjects| ==> ValidSubject(e.authMode, e.subjects[i])) <==>
           forall node :: node in e.subjects ==> MayList(e.authMode, node);
    assert (forall i :: 0 <= i < |e.targets| ==> ValidTarget(e.targets[i])) <==> forall t :: t in e.targets ==> MayAim(t) by {
      forall t ensures MayAim(t) <==> ValidTarget(t) {
      }
    }
  }

  /** Groups never administer, and no list of valid entries lets in a subject that is not authenticated by CASE or group. */
  lemma ValidEntriesNeverGrant(acl: Acl, s: Subject, r: Request, p: Privilege, resolver: Resolver)
    requires AllValid(acl) && Allowed(acl, s, r, p, resolver)
    ensures s.authMode == Case || (s.authMode == Group && p != Administer)
    ensures s.fabric != UNDEFINED_FABRIC
  {
    var i :| 0 <= i < |acl| && Matches(acl[i], s, r, p, resolver);
    assert ValidEntry(acl[i]);
  }

  // ---------------------------------------------------------------------------
  // Validation and matching as the program does them
  // ---------------------------------------------------------------------------

  method IsValid(e: Entry) returns (valid: bool)
    ensures valid == ValidEntry(e)
  {
    if e.fabric == UNDEFINED_FABRIC {
      return false;
    }
    if e.authMode != Case {
      if e.authMode != Group {
        return false;
      }
      if e.privilege == Administer {
        return false;
      }
    }
    for i := 0 to |e.subjects|
      invariant forall k :: 0 <= k < i ==> ValidSubject(e.authMode, e.subjects[k])
    {
      var isCase, isGroup := e.authMode == Case, e.authMode == Group;
      if !((isCase && IsValidCaseNode(e.subjects[i])) || (isGroup && IsValidGroupNode(e.subjects[i]))) {
        return false;
      }
    }
    for i := 0 to |e.targets|
      invariant forall k :: 0 <= k < i ==> ValidTarget(e.targets[k])
    {
      var t := e.targets[i];
      if !((t.cluster.Some? || t.endpoint.Some? || t.deviceType.Some?) && !(t.endpoint.Some? && t.deviceType.Some?)
           && (!t.cluster.Some? || IsValidCluster(t.cluster.value)) && (!t.endpoint.Some? || t.endpoint.value != INVALID_ENDPOINT)
           && (!t.deviceType.Some? || IsValidDeviceType(t.deviceType.value))) {
        return false;
      }
    }
    return true;
  }

  method CheckSubjectAgainstCats(cats: seq<nat>, node: nat) returns (found: bool)
    ensures found == (IsCaseTag(node) && HasTag(cats, node))
  {
    if !IsCaseTag(node) {
      return false;
    }
    for i := 0 to |cats|
      invariant forall k :: 0 <= k < i ==> !TagSatisfies(cats[k], node)
    {
      if cats[i] != 0 && TagIdentifier(cats[i]) == TagIdentifier(node) && TagVersion(node) > 0
         && TagVersion(cats[i]) >= TagVersion(node) {
        return true;
      }
    }
    return false;
  }

  /** The loop over listed subjects: it fails only on a subject that validation refuses. */
  method MatchSubjects(e: Entry, s: Subject) returns (err: Error, matched: bool)
    requires (e.authMode == Case || e.authMode == Group) && |e.subjects| > 0
    ensures err == NoError || (err == IncorrectState && !ValidEntry(e))
    ensures err == NoError ==> matched == SubjectMatches(e, s)
  {
    for i := 0 to |e.subjects|
      invariant forall k :: 0 <= k < i ==> !Names(e.subjects[k], s)
    {
      var node := e.subjects[i];
      if IsOperational(node) {
        if e.authMode != Case {
          assert !ValidSubject(e.authMode, node);
          return IncorrectState, false;
        }
        if node == s.node {
          return NoError, true;
        }
      } else if IsCaseTag(node) {
        if e.authMode != Case {
          assert !ValidSubject(e.authMode, node);
          return IncorrectState, false;
        }
        var found := CheckSubjectAgainstCats(s.cats, node);
        if found {
          return NoError, true;
        }
      } else if IsGroup(node) {
        if e.authMode != Group {
          assert !ValidSubject(e.authMode, node);
          return IncorrectState, false;
        }
        if node == s.node {
          return NoError, true;
        }
      } else {
        assert !ValidSubject(e.authMode, node);
        return IncorrectState, false;
      }
    }
    return NoError, false;
  }

  method MatchTargets(e: Entry, r: Request, resolver: Resolver) returns (matched: bool)
    requires |e.targets| > 0
    ensures matched == TargetMatches(e, r, resolver)
  {
    for i := 0 to |e.targets|
      invariant forall k :: 0 <= k < i ==> !Hits(e.targets[k], r, resolver)
    {
      var t := e.targets[i];
      if t.cluster.Some? && t.cluster.value != r.cluster {
        continue;
      }
      if t.endpoint.Some? && t.endpoint.value != r.endpoint {
        continue;
      }
      if t.deviceType.Some? && (t.deviceType.value, r.endpoint) !in resolver {
        continue;
      }
      return true;
    }
    return false;
  }

  /** One entry of the subject's fabric: it fails only on an entry that validation refuses. */
  method MatchEntry(e: Entry, s: Subject, r: Request, p: Privilege, resolver: Resolver) returns (err: Error, matched: bool)
    requires e.fabric == s.fabric
    ensures err == NoError || (err == IncorrectState && !ValidEntry(e))
    ensures err == NoError ==> matched == Matches(e, s, r, p, resolver)
  {
    if e.authMode != Case && e.authMode != Group {
      return IncorrectState, false;
    }
    if e.authMode != s.authMode || p !in Granted(e.privilege) {
      return NoError, false;
    }
    if |e.subjects| > 0 {
      err, matched := MatchSubjects(e, s);
      if err != NoError || !matched {
        return;
      }
    }
    if |e.targets| > 0 {
      matched := MatchTargets(e, r, resolver);
      return NoError, matched;
    }
    return NoError, true;
  }

  // ---------------------------------------------------------------------------
  // The stored list, addressed by fabric
  // ---------------------------------------------------------------------------

  /** The entries of a fabric, in order. */
  function OfFabric(acl: Acl, fabric: nat): seq<Entry> {
    if acl == [] then []
    else if acl[0].fabric == fabric then [acl[0]] + OfFabric(acl[1..], fabric)
    else OfFabric(acl[1..], fabric)
  }

  /** The entries of all other fabrics, in order. */
  function Others(acl: Acl, fabric: nat): seq<Entry> {
    if acl == [] then []
    else if acl[0].fabric == fabric then Others(acl[1..], fabric)
    else [acl[0]] + Others(acl[1..], fabric)
  }

  /** The position in the list of the entry with an index relative to the fabric; the end if there is none. */
  function Position(acl: Acl, fabric: nat, index: nat): (at: nat)
    ensures at <= |acl|
  {
    if acl == [] then 0
    else if acl[0].fabric != fabric then 1 + Position(acl[1..], fabric, index)
    else if index == 0 then 0
    else 1 + Position(acl[1..], fabric, index - 1)
  }

  function Without(acl: Acl, at: nat): Acl
    requires at < |acl|
  {
    acl[..at] + acl[at + 1..]
  }

  /** An index relative to a fabric finds the entry that the fabric has there, and none past the last. */
  lemma {:induction false} PositionFinds(acl: Acl, fabric: nat, index: nat)
    ensures var at := Position(acl, fabric, index);
            if index < |OfFabric(acl, fabric)| then at < |acl| && acl[at] == OfFabric(acl, fabric)[index] && acl[at].fabric == fabric
            else at == |acl|
  {
    if acl != [] {
      if acl[0].fabric != fabric {
        PositionFinds(acl[1..], fabric, index);
      } else if index > 0 {
        PositionFinds(acl[1..], fabric, index - 1);
      }
    }
  }

  /** Counting the entries of the fabric before a position gives the index that leads there. */
  lemma {:induction false} PositionOf(acl: Acl, fabric: nat, at: nat)
    requires at < |acl| && acl[at].fabric == fabric
    ensures Position(acl, fabric, |OfFabric(acl[..at], fabric)|) == at
  {
    if at > 0 {
      assert acl[..at][1..] == acl[1..][..at - 1];
      PositionOf(acl[1..], fabric, at - 1);
    }
  }

  lemma {:induction false} FiltersAppend(a: Acl, b: Acl, fabric: nat)
    ensures OfFabric(a + b, fabric) == OfFabric(a, fabric) + OfFabric(b, fabric)
    ensures Others(a + b, fabric) == Others(a, fabric) + Others(b, fabric)
  {
    if a == [] {
      assert a + b == b;
    } else {
      assert (a + b)[0] == a[0] && (a + b)[1..] == a[1..] + b;
      FiltersAppend(a[1..], b, fabric);
      Associate([a[0]], OfFabric(a[1..], fabric), OfFabric(b, fabric));
      Associate([a[0]], Others(a[1..], fabric), Others(b, fabric));
    }
  }

  /** Removing by relative index removes that entry of the fabric and no other. */
  lemma {:induction false} RemovedOne(acl: Acl, fabric: nat, index: nat)
    requires index < |OfFabric(acl, fabric)|
    ensures var at := Position(acl, fabric, index);
            && at < |acl|
            && OfFabric(Without(acl, at), fabric) == OfFabric(acl, fabric)[..index] + OfFabric(acl, fabric)[index + 1..]
            && Others(Without(acl, at), fabric) == Others(acl, fabric)
  {
    PositionFinds(acl, fabric, index);
    var at := Position(acl, fabric, index);
    if acl[0].fabric == fabric && index == 0 {
      assert Without(acl, at) == acl[1..];
    } else {
      var index' := if acl[0].fabric == fabric then index - 1 else index;
      RemovedOne(acl[1..], fabric, index');
      assert Without(acl, at)[0] == acl[0] && Without(acl, at)[1..] == Without(acl[1..], at - 1);
    }
  }

  lemma {:induction false} NoneOfFabric(acl: Acl, fabric: nat)
    requires OfFabric(acl, fabric) == []
    ensures Others(acl, fabric) == acl
  {
    if acl != [] {
      assert acl[0].fabric != fabric;
      assert [acl[0]] + acl[1..] == acl;
      NoneOfFabric(acl[1..], fabric);
    }
  }

  // ---------------------------------------------------------------------------
  // Runs of changes
  // ---------------------------------------------------------------------------

  datatype Change = Create(fabric: nat, entry: Entry) | Update(fabric: nat, index: nat, entry: Entry)
                  | Delete(fabric: nat, index: nat) | DeleteAll(fabric: nat)

  datatype Limits = Limits(entries: nat, perFabric: nat)

  function Outcome(acl: Acl, limits: Limits, c: Change): Error {
    match c
    case Create(fabric, e) =>
      if |OfFabric(acl, fabric)| + 1 > limits.perFabric then BufferTooSmall
      else if !ValidEntry(e) then InvalidArgument
      else if |acl| >= limits.entries then BufferTooSmall
      else NoError
    case Update(fabric, index, e) =>
      if !ValidEntry(e) then InvalidArgument
      else if index >= |OfFabric(acl, fabric)| then Sentinel
      else NoError
    case Delete(fabric, index) => if index >= |OfFabric(acl, fabric)| then Sentinel else NoError
    case DeleteAll(_) => NoError
  }

  /** The list after a change; a change that fails leaves it alone. */
  function Changed(acl: Acl, limits: Limits, c: Change): Acl {
    if Outcome(acl, limits, c) != NoError then acl
    else
      match c
      case Create(_, e) => acl + [e]
      case Update(fabric, index, e) =>
        PositionFinds(acl, fabric, index);
        acl[Position(acl, fabric, index) := e]
      case Delete(fabric, index) =>
        PositionFinds(acl, fabric, index);
        Without(acl, Position(acl, fabric, index))
      case DeleteAll(fabric) => Others(acl, fabric)
  }

  function Run(acl: Acl, limits: Limits, cs: seq<Change>): Acl
    decreases |cs|
  {
    if cs == [] then acl else Run(Changed(acl, limits, cs[0]), limits, cs[1..])
  }

  lemma {:induction false} OthersValid(acl: Acl, fabric: nat)
    requires AllValid(acl)
    ensures AllValid(Others(acl, fabric)) && |Others(acl, fabric)| <= |acl|
  {
    if acl != [] {
      OthersValid(acl[1..], fabric);
    }
  }

  lemma ChangedValid(acl: Acl, limits: Limits, c: Change)
    requires AllValid(acl) && |acl| <= limits.entries
    ensures AllValid(Changed(acl, limits, c)) && |Changed(acl, limits, c)| <= limits.entries
  {
    match c {
      case Create(_, _) =>
      case Update(fabric, index, _) => PositionFinds(acl, fabric, index);
      case Delete(fabric, index) => PositionFinds(acl, fabric, index);
      case DeleteAll(fabric) => OthersValid(acl, fabric);
    }
  }

  /** After any run of changes, every entry is valid: no group administers, and nobody else is let in. */
  lemma {:induction false} RunNeverGrants(acl: Acl, limits: Limits, cs: seq<Change>, s: Subject, r: Request, p: Privilege, resolver: Resolver)
    requires AllValid(acl) && |acl| <= limits.entries
    ensures AllValid(Run(acl, limits, cs)) && |Run(acl, limits, cs)| <= limits.entries
    ensures Allowed(Run(acl, limits, cs), s, r, p, resolver) ==> s.authMode == Case || (s.authMode == Group && p != Administer)
    decreases |cs|
  {
    if cs == [] {
      if Allowed(acl, s, r, p, resolver) {
        ValidEntriesNeverGrant(acl, s, r, p, resolver);
      }
    } else {
      ChangedValid(acl, limits, cs[0]);
      RunNeverGrants(Changed(acl, limits, cs[0]), limits, cs[1..], s, r, p, resolver);
    }
  }

  /** Creating entries, in any number, never takes access away. */
  lemma {:induction false} CreatingNeverRevokes(acl: Acl, limits: Limits, cs: seq<Change>, s: Subject, r: Request, p: Privilege, resolver: Resolver)
    requires forall i :: 0 <= i < |cs| ==> cs[i].Create?
    requires Allowed(acl, s, r, p, resolver)
    ensures Allowed(Run(acl, limits, cs), s, r, p, resolver)
    decreases |cs|
  {
    if cs != [] {
      MoreEntries(acl, Changed(acl, limits, cs[0]), s, r, p, resolver);
      CreatingNeverRevokes(Changed(acl, limits, cs[0]), limits, cs[1..], s, r, p, resolver);
    }
  }

  /** Changes of one fabric leave the entries of every other alone, unless they bring in an entry that names it. */
  lemma OtherFabricsKept(acl: Acl, limits: Limits, c: Change, fabric: nat)
    requires c.fabric != fabric
    requires (c.Create? || c.Update?) ==> c.entry.fabric != fabric
    ensures OfFabric(Changed(acl, limits, c), fabric) == OfFabric(acl, fabric)
  {
    if Outcome(acl, limits, c) == NoError {
      match c {
        case Create(_, e) => FiltersAppend(acl, [e], fabric);
        case Update(f, index, e) =>
          PositionFinds(acl, f, index);
          UpdateKeeps(acl, Position(acl, f, index), e, fabric);
        case Delete(f, index) =>
          PositionFinds(acl, f, index);
          RemovalKeeps(acl, Position(acl, f, index), fabric);
        case DeleteAll(f) => OthersKeep(acl, f, fabric);
      }
    }
  }

  lemma RemovalKeeps(acl: Acl, at: nat, fabric: nat)
    requires at < |acl| && acl[at].fabric != fabric
    ensures OfFabric(Without(acl, at), fabric) == OfFabric(acl, fabric)
  {
    var front, back := acl[..at], [acl[at]] + acl[at + 1..];
    assert acl == front + back && back[1..] == acl[at + 1..];
    FiltersAppend(front, back, fabric);
    FiltersAppend(front, acl[at + 1..], fabric);
  }

  lemma UpdateKeeps(acl: Acl, at: nat, e: Entry, fabric: nat)
    requires at < |acl| && acl[at].fabric != fabric && e.fabric != fabric
    ensures OfFabric(acl[at := e], fabric) == OfFabric(acl, fabric)
  {
    RemovalKeeps(acl, at, fabric);
    RemovalKeeps(acl[at := e], at, fabric);
    assert Without(acl[at := e], at) == Without(acl, at);
  }

  lemma {:induction false} OthersKeep(acl: Acl, f: nat, fabric: nat)
    requires f != fabric
    ensures OfFabric(Others(acl, f), fabric) == OfFabric(acl, fabric)
  {
    if acl != [] {
      OthersKeep(acl[1..], f, fabric);
      if acl[0].fabric != f {
        assert Others(acl, f)[1..] == Others(acl[1..], f);
      }
    }
  }

  /** Updating by relative index replaces that entry of the fabric, or removes it from there if the new one names another. */
  lemma {:induction false} UpdatedOne(acl: Acl, fabric: nat, index: nat, e: Entry)
    requires index < |OfFabric(acl, fabric)|
    ensures var at, mine := Position(acl, fabric, index), OfFabric(acl, fabric);
            && at < |acl|
            && OfFabric(acl[at := e], fabric) == if e.fabric == fabric then mine[index := e] else mine[..index] + mine[index + 1..]
  {
    PositionFinds(acl, fabric, index);
    var at := Position(acl, fabric, index);
    if e.fabric != fabric {
      RemovedOne(acl, fabric, index);
      RemovalKeeps(acl[at := e], at, fabric);
      assert Without(acl[at := e], at) == Without(acl, at);
    } else if acl[0].fabric == fabric && index == 0 {
      assert acl[at := e][1..] == acl[1..];
    } else {
      UpdatedOne(acl[1..], fabric, if acl[0].fabric == fabric then index - 1 else index, e);
      assert acl[at := e][1..] == acl[1..][at - 1 := e];
    }
  }

  /** An update that names another fabric adds one entry to that fabric. */
  lemma UpdateAdds(acl: Acl, at: nat, e: Entry)
    requires at < |acl| && acl[at].fabric != e.fabric
    ensures |OfFabric(acl[at := e], e.fabric)| == |OfFabric(acl, e.fabric)| + 1
  {
    var front, back, tail := acl[..at], [e] + acl[at + 1..], acl[at + 1..];
    assert acl[at := e] == front + back && back[1..] == tail;
    FiltersAppend(front, back, e.fabric);
    RemovalKeeps(acl, at, e.fabric);
    FiltersAppend(front, tail, e.fabric);
  }

  lemma {:induction false} OthersExclude(acl: Acl, fabric: nat)
    ensures OfFabric(Others(acl, fabric), fabric) == []
  {
    if acl != [] {
      OthersExclude(acl[1..], fabric);
      if acl[0].fabric != fabric {
        assert Others(acl, fabric)[1..] == Others(acl[1..], fabric);
      }
    }
  }

  /** The change brings an entry to a fabric that did not have it. */
  predicate Brings(c: Change, fabric: nat) {
    (c.Create? && c.entry.fabric == fabric) || (c.Update? && c.entry.fabric == fabric && c.fabric != fabric)
  }

  /** The change takes an entry from the fabric. */
  predicate Takes(c: Change, fabric: nat) {
    (c.Delete? && c.fabric == fabric) || (c.Update? && c.fabric == fabric && c.entry.fabric != fabric)
  }

  /** How many entries a fabric has after a change. */
  lemma ChangedCount(acl: Acl, limits: Limits, c: Change, fabric: nat)
    requires Outcome(acl, limits, c) == NoError
    ensures |OfFabric(Changed(acl, limits, c), fabric)| ==
            if c == DeleteAll(fabric) then 0
            else |OfFabric(acl, fabric)| + (if Brings(c, fabric) then 1 else 0) - (if Takes(c, fabric) then 1 else 0)
  {
    match c {
      case Create(_, e) => FiltersAppend(acl, [e], fabric);
      case Update(f, index, e) =>
        PositionFinds(acl, f, index);
        if f == fabric {
          UpdatedOne(acl, f, index, e);
        } else if e.fabric == fabric {
          UpdateAdds(acl, Position(acl, f, index), e);
        } else {
          UpdateKeeps(acl, Position(acl, f, index), e, fabric);
        }
      case Delete(f, index) =>
        PositionFinds(acl, f, index);
        if f == fabric {
          RemovedOne(acl, f, index);
        } else {
          RemovalKeeps(acl, Position(acl, f, index), fabric);
        }
      case DeleteAll(f) =>
        if f == fabric {
          OthersExclude(acl, f);
        } else {
          OthersKeep(acl, f, fabric);
        }
    }
  }

  /**
   * A change keeps a fabric within its limit unless it brings an entry to a fabric that is full. A creation is
   * checked for the fabric of the call and an update is not checked; the entry counts for the fabric it names.
   */
  lemma QuotaIff(acl: Acl, limits: Limits, c: Change, fabric: nat)
    requires Outcome(acl, limits, c) == NoError && |OfFabric(acl, fabric)| <= limits.perFabric
    ensures |OfFabric(Changed(acl, limits, c), fabric)| <= limits.perFabric <==>
            !(Brings(c, fabric) && |OfFabric(acl, fabric)| == limits.perFabric)
    ensures OwnEntry(c) ==> |OfFabric(Changed(acl, limits, c), fabric)| <= limits.perFabric
  {
    ChangedCount(acl, limits, c, fabric);
  }

  function Plain(fabric: nat): Entry {
    Entry(fabric, Case, View, [], [])
  }

  /** A creation on behalf of one fabric fills another over its limit. */
  lemma CreateOverQuota() returns (acl: Acl, limits: Limits, c: Change)
    ensures c.Create? && AllValid(acl) && Outcome(acl, limits, c) == NoError
    ensures forall f :: |OfFabric(acl, f)| <= limits.perFabric
    ensures |OfFabric(Changed(acl, limits, c), 2)| > limits.perFabric
  {
    acl, limits, c := [Plain(2)], Limits(10, 1), Create(1, Plain(2));
    assert acl[1..] == [];
    ChangedCount(acl, limits, c, 2);
  }

  /** An update moves an entry to a fabric that is full. */
  lemma UpdateOverQuota() returns (acl: Acl, limits: Limits, c: Change)
    ensures c.Update? && AllValid(acl) && Outcome(acl, limits, c) == NoError
    ensures forall f :: |OfFabric(acl, f)| <= limits.perFabric
    ensures |OfFabric(Changed(acl, limits, c), 2)| > limits.perFabric
  {
    acl, limits, c := [Plain(1), Plain(2)], Limits(10, 1), Update(1, 0, Plain(2));
    forall f ensures |OfFabric(acl, f)| <= limits.perFabric {
      FiltersAppend([Plain(1)], [Plain(2)], f);
      assert acl == [Plain(1)] + [Plain(2)];
    }
    ChangedCount(acl, limits, c, 2);
  }

  /** The entries that a run brings in name the fabric of the call. */
  predicate OwnEntry(c: Change) {
    (c.Create? || c.Update?) ==> c.entry.fabric == c.fabric
  }

  /** As long as entries name the fabric of the call, no fabric ever exceeds its limit. */
  lemma {:induction false} RunKeepsQuota(acl: Acl, limits: Limits, cs: seq<Change>, fabric: nat)
    requires forall i :: 0 <= i < |cs| ==> OwnEntry(cs[i])
    requires |OfFabric(acl, fabric)| <= limits.perFabric
    ensures |OfFabric(Run(acl, limits, cs), fabric)| <= limits.perFabric
    decreases |cs|
  {
    if cs != [] {
      if Outcome(acl, limits, cs[0]) == NoError {
        QuotaIff(acl, limits, cs[0], fabric);
      }
      RunKeepsQuota(Changed(acl, limits, cs[0]), limits, cs[1..], fabric);
    }
  }

  // ---------------------------------------------------------------------------
  // The access control object
  // ---------------------------------------------------------------------------

  /** The answer of the list for a subject, when its entries are valid. */
  function AclVerdict(acl: Acl, verdict: Error, s: Subject, r: Request, p: Privilege, resolver: Resolver): Error {
    if verdict != NotImplemented then verdict
    else if s.authMode == Pase || Allowed(acl, s, r, p, resolver) then NoError
    else AccessDenied
  }

  class AccessControl {
    const limits: Limits
    const resolver: Resolver
    const provider: AR.AccessRestrictionProvider?
    var acl: Acl

    ghost predicate Valid()
      reads this, provider
    {
      AllValid(acl) && |acl| <= limits.entries && (provider != null ==> provider.Valid())
    }

    constructor (limits: Limits, resolver: Resolver, provider: AR.AccessRestrictionProvider?)
      requires provider != null ==> provider.Valid()
      ensures Valid() && acl == [] && this.limits == limits && this.resolver == resolver && this.provider == provider
    {
      this.limits, this.resolver, this.provider, acl := limits, resolver, provider, [];
    }

    method GetEntryCount(fabric: nat) returns (count: nat)
      ensures count == |OfFabric(acl, fabric)|
    {
      count := 0;
      for i := 0 to |acl|
        invariant count == |OfFabric(acl[..i], fabric)|
      {
        assert acl[..i + 1] == acl[..i] + [acl[i]];
        FiltersAppend(acl[..i], [acl[i]], fabric);
        if acl[i].fabric == fabric {
          count := count + 1;
        }
      }
      assert acl[..|acl|] == acl;
    }

    /** Counts through the list to turn an index relative to the fabric into a position. */
    method ConvertIndex(fabric: nat, index: nat) returns (at: nat)
      ensures at == Position(acl, fabric, index)
    {
      at := 0;
      var relative := 0;
      while at < |acl|
        invariant at <= |acl| && relative <= index
        invariant Position(acl, fabric, index) == at + Position(acl[at..], fabric, index - relative)
      {
        assert acl[at..][1..] == acl[at + 1..];
        if acl[at].fabric == fabric {
          if index == relative {
            return;
          }
          relative := relative + 1;
        }
        at := at + 1;
      }
    }

    /** Counts through the list to turn a position into an index relative to the fabric of the entry there. */
    method RelativeIndex(at: nat) returns (index: nat)
      requires at < |acl|
      ensures Position(acl, acl[at].fabric, index) == at
    {
      index := 0;
      for i := 0 to at
        invariant index == |OfFabric(acl[..i], acl[at].fabric)|
      {
        assert acl[..i + 1] == acl[..i] + [acl[i]];
        FiltersAppend(acl[..i], [acl[i]], acl[at].fabric);
        if acl[i].fabric == acl[at].fabric {
          index := index + 1;
        }
      }
      PositionOf(acl, acl[at].fabric, at);
    }

    /** On success the returned index leads to the new entry within the fabric it names. */
    method CreateEntry(fabric: nat, e: Entry) returns (err: Error, index: nat)
      requires Valid()
      modifies this`acl
      ensures Valid()
      ensures err == NoError ==> Position(acl, e.fabric, index) == |old(acl)|
      ensures err == Outcome(old(acl), limits, Create(fabric, e)) && acl == Changed(old(acl), limits, Create(fabric, e))
      ensures acl == if err == NoError then old(acl) + [e] else old(acl)
      ensures err == NoError <==> |OfFabric(old(acl), fabric)| < limits.perFabric && ValidEntry(e) && |old(acl)| < limits.entries
      ensures err == InvalidArgument <==> |OfFabric(old(acl), fabric)| < limits.perFabric && !ValidEntry(e)
      ensures err in {NoError, InvalidArgument, BufferTooSmall}
    {
      var count := GetEntryCount(fabric);
      if count + 1 > limits.perFabric {
        return BufferTooSmall, 0;
      }
      var valid := IsValid(e);
      if !valid {
        return InvalidArgument, 0;
      }
      if |acl| >= limits.entries {
        return BufferTooSmall, 0;
      }
      acl := acl + [e];
      index := RelativeIndex(|acl| - 1);
      return NoError, index;
    }

    method UpdateEntry(fabric: nat, index: nat, e: Entry) returns (err: Error)
      requires Valid()
      modifies this`acl
      ensures Valid()
      ensures err == Outcome(old(acl), limits, Update(fabric, index, e)) && acl == Changed(old(acl), limits, Update(fabric, index, e))
      ensures err == NoError ==>
                && index < |OfFabric(old(acl), fabric)|
                && var mine := OfFabric(old(acl), fabric);
                   OfFabric(acl, fabric) == if e.fabric == fabric then mine[index := e] else mine[..index] + mine[index + 1..]
      ensures forall f :: f != fabric && f != e.fabric ==> OfFabric(acl, f) == OfFabric(old(acl), f)
      ensures err == NoError <==> ValidEntry(e) && index < |OfFabric(old(acl), fabric)|
      ensures err != NoError ==> acl == old(acl) && err == if ValidEntry(e) then Sentinel else InvalidArgument
    {
      forall f | f != fabric && f != e.fabric
        ensures OfFabric(Changed(acl, limits, Update(fabric, index, e)), f) == OfFabric(acl, f)
      {
        OtherFabricsKept(acl, limits, Update(fabric, index, e), f);
      }
      var valid := IsValid(e);
      if !valid {
        return InvalidArgument;
      }
      var at := ConvertIndex(fabric, index);
      PositionFinds(acl, fabric, index);
      if at >= |acl| {
        return Sentinel;
      }
      UpdatedOne(acl, fabric, index, e);
      acl := acl[at := e];
      return NoError;
    }

    method DeleteEntry(fabric: nat, index: nat) returns (err: Error)
      requires Valid()
      modifies this`acl
      ensures Valid()
      ensures err == Outcome(old(acl), limits, Delete(fabric, index)) && acl == Changed(old(acl), limits, Delete(fabric, index))
      ensures err == NoError ==>
                && index < |OfFabric(old(acl), fabric)| && Others(acl, fabric) == Others(old(acl), fabric)
                && OfFabric(acl, fabric) == OfFabric(old(acl), fabric)[..index] + OfFabric(old(acl), fabric)[index + 1..]
      ensures err != NoError ==> acl == old(acl) && err == Sentinel && index >= |OfFabric(old(acl), fabric)|
    {
      var at := ConvertIndex(fabric, index);
      PositionFinds(acl, fabric, index);
      if at >= |acl| {
        return Sentinel;
      }
      ChangedValid(acl, limits, Delete(fabric, index));
      RemovedOne(acl, fabric, index);
      acl := acl[..at] + acl[at + 1..];
      return NoError;
    }

    /** Deletes from the last entry of the fabric to the first; all go, and the others stay in order. */
    method DeleteAllEntriesForFabric(fabric: nat) returns (err: Error)
      requires Valid()
      modifies this`acl
      ensures Valid()
      ensures err == NoError && acl == Changed(old(acl), limits, DeleteAll(fabric)) && OfFabric(acl, fabric) == []
      ensures Others(acl, fabric) == Others(old(acl), fabric)
    {
      err := NoError;
      var count := GetEntryCount(fabric);
      while count > 0
        invariant Valid() && err == NoError
        invariant |OfFabric(acl, fabric)| == count && Others(acl, fabric) == Others(old(acl), fabric)
      {
        count := count - 1;
        RemovedOne(acl, fabric, count);
        var e := DeleteEntry(fabric, count);
        err := if err == NoError then e else err;
      }
      NoneOfFabric(acl, fabric);
    }

    /**
     * Goes through the entries of the subject's fabric. Whatever the list holds, only a
     * matching entry grants access; on a list of valid entries the answer is exact.
     */
    method CheckACL(verdict: Error, s: Subject, r: Request, p: Privilege) returns (err: Error)
      ensures verdict != NotImplemented ==> err == verdict
      ensures verdict == NotImplemented && err == NoError ==> s.authMode == Pase || Allowed(acl, s, r, p, resolver)
      ensures AllValid(acl) ==> err == AclVerdict(acl, verdict, s, r, p, resolver)
      ensures verdict == NotImplemented && AllValid(acl) ==>
                (err == NoError <==> s.authMode == Pase || exists e :: e in acl && Grants(e, s, r, p, resolver))
    {
      AllowedIff(acl, s, r, p, resolver);
      if verdict != NotImplemented {
        return verdict;
      }
      if s.authMode == Pase {
        return NoError;
      }
      for i := 0 to |acl|
        invariant forall k :: 0 <= k < i ==> !Matches(acl[k], s, r, p, resolver)
      {
        if acl[i].fabric != s.fabric {
          continue;
        }
        var matched;
        err, matched := MatchEntry(acl[i], s, r, p, resolver);
        if err != NoError {
          return;
        }
        if matched {
          return NoError;
        }
      }
      return AccessDenied;
    }

    /** Restrictions for the subject, if a provider is set. */
    method CheckARL(s: Subject, r: Request) returns (err: Error)
      requires Valid()
      modifies provider
      ensures Valid()
      ensures err == if r.kind == UnknownRequest then InvalidArgument
                     else if provider == null then NoError
                     else AR.Verdict(old(provider.Consulted(s)), r)
      ensures r.kind != UnknownRequest && provider != null && s.isCommissioning ==>
                err == AR.Verdict(old(provider.commissioningEntries), r)
      ensures r.kind != UnknownRequest && provider != null && !s.isCommissioning ==>
                err == AR.Verdict(if s.fabric in old(provider.fabricEntries) then old(provider.fabricEntries)[s.fabric] else [], r)
    {
      if r.kind == UnknownRequest {
        return InvalidArgument;
      }
      if provider == null {
        return NoError;
      }
      if s.isCommissioning {
        err := provider.CheckForCommissioning(r);
      } else {
        err := provider.Check(s, r);
      }
    }

    /** Access takes both the list's consent and that no restriction stands against it. */
    method Check(verdict: Error, s: Subject, r: Request, p: Privilege) returns (err: Error)
      requires Valid()
      modifies provider
      ensures Valid()
      ensures err == NoError <==>
              && AclVerdict(acl, verdict, s, r, p, resolver) == NoError
              && r.kind != UnknownRequest
              && (provider == null || AR.Verdict(old(provider.Consulted(s)), r) == NoError)
      ensures AclVerdict(acl, verdict, s, r, p, resolver) != NoError ==> err == AclVerdict(acl, verdict, s, r, p, resolver)
    {
      err := CheckACL(verdict, s, r, p);
      if err == NoError {
        err := CheckARL(s, r);
      }
    }
  }
}
