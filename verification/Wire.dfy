/**
 * Attribute reports and failures between the report engine and the read client: how they
 * are written, and how packets of them are read back.
 */
module Wire {
  import opened Ids
  import opened TlvWriter
  import opened ListEncoder
  import opened BufferedRead

  /** A failure status: its path, then the status. */
  function StatusElem(path: AttributePath, status: nat): Elem {
    Node(Anonymous, Structure,
         [Node(Context(0), Structure,
               [Node(Context(0), List, [Unsigned(2, path.endpoint), Unsigned(3, path.cluster), Unsigned(4, path.attribute)]),
                Node(Context(1), Structure, [Unsigned(0, status)])])])
  }

  /** The tokens of a failure: the path under tag 0, the status under tag 1. */
  lemma StatusTokens(path: AttributePath, status: nat)
    ensures Flat(StatusElem(path, status)) ==
            [Open(Anonymous, Structure), Open(Context(0), Structure), Open(Context(0), List)] + IdTokens(path)
            + [Close, Open(Context(1), Structure), Data(Context(0), UnsignedBytes(status), status), Close, Close, Close]
  {
    var ids := [Unsigned(2, path.endpoint), Unsigned(3, path.cluster), Unsigned(4, path.attribute)];
    var first, second := Node(Context(0), List, ids), Node(Context(1), Structure, [Unsigned(0, status)]);
    IdsFlat(path);
    FlatOne(Unsigned(0, status));
    FlatOne(first);
    FlatOne(second);
    assert [first, second] == [first] + [second];
    FlatAllAppend([first], [second]);
    FlatOne(Node(Context(0), Structure, [first, second]));
  }

  /** What the read client is to hand on, as it is sent. */
  function WireElem(ib: Incoming): Elem {
    if ib.StatusIb? then StatusElem(ib.path, ib.status)
    else ReportElem(Report(ib.path, if ib.version.Some? then ib.version.value else 0, ib.op, ib.value))
  }

  function WireElems(ibs: seq<Incoming>): seq<Elem> {
    if ibs == [] then [] else [WireElem(ibs[0])] + WireElems(ibs[1..])
  }

  /** The report is one that the wire can tell: data with a version and its natural list operation, or a plain failure. */
  ghost predicate Sendable(ib: Incoming) {
    if ib.StatusIb? then ib.op == NotList
    else ib.version.Some? && Wellformed(Report(ib.path, ib.version.value, ib.op, ib.value))
  }

  ghost predicate AllSendable(ibs: seq<Incoming>) {
    forall i :: 0 <= i < |ibs| ==> Sendable(ibs[i])
  }

  /** Reading a report back: a status if it has one, else data. */
  function DecodeIb(e: Elem): Option<Incoming> {
    if e.Node? && |e.children| == 1 && e.children[0].Node? && e.children[0].tag == Context(0) then
      var parts := e.children[0].children;
      if |parts| == 2 && parts[0].Node? && |parts[0].children| == 3 && parts[1].Node? && |parts[1].children| == 1
         && parts[0].children[0].Leaf? && parts[0].children[1].Leaf? && parts[0].children[2].Leaf? && parts[1].children[0].Leaf?
      then
        var ids := parts[0].children;
        Some(StatusIb(AttributePath(ids[0].value, ids[1].value, ids[2].value), NotList, parts[1].children[0].value))
      else None
    else
      match DecodeReport(e)
      case Some(r) => Some(DataIb(r.path, r.op, Some(r.version), r.value))
      case None => None
  }

  function DecodeIbs(es: seq<Elem>): Option<seq<Incoming>> {
    if es == [] then Some([])
    else
      match (DecodeIb(es[0]), DecodeIbs(es[1..]))
      case (Some(ib), Some(ibs)) => Some([ib] + ibs)
      case _ => None
  }

  /** The reports in a packet, unless it holds anything but whole reports. */
  function Received(packet: seq<Token>): Option<seq<Incoming>> {
    match Parse(packet)
    case Some((es, rest)) => if rest == [] then DecodeIbs(es) else None
    case None => None
  }

  function AllReceived(packets: seq<seq<Token>>): Option<seq<Incoming>> {
    if packets == [] then Some([])
    else
      match (AllReceived(packets[..|packets| - 1]), Received(packets[|packets| - 1]))
      case (Some(a), Some(b)) => Some(a + b)
      case _ => None
  }

  lemma DecodeWire(ib: Incoming)
    requires Sendable(ib)
    ensures DecodeIb(WireElem(ib)) == Some(ib)
  {
    if ib.DataIb? {
      DecodeReportElem(Report(ib.path, ib.version.value, ib.op, ib.value));
    }
  }

  lemma DecodeMore(e: Elem, es: seq<Elem>, ib: Incoming, ibs: seq<Incoming>)
    requires DecodeIb(e) == Some(ib) && DecodeIbs(es) == Some(ibs)
    ensures DecodeIbs([e] + es) == Some([ib] + ibs)
  {
    assert ([e] + es)[1..] == es;
  }

  lemma {:induction false} DecodeWires(ibs: seq<Incoming>)
    requires AllSendable(ibs)
    ensures DecodeIbs(WireElems(ibs)) == Some(ibs)
  {
    if ibs != [] {
      DecodeWire(ibs[0]);
      DecodeWires(ibs[1..]);
      DecodeMore(WireElem(ibs[0]), WireElems(ibs[1..]), ibs[0], ibs[1..]);
      assert ibs == [ibs[0]] + ibs[1..];
    }
  }

  /** Whole reports are read back from the bytes they were written as. */
  lemma ReceivedBack(ibs: seq<Incoming>)
    requires AllSendable(ibs)
    ensures Received(FlatAll(WireElems(ibs))) == Some(ibs)
  {
    ParseFlat(WireElems(ibs), []);
    assert FlatAll(WireElems(ibs)) + [] == FlatAll(WireElems(ibs));
    DecodeWires(ibs);
  }

  lemma {:induction false} WireElemsAppend(a: seq<Incoming>, b: seq<Incoming>)
    ensures WireElems(a + b) == WireElems(a) + WireElems(b)
  {
    if a == [] {
      assert a + b == b;
    } else {
      assert (a + b)[0] == a[0] && (a + b)[1..] == a[1..] + b;
      WireElemsAppend(a[1..], b);
    }
  }

  lemma {:induction false} AllReceivedCons(packet: seq<Token>, packets: seq<seq<Token>>, a: seq<Incoming>, b: seq<Incoming>)
    requires Received(packet) == Some(a) && AllReceived(packets) == Some(b)
    ensures AllReceived([packet] + packets) == Some(a + b)
    decreases |packets|
  {
    var all := [packet] + packets;
    if packets == [] {
      assert all[..0] == [] && [] + a == a && a + [] == a;
    } else {
      var front, last := packets[..|packets| - 1], packets[|packets| - 1];
      assert all[..|all| - 1] == [packet] + front;
      AllReceivedCons(packet, front, a, AllReceived(front).value);
      Associate(a, AllReceived(front).value, Received(last).value);
    }
  }

  // ---------------------------------------------------------------------------
  // Reports of the encoder
  // ---------------------------------------------------------------------------

  function Incomings(reports: seq<Report>): seq<Incoming> {
    if reports == [] then []
    else
      [DataIb(reports[0].path, reports[0].op, Some(reports[0].version), reports[0].value)] + Incomings(reports[1..])
  }

  ghost predicate AllWellformed(rs: seq<Report>) {
    forall i :: 0 <= i < |rs| ==> Wellformed(rs[i])
  }

  lemma {:induction false} IncomingsAppend(a: seq<Report>, b: seq<Report>)
    ensures Incomings(a + b) == Incomings(a) + Incomings(b)
  {
    if a == [] {
      assert a + b == b;
    } else {
      assert (a + b)[0] == a[0] && (a + b)[1..] == a[1..] + b;
      IncomingsAppend(a[1..], b);
    }
  }

  /** Reports of a list go over the wire as they are. */
  lemma {:induction false} WireOfReports(rs: seq<Report>)
    requires AllWellformed(rs)
    ensures WireElems(Incomings(rs)) == Elems(rs) && AllSendable(Incomings(rs))
  {
    if rs != [] {
      WireOfReports(rs[1..]);
      assert Incomings(rs)[1..] == Incomings(rs[1..]);
    }
  }

  /** Reports of the encoder are read back as they are. */
  lemma ReportsReceived(rs: seq<Report>)
    requires AllWellformed(rs)
    ensures Received(FlatAll(Elems(rs))) == Some(Incomings(rs))
  {
    WireOfReports(rs);
    ReceivedBack(Incomings(rs));
  }
}
