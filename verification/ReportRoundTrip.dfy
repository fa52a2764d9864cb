/**
 * A whole report from the report engine to the reader: attributes of all kinds go one
 * after the other into packets, lists chunked, values whole, and whatever cannot be
 * encoded as a status.
 */
module ReportRoundTrip {
  import opened Ids
  import opened TlvWriter
  import opened ListEncoder
  import opened BufferedRead
  import opened Wire
  import opened ListRoundTrip

  // ---------------------------------------------------------------------------
  // Attributes and what is to be seen of them
  // ---------------------------------------------------------------------------

  /** A list or a value, and the status that its failure is reported as. */
  datatype Source =
    | ListSource(read: Read, items: seq<ListItem>, status: nat)
    | ValueSource(read: Read, value: Elem, fault: Option<nat>, status: nat)

  ghost predicate Encodable(a: Source) {
    if a.ListSource? then NoneBad(Selected(a.read, a.items)) else a.fault.None?
  }

  predicate IsArray(e: Elem) {
    e.Node? && e.kind == Array
  }

  /** The report of a value. */
  function ValueIb(a: Source): Incoming
    requires a.ValueSource?
  {
    DataIb(a.read.path, if IsArray(a.value) then ReplaceAll else NotList, Some(a.read.version), Retag(a.value, Context(2)))
  }

  function FailureIb(a: Source): Incoming {
    StatusIb(a.read.path, NotList, a.status)
  }

  /** The attribute arrives as a list. */
  ghost predicate ArrivesAsList(a: Source) {
    Encodable(a) && (a.ListSource? || IsArray(a.value))
  }

  /** What is to be seen of the attribute: its list or value whole, or its failure. */
  ghost function Shown(a: Source): Event {
    if !Encodable(a) then Attribute(FailureIb(a))
    else if a.ListSource? then Delivered(a.read, Selected(a.read, a.items))
    else if IsArray(a.value) then
      Attribute(DataIb(a.read.path, ReplaceAll, Some(a.read.version), Node(Anonymous, Array, Anonymized(a.value.children))))
    else Attribute(ValueIb(a))
  }

  /** What is shown of a value has its contents: whole, or item by item. */
  lemma ShownValue(a: Source)
    requires a.ValueSource? && a.fault == None
    ensures Shown(a).Attribute? && Shown(a).ib.DataIb? && Shown(a).ib.path == a.read.path && Shown(a).ib.version == Some(a.read.version)
    ensures var v := Shown(a).ib.value;
            if a.value.Node? && a.value.kind == Array then
              && Shown(a).ib.op == ReplaceAll && v.Node? && v.kind == Array && |v.children| == |a.value.children|
              && forall i :: 0 <= i < |v.children| ==> v.children[i].tag == Anonymous && SameContent(v.children[i], a.value.children[i])
            else Shown(a).ib.op == NotList && SameContent(v, a.value)
  {
    if a.value.Node? {
      AnonymizedAre(a.value.children);
    }
  }

  lemma {:induction false} AnonymizedAre(es: seq<Elem>)
    ensures |Anonymized(es)| == |es|
    ensures forall i :: 0 <= i < |es| ==> Anonymized(es)[i].tag == Anonymous && SameContent(Anonymized(es)[i], es[i])
  {
    if es != [] {
      AnonymizedAre(es[1..]);
    }
  }

  /** A list that the 16-bit index is too short for. */
  ghost predicate IsLong(a: Source) {
    a.ListSource? && Encodable(a) && |Selected(a.read, a.items)| > MAX_ITEMS
  }

  /** The event stands for the attribute: of a list that is too long, it may only be some of its items, in one list. */
  ghost predicate ShownAs(a: Source, e: Event) {
    if IsLong(a) then exists all :: AllFrom(all, Selected(a.read, a.items)) && e == Delivered(a.read, all)
    else e == Shown(a)
  }

  ghost predicate AllFrom(all: seq<ListItem>, sel: seq<ListItem>) {
    forall i :: 0 <= i < |all| ==> all[i] in sel
  }

  ghost predicate EachShownAs(attrs: seq<Source>, events: seq<Event>) {
    |events| == |attrs| && forall i :: 0 <= i < |attrs| ==> ShownAs(attrs[i], events[i])
  }

  /** What is seen of a whole report: every attribute once, but for a list directly followed by its own path again. */
  ghost function AllShown(attrs: seq<Source>, events: seq<Event>): seq<Event>
    requires |events| == |attrs|
  {
    if attrs == [] then []
    else if ArrivesAsList(attrs[0]) && |attrs| > 1 && attrs[1].read.path == attrs[0].read.path then AllShown(attrs[1..], events[1..])
    else [events[0]] + AllShown(attrs[1..], events[1..])
  }

  ghost predicate NoneFollowed(attrs: seq<Source>) {
    forall i :: 0 <= i < |attrs| - 1 && ArrivesAsList(attrs[i]) ==> attrs[i + 1].read.path != attrs[i].read.path
  }

  lemma {:induction false} ShownCount(attrs: seq<Source>, events: seq<Event>)
    requires |events| == |attrs|
    ensures |AllShown(attrs, events)| <= |attrs|
    ensures NoneFollowed(attrs) ==> AllShown(attrs, events) == events
    ensures !NoneFollowed(attrs) ==> |AllShown(attrs, events)| < |attrs|
  {
    if attrs != [] {
      var rest := attrs[1..];
      ShownCount(rest, events[1..]);
      assert forall i :: 0 <= i < |rest| ==> rest[i] == attrs[i + 1];
      if !(ArrivesAsList(attrs[0]) && |attrs| > 1 && attrs[1].read.path == attrs[0].read.path) {
        assert NoneFollowed(rest) ==> NoneFollowed(attrs);
      }
    }
  }

  /** Every attribute is seen, in order, if and only if no list is directly followed by its own path. */
  lemma EachShownIff(attrs: seq<Source>, events: seq<Event>)
    requires |events| == |attrs|
    ensures AllShown(attrs, events) == events <==> NoneFollowed(attrs)
  {
    ShownCount(attrs, events);
  }

  // ---------------------------------------------------------------------------
  // Segments of attributes
  // ---------------------------------------------------------------------------

  function SegmentEvent(g: Segment): Event {
    if g.Single? then Attribute(g.ib) else Collapsed(g)
  }

  /** The segments of a finished attribute: whatever was given up, then what is to be seen. */
  ghost predicate IsBlock(a: Source, segs: seq<Segment>) {
    && segs != [] && GroupsOn(segs[..|segs| - 1], a.read.path)
    && var last := segs[|segs| - 1];
       && PathOf(last) == a.read.path && ValidSegment(last)
       && ShownAs(a, SegmentEvent(last)) && last.Group? == ArrivesAsList(a)
  }

  /** What the reader makes of a block. */
  function BlockEvent(segs: seq<Segment>): Event
    requires segs != []
  {
    SegmentEvent(segs[|segs| - 1])
  }

  function BlockEvents(blocks: seq<seq<Segment>>): seq<Event>
    requires forall i :: 0 <= i < |blocks| ==> blocks[i] != []
  {
    seq(|blocks|, i requires 0 <= i < |blocks| => BlockEvent(blocks[i]))
  }

  function Concat(blocks: seq<seq<Segment>>): seq<Segment> {
    if blocks == [] then [] else Concat(blocks[..|blocks| - 1]) + blocks[|blocks| - 1]
  }

  ghost predicate AreBlocks(attrs: seq<Source>, blocks: seq<seq<Segment>>) {
    |blocks| <= |attrs| && forall i :: 0 <= i < |blocks| ==> IsBlock(attrs[i], blocks[i])
  }

  /** The segments of a block are seen as its attribute, before whatever follows. */
  lemma BlockSeen(a: Source, segs: seq<Segment>, rest: seq<Segment>)
    requires IsBlock(a, segs)
    ensures Seen(segs + rest) ==
            (if ArrivesAsList(a) && rest != [] && PathOf(rest[0]) == a.read.path then [] else [BlockEvent(segs)]) + Seen(rest)
  {
    var last := segs[|segs| - 1];
    OnlyLastSeen(segs, a.read.path, rest);
    assert ([last] + rest)[1..] == rest && ([last] + rest)[0] == last;
    assert rest != [] ==> ([last] + rest)[1] == rest[0];
  }

  lemma {:induction false} ConcatValid(attrs: seq<Source>, blocks: seq<seq<Segment>>)
    requires AreBlocks(attrs, blocks)
    ensures forall i :: 0 <= i < |Concat(blocks)| ==> ValidSegment(Concat(blocks)[i])
  {
    if blocks != [] {
      var front, segs := blocks[..|blocks| - 1], blocks[|blocks| - 1];
      ConcatValid(attrs, front);
      assert forall i :: 0 <= i < |segs| - 1 ==> segs[i] == segs[..|segs| - 1][i];
    }
  }

  lemma FirstPath(a: Source, segs: seq<Segment>, rest: seq<Segment>)
    requires IsBlock(a, segs)
    ensures PathOf((segs + rest)[0]) == a.read.path
  {
    assert |segs| > 1 ==> segs[0] == segs[..|segs| - 1][0];
  }

  lemma BlocksFirst(attrs: seq<Source>, blocks: seq<seq<Segment>>, events: seq<Event>, i: nat, tail: seq<Segment>)
    requires AreBlocks(attrs, blocks) && |blocks| == |attrs| && events == BlockEvents(blocks)
    requires 0 < i <= |attrs| && SeenFrom(attrs, events, i, tail)
    ensures SeenFrom(attrs, events, i - 1, blocks[i - 1] + tail)
  {
    var a, segs := attrs[i - 1], blocks[i - 1];
    assert events[i - 1..][1..] == events[i..] && events[i - 1..][0] == BlockEvent(segs);
    BlockSeen(a, segs, tail);
    FirstPath(a, segs, tail);
    assert attrs[i - 1..][1..] == attrs[i..];
    assert i < |attrs| ==> attrs[i - 1..][1] == attrs[i];
    assert [] + Seen(tail) == Seen(tail);
  }

  /** The segments are those of the attributes from `i` on, and are seen as them. */
  ghost predicate SeenFrom(attrs: seq<Source>, events: seq<Event>, i: nat, segs: seq<Segment>)
    requires |events| == |attrs| && i <= |attrs|
  {
    && Seen(segs) == AllShown(attrs[i..], events[i..])
    && if i == |attrs| then segs == [] else segs != [] && PathOf(segs[0]) == attrs[i].read.path
  }

  lemma {:induction false} BlocksSeen(attrs: seq<Source>, blocks: seq<seq<Segment>>, events: seq<Event>, i: nat, tail: seq<Segment>)
    requires AreBlocks(attrs, blocks) && |blocks| == |attrs| && events == BlockEvents(blocks)
    requires i <= |attrs| && SeenFrom(attrs, events, i, tail)
    ensures SeenFrom(attrs, events, 0, Concat(blocks[..i]) + tail)
    decreases i
  {
    if i == 0 {
      assert Concat(blocks[..0]) + tail == tail;
    } else {
      BlocksFirst(attrs, blocks, events, i, tail);
      BlocksSeen(attrs, blocks, events, i - 1, blocks[i - 1] + tail);
      assert blocks[..i][..i - 1] == blocks[..i - 1];
      Associate(Concat(blocks[..i - 1]), blocks[i - 1], tail);
    }
  }

  /** What a reader sees of the segments of all attributes. */
  lemma AllBlocksSeen(attrs: seq<Source>, blocks: seq<seq<Segment>>, events: seq<Event>)
    requires AreBlocks(attrs, blocks) && |blocks| == |attrs| && events == BlockEvents(blocks)
    ensures EachShownAs(attrs, events) && Seen(Concat(blocks)) == AllShown(attrs, events)
  {
    var n := |attrs|;
    assert attrs[n..] == [] && attrs[0..] == attrs && blocks[..n] == blocks && events[0..] == events;
    BlocksSeen(attrs, blocks, events, n, []);
    assert Concat(blocks) + [] == Concat(blocks);
  }

  // ---------------------------------------------------------------------------
  // One attribute in one packet
  // ---------------------------------------------------------------------------

  /** What was sent of an attribute that is not finished. */
  ghost predicate Unfinished(a: Source, st: EncodeState, segs: seq<Segment>) {
    && GroupsOn(segs, a.read.path)
    && (a.ListSource? ==>
          var sel := Selected(a.read, a.items);
          Resumes(sel, st) && (!IsInitial(st) ==> exists all :: Holds(a.read, sel, st.index, segs, all)))
  }

  /** The last group holds the items: those before `d`, unless the list is too long. */
  ghost predicate Holds(read: Read, sel: seq<ListItem>, d: nat, segs: seq<Segment>, all: seq<ListItem>)
    requires d <= |sel|
  {
    SentUpTo(read, all, segs, |all|) && AllFrom(all, sel) && (|sel| <= MAX_ITEMS ==> all == sel[..d])
  }

  /** A packet between attributes: whole reports and nothing open. */
  ghost predicate Packed(w: Writer, here: seq<Incoming>) {
    w.open == [] && w.reserved == 0 && AllSendable(here) && w.content == FlatAll(WireElems(here))
  }

  lemma PackMore(w: Writer, here: seq<Incoming>, added: seq<Incoming>, tokens: seq<Token>, w': Writer)
    requires Packed(w, here) && AllSendable(added) && tokens == FlatAll(WireElems(added))
    requires w'.open == w.open && w'.reserved == w.reserved && w'.content == w.content + tokens
    ensures Packed(w', here + added)
  {
    WireElemsAppend(here, added);
    FlatAllAppend(WireElems(here), WireElems(added));
  }

  /** How an attribute leaves a packet: with more reports, which make its segments longer. */
  ghost predicate Advances(here: seq<Incoming>, segs: seq<Segment>, w': Writer, here': seq<Incoming>, segs': seq<Segment>) {
    && Packed(w', here')
    && exists added :: here' == here + added && Stream(segs', Context(2)) == Stream(segs, Context(2)) + added
  }

  lemma AdvancesNot(w: Writer, here: seq<Incoming>, segs: seq<Segment>)
    requires Packed(w, here)
    ensures Advances(here, segs, w, here, segs)
  {
    assert here == here + [] && Stream(segs, Context(2)) == Stream(segs, Context(2)) + [];
  }

  /** A single report, whole or not at all. */
  lemma SingleAdvances(w: Writer, here: seq<Incoming>, segs: seq<Segment>, g: Segment, ib: Incoming, w': Writer)
    requires Packed(w, here) && Sendable(ib) && Ibs(g, Context(2)) == [ib]
    requires w.PutAll(Flat(WireElem(ib))) == (NoError, w')
    ensures Advances(here, segs, w', here + [ib], segs + [g])
  {
    PutElement(w, WireElem(ib));
    assert [ib][1..] == [] && WireElems([ib]) == [WireElem(ib)];
    FlatOne(WireElem(ib));
    PackMore(w, here, [ib], Flat(WireElem(ib)), w');
    StreamAppend(segs, [g], Context(2));
    StreamOne(g, Context(2));
  }

  lemma ReportsAdvance(w: Writer, here: seq<Incoming>, segs: seq<Segment>, rs: seq<Report>, w': Writer, segs': seq<Segment>)
    requires Packed(w, here) && WireElems(Incomings(rs)) == Elems(rs) && AllSendable(Incomings(rs))
    requires w'.open == w.open && w'.reserved == w.reserved && w'.content == w.content + FlatAll(Elems(rs))
    requires Stream(segs', Context(2)) == Stream(segs, Context(2)) + Incomings(rs)
    ensures Advances(here, segs, w', here + Incomings(rs), segs')
  {
    PackMore(w, here, Incomings(rs), FlatAll(Elems(rs)), w');
  }

  lemma ListBlock(a: Source, sel: seq<ListItem>, segs: seq<Segment>, all: seq<ListItem>)
    requires a.ListSource? && Encodable(a) && sel == Selected(a.read, a.items) && Holds(a.read, sel, |sel|, segs, all)
    ensures IsBlock(a, segs)
  {
    var n: nat :| n <= |all| && segs[|segs| - 1] == PartGroup(a.read, all, n, |all|);
    WholeCollapsed(a.read, all, n, |all|);
    assert all[..|all|] == all && sel[..|sel|] == sel;
    assert SegmentEvent(segs[|segs| - 1]) == Delivered(a.read, all);
  }

  lemma ListUnfinished(a: Source, sel: seq<ListItem>, d: nat, segs: seq<Segment>, all: seq<ListItem>)
    requires a.ListSource? && sel == Selected(a.read, a.items) && d < |sel| && Holds(a.read, sel, d, segs, all)
    requires forall j :: 0 <= j < d ==> !sel[j].IsBad()
    ensures Unfinished(a, EncodeState(Wrap16(d), true), segs)
  {
    if Wrap16(d) != INVALID_LIST_INDEX {
      assert Holds(a.read, sel, Wrap16(d), segs, all);
    }
  }

  /** A chunk that is kept finishes the list, or leaves it for the next packet. */
  lemma ChunkKept(a: Source, sel: seq<ListItem>, st: EncodeState, d: nat, rs: seq<Report>, w: Writer, w': Writer,
                  here: seq<Incoming>, segs: seq<Segment>) returns (here': seq<Incoming>, segs': seq<Segment>)
    requires a.ListSource? && sel == Selected(a.read, a.items) && Packed(w, here) && Unfinished(a, st, segs)
    requires From(st) <= d <= |sel| && rs == ChunkReports(a.read, sel, st, d - From(st)) && forall j :: 0 <= j < d ==> !sel[j].IsBad()
    requires w'.open == w.open && w'.reserved == w.reserved && w'.content == w.content + FlatAll(Elems(rs))
    ensures Advances(here, segs, w', here', segs')
    ensures if d == |sel| then IsBlock(a, segs') else Unfinished(a, EncodeState(Wrap16(d), true), segs')
  {
    var all;
    here', segs', all := ChunkSent(a, sel, st, d, rs, w, w', here, segs);
    if d == |sel| {
      ListBlock(a, sel, segs', all);
    } else {
      ListUnfinished(a, sel, d, segs', all);
    }
  }

  /** Segments that hold the items of one list hold those of another that begins with them. */
  lemma SentAlike(read: Read, a: seq<ListItem>, b: seq<ListItem>, segs: seq<Segment>, d: nat)
    requires d <= |a| && d <= |b| && a[..d] == b[..d] && SentUpTo(read, a, segs, d)
    ensures SentUpTo(read, b, segs, d)
  {
    var n: nat :| n <= d && segs[|segs| - 1] == PartGroup(read, a, n, d);
    assert a[..d][..n] == a[..n] && b[..d][..n] == b[..n] && a[..d][n..] == a[n..d] && b[..d][n..] == b[n..d];
    assert segs[|segs| - 1] == PartGroup(read, b, n, d);
  }

  lemma FirstHeld(read: Read, sel: seq<ListItem>, d: nat, segs: seq<Segment>, rs: seq<Report>)
    returns (segs': seq<Segment>, all: seq<ListItem>)
    requires d <= |sel| && GroupsOn(segs, read.path) && rs == [read.Whole(sel[..d])]
    ensures Holds(read, sel, d, segs', all)
    ensures Stream(segs', Context(2)) == Stream(segs, Context(2)) + Incomings(rs)
  {
    all := sel[..d];
    segs' := NewGroup(read, sel, d, segs, rs);
    SentAlike(read, sel, all, segs', d);
  }

  lemma AllFromMore(was: seq<ListItem>, sel: seq<ListItem>, s: nat, d: nat)
    requires s <= d <= |sel| && AllFrom(was, sel)
    ensures AllFrom(was + sel[s..d], sel)
  {
    var all := was + sel[s..d];
    forall i | 0 <= i < |all| ensures all[i] in sel {
      assert i >= |was| ==> all[i] == sel[s + i - |was|];
    }
  }

  lemma MoreHeld(read: Read, sel: seq<ListItem>, s: nat, d: nat, segs: seq<Segment>, was: seq<ListItem>, rs: seq<Report>)
    returns (segs': seq<Segment>, all: seq<ListItem>)
    requires s <= d <= |sel| && Holds(read, sel, s, segs, was) && rs == read.Appends(sel[s..d])
    ensures Holds(read, sel, d, segs', all)
    ensures Stream(segs', Context(2)) == Stream(segs, Context(2)) + Incomings(rs)
  {
    segs' := MoreSent(read, was, sel[s..d], segs, rs);
    all := was + sel[s..d];
    AllFromMore(was, sel, s, d);
    SlicesMeet(sel, s, d);
  }

  lemma SlicesMeet(sel: seq<ListItem>, s: nat, d: nat)
    requires s <= d <= |sel|
    ensures sel[..s] + sel[s..d] == sel[..d]
  {
  }

  lemma MoreSent(read: Read, was: seq<ListItem>, more: seq<ListItem>, segs: seq<Segment>, rs: seq<Report>) returns (segs': seq<Segment>)
    requires SentUpTo(read, was, segs, |was|) && rs == read.Appends(more)
    ensures SentUpTo(read, was + more, segs', |was + more|)
    ensures Stream(segs', Context(2)) == Stream(segs, Context(2)) + Incomings(rs)
  {
    var all := was + more;
    assert all[|was|..|all|] == more && was[..|was|] == all[..|was|];
    SentAlike(read, was, all, segs, |was|);
    segs' := LongerGroup(read, all, |was|, |all|, segs, rs);
  }

  lemma ChunkSent(a: Source, sel: seq<ListItem>, st: EncodeState, d: nat, rs: seq<Report>, w: Writer, w': Writer,
                  here: seq<Incoming>, segs: seq<Segment>) returns (here': seq<Incoming>, segs': seq<Segment>, all: seq<ListItem>)
    requires a.ListSource? && sel == Selected(a.read, a.items) && Packed(w, here) && Unfinished(a, st, segs)
    requires From(st) <= d <= |sel| && rs == ChunkReports(a.read, sel, st, d - From(st))
    requires w'.open == w.open && w'.reserved == w.reserved && w'.content == w.content + FlatAll(Elems(rs))
    ensures Advances(here, segs, w', here', segs') && Holds(a.read, sel, d, segs', all)
  {
    if IsInitial(st) {
      segs', all := FirstHeld(a.read, sel, d, segs, rs);
    } else {
      var was :| Holds(a.read, sel, st.index, segs, was);
      segs', all := MoreHeld(a.read, sel, st.index, d, segs, was, rs);
    }
    ChunkWellformed(a.read, sel, st, d - From(st));
    WireOfReports(rs);
    ReportsAdvance(w, here, segs, rs, w', segs');
    here' := here + Incomings(rs);
  }

  /** What a packet comes to that keeps its chunk. */
  lemma KeptFacts(read: Read, sel: seq<ListItem>, st: EncodeState, w: Writer, w': Writer) returns (d: nat, rs: seq<Report>)
    requires Resumes(sel, st) && Keeps(read, sel, st, w.remaining)
    requires Bytes(FlatAll(Elems(Packet(read, sel, st, w.remaining)))) <= w.remaining
    requires w' == After(w, FlatAll(Elems(Packet(read, sel, st, w.remaining))))
    ensures From(st) <= d <= |sel| && rs == ChunkReports(read, sel, st, d - From(st)) && forall j :: 0 <= j < d ==> !sel[j].IsBad()
    ensures w'.open == w.open && w'.reserved == w.reserved && w'.content == w.content + FlatAll(Elems(rs))
    ensures Finishes(read, sel, st, w.remaining) <==> d == |sel|
    ensures NextState(read, sel, st, w.remaining) == EncodeState(Wrap16(d), true)
  {
    d, rs := From(st) + Taken(read, sel, st, w.remaining), Packet(read, sel, st, w.remaining);
    FitNoneBad(read, IsInitial(st), sel, From(st), Room(read, st, w.remaining));
  }

  // ---------------------------------------------------------------------------
  // Room
  // ---------------------------------------------------------------------------

  /** A packet has room for the start of the list with any one item, or for the value, and for the status. */
  ghost predicate RoomFor(a: Source, budget: nat) {
    && Size(StatusElem(a.read.path, a.status)) <= budget
    && if a.ListSource? then
         Roomy(a.read, Selected(a.read, a.items), budget) && |Selected(a.read, a.items)| < MAX_ITEMS
       else Size(ReportElem(Report(a.read.path, a.read.version, NotList, Retag(a.value, Context(2))))) <= budget
  }

  /** How many packets with room the rest of the attribute needs at most. */
  ghost function Left(a: Source, st: EncodeState): (n: nat)
    ensures 0 < n <= Need(a)
  {
    if a.ListSource? && From(st) < |Selected(a.read, a.items)| then |Selected(a.read, a.items)| - From(st) else 1
  }

  ghost function Need(a: Source): nat {
    if a.ListSource? && |Selected(a.read, a.items)| > 0 then |Selected(a.read, a.items)| else 1
  }

  /** A packet with room that does not finish the list and does not fail takes some of it. */
  lemma RoomTakes(a: Source, sel: seq<ListItem>, st: EncodeState, budget: nat)
    requires a.ListSource? && sel == Selected(a.read, a.items) && Resumes(sel, st) && RoomFor(a, budget)
    requires !Finishes(a.read, sel, st, budget) && !FirstFaults(a.read, sel, st, budget)
    ensures Left(a, NextState(a.read, sel, st, budget)) < Left(a, st)
  {
    if From(st) == |sel| {
      assert false;
    }
    assert Taken(a.read, sel, st, budget) >= 1;
  }

  /** The status of an attribute that cannot be encoded, if it fits. */
  method SendStatus(a: Source, w: Writer, ghost here: seq<Incoming>, ghost segs: seq<Segment>)
    returns (w': Writer, done: bool, ghost here': seq<Incoming>, ghost segs': seq<Segment>)
    requires Packed(w, here) && GroupsOn(segs, a.read.path) && !Encodable(a)
    ensures Advances(here, segs, w', here', segs')
    ensures done ==> IsBlock(a, segs')
    ensures !done ==> segs' == segs
    ensures Size(StatusElem(a.read.path, a.status)) <= w.remaining ==> done
  {
    PutElement(w, StatusElem(a.read.path, a.status));
    var (err, after) := w.PutAll(Flat(StatusElem(a.read.path, a.status)));
    if err != NoError {
      AdvancesNot(w, here, segs);
      return w, false, here, segs;
    }
    SingleAdvances(w, here, segs, Single(FailureIb(a)), FailureIb(a), after);
    segs' := segs + [Single(FailureIb(a))];
    assert segs'[..|segs'| - 1] == segs;
    return after, true, here + [FailureIb(a)], segs';
  }

  /** A list: the chunk is kept with its state, or rolled back, and a failure becomes a status. */
  method SendList(a: Source, st: EncodeState, w: Writer, ghost here: seq<Incoming>, ghost segs: seq<Segment>)
    returns (w': Writer, done: bool, st': EncodeState, ghost here': seq<Incoming>, ghost segs': seq<Segment>)
    requires a.ListSource? && Packed(w, here) && Unfinished(a, st, segs)
    ensures Advances(here, segs, w', here', segs')
    ensures done ==> IsBlock(a, segs')
    ensures !done ==> Unfinished(a, st', segs')
    ensures RoomFor(a, w.remaining) && !done ==> Left(a, st') < Left(a, st)
  {
    ghost var sel := Selected(a.read, a.items);
    var err;
    w', err, st' := SendChunk(a.read, a.items, st, w, sel);
    if err == NoError || err == NoMemory {
      here', segs' := ChunkOrNothing(a, sel, st, w, w', here, segs);
      if err == NoMemory && RoomFor(a, w.remaining) {
        RoomTakes(a, sel, st, w.remaining);
      }
      return w', err == NoError, st', here', segs';
    }
    w', done, here', segs' := SendStatus(a, w, here, segs);
  }

  lemma ChunkOrNothing(a: Source, sel: seq<ListItem>, st: EncodeState, w: Writer, w': Writer, here: seq<Incoming>, segs: seq<Segment>)
    returns (here': seq<Incoming>, segs': seq<Segment>)
    requires a.ListSource? && sel == Selected(a.read, a.items) && Packed(w, here) && Unfinished(a, st, segs)
    requires Bytes(FlatAll(Elems(Packet(a.read, sel, st, w.remaining)))) <= w.remaining
    requires w' == After(w, FlatAll(Elems(Packet(a.read, sel, st, w.remaining))))
    ensures Advances(here, segs, w', here', segs')
    ensures if Finishes(a.read, sel, st, w.remaining) then IsBlock(a, segs')
            else Unfinished(a, NextState(a.read, sel, st, w.remaining), segs')
  {
    if Keeps(a.read, sel, st, w.remaining) {
      var d, rs := KeptFacts(a.read, sel, st, w, w');
      here', segs' := ChunkKept(a, sel, st, d, rs, w, w', here, segs);
    } else {
      AfterNothing(w);
      AdvancesNot(w, here, segs);
      here', segs' := here, segs;
    }
  }

  /** A value: whole, or rolled back, and a failure becomes a status. */
  method SendValue(a: Source, st: EncodeState, w: Writer, ghost here: seq<Incoming>, ghost segs: seq<Segment>)
    returns (w': Writer, done: bool, ghost here': seq<Incoming>, ghost segs': seq<Segment>)
    requires a.ValueSource? && Packed(w, here) && Unfinished(a, st, segs)
    ensures Advances(here, segs, w', here', segs')
    ensures done ==> IsBlock(a, segs')
    ensures !done ==> segs' == segs
    ensures RoomFor(a, w.remaining) ==> done
  {
    PutElement(w, ReportElem(Report(a.read.path, a.read.version, NotList, Retag(a.value, Context(2)))));
    var encoder := new AttributeValueEncoder(a.read, w, st);
    var err := encoder.EncodeAttributeReportIB(ListItem(None, a.value, a.fault));
    if err == NoError {
      segs', here' := ValueAdvances(a, w, here, segs, encoder.writer);
      return encoder.writer, true, here', segs';
    }
    if err == NoMemory {
      AdvancesNot(w, here, segs);
      return w, false, here, segs;
    }
    w', done, here', segs' := SendStatus(a, w, here, segs);
  }

  /** An attribute of either kind. */
  method SendAttribute(a: Source, st: EncodeState, w: Writer, ghost here: seq<Incoming>, ghost segs: seq<Segment>)
    returns (w': Writer, done: bool, st': EncodeState, ghost here': seq<Incoming>, ghost segs': seq<Segment>)
    requires Packed(w, here) && Unfinished(a, st, segs)
    ensures Advances(here, segs, w', here', segs')
    ensures done ==> IsBlock(a, segs')
    ensures !done ==> Unfinished(a, st', segs')
    ensures RoomFor(a, w.remaining) && !done ==> Left(a, st') < Left(a, st)
  {
    if a.ListSource? {
      w', done, st', here', segs' := SendList(a, st, w, here, segs);
    } else {
      st' := st;
      w', done, here', segs' := SendValue(a, st, w, here, segs);
    }
  }

  lemma ValueAdvances(a: Source, w: Writer, here: seq<Incoming>, segs: seq<Segment>, w': Writer)
    returns (segs': seq<Segment>, here': seq<Incoming>)
    requires a.ValueSource? && a.fault.None? && Packed(w, here) && GroupsOn(segs, a.read.path)
    requires w.PutAll(Flat(ReportElem(Report(a.read.path, a.read.version, NotList, Retag(a.value, Context(2)))))) == (NoError, w')
    ensures Advances(here, segs, w', here', segs') && IsBlock(a, segs')
  {
    var ib := ValueIb(a);
    var g := if IsArray(a.value) then Group(a.read.path, Some(a.read.version), a.value.children, []) else Single(ib);
    assert [ib] + [] == [ib];
    assert PathElem(a.read.path, NotList) == PathElem(a.read.path, ReplaceAll);
    SingleAdvances(w, here, segs, g, ib, w');
    segs', here' := segs + [g], here + [ib];
    assert segs'[..|segs'| - 1] == segs;
    assert IsArray(a.value) ==> Anonymized(a.value.children) + [] == Anonymized(a.value.children);
  }

  // ---------------------------------------------------------------------------
  // The whole report
  // ---------------------------------------------------------------------------

  /** How far a report has come: the packets before, this packet, the finished attributes, and the one at hand. */
  ghost predicate Sending(attrs: seq<Source>, i: nat, st: EncodeState, before: seq<Incoming>, here: seq<Incoming>,
                          blocks: seq<seq<Segment>>, segs: seq<Segment>) {
    && |blocks| == i <= |attrs| && AreBlocks(attrs, blocks)
    && (if i < |attrs| then Unfinished(attrs[i], st, segs) else segs == [])
    && before + here == Stream(Concat(blocks), Context(2)) + Stream(segs, Context(2))
  }

  lemma SendingAdvances(attrs: seq<Source>, i: nat, st: EncodeState, st': EncodeState, before: seq<Incoming>, here: seq<Incoming>,
                        here': seq<Incoming>, blocks: seq<seq<Segment>>, segs: seq<Segment>, segs': seq<Segment>, w': Writer)
    requires Sending(attrs, i, st, before, here, blocks, segs) && i < |attrs|
    requires Advances(here, segs, w', here', segs') && Unfinished(attrs[i], st', segs')
    ensures Sending(attrs, i, st', before, here', blocks, segs')
  {
    MoreReports(before, here, here', blocks, segs, segs', w');
  }

  lemma MoreReports(before: seq<Incoming>, here: seq<Incoming>, here': seq<Incoming>, blocks: seq<seq<Segment>>,
                    segs: seq<Segment>, segs': seq<Segment>, w': Writer)
    requires before + here == Stream(Concat(blocks), Context(2)) + Stream(segs, Context(2))
    requires Advances(here, segs, w', here', segs')
    ensures before + here' == Stream(Concat(blocks), Context(2)) + Stream(segs', Context(2))
  {
    var added :| here' == here + added && Stream(segs', Context(2)) == Stream(segs, Context(2)) + added;
    Associate(before, here, added);
    Associate(Stream(Concat(blocks), Context(2)), Stream(segs, Context(2)), added);
  }

  lemma FreshUnfinished(a: Source)
    ensures Unfinished(a, FRESH, [])
  {
  }

  lemma BlocksMore(attrs: seq<Source>, blocks: seq<seq<Segment>>, segs: seq<Segment>)
    requires AreBlocks(attrs, blocks) && |blocks| < |attrs| && IsBlock(attrs[|blocks|], segs)
    ensures AreBlocks(attrs, blocks + [segs])
    ensures Stream(Concat(blocks + [segs]), Context(2)) == Stream(Concat(blocks), Context(2)) + Stream(segs, Context(2))
  {
    var more := blocks + [segs];
    assert more[..|more| - 1] == blocks;
    StreamAppend(Concat(blocks), segs, Context(2));
  }

  lemma SendingFinishes(attrs: seq<Source>, i: nat, st: EncodeState, before: seq<Incoming>, here: seq<Incoming>,
                        here': seq<Incoming>, blocks: seq<seq<Segment>>, segs: seq<Segment>, segs': seq<Segment>, w': Writer)
    requires Sending(attrs, i, st, before, here, blocks, segs) && i < |attrs|
    requires Advances(here, segs, w', here', segs') && IsBlock(attrs[i], segs')
    ensures Sending(attrs, i + 1, FRESH, before, here', blocks + [segs'], [])
  {
    MoreReports(before, here, here', blocks, segs, segs', w');
    BlocksMore(attrs, blocks, segs');
    if i + 1 < |attrs| {
      FreshUnfinished(attrs[i + 1]);
    }
    assert before + here' == before + here' + [];
  }

  ghost function NeedFrom(attrs: seq<Source>, i: nat): nat
    requires i <= |attrs|
    decreases |attrs| - i
  {
    if i == |attrs| then 0 else Need(attrs[i]) + NeedFrom(attrs, i + 1)
  }

  /** How many packets with room the rest of the report needs at most. */
  ghost function LeftFrom(attrs: seq<Source>, i: nat, st: EncodeState): nat
    requires i <= |attrs|
  {
    if i == |attrs| then 0 else Left(attrs[i], st) + NeedFrom(attrs, i + 1)
  }

  ghost predicate RoomForAll(attrs: seq<Source>, budget: nat) {
    forall i :: 0 <= i < |attrs| ==> RoomFor(attrs[i], budget)
  }

  /** There are as many packets as the report needs, with room in all of them. */
  ghost predicate Enough(attrs: seq<Source>, budgets: seq<nat>) {
    0 < |budgets| && NeedFrom(attrs, 0) <= |budgets| && forall j :: 0 <= j < |budgets| ==> RoomForAll(attrs, budgets[j])
  }

  lemma LeftLess(attrs: seq<Source>, i: nat, st: EncodeState)
    requires i < |attrs|
    ensures LeftFrom(attrs, i + 1, FRESH) < LeftFrom(attrs, i, st) <= LeftFrom(attrs, i, FRESH)
  {
  }

  /** The attribute at hand, which is finished or goes on in the next packet. */
  method SendNext(attrs: seq<Source>, i: nat, st: EncodeState, w: Writer, ghost before: seq<Incoming>, ghost here: seq<Incoming>,
                  ghost blocks: seq<seq<Segment>>, ghost segs: seq<Segment>)
    returns (w': Writer, done: bool, st': EncodeState, ghost here': seq<Incoming>, ghost blocks': seq<seq<Segment>>, ghost segs': seq<Segment>)
    requires i < |attrs| && Packed(w, here) && Sending(attrs, i, st, before, here, blocks, segs)
    ensures Packed(w', here') && Sending(attrs, if done then i + 1 else i, st', before, here', blocks', segs')
    ensures done ==> st' == FRESH
    ensures !done && RoomFor(attrs[i], w.remaining) ==> Left(attrs[i], st') < Left(attrs[i], st)
  {
    w', done, st', here', segs' := SendAttribute(attrs[i], st, w, here, segs);
    blocks' := blocks;
    if done {
      SendingFinishes(attrs, i, st, before, here, here', blocks, segs, segs', w');
      st', blocks', segs' := FRESH, blocks + [segs'], [];
    } else {
      SendingAdvances(attrs, i, st, st', before, here, here', blocks, segs, segs', w');
    }
  }

  /** Fills one packet with attributes until one has to go on in the next. */
  method SendPacket(attrs: seq<Source>, i: nat, st: EncodeState, budget: nat, ghost before: seq<Incoming>,
                    ghost blocks: seq<seq<Segment>>, ghost segs: seq<Segment>)
    returns (packet: seq<Token>, i': nat, st': EncodeState, ghost here: seq<Incoming>, ghost blocks': seq<seq<Segment>>, ghost segs': seq<Segment>)
    requires Sending(attrs, i, st, before, [], blocks, segs)
    ensures AllSendable(here) && packet == FlatAll(WireElems(here))
    ensures Sending(attrs, i', st', before, here, blocks', segs')
    ensures i < |attrs| && RoomForAll(attrs, budget) ==> LeftFrom(attrs, i', st') < LeftFrom(attrs, i, st)
  {
    var w := Writer(budget, 0, [], []);
    i', st', here, blocks', segs' := i, st, [], blocks, segs;
    while i' < |attrs|
      invariant Packed(w, here) && Sending(attrs, i', st', before, here, blocks', segs')
      invariant if i' == i then st' == st && w.remaining == budget else st' == FRESH && LeftFrom(attrs, i', st') < LeftFrom(attrs, i, st)
      decreases |attrs| - i'
    {
      var done;
      LeftLess(attrs, i', st');
      w, done, st', here, blocks', segs' := SendNext(attrs, i', st', w, before, here, blocks', segs');
      if !done {
        LeftLess(attrs, i', st');
        return w.content, i', st', here, blocks', segs';
      }
      i' := i' + 1;
    }
    packet := w.content;
  }

  lemma SendingStarts(attrs: seq<Source>)
    ensures Sending(attrs, 0, FRESH, [], [], [], []) && LeftFrom(attrs, 0, FRESH) == NeedFrom(attrs, 0)
  {
    if attrs != [] {
      FreshUnfinished(attrs[0]);
    }
  }

  lemma NextPacket(packets: seq<seq<Token>>, packet: seq<Token>, before: seq<Incoming>, here: seq<Incoming>)
    requires AllReceived(packets) == Some(before) && AllSendable(here) && packet == FlatAll(WireElems(here))
    ensures AllReceived(packets + [packet]) == Some(before + here)
  {
    ReceivedBack(here);
    assert (packets + [packet])[..|packets|] == packets;
  }

  lemma SendingGoesOn(attrs: seq<Source>, i: nat, st: EncodeState, before: seq<Incoming>, here: seq<Incoming>,
                      blocks: seq<seq<Segment>>, segs: seq<Segment>)
    requires Sending(attrs, i, st, before, here, blocks, segs)
    ensures Sending(attrs, i, st, before + here, [], blocks, segs)
  {
    assert before + here + [] == before + here;
  }

  /** What a reader that got the whole report has said. */
  lemma ReportShown(attrs: seq<Source>, st: EncodeState, blocks: seq<seq<Segment>>, segs: seq<Segment>, s: BufferedRead.State,
                    ibs: seq<Incoming>) returns (events: seq<Event>)
    requires Sending(attrs, |attrs|, st, ibs, [], blocks, segs) && !s.Pending()
    ensures EachShownAs(attrs, events) && s.Run(ibs).OnEnd().log == s.log + AllShown(attrs, events) + [ReportEnd]
  {
    assert ibs + [] == ibs && Stream(Concat(blocks), Context(2)) + [] == Stream(Concat(blocks), Context(2));
    events := BlockEvents(blocks);
    ConcatValid(attrs, blocks);
    AllBlocksSeen(attrs, blocks, events);
    ReportSeen(s, Concat(blocks), Context(2));
  }

  /**
   * Sends attributes of all kinds in packets of any sizes. Once all are sent, a reader
   * that gets the packets and the end of the report sees every attribute exactly once,
   * in order: lists whole, values as they are, failures in place of what cannot be encoded.
   * With room in every packet for any part that has to go in one, they are sent within
   * as many packets as there are values and list items.
   */
  method SendReport(attrs: seq<Source>, budgets: seq<nat>, ghost s: BufferedRead.State)
    returns (packets: seq<seq<Token>>, finished: bool, ghost events: seq<Event>)
    requires !s.Pending()
    ensures AllReceived(packets).Some?
    ensures finished ==>
              EachShownAs(attrs, events) && s.Run(AllReceived(packets).value).OnEnd().log == s.log + AllShown(attrs, events) + [ReportEnd]
    ensures Enough(attrs, budgets) ==> finished && |packets| <= if attrs == [] then 1 else NeedFrom(attrs, 0)
  {
    var i: nat, st := 0, FRESH;
    packets, events := [], [];
    ghost var before: seq<Incoming>, blocks: seq<seq<Segment>>, segs: seq<Segment> := [], [], [];
    SendingStarts(attrs);
    ghost var left := NeedFrom(attrs, 0);
    for j := 0 to |budgets|
      invariant AllReceived(packets) == Some(before) && Sending(attrs, i, st, before, [], blocks, segs)
      invariant left == LeftFrom(attrs, i, st) && (Enough(attrs, budgets) ==> j + left <= NeedFrom(attrs, 0))
      invariant |packets| == j && (j > 0 ==> i < |attrs|)
    {
      var packet;
      ghost var here;
      packet, i, st, here, blocks, segs := SendPacket(attrs, i, st, budgets[j], before, blocks, segs);
      NextPacket(packets, packet, before, here);
      SendingGoesOn(attrs, i, st, before, here, blocks, segs);
      packets, before, left := packets + [packet], before + here, LeftFrom(attrs, i, st);
      if i == |attrs| {
        events := ReportShown(attrs, st, blocks, segs, s, before);
        return packets, true, events;
      }
    }
    return packets, false, events;
  }

  /** The reader's part: every report of every packet, and the end of the report. */
  method ReceiveReport(ibs: seq<Incoming>, reader: BufferedReadCallback)
    modifies reader
    ensures reader.Abs() == old(reader.Abs()).Run(ibs).OnEnd()
  {
    for i := 0 to |ibs|
      invariant reader.Abs().Run(ibs[i..]) == old(reader.Abs()).Run(ibs)
    {
      reader.OnAttributeData(ibs[i]);
      assert ibs[i..][0] == ibs[i] && ibs[i..][1..] == ibs[i + 1..];
    }
    reader.OnReportEnd();
  }

  /** From the attributes of one side to the callbacks of the other. */
  method Transfer(attrs: seq<Source>, budgets: seq<nat>, reader: BufferedReadCallback) returns (finished: bool)
    requires !reader.Abs().Pending()
    modifies reader
    ensures Enough(attrs, budgets) ==> finished
    ensures finished ==> exists events :: EachShownAs(attrs, events) && reader.log == old(reader.log) + AllShown(attrs, events) + [ReportEnd]
    ensures !finished ==> unchanged(reader)
  {
    var packets;
    ghost var events;
    packets, finished, events := SendReport(attrs, budgets, reader.Abs());
    if finished {
      ReceiveReport(AllReceived(packets).value, reader);
    }
  }
}
