/**
 * A list from the encoder to the reader: the report engine sends one packet after
 * another, keeping or rolling back what was encoded, and the reader puts the list
 * together again.
 */
module ListRoundTrip {
  import opened Ids
  import opened TlvWriter
  import opened ListEncoder
  import opened BufferedRead
  import opened Wire

  // ---------------------------------------------------------------------------
  // The packets
  // ---------------------------------------------------------------------------

  ghost predicate NoneBad(sel: seq<ListItem>) {
    forall i :: 0 <= i < |sel| ==> !sel[i].IsBad()
  }

  ghost predicate Finishes(read: Read, sel: seq<ListItem>, st: EncodeState, budget: nat)
    requires Resumes(sel, st)
  {
    ListStarts(read, st, budget) && From(st) + Taken(read, sel, st, budget) == |sel|
  }

  /** The driver keeps what was encoded, or nothing and starts over. */
  ghost predicate Keeps(read: Read, sel: seq<ListItem>, st: EncodeState, budget: nat)
    requires Resumes(sel, st)
  {
    ListStarts(read, st, budget) && (Finishes(read, sel, st, budget) || !IsInitial(st) || Taken(read, sel, st, budget) > 0)
  }

  /** The reports in the packet. */
  ghost function Packet(read: Read, sel: seq<ListItem>, st: EncodeState, budget: nat): seq<Report>
    requires Resumes(sel, st)
  {
    if Keeps(read, sel, st, budget) then ChunkReports(read, sel, st, Taken(read, sel, st, budget)) else []
  }

  /** The state that the next packet starts from. */
  ghost function NextState(read: Read, sel: seq<ListItem>, st: EncodeState, budget: nat): EncodeState
    requires Resumes(sel, st)
  {
    if Keeps(read, sel, st, budget) then EncodeState(Wrap16(From(st) + Taken(read, sel, st, budget)), true) else FRESH
  }

  lemma FinishedNoneBad(read: Read, sel: seq<ListItem>, st: EncodeState, budget: nat)
    requires Resumes(sel, st) && Finishes(read, sel, st, budget)
    ensures NoneBad(sel)
  {
    var room := if IsInitial(st) then budget - read.Overhead() else budget;
    FitNoneBad(read, IsInitial(st), sel, From(st), room);
  }

  lemma {:induction false} FitNoneBad(read: Read, initial: bool, sel: seq<ListItem>, s: nat, room: nat)
    requires s <= |sel|
    ensures forall j :: s <= j < s + read.Fit(initial, sel, s, room) ==> !sel[j].IsBad()
    decreases |sel| - s
  {
    if read.Fit(initial, sel, s, room) > 0 {
      FitHead(read, initial, sel, s, room);
      FitNoneBad(read, initial, sel, s + 1, room - read.Cost(initial, sel[s]));
    }
  }

  lemma NextResumes(read: Read, sel: seq<ListItem>, st: EncodeState, budget: nat)
    requires Resumes(sel, st)
    ensures Resumes(sel, NextState(read, sel, st, budget))
  {
    if ListStarts(read, st, budget) {
      FitNoneBad(read, IsInitial(st), sel, From(st), if IsInitial(st) then budget - read.Overhead() else budget);
    }
  }

  /** The packets sent, as the reports they hold, and whether the whole list was. */
  datatype Sent = Sent(packets: seq<seq<Report>>, finished: bool)

  /** What packets with the given budgets turn into. */
  ghost function Drive(read: Read, sel: seq<ListItem>, st: EncodeState, budgets: seq<nat>): Sent
    requires NoneBad(sel) && Resumes(sel, st)
    decreases |budgets|
  {
    if budgets == [] then Sent([], false)
    else
      var reports := Packet(read, sel, st, budgets[0]);
      if Finishes(read, sel, st, budgets[0]) then Sent([reports], true)
      else
        NextResumes(read, sel, st, budgets[0]);
        var rest := Drive(read, sel, NextState(read, sel, st, budgets[0]), budgets[1..]);
        Sent([reports] + rest.packets, rest.finished)
  }

  /** The bytes of packets. */
  function Encoded(packets: seq<seq<Report>>): seq<seq<Token>> {
    if packets == [] then [] else [FlatAll(Elems(packets[0]))] + Encoded(packets[1..])
  }

  lemma EncodedMore(reports: seq<Report>, packets: seq<seq<Report>>)
    ensures Encoded([reports] + packets) == [FlatAll(Elems(reports))] + Encoded(packets)
  {
    assert ([reports] + packets)[1..] == packets;
  }

  /**
   * What the report engine does with a list in a packet: keep the chunk and its state, or
   * roll back and start over. Only an item that cannot be encoded makes it fail for
   * another reason than room, and one that would have had the whole room always does.
   */
  method SendChunk(read: Read, items: seq<ListItem>, st: EncodeState, w: Writer, ghost sel: seq<ListItem>)
    returns (w': Writer, err: Error, st': EncodeState)
    requires sel == Selected(read, items) && Resumes(sel, st)
    ensures err == NoError <==> Finishes(read, sel, st, w.remaining)
    ensures err == NoError || err == NoMemory ==> w' == After(w, FlatAll(Elems(Packet(read, sel, st, w.remaining))))
    ensures Bytes(FlatAll(Elems(Packet(read, sel, st, w.remaining)))) <= w.remaining
    ensures err == NoMemory ==> st' == NextState(read, sel, st, w.remaining) && Resumes(sel, st')
    ensures err != NoError && err != NoMemory ==> w' == w && st' == FRESH && !NoneBad(sel)
    ensures err == NoMemory ==> !FirstFaults(read, sel, st, w.remaining)
  {
    NextResumes(read, sel, st, w.remaining);
    AfterNothing(w);
    var encoder := new AttributeValueEncoder(read, w, st);
    var died;
    died, err := encoder.EncodeList(items, sel);
    if ListStarts(read, st, w.remaining) {
      ChunkPacket(read, sel, st, w, err, encoder.state, encoder.writer);
    }
    if err == NoError || (encoder.state.allowPartial && err == NoMemory) {
      return encoder.writer, err, encoder.state;
    }
    return w, err, FRESH;
  }

  /** The first item of the packet cannot be encoded, and not for lack of room. */
  ghost predicate FirstFaults(read: Read, sel: seq<ListItem>, st: EncodeState, budget: nat)
    requires Resumes(sel, st)
  {
    && ListStarts(read, st, budget) && From(st) < |sel| && sel[From(st)].IsBad()
    && read.Cost(IsInitial(st), sel[From(st)]) <= Room(read, st, budget)
  }

  lemma ChunkPacket(read: Read, sel: seq<ListItem>, st: EncodeState, w: Writer, err: Error, st': EncodeState, w': Writer)
    requires Resumes(sel, st) && ListStarts(read, st, w.remaining)
    requires ChunkOf(read, sel, st, w, err, st', w')
    ensures err == NoError <==> Finishes(read, sel, st, w.remaining)
    ensures err == NoError || st'.allowPartial <==> Keeps(read, sel, st, w.remaining)
    ensures Keeps(read, sel, st, w.remaining) ==> w' == After(w, FlatAll(Elems(Packet(read, sel, st, w.remaining))))
    ensures Bytes(FlatAll(Elems(Packet(read, sel, st, w.remaining)))) <= w.remaining
    ensures err != NoError && st'.allowPartial ==> st' == NextState(read, sel, st, w.remaining)
    ensures err != NoError && err != NoMemory ==> !NoneBad(sel)
    ensures err == NoMemory ==> !FirstFaults(read, sel, st, w.remaining)
  {
  }

  /** One packet after the other until the list is sent or fails; a list that cannot be encoded is never sent whole. */
  method SendList(read: Read, items: seq<ListItem>, budgets: seq<nat>, ghost sel: seq<ListItem>)
    returns (packets: seq<seq<Token>>, finished: bool)
    requires sel == Selected(read, items)
    ensures if NoneBad(sel) then finished == Drive(read, sel, FRESH, budgets).finished else !finished
    ensures NoneBad(sel) ==> packets == Encoded(Drive(read, sel, FRESH, budgets).packets)
  {
    packets := [];
    var st, i := FRESH, 0;
    assert budgets[0..] == budgets;
    while i < |budgets|
      invariant i <= |budgets| && Resumes(sel, st)
      invariant NoneBad(sel) ==> Driven(read, sel, budgets, packets, st, i)
    {
      ghost var st0, packets0 := st, packets;
      var w, err;
      w, err, st := SendChunk(read, items, st, Writer(budgets[i], 0, [], []), sel);
      var tokens := w.content;
      assert [] + tokens == tokens;
      packets := packets + [tokens];
      if err != NoError && err != NoMemory {
        return packets, false;
      }
      if NoneBad(sel) {
        DriveOn(read, sel, budgets, packets0, st0, i, tokens);
      }
      if err == NoError {
        FinishedNoneBad(read, sel, st0, budgets[i]);
        return packets, true;
      }
      i := i + 1;
    }
    if NoneBad(sel) {
      assert packets + [] == packets;
    }
    return packets, false;
  }

  /** The packets so far and those still to come are all the packets. */
  ghost predicate Driven(read: Read, sel: seq<ListItem>, budgets: seq<nat>, packets: seq<seq<Token>>, st: EncodeState, i: nat)
    requires NoneBad(sel) && Resumes(sel, st) && i <= |budgets|
  {
    var all, rest := Drive(read, sel, FRESH, budgets), Drive(read, sel, st, budgets[i..]);
    all.finished == rest.finished && Encoded(all.packets) == packets + Encoded(rest.packets)
  }

  lemma DriveOn(read: Read, sel: seq<ListItem>, budgets: seq<nat>, packets: seq<seq<Token>>, st: EncodeState, i: nat, tokens: seq<Token>)
    requires NoneBad(sel) && Resumes(sel, st) && i < |budgets| && Driven(read, sel, budgets, packets, st, i)
    requires tokens == FlatAll(Elems(Packet(read, sel, st, budgets[i])))
    ensures var st' := NextState(read, sel, st, budgets[i]);
            && Resumes(sel, st')
            && if Finishes(read, sel, st, budgets[i])
               then Drive(read, sel, FRESH, budgets).finished && Encoded(Drive(read, sel, FRESH, budgets).packets) == packets + [tokens]
               else Driven(read, sel, budgets, packets + [tokens], st', i + 1)
  {
    NextResumes(read, sel, st, budgets[i]);
    var reports, st' := Packet(read, sel, st, budgets[i]), NextState(read, sel, st, budgets[i]);
    assert budgets[i..][0] == budgets[i] && budgets[i..][1..] == budgets[i + 1..];
    if Finishes(read, sel, st, budgets[i]) {
      EncodedMore(reports, []);
      assert [reports] + [] == [reports] && [tokens] + [] == [tokens];
    } else {
      var later := Drive(read, sel, st', budgets[i + 1..]).packets;
      EncodedMore(reports, later);
      Associate(packets, [tokens], Encoded(later));
    }
  }

  // ---------------------------------------------------------------------------
  // Reading the packets
  // ---------------------------------------------------------------------------

  lemma {:induction false} AppendsWellformed(read: Read, items: seq<ListItem>)
    ensures AllWellformed(read.Appends(items))
  {
    if items != [] {
      AppendsWellformed(read, items[1..]);
    }
  }

  lemma ChunkWellformed(read: Read, sel: seq<ListItem>, st: EncodeState, n: nat)
    requires From(st) + n <= |sel|
    ensures AllWellformed(ChunkReports(read, sel, st, n))
  {
    if !IsInitial(st) {
      AppendsWellformed(read, sel[st.index..st.index + n]);
    }
  }

  /**
   * Whatever the items, whether or not their encoding fails midway: when the encoder
   * allows partial data or succeeds, the bytes it added are whole reports.
   */
  lemma KeptBytesAreReports(read: Read, sel: seq<ListItem>, st: EncodeState, w: Writer, err: Error, st': EncodeState, w': Writer)
    requires Resumes(sel, st) && ListStarts(read, st, w.remaining) && ChunkOf(read, sel, st, w, err, st', w')
    ensures w'.open == w.open && w'.reserved == w.reserved
    ensures exists rs :: w'.content == w.content + FlatAll(Elems(rs)) && Received(FlatAll(Elems(rs))) == Some(Incomings(rs))
  {
    var rs := ChunkReports(read, sel, st, Taken(read, sel, st, w.remaining));
    ChunkWellformed(read, sel, st, Taken(read, sel, st, w.remaining));
    ReportsReceived(rs);
    assert w'.content == w.content + FlatAll(Elems(rs));
  }

  // ---------------------------------------------------------------------------
  // What the reader gets of the packets
  // ---------------------------------------------------------------------------

  function Flatten(packets: seq<seq<Report>>): seq<Report> {
    if packets == [] then [] else packets[0] + Flatten(packets[1..])
  }

  ghost predicate EachWellformed(packets: seq<seq<Report>>) {
    packets == [] || (AllWellformed(packets[0]) && EachWellformed(packets[1..]))
  }

  /** The reports of all packets are read back. */
  lemma {:induction false} PacketsReadable(packets: seq<seq<Report>>)
    requires EachWellformed(packets)
    ensures AllReceived(Encoded(packets)) == Some(Incomings(Flatten(packets)))
  {
    if packets != [] {
      ReportsReceived(packets[0]);
      PacketsReadable(packets[1..]);
      AllReceivedCons(FlatAll(Elems(packets[0])), Encoded(packets[1..]), Incomings(packets[0]), Incomings(Flatten(packets[1..])));
      IncomingsAppend(packets[0], Flatten(packets[1..]));
    }
  }

  function AppendedOf(read: Read, items: seq<ListItem>): seq<Appended> {
    if items == [] then []
    else [Appended(Some(read.version), Retag(items[0].value, Context(2)))] + AppendedOf(read, items[1..])
  }

  lemma {:induction false} AppendsReceived(read: Read, items: seq<ListItem>)
    ensures Incomings(read.Appends(items)) == AppendIbs(read.path, AppendedOf(read, items))
    ensures AppendedItems(AppendedOf(read, items)) == Values(items)
    ensures |AppendedOf(read, items)| == |items|
    ensures items != [] ==> AppendedOf(read, items)[|items| - 1].version == Some(read.version)
  {
    if items != [] {
      AppendsReceived(read, items[1..]);
      assert read.Appends(items)[1..] == read.Appends(items[1..]);
      assert AppendedOf(read, items)[1..] == AppendedOf(read, items[1..]);
    }
  }

  lemma {:induction false} AppendedOfAppend(read: Read, a: seq<ListItem>, b: seq<ListItem>)
    ensures AppendedOf(read, a + b) == AppendedOf(read, a) + AppendedOf(read, b)
  {
    if a == [] {
      assert a + b == b;
    } else {
      assert (a + b)[0] == a[0] && (a + b)[1..] == a[1..] + b;
      AppendedOfAppend(read, a[1..], b);
    }
  }

  lemma {:induction false} ValuesAnonymous(items: seq<ListItem>)
    ensures Anonymized(Values(items)) == Values(items)
  {
    if items != [] {
      ValuesAnonymous(items[1..]);
      assert Values(items)[1..] == Values(items[1..]);
    }
  }

  lemma {:induction false} AppendIbsAppend(path: AttributePath, a: seq<Appended>, b: seq<Appended>)
    ensures AppendIbs(path, a + b) == AppendIbs(path, a) + AppendIbs(path, b)
  {
    if a == [] {
      assert a + b == b;
    } else {
      assert (a + b)[0] == a[0] && (a + b)[1..] == a[1..] + b;
      AppendIbsAppend(path, a[1..], b);
    }
  }

  lemma {:induction false} StreamAppend(a: seq<Segment>, b: seq<Segment>, tag: Tag)
    ensures Stream(a + b, tag) == Stream(a, tag) + Stream(b, tag)
  {
    if a == [] {
      assert a + b == b;
    } else {
      assert (a + b)[0] == a[0] && (a + b)[1..] == a[1..] + b;
      StreamAppend(a[1..], b, tag);
      Associate(Ibs(a[0], tag), Stream(a[1..], tag), Stream(b, tag));
    }
  }

  lemma StreamOne(g: Segment, tag: Tag)
    ensures Stream([g], tag) == Ibs(g, tag)
  {
    assert [g][1..] == [] && Ibs(g, tag) + [] == Ibs(g, tag);
  }

  /** The group that reports the items before `n` in one piece and those up to `d` one by one. */
  function PartGroup(read: Read, sel: seq<ListItem>, n: nat, d: nat): Segment
    requires n <= d <= |sel|
  {
    Group(read.path, Some(read.version), Values(sel[..n]), AppendedOf(read, sel[n..d]))
  }

  lemma PartGroupIbs(read: Read, sel: seq<ListItem>, n: nat, d: nat)
    requires n <= d <= |sel|
    ensures Ibs(PartGroup(read, sel, n, d), Context(2)) == Incomings([read.Whole(sel[..n])]) + Incomings(read.Appends(sel[n..d]))
  {
    AppendsReceived(read, sel[n..d]);
    assert [read.Whole(sel[..n])][1..] == [];
  }

  /** The list as the reader is to see it. */
  function Delivered(read: Read, sel: seq<ListItem>): Event {
    Attribute(DataIb(read.path, ReplaceAll, Some(read.version), Node(Anonymous, Array, Values(sel))))
  }

  /** A group with all items is seen as the list. */
  lemma WholeCollapsed(read: Read, sel: seq<ListItem>, n: nat, d: nat)
    requires n <= d <= |sel|
    ensures Collapsed(PartGroup(read, sel, n, d)) == Delivered(read, sel[..d])
  {
    AppendsReceived(read, sel[n..d]);
    ValuesAnonymous(sel[..n]);
    ValuesAppend(sel[..n], sel[n..d]);
    assert sel[..n] + sel[n..d] == sel[..d];
  }

  ghost predicate GroupsOn(segs: seq<Segment>, path: AttributePath) {
    forall i :: 0 <= i < |segs| ==> segs[i].Group? && segs[i].path == path
  }

  /** The segments are groups on the path, and the last holds the items up to `d`. */
  ghost predicate SentUpTo(read: Read, sel: seq<ListItem>, segs: seq<Segment>, d: nat)
    requires d <= |sel|
  {
    segs != [] && GroupsOn(segs, read.path) && exists n: nat :: n <= d && segs[|segs| - 1] == PartGroup(read, sel, n, d)
  }

  /** What was sent before a packet that starts from the state: whatever was given up, and the items before the index. */
  ghost predicate SentSoFar(read: Read, sel: seq<ListItem>, st: EncodeState, segs: seq<Segment>)
    requires Resumes(sel, st)
  {
    GroupsOn(segs, read.path) && (!IsInitial(st) ==> SentUpTo(read, sel, segs, st.index))
  }

  lemma NewGroup(read: Read, sel: seq<ListItem>, d: nat, segs: seq<Segment>, rs: seq<Report>) returns (segs': seq<Segment>)
    requires d <= |sel| && GroupsOn(segs, read.path) && rs == [read.Whole(sel[..d])]
    ensures SentUpTo(read, sel, segs', d)
    ensures Stream(segs', Context(2)) == Stream(segs, Context(2)) + Incomings(rs)
  {
    var g := PartGroup(read, sel, d, d);
    segs' := segs + [g];
    assert segs'[|segs'| - 1] == g;
    StreamAppend(segs, [g], Context(2));
    StreamOne(g, Context(2));
    PartGroupIbs(read, sel, d, d);
    assert sel[d..d] == [];
    assert Incomings(rs) + [] == Incomings(rs);
  }

  lemma LongerGroup(read: Read, sel: seq<ListItem>, s: nat, d: nat, segs: seq<Segment>, rs: seq<Report>) returns (segs': seq<Segment>)
    requires s <= d <= |sel| && SentUpTo(read, sel, segs, s) && rs == read.Appends(sel[s..d])
    ensures SentUpTo(read, sel, segs', d)
    ensures Stream(segs', Context(2)) == Stream(segs, Context(2)) + Incomings(rs)
  {
    var front := segs[..|segs| - 1];
    var m: nat :| m <= s && segs[|segs| - 1] == PartGroup(read, sel, m, s);
    var g, g' := PartGroup(read, sel, m, s), PartGroup(read, sel, m, d);
    segs' := front + [g'];
    assert segs'[|segs'| - 1] == PartGroup(read, sel, m, d);
    assert segs == front + [g];
    GroupGrows(read, sel, m, s, d);
    LastReplaced(front, g, g', Incomings(rs));
  }

  lemma LastReplaced(front: seq<Segment>, g: Segment, g': Segment, more: seq<Incoming>)
    requires Ibs(g', Context(2)) == Ibs(g, Context(2)) + more
    ensures Stream(front + [g'], Context(2)) == Stream(front + [g], Context(2)) + more
  {
    StreamAppend(front, [g], Context(2));
    StreamAppend(front, [g'], Context(2));
    StreamOne(g, Context(2));
    StreamOne(g', Context(2));
    Associate(Stream(front, Context(2)), Ibs(g, Context(2)), more);
  }

  /** A chunk up to item `d` starts a new group or makes the last one longer. */
  lemma ChunkReceived(read: Read, sel: seq<ListItem>, st: EncodeState, d: nat, segs: seq<Segment>, rs: seq<Report>)
    returns (segs': seq<Segment>)
    requires Resumes(sel, st) && From(st) <= d <= |sel| && SentSoFar(read, sel, st, segs)
    requires rs == ChunkReports(read, sel, st, d - From(st))
    ensures SentUpTo(read, sel, segs', d)
    ensures Stream(segs', Context(2)) == Stream(segs, Context(2)) + Incomings(rs)
  {
    if IsInitial(st) {
      segs' := NewGroup(read, sel, d, segs, rs);
    } else {
      segs' := LongerGroup(read, sel, st.index, d, segs, rs);
    }
  }

  lemma GroupGrows(read: Read, sel: seq<ListItem>, m: nat, s: nat, d: nat)
    requires m <= s <= d <= |sel|
    ensures Ibs(PartGroup(read, sel, m, d), Context(2)) ==
            Ibs(PartGroup(read, sel, m, s), Context(2)) + Incomings(read.Appends(sel[s..d]))
  {
    assert sel[m..d] == sel[m..s] + sel[s..d];
    AppendedOfAppend(read, sel[m..s], sel[s..d]);
    AppendIbsAppend(read.path, AppendedOf(read, sel[m..s]), AppendedOf(read, sel[s..d]));
    AppendsReceived(read, sel[s..d]);
    var first := [DataIb(read.path, ReplaceAll, Some(read.version), Node(Context(2), Array, Values(sel[..m])))];
    Associate(first, AppendIbs(read.path, AppendedOf(read, sel[m..s])), AppendIbs(read.path, AppendedOf(read, sel[s..d])));
  }

  /** Of segments on one path, all groups but the last, only the last is seen. */
  lemma {:induction false} OnlyLastSeen(segs: seq<Segment>, path: AttributePath, rest: seq<Segment>)
    requires segs != [] && GroupsOn(segs[..|segs| - 1], path) && PathOf(segs[|segs| - 1]) == path
    ensures Seen(segs + rest) == Seen([segs[|segs| - 1]] + rest)
  {
    if |segs| > 1 {
      var all, tail := segs + rest, segs[1..];
      assert all[1..] == tail + rest && segs[0] == segs[..|segs| - 1][0];
      assert tail[..|tail| - 1] == segs[..|segs| - 1][1..];
      assert all[1] == segs[1] && (|segs| > 2 ==> segs[1] == segs[..|segs| - 1][1]);
      OnlyLastSeen(tail, path, rest);
    } else {
      assert segs == [segs[0]];
    }
  }

  // ---------------------------------------------------------------------------
  // The round trip
  // ---------------------------------------------------------------------------

  /** A 16-bit index tells apart all the states in which so long a list can be interrupted. */
  const MAX_ITEMS: nat := 0x1_0000

  lemma PacketWellformed(read: Read, sel: seq<ListItem>, st: EncodeState, budget: nat)
    requires Resumes(sel, st)
    ensures AllWellformed(Packet(read, sel, st, budget))
  {
    if Keeps(read, sel, st, budget) {
      ChunkWellformed(read, sel, st, Taken(read, sel, st, budget));
    }
  }

  lemma {:induction false} DriveWellformed(read: Read, sel: seq<ListItem>, st: EncodeState, budgets: seq<nat>)
    requires NoneBad(sel) && Resumes(sel, st)
    ensures EachWellformed(Drive(read, sel, st, budgets).packets)
    decreases |budgets|
  {
    if budgets != [] {
      PacketWellformed(read, sel, st, budgets[0]);
      NextResumes(read, sel, st, budgets[0]);
      var here, st' := Packet(read, sel, st, budgets[0]), NextState(read, sel, st, budgets[0]);
      DriveWellformed(read, sel, st', budgets[1..]);
      assert ([here] + Drive(read, sel, st', budgets[1..]).packets)[1..] == Drive(read, sel, st', budgets[1..]).packets;
      assert [here][1..] == [];
    }
  }

  lemma StillSending(read: Read, sel: seq<ListItem>, d: nat, segs: seq<Segment>)
    requires d < |sel| <= MAX_ITEMS && SentUpTo(read, sel, segs, d) && Resumes(sel, EncodeState(Wrap16(d), true))
    ensures SentSoFar(read, sel, EncodeState(Wrap16(d), true), segs)
  {
  }

  /** The items up to `d` are sent with the packet, if it is kept. */
  lemma PacketReceived(read: Read, sel: seq<ListItem>, st: EncodeState, kept: bool, d: nat, segs: seq<Segment>, rs: seq<Report>)
    returns (segs': seq<Segment>)
    requires |sel| <= MAX_ITEMS && NoneBad(sel) && Resumes(sel, st) && SentSoFar(read, sel, st, segs) && From(st) <= d <= |sel|
    requires rs == if kept then ChunkReports(read, sel, st, d - From(st)) else []
    ensures Stream(segs', Context(2)) == Stream(segs, Context(2)) + Incomings(rs)
    ensures kept && d == |sel| ==> SentUpTo(read, sel, segs', |sel|)
    ensures var st' := if kept then EncodeState(Wrap16(d), true) else FRESH;
            Resumes(sel, st') && ((kept && d == |sel|) || SentSoFar(read, sel, st', segs'))
  {
    if kept {
      segs' := ChunkReceived(read, sel, st, d, segs, rs);
      if d < |sel| {
        StillSending(read, sel, d, segs');
      }
    } else {
      segs' := segs;
      assert Stream(segs, Context(2)) + [] == Stream(segs, Context(2));
    }
  }

  lemma StepReceived(read: Read, sel: seq<ListItem>, st: EncodeState, budget: nat, segs: seq<Segment>)
    returns (segs': seq<Segment>, st': EncodeState)
    requires |sel| <= MAX_ITEMS && NoneBad(sel) && Resumes(sel, st) && SentSoFar(read, sel, st, segs)
    ensures st' == NextState(read, sel, st, budget) && Resumes(sel, st')
    ensures Stream(segs', Context(2)) == Stream(segs, Context(2)) + Incomings(Packet(read, sel, st, budget))
    ensures if Finishes(read, sel, st, budget) then SentUpTo(read, sel, segs', |sel|) else SentSoFar(read, sel, st', segs')
  {
    var kept := Keeps(read, sel, st, budget);
    var d := From(st) + if kept then Taken(read, sel, st, budget) else 0;
    st' := NextState(read, sel, st, budget);
    segs' := PacketReceived(read, sel, st, kept, d, segs, Packet(read, sel, st, budget));
  }

  lemma StreamsAdd(stream: seq<Incoming>, a: seq<Report>, b: seq<Report>)
    ensures stream + Incomings(a) + Incomings(b) == stream + Incomings(a + b)
  {
    IncomingsAppend(a, b);
    Associate(stream, Incomings(a), Incomings(b));
  }

  lemma DriveFirst(read: Read, sel: seq<ListItem>, st: EncodeState, budgets: seq<nat>)
    requires NoneBad(sel) && Resumes(sel, st) && Drive(read, sel, st, budgets).finished
    ensures budgets != [] && Resumes(sel, NextState(read, sel, st, budgets[0]))
    ensures var here, st' := Packet(read, sel, st, budgets[0]), NextState(read, sel, st, budgets[0]);
            if Finishes(read, sel, st, budgets[0]) then Flatten(Drive(read, sel, st, budgets).packets) == here
            else && Drive(read, sel, st', budgets[1..]).finished
                 && Flatten(Drive(read, sel, st, budgets).packets) == here + Flatten(Drive(read, sel, st', budgets[1..]).packets)
  {
    NextResumes(read, sel, st, budgets[0]);
    var here, st' := Packet(read, sel, st, budgets[0]), NextState(read, sel, st, budgets[0]);
    if Finishes(read, sel, st, budgets[0]) {
      assert [here][1..] == [] && here + [] == here;
    } else {
      var later := Drive(read, sel, st', budgets[1..]).packets;
      assert ([here] + later)[1..] == later;
    }
  }

  /** Over all packets of a finished list, the last group holds the whole list, and all before it are on its path. */
  lemma {:induction false} DriveReceived(read: Read, sel: seq<ListItem>, st: EncodeState, budgets: seq<nat>, segs: seq<Segment>)
    returns (segs': seq<Segment>)
    requires |sel| <= MAX_ITEMS && NoneBad(sel) && Resumes(sel, st) && SentSoFar(read, sel, st, segs)
    requires Drive(read, sel, st, budgets).finished
    ensures SentUpTo(read, sel, segs', |sel|)
    ensures Stream(segs', Context(2)) == Stream(segs, Context(2)) + Incomings(Flatten(Drive(read, sel, st, budgets).packets))
    decreases |budgets|
  {
    DriveFirst(read, sel, st, budgets);
    var mid, st' := StepReceived(read, sel, st, budgets[0], segs);
    if Finishes(read, sel, st, budgets[0]) {
      segs' := mid;
    } else {
      segs' := DriveReceived(read, sel, st', budgets[1..], mid);
      StreamsAdd(Stream(segs, Context(2)), Packet(read, sel, st, budgets[0]),
                 Flatten(Drive(read, sel, st', budgets[1..]).packets));
    }
  }

  /** What the reader says once it got all packets and the end of the report. */
  ghost function ReaderLog(read: Read, sel: seq<ListItem>, budgets: seq<nat>, s: BufferedRead.State): Option<seq<Event>>
    requires NoneBad(sel)
  {
    match AllReceived(Encoded(Drive(read, sel, FRESH, budgets).packets))
    case Some(ibs) => Some(s.Run(ibs).OnEnd().log)
    case None => None
  }

  lemma ReaderLogIs(read: Read, sel: seq<ListItem>, budgets: seq<nat>, s: BufferedRead.State)
    requires NoneBad(sel)
    ensures ReaderLog(read, sel, budgets, s) ==
            Some(s.Run(Incomings(Flatten(Drive(read, sel, FRESH, budgets).packets))).OnEnd().log)
  {
    DriveWellformed(read, sel, FRESH, budgets);
    PacketsReadable(Drive(read, sel, FRESH, budgets).packets);
  }

  /**
   * For every list, fabric filter and packet budgets under which the encoding
   * finishes, the reader gets the selected items in order, in exactly one list.
   */
  lemma RoundTrip(read: Read, items: seq<ListItem>, budgets: seq<nat>, s: BufferedRead.State)
    requires var sel := Selected(read, items); |sel| <= MAX_ITEMS && NoneBad(sel) && Drive(read, sel, FRESH, budgets).finished
    requires !s.Pending()
    ensures var sel := Selected(read, items);
            ReaderLog(read, sel, budgets, s) == Some(s.log + [Delivered(read, sel), ReportEnd])
  {
    var sel := Selected(read, items);
    var segs := DriveReceived(read, sel, FRESH, budgets, []);
    WholeRead(read, sel, budgets, s, segs);
  }

  /** Packets whose last group holds the whole list are read as that list. */
  lemma WholeRead(read: Read, sel: seq<ListItem>, budgets: seq<nat>, s: BufferedRead.State, segs: seq<Segment>)
    requires NoneBad(sel) && !s.Pending() && SentUpTo(read, sel, segs, |sel|)
    requires Stream(segs, Context(2)) == [] + Incomings(Flatten(Drive(read, sel, FRESH, budgets).packets))
    ensures ReaderLog(read, sel, budgets, s) == Some(s.log + [Delivered(read, sel), ReportEnd])
  {
    var rs := Flatten(Drive(read, sel, FRESH, budgets).packets);
    assert [] + Incomings(rs) == Incomings(rs);
    ReaderLogIs(read, sel, budgets, s);
    ReportSeen(s, segs, Context(2));
    ListSeen(read, sel, segs);
    assert s.log + [Delivered(read, sel)] + [ReportEnd] == s.log + [Delivered(read, sel), ReportEnd];
  }

  /** The read asks for the item: it filters by fabric only items that belong to one. */
  predicate MeantFor(read: Read, item: ListItem) {
    !read.filtered || item.fabric == None || item.fabric == Some(0) || item.fabric == Some(read.fabric)
  }

  /** The positions are those of the items that the read asks for, in order. */
  ghost predicate Picks(read: Read, items: seq<ListItem>, at: seq<nat>) {
    && (forall j :: 0 <= j < |at| ==> at[j] < |items| && MeantFor(read, items[at[j]]))
    && (forall j, k :: 0 <= j < k < |at| ==> at[j] < at[k])
    && (forall i :: 0 <= i < |items| && MeantFor(read, items[i]) ==> i in at)
  }

  /** The list holds the values of the items at the positions. */
  ghost predicate HoldsItems(list: seq<Elem>, items: seq<ListItem>, at: seq<nat>) {
    && |list| == |at|
    && forall j :: 0 <= j < |at| ==> at[j] < |items| && list[j].tag == Anonymous && SameContent(list[j], items[at[j]].value)
  }

  lemma SelectedNext(read: Read, items: seq<ListItem>, i: nat, later: seq<ListItem>)
    requires i < |items| && later == Selected(read, items[i + 1..])
    ensures Selected(read, items[i..]) == if MeantFor(read, items[i]) then [items[i]] + later else later
  {
    assert items[i..][0] == items[i] && items[i..][1..] == items[i + 1..];
  }

  /** The positions are those of the items that the read asks for, from `i` on, and these are the items. */
  ghost predicate PicksFrom(read: Read, items: seq<ListItem>, i: nat, at: seq<nat>, sel: seq<ListItem>) {
    && |at| == |sel|
    && (forall j :: 0 <= j < |at| ==> i <= at[j] < |items| && MeantFor(read, items[at[j]]) && sel[j] == items[at[j]])
    && (forall j, k :: 0 <= j < k < |at| ==> at[j] < at[k])
    && (forall k :: i <= k < |items| && MeantFor(read, items[k]) ==> k in at)
  }

  lemma PickOne(read: Read, items: seq<ListItem>, i: nat, at: seq<nat>, sel: seq<ListItem>)
    requires i < |items| && MeantFor(read, items[i]) && PicksFrom(read, items, i + 1, at, sel)
    ensures PicksFrom(read, items, i, [i] + at, [items[i]] + sel)
  {
  }

  lemma {:induction false} SelectedFrom(read: Read, items: seq<ListItem>, i: nat) returns (at: seq<nat>)
    requires i <= |items|
    ensures PicksFrom(read, items, i, at, Selected(read, items[i..]))
    decreases |items| - i
  {
    if i == |items| {
      at := [];
    } else {
      at := SelectedFrom(read, items, i + 1);
      var later := Selected(read, items[i + 1..]);
      SelectedNext(read, items, i, later);
      if MeantFor(read, items[i]) {
        PickOne(read, items, i, at, later);
        at := [i] + at;
      }
    }
  }

  lemma SelectedPicks(read: Read, items: seq<ListItem>) returns (at: seq<nat>)
    ensures Picks(read, items, at) && |at| == |Selected(read, items)|
    ensures forall j :: 0 <= j < |at| ==> Selected(read, items)[j] == items[at[j]]
  {
    at := SelectedFrom(read, items, 0);
    assert items[0..] == items;
  }

  lemma {:induction false} ValuesAre(items: seq<ListItem>)
    ensures |Values(items)| == |items|
    ensures forall j :: 0 <= j < |items| ==> Values(items)[j].tag == Anonymous && SameContent(Values(items)[j], items[j].value)
  {
    if items != [] {
      ValuesAre(items[1..]);
    }
  }

  /** The list that is to be delivered holds exactly the items that the read asks for, in order, with the contents they have. */
  lemma DeliveredItems(read: Read, items: seq<ListItem>) returns (at: seq<nat>, list: seq<Elem>)
    ensures Delivered(read, Selected(read, items)) ==
            Attribute(DataIb(read.path, ReplaceAll, Some(read.version), Node(Anonymous, Array, list)))
    ensures Picks(read, items, at) && HoldsItems(list, items, at)
  {
    at := SelectedPicks(read, items);
    list := Values(Selected(read, items));
    ValuesAre(Selected(read, items));
  }

  /** An item fails the list if it belongs to the undefined fabric, or cannot be encoded. */
  lemma NoneBadIff(read: Read, items: seq<ListItem>)
    ensures NoneBad(Selected(read, items)) <==>
            forall i :: 0 <= i < |items| && MeantFor(read, items[i]) ==> items[i].fabric != Some(0) && items[i].fault == None
  {
    var at := SelectedPicks(read, items);
    var sel := Selected(read, items);
    forall i | 0 <= i < |items| && MeantFor(read, items[i]) && NoneBad(sel) ensures !items[i].IsBad() {
      var j :| 0 <= j < |at| && at[j] == i;
      assert sel[j] == items[i];
    }
  }

  /** The round trip without the encoder's words: which items arrive, and what of them. */
  lemma RoundTripItems(read: Read, items: seq<ListItem>, budgets: seq<nat>, s: BufferedRead.State) returns (at: seq<nat>, list: seq<Elem>)
    requires var sel := Selected(read, items); |sel| <= MAX_ITEMS && NoneBad(sel) && Drive(read, sel, FRESH, budgets).finished
    requires !s.Pending()
    ensures ReaderLog(read, Selected(read, items), budgets, s) ==
            Some(s.log + [Attribute(DataIb(read.path, ReplaceAll, Some(read.version), Node(Anonymous, Array, list))), ReportEnd])
    ensures Picks(read, items, at) && HoldsItems(list, items, at)
  {
    at, list := DeliveredItems(read, items);
    RoundTrip(read, items, budgets, s);
  }

  lemma ListSeen(read: Read, sel: seq<ListItem>, segs: seq<Segment>)
    requires SentUpTo(read, sel, segs, |sel|)
    ensures Seen(segs) == [Delivered(read, sel)]
  {
    var last := segs[|segs| - 1];
    var n: nat :| n <= |sel| && last == PartGroup(read, sel, n, |sel|);
    WholeCollapsed(read, sel, n, |sel|);
    assert sel[..|sel|] == sel && segs + [] == segs && [last] + [] == [last] && [last][1..] == [];
    OnlyLastSeen(segs, read.path, []);
    assert Seen([last]) == [Collapsed(last)] + Seen([]);
  }

  // ---------------------------------------------------------------------------
  // Progress
  // ---------------------------------------------------------------------------

  /** The packet has room for the start of the list and for any one item, at first and later. */
  ghost predicate Roomy(read: Read, sel: seq<ListItem>, budget: nat) {
    && read.Overhead() <= budget
    && (forall i :: 0 <= i < |sel| ==>
          read.Overhead() + read.Cost(true, sel[i]) <= budget && read.Cost(false, sel[i]) <= budget)
  }

  /** A packet with room takes at least one item that is left. */
  lemma RoomyTakes(read: Read, sel: seq<ListItem>, st: EncodeState, budget: nat)
    requires NoneBad(sel) && Resumes(sel, st) && Roomy(read, sel, budget)
    ensures ListStarts(read, st, budget)
    ensures From(st) < |sel| ==> Taken(read, sel, st, budget) >= 1
  {
  }

  /** How many packets with room the rest of the list needs at most. */
  ghost function PacketsNeeded(sel: seq<ListItem>, st: EncodeState): nat
    requires Resumes(sel, st)
  {
    if From(st) < |sel| then |sel| - From(st) else 1
  }

  lemma {:induction false} RoomyFinishes(read: Read, sel: seq<ListItem>, st: EncodeState, budgets: seq<nat>)
    requires |sel| < MAX_ITEMS && NoneBad(sel) && Resumes(sel, st)
    requires forall i :: 0 <= i < |budgets| ==> Roomy(read, sel, budgets[i])
    requires |budgets| >= PacketsNeeded(sel, st)
    ensures Drive(read, sel, st, budgets).finished
    ensures |Drive(read, sel, st, budgets).packets| <= PacketsNeeded(sel, st)
    decreases |budgets|
  {
    RoomyTakes(read, sel, st, budgets[0]);
    if !Finishes(read, sel, st, budgets[0]) {
      NextResumes(read, sel, st, budgets[0]);
      RoomyFinishes(read, sel, NextState(read, sel, st, budgets[0]), budgets[1..]);
    }
  }

  /** With room in every packet, an n-item list takes at most max(1, n) packets. */
  lemma ChunkingEnds(read: Read, items: seq<ListItem>, budgets: seq<nat>)
    requires |Selected(read, items)| < MAX_ITEMS && NoneBad(Selected(read, items))
    requires forall i :: 0 <= i < |budgets| ==> Roomy(read, Selected(read, items), budgets[i])
    requires |budgets| >= 1 && |budgets| >= |Selected(read, items)|
    ensures Drive(read, Selected(read, items), FRESH, budgets).finished
    ensures var n := |Selected(read, items)|;
            |Drive(read, Selected(read, items), FRESH, budgets).packets| <= if n == 0 then 1 else n
  {
    RoomyFinishes(read, Selected(read, items), FRESH, budgets);
  }
}
