/**
 * Lists that are too long for the 16-bit index which is saved between packets: when they
 * can be sent at all in packets of a given capacity, when they arrive with items repeated,
 * and when they start over for ever.
 */
module LongLists {
  import opened Ids
  import opened TlvWriter
  import opened ListEncoder
  import opened BufferedRead
  import opened Wire
  import opened ListRoundTrip

  // ---------------------------------------------------------------------------
  // What an item costs
  // ---------------------------------------------------------------------------

  lemma AppendHeader(path: AttributePath, version: nat)
    ensures Bytes(Header(path, version, AppendItem)) == Bytes(Header(path, version, ReplaceAll)) + 2
  {
    var ids, index := [Unsigned(2, path.endpoint), Unsigned(3, path.cluster), Unsigned(4, path.attribute)], Leaf(Context(5), 0, 0);
    var opens, v := [Open(Anonymous, Structure), Open(Context(1), Structure)], Flat(Unsigned(0, version));
    var whole, append := PathElem(path, ReplaceAll), PathElem(path, AppendItem);
    FlatAllAppend(ids, [index]);
    FlatOne(index);
    assert ids + [] == ids && Flat(index)[1..] == [];
    NodeBytes(whole);
    NodeBytes(append);
    BytesAppend(FlatAll(ids), Flat(index));
    BytesAppend(v, Flat(whole));
    BytesAppend(v, Flat(append));
    BytesAppend(opens, v + Flat(whole));
    BytesAppend(opens, v + Flat(append));
  }

  lemma NodeBytes(e: Elem)
    requires e.Node?
    ensures Size(e) == TagBytes(e.tag) + Bytes(FlatAll(e.children)) + 1
  {
    BytesAppend([Open(e.tag, e.kind)] + FlatAll(e.children), [Close]);
    BytesAppend([Open(e.tag, e.kind)], FlatAll(e.children));
    assert [Open(e.tag, e.kind)][1..] == [] && [Close][1..] == [];
  }

  lemma RetagBytes(e: Elem)
    ensures Size(Retag(e, Context(2))) == Size(Retag(e, Anonymous)) + 1
  {
    if e.Node? {
      NodeBytes(Retag(e, Context(2)));
      NodeBytes(Retag(e, Anonymous));
    } else {
      assert Flat(Retag(e, Context(2)))[1..] == [] && Flat(Retag(e, Anonymous))[1..] == [];
    }
  }

  /** A report of its own costs an item as much as a list that holds nothing else. */
  lemma SingleCost(read: Read, item: ListItem)
    ensures read.Cost(false, item) == read.Overhead() + read.Cost(true, item)
  {
    var head, value := Header(read.path, read.version, AppendItem), Flat(Retag(item.value, Context(2)));
    ReportTokens(read.Append(item));
    BytesAppend(head + value, FOOTER);
    BytesAppend(head, value);
    assert FOOTER[1..] == [Close] && [Close][1..] == [];
    AppendHeader(read.path, read.version);
    RetagBytes(item.value);
  }

  lemma SizePositive(e: Elem)
    ensures Size(e) >= 1
  {
  }

  /** With room for exactly so many items, exactly those are taken. */
  lemma {:induction false} FitExactly(read: Read, initial: bool, sel: seq<ListItem>, s: nat, d: nat)
    requires s <= d <= |sel| && NoneBad(sel)
    ensures read.Fit(initial, sel, s, CostOf(read, initial, sel, s, d)) == d - s
    decreases d - s
  {
    if s == d {
      if s < |sel| {
        SizePositive(read.Encoded(initial, sel[s]));
      }
    } else {
      FitExactly(read, initial, sel, s + 1, d);
    }
  }

  /** The budget that takes exactly the items up to `d`. */
  ghost function Exact(read: Read, sel: seq<ListItem>, st: EncodeState, d: nat): nat
    requires Resumes(sel, st) && From(st) <= d <= |sel|
  {
    (if IsInitial(st) then read.Overhead() else 0) + CostOf(read, IsInitial(st), sel, From(st), d)
  }

  lemma ExactTakes(read: Read, sel: seq<ListItem>, st: EncodeState, d: nat)
    requires NoneBad(sel) && Resumes(sel, st) && From(st) <= d <= |sel|
    ensures ListStarts(read, st, Exact(read, sel, st, d)) && Taken(read, sel, st, Exact(read, sel, st, d)) == d - From(st)
  {
    FitExactly(read, IsInitial(st), sel, From(st), d);
  }

  /** Whether the list is sent with the packets, and all the reports in them. */
  ghost function Result(read: Read, sel: seq<ListItem>, st: EncodeState, budgets: seq<nat>): (bool, seq<Report>)
    requires NoneBad(sel) && Resumes(sel, st)
  {
    var sent := Drive(read, sel, st, budgets);
    (sent.finished, Flatten(sent.packets))
  }

  lemma ResultStep(read: Read, sel: seq<ListItem>, st: EncodeState, b: nat, rest: seq<nat>)
    requires NoneBad(sel) && Resumes(sel, st) && !Finishes(read, sel, st, b)
    ensures var st' := NextState(read, sel, st, b);
            && Resumes(sel, st')
            && Result(read, sel, st, [b] + rest) ==
               (Result(read, sel, st', rest).0, Packet(read, sel, st, b) + Result(read, sel, st', rest).1)
  {
    NextResumes(read, sel, st, b);
    assert ([b] + rest)[1..] == rest;
    var here, later := Packet(read, sel, st, b), Drive(read, sel, NextState(read, sel, st, b), rest).packets;
    assert ([here] + later)[1..] == later;
  }

  lemma ResultEnd(read: Read, sel: seq<ListItem>, st: EncodeState, b: nat)
    requires NoneBad(sel) && Resumes(sel, st) && Finishes(read, sel, st, b)
    ensures Result(read, sel, st, [b]) == (true, Packet(read, sel, st, b))
  {
    var here := Packet(read, sel, st, b);
    assert [here][1..] == [] && Flatten([here]) == here + Flatten([here][1..]) && here + [] == here;
  }

  /** A packet that takes exactly the items up to `d`, of a list that goes on. */
  lemma ExactStep(read: Read, sel: seq<ListItem>, st: EncodeState, d: nat, b: nat, rest: seq<nat>)
    requires NoneBad(sel) && Resumes(sel, st) && From(st) < d < |sel| && b == Exact(read, sel, st, d)
    ensures var st' := EncodeState(Wrap16(d), true);
            && Resumes(sel, st')
            && Result(read, sel, st, [b] + rest) ==
               (Result(read, sel, st', rest).0, ChunkReports(read, sel, st, d - From(st)) + Result(read, sel, st', rest).1)
  {
    ExactTakes(read, sel, st, d);
    ResultStep(read, sel, st, b, rest);
    assert NextState(read, sel, st, b) == EncodeState(Wrap16(d), true);
    assert Packet(read, sel, st, b) == ChunkReports(read, sel, st, d - From(st));
  }

  /** A packet that takes the rest of the list. */
  lemma ExactEnd(read: Read, sel: seq<ListItem>, st: EncodeState, b: nat)
    requires NoneBad(sel) && Resumes(sel, st) && b == Exact(read, sel, st, |sel|)
    ensures Result(read, sel, st, [b]) == (true, ChunkReports(read, sel, st, |sel| - From(st)))
  {
    ExactTakes(read, sel, st, |sel|);
    ResultEnd(read, sel, st, b);
  }

  // ---------------------------------------------------------------------------
  // One item a packet
  // ---------------------------------------------------------------------------

  /** Packets that take the items from `i` to `j` one by one. */
  function Singles(read: Read, sel: seq<ListItem>, i: nat, j: nat): seq<nat>
    requires i <= j <= |sel|
    decreases j - i
  {
    if i == j then [] else [read.Cost(false, sel[i])] + Singles(read, sel, i + 1, j)
  }

  lemma {:induction false} AppendsSplit(read: Read, a: seq<ListItem>, b: seq<ListItem>)
    ensures read.Appends(a + b) == read.Appends(a) + read.Appends(b)
  {
    if a == [] {
      assert a + b == b;
    } else {
      assert (a + b)[0] == a[0] && (a + b)[1..] == a[1..] + b;
      AppendsSplit(read, a[1..], b);
    }
  }

  /** One item on its own, in the middle of the list and at its start. */
  lemma SingleStep(read: Read, sel: seq<ListItem>, i: nat, rest: seq<nat>)
    requires NoneBad(sel) && i + 1 < |sel| && i + 1 < INVALID_LIST_INDEX
    ensures var (finished, later) := Result(read, sel, EncodeState(i + 1, true), rest);
            Result(read, sel, EncodeState(i, true), [read.Cost(false, sel[i])] + rest) == (finished, [read.Append(sel[i])] + later)
  {
    assert CostOf(read, false, sel, i + 1, i + 1) == 0;
    ExactStep(read, sel, EncodeState(i, true), i + 1, read.Cost(false, sel[i]), rest);
    assert sel[i..i + 1] == [sel[i]] && [sel[i]][1..] == [];
    assert read.Appends([sel[i]]) == [read.Append(sel[i])] + read.Appends([sel[i]][1..]);
    assert [read.Append(sel[i])] + [] == [read.Append(sel[i])];
  }

  lemma StartStep(read: Read, sel: seq<ListItem>, rest: seq<nat>)
    requires NoneBad(sel) && 1 < |sel|
    ensures var (finished, later) := Result(read, sel, EncodeState(1, true), rest);
            Result(read, sel, FRESH, [read.Cost(false, sel[0])] + rest) == (finished, [read.Whole(sel[..1])] + later)
  {
    SingleCost(read, sel[0]);
    assert CostOf(read, true, sel, 1, 1) == 0;
    ExactStep(read, sel, FRESH, 1, read.Cost(false, sel[0]), rest);
  }

  /** From index `i` to index `j`, one append after the other. */
  lemma {:induction false} Climb(read: Read, sel: seq<ListItem>, i: nat, j: nat, rest: seq<nat>)
    requires NoneBad(sel) && i <= j < |sel| && j < INVALID_LIST_INDEX
    ensures var (finished, later) := Result(read, sel, EncodeState(j, true), rest);
            Result(read, sel, EncodeState(i, true), Singles(read, sel, i, j) + rest) == (finished, read.Appends(sel[i..j]) + later)
    decreases j - i
  {
    var later := Result(read, sel, EncodeState(j, true), rest).1;
    if i == j {
      assert [] + rest == rest && sel[i..j] == [] && [] + later == later;
    } else {
      Climb(read, sel, i + 1, j, rest);
      SingleStep(read, sel, i, Singles(read, sel, i + 1, j) + rest);
      Associate([read.Cost(false, sel[i])], Singles(read, sel, i + 1, j), rest);
      AppendsFirst(read, sel, i, j, later);
    }
  }

  lemma AppendsFirst(read: Read, sel: seq<ListItem>, i: nat, j: nat, later: seq<Report>)
    requires i < j <= |sel|
    ensures [read.Append(sel[i])] + (read.Appends(sel[i + 1..j]) + later) == read.Appends(sel[i..j]) + later
  {
    assert sel[i..j][0] == sel[i] && sel[i..j][1..] == sel[i + 1..j];
    Associate([read.Append(sel[i])], read.Appends(sel[i + 1..j]), later);
  }

  lemma AppendsJoin(read: Read, sel: seq<ListItem>, i: nat, k: nat, j: nat, later: seq<Report>)
    requires i <= k <= j <= |sel|
    ensures read.Appends(sel[i..k]) + (read.Appends(sel[k..j]) + later) == read.Appends(sel[i..j]) + later
  {
    assert sel[i..j] == sel[i..k] + sel[k..j];
    AppendsSplit(read, sel[i..k], sel[k..j]);
    Associate(read.Appends(sel[i..k]), read.Appends(sel[k..j]), later);
  }

  /** From the start to index `j`: the first item in a list of its own, the others one by one. */
  lemma ClimbFromStart(read: Read, sel: seq<ListItem>, j: nat, rest: seq<nat>)
    requires NoneBad(sel) && 1 <= j < |sel| && j < INVALID_LIST_INDEX
    ensures var (finished, later) := Result(read, sel, EncodeState(j, true), rest);
            Result(read, sel, FRESH, Singles(read, sel, 0, j) + rest) ==
            (finished, [read.Whole(sel[..1])] + (read.Appends(sel[1..j]) + later))
  {
    Climb(read, sel, 1, j, rest);
    StartStep(read, sel, Singles(read, sel, 1, j) + rest);
    Associate([read.Cost(false, sel[0])], Singles(read, sel, 1, j), rest);
  }

  // ---------------------------------------------------------------------------
  // Packets of a given capacity
  // ---------------------------------------------------------------------------

  ghost predicate Within(budgets: seq<nat>, capacity: nat) {
    forall i :: 0 <= i < |budgets| ==> budgets[i] <= capacity
  }

  /** The last index from which an interrupted list is resumed. */
  const LAST_INDEX: nat := 0xFFFE

  /** Every item fits into a packet of its own, and all items from the last index on fit into one. */
  ghost predicate TailFits(read: Read, sel: seq<ListItem>, capacity: nat)
    requires |sel| >= LAST_INDEX
  {
    && (forall i :: 0 <= i < LAST_INDEX ==> read.Cost(false, sel[i]) <= capacity)
    && CostOf(read, false, sel, LAST_INDEX, |sel|) <= capacity
  }

  lemma {:induction false} SinglesWithin(read: Read, sel: seq<ListItem>, i: nat, j: nat, capacity: nat)
    requires i <= j <= |sel| && forall k :: i <= k < j ==> read.Cost(false, sel[k]) <= capacity
    ensures Within(Singles(read, sel, i, j), capacity)
    decreases j - i
  {
    if i < j {
      SinglesWithin(read, sel, i + 1, j, capacity);
    }
  }

  lemma {:induction false} CostSplit(read: Read, initial: bool, sel: seq<ListItem>, s: nat, m: nat, d: nat)
    requires s <= m <= d <= |sel|
    ensures CostOf(read, initial, sel, s, d) == CostOf(read, initial, sel, s, m) + CostOf(read, initial, sel, m, d)
    decreases m - s
  {
    if s < m {
      CostSplit(read, initial, sel, s + 1, m, d);
    }
  }

  lemma CostEach(read: Read, initial: bool, sel: seq<ListItem>, s: nat, d: nat, i: nat)
    requires s <= i < d <= |sel|
    ensures read.Cost(initial, sel[i]) <= CostOf(read, initial, sel, s, d)
  {
    CostSplit(read, initial, sel, s, i, d);
  }

  // ---------------------------------------------------------------------------
  // Items that come twice
  // ---------------------------------------------------------------------------

  /** The packets that send the items up to `t + 2` and, as the index is then back at zero, the list again. */
  function Twice(read: Read, sel: seq<ListItem>, t: nat): seq<nat>
    requires 1 <= t && t + 2 <= |sel|
  {
    Singles(read, sel, 0, t)
    + ([CostOf(read, false, sel, t, t + 2)] + (Singles(read, sel, 0, t) + [CostOf(read, false, sel, t, |sel|)]))
  }

  lemma TwiceWithin(read: Read, sel: seq<ListItem>, t: nat, capacity: nat)
    requires t == LAST_INDEX && t + 2 <= |sel| && TailFits(read, sel, capacity)
    ensures Within(Twice(read, sel, t), capacity)
  {
    SinglesWithin(read, sel, 0, t, capacity);
    CostSplit(read, false, sel, t, t + 2, |sel|);
  }

  /** The second time: all items are appended from the first on. */
  lemma SecondTime(read: Read, sel: seq<ListItem>, t: nat)
    requires NoneBad(sel) && t < |sel| && t < INVALID_LIST_INDEX
    ensures Result(read, sel, EncodeState(0, true), Singles(read, sel, 0, t) + [CostOf(read, false, sel, t, |sel|)]) ==
            (true, read.Appends(sel))
  {
    ExactEnd(read, sel, EncodeState(t, true), CostOf(read, false, sel, t, |sel|));
    Climb(read, sel, 0, t, [CostOf(read, false, sel, t, |sel|)]);
    AppendsJoin(read, sel, 0, t, |sel|, []);
    assert sel[0..|sel|] == sel && read.Appends(sel) + [] == read.Appends(sel);
    assert read.Appends(sel[t..|sel|]) + [] == read.Appends(sel[t..|sel|]);
  }

  lemma TwiceSent(read: Read, sel: seq<ListItem>, t: nat)
    requires NoneBad(sel) && 1 <= t < INVALID_LIST_INDEX && t + 2 < |sel| && Wrap16(t + 2) == 0
    ensures Result(read, sel, FRESH, Twice(read, sel, t)) ==
            (true, [read.Whole(sel[..1])] + (read.Appends(sel[1..t + 2]) + read.Appends(sel)))
  {
    var again := Singles(read, sel, 0, t) + [CostOf(read, false, sel, t, |sel|)];
    SecondTime(read, sel, t);
    ExactStep(read, sel, EncodeState(t, true), t + 2, CostOf(read, false, sel, t, t + 2), again);
    ClimbFromStart(read, sel, t, [CostOf(read, false, sel, t, t + 2)] + again);
    AppendsJoin(read, sel, 1, t, t + 2, read.Appends(sel));
  }

  lemma {:induction false} ValuesCount(items: seq<ListItem>)
    ensures |Values(items)| == |items|
  {
    if items != [] {
      ValuesCount(items[1..]);
    }
  }

  /** What the reader gets of a list in one piece and appends. */
  lemma GroupRead(read: Read, both: seq<ListItem>, s: BufferedRead.State)
    requires both != [] && !s.Pending()
    ensures s.Run(Incomings([read.Whole(both[..1])] + read.Appends(both[1..]))).OnEnd().log == s.log + [Delivered(read, both), ReportEnd]
  {
    assert both[1..|both|] == both[1..] && both[..|both|] == both;
    PartGroupIbs(read, both, 1, |both|);
    IncomingsAppend([read.Whole(both[..1])], read.Appends(both[1..]));
    WholeCollapsed(read, both, 1, |both|);
    var g := PartGroup(read, both, 1, |both|);
    StreamOne(g, Context(2));
    ReportSeen(s, [g], Context(2));
    assert [g][1..] == [] && Seen([g]) == [Collapsed(g)];
    assert s.log + [Collapsed(g)] + [ReportEnd] == s.log + [Collapsed(g), ReportEnd];
  }

  /** For every longer list whose tail fits, there are packets within the capacity under which the reader gets 65536 items twice. */
  lemma LongListRepeats(read: Read, items: seq<ListItem>, capacity: nat, n: nat, s: BufferedRead.State) returns (budgets: seq<nat>)
    requires var sel := Selected(read, items); |sel| > n == MAX_ITEMS && NoneBad(sel) && TailFits(read, sel, capacity)
    requires !s.Pending()
    ensures var sel := Selected(read, items);
            && Within(budgets, capacity) && Drive(read, sel, FRESH, budgets).finished
            && ReaderLog(read, sel, budgets, s) == Some(s.log + [Delivered(read, sel[..n] + sel), ReportEnd])
            && ReaderLog(read, sel, budgets, s) != Some(s.log + [Delivered(read, sel), ReportEnd])
  {
    var sel, t := Selected(read, items), n - 2;
    budgets := Twice(read, sel, t);
    TwiceWithin(read, sel, t, capacity);
    TwiceSent(read, sel, t);
    ReaderLogIs(read, sel, budgets, s);
    TwiceRead(read, sel, n, s);
  }

  lemma TwiceRead(read: Read, sel: seq<ListItem>, n: nat, s: BufferedRead.State)
    requires 1 < n < |sel| && !s.Pending()
    ensures var rs := [read.Whole(sel[..1])] + (read.Appends(sel[1..n]) + read.Appends(sel));
            s.Run(Incomings(rs)).OnEnd().log == s.log + [Delivered(read, sel[..n] + sel), ReportEnd]
    ensures s.log + [Delivered(read, sel[..n] + sel), ReportEnd] != s.log + [Delivered(read, sel), ReportEnd]
  {
    var both := sel[..n] + sel;
    assert both[..1] == sel[..1] && both[1..] == sel[1..n] + sel;
    AppendsSplit(read, sel[1..n], sel);
    GroupRead(read, both, s);
    ValuesCount(both);
    ValuesCount(sel);
    var wrong, right := s.log + [Delivered(read, both), ReportEnd], s.log + [Delivered(read, sel), ReportEnd];
    assert wrong[|s.log|] != right[|s.log|];
  }

  // ---------------------------------------------------------------------------
  // When a long list can be sent
  // ---------------------------------------------------------------------------

  /** The items before the index of a state fit into packets of their own. */
  ghost predicate SinglesFit(read: Read, sel: seq<ListItem>, st: EncodeState, capacity: nat)
    requires Resumes(sel, st)
  {
    !IsInitial(st) ==> forall i :: 0 <= i < st.index ==> read.Cost(false, sel[i]) <= capacity
  }

  /** Every item that a packet takes would fit into a packet of its own. */
  lemma TakenSingles(read: Read, sel: seq<ListItem>, st: EncodeState, budget: nat, capacity: nat)
    requires Resumes(sel, st) && ListStarts(read, st, budget) && budget <= capacity
    ensures forall i :: From(st) <= i < From(st) + Taken(read, sel, st, budget) ==> read.Cost(false, sel[i]) <= capacity
  {
    var s, d, room := From(st), From(st) + Taken(read, sel, st, budget), Room(read, st, budget);
    FitCosts(read, IsInitial(st), sel, s, d, room);
    forall i | s <= i < d ensures read.Cost(false, sel[i]) <= capacity {
      CostEach(read, IsInitial(st), sel, s, d, i);
      SingleCost(read, sel[i]);
    }
  }

  lemma NextSingles(read: Read, sel: seq<ListItem>, st: EncodeState, budget: nat, capacity: nat)
    requires Resumes(sel, st) && SinglesFit(read, sel, st, capacity) && budget <= capacity
    ensures Resumes(sel, NextState(read, sel, st, budget)) && SinglesFit(read, sel, NextState(read, sel, st, budget), capacity)
  {
    NextResumes(read, sel, st, budget);
    if Keeps(read, sel, st, budget) {
      TakenSingles(read, sel, st, budget, capacity);
    }
  }

  /** A list that ends in appends has a tail that fits; one that ends in one piece fits whole. */
  lemma EndFits(read: Read, sel: seq<ListItem>, st: EncodeState, budget: nat, capacity: nat)
    requires Resumes(sel, st) && SinglesFit(read, sel, st, capacity) && budget <= capacity && |sel| >= LAST_INDEX
    requires Finishes(read, sel, st, budget)
    ensures IsInitial(st) ==> read.Overhead() + CostOf(read, true, sel, 0, |sel|) <= capacity
    ensures !IsInitial(st) ==> TailFits(read, sel, capacity)
  {
    FitCosts(read, IsInitial(st), sel, From(st), |sel|, Room(read, st, budget));
    if !IsInitial(st) {
      TakenSingles(read, sel, st, budget, capacity);
      CostSplit(read, false, sel, st.index, LAST_INDEX, |sel|);
    }
  }

  lemma {:induction false} SentFits(read: Read, sel: seq<ListItem>, st: EncodeState, budgets: seq<nat>, capacity: nat)
    requires NoneBad(sel) && Resumes(sel, st) && SinglesFit(read, sel, st, capacity) && |sel| >= LAST_INDEX
    requires Within(budgets, capacity) && Drive(read, sel, st, budgets).finished
    ensures read.Overhead() + CostOf(read, true, sel, 0, |sel|) <= capacity || TailFits(read, sel, capacity)
    decreases |budgets|
  {
    if Finishes(read, sel, st, budgets[0]) {
      EndFits(read, sel, st, budgets[0], capacity);
    } else {
      NextSingles(read, sel, st, budgets[0], capacity);
      SentFits(read, sel, NextState(read, sel, st, budgets[0]), budgets[1..], capacity);
    }
  }

  lemma FitsSent(read: Read, sel: seq<ListItem>, capacity: nat, t: nat) returns (budgets: seq<nat>)
    requires NoneBad(sel) && |sel| > t == LAST_INDEX
    requires read.Overhead() + CostOf(read, true, sel, 0, |sel|) <= capacity || TailFits(read, sel, capacity)
    ensures Within(budgets, capacity) && Drive(read, sel, FRESH, budgets).finished
  {
    if TailFits(read, sel, capacity) {
      var b := CostOf(read, false, sel, t, |sel|);
      budgets := Singles(read, sel, 0, t) + [b];
      SinglesWithin(read, sel, 0, t, capacity);
      ExactEnd(read, sel, EncodeState(t, true), b);
      ClimbFromStart(read, sel, t, [b]);
    } else {
      var b := read.Overhead() + CostOf(read, true, sel, 0, |sel|);
      budgets := [b];
      ExactEnd(read, sel, FRESH, b);
    }
  }

  /**
   * A list of more than 65534 items can be sent in packets of a capacity, however many,
   * if and only if it fits into one, or every item fits into one and all from the last
   * index on do together. Otherwise it never ends.
   */
  lemma CanBeSentIff(read: Read, sel: seq<ListItem>, capacity: nat)
    requires NoneBad(sel) && |sel| > LAST_INDEX
    ensures (exists budgets :: Within(budgets, capacity) && Drive(read, sel, FRESH, budgets).finished)
            <==> read.Overhead() + CostOf(read, true, sel, 0, |sel|) <= capacity || TailFits(read, sel, capacity)
  {
    if read.Overhead() + CostOf(read, true, sel, 0, |sel|) <= capacity || TailFits(read, sel, capacity) {
      var budgets := FitsSent(read, sel, capacity, LAST_INDEX);
    } else {
      forall budgets | Within(budgets, capacity) ensures !Drive(read, sel, FRESH, budgets).finished {
        if Drive(read, sel, FRESH, budgets).finished {
          SentFits(read, sel, FRESH, budgets, capacity);
        }
      }
    }
  }

  // ---------------------------------------------------------------------------
  // When a long list arrives right
  // ---------------------------------------------------------------------------

  /** Whatever was sent so far are groups on the path, and one of them is open unless the list starts over. */
  ghost predicate SomeSent(read: Read, st: EncodeState, segs: seq<Segment>) {
    GroupsOn(segs, read.path) && (!IsInitial(st) ==> segs != [])
  }

  lemma MoreAppended(read: Read, items: seq<ListItem>, segs: seq<Segment>) returns (segs': seq<Segment>)
    requires segs != [] && GroupsOn(segs, read.path)
    ensures segs' != [] && GroupsOn(segs', read.path)
    ensures Stream(segs', Context(2)) == Stream(segs, Context(2)) + Incomings(read.Appends(items))
  {
    var front, g := segs[..|segs| - 1], segs[|segs| - 1];
    var g' := g.(appends := g.appends + AppendedOf(read, items));
    segs' := front + [g'];
    assert segs == front + [g];
    AppendIbsAppend(g.path, g.appends, AppendedOf(read, items));
    AppendsReceived(read, items);
    var first := [DataIb(g.path, ReplaceAll, g.version, Node(Context(2), Array, g.items))];
    Associate(first, AppendIbs(g.path, g.appends), AppendIbs(g.path, AppendedOf(read, items)));
    LastReplaced(front, g, g', Incomings(read.Appends(items)));
  }

  lemma AnyReceived(read: Read, sel: seq<ListItem>, st: EncodeState, d: nat, segs: seq<Segment>, rs: seq<Report>)
    returns (segs': seq<Segment>)
    requires Resumes(sel, st) && From(st) <= d <= |sel| && SomeSent(read, st, segs) && rs == ChunkReports(read, sel, st, d - From(st))
    ensures segs' != [] && GroupsOn(segs', read.path) && (IsInitial(st) ==> SentUpTo(read, sel, segs', d))
    ensures Stream(segs', Context(2)) == Stream(segs, Context(2)) + Incomings(rs)
  {
    if IsInitial(st) {
      segs' := NewGroup(read, sel, d, segs, rs);
    } else {
      segs' := MoreAppended(read, sel[st.index..d], segs);
    }
  }

  lemma AnyStep(read: Read, sel: seq<ListItem>, st: EncodeState, budget: nat, segs: seq<Segment>) returns (segs': seq<Segment>)
    requires Resumes(sel, st) && SomeSent(read, st, segs)
    ensures Stream(segs', Context(2)) == Stream(segs, Context(2)) + Incomings(Packet(read, sel, st, budget))
    ensures Finishes(read, sel, st, budget) && IsInitial(st) ==> SentUpTo(read, sel, segs', |sel|)
    ensures SomeSent(read, NextState(read, sel, st, budget), segs')
  {
    if Keeps(read, sel, st, budget) {
      segs' := AnyReceived(read, sel, st, From(st) + Taken(read, sel, st, budget), segs, Packet(read, sel, st, budget));
    } else {
      segs' := segs;
      assert Stream(segs, Context(2)) + [] == Stream(segs, Context(2));
    }
  }

  /** A list that cannot end in appends ends in one piece, which replaces all that came before. */
  lemma {:induction false} EndsWhole(read: Read, sel: seq<ListItem>, st: EncodeState, budgets: seq<nat>, capacity: nat, segs: seq<Segment>)
    returns (segs': seq<Segment>)
    requires NoneBad(sel) && Resumes(sel, st) && SinglesFit(read, sel, st, capacity) && |sel| >= LAST_INDEX
    requires Within(budgets, capacity) && Drive(read, sel, st, budgets).finished && !TailFits(read, sel, capacity)
    requires SomeSent(read, st, segs)
    ensures SentUpTo(read, sel, segs', |sel|)
    ensures Stream(segs', Context(2)) == Stream(segs, Context(2)) + Incomings(Flatten(Drive(read, sel, st, budgets).packets))
    decreases |budgets|
  {
    DriveFirst(read, sel, st, budgets);
    var mid := AnyStep(read, sel, st, budgets[0], segs);
    if Finishes(read, sel, st, budgets[0]) {
      EndFits(read, sel, st, budgets[0], capacity);
      segs' := mid;
    } else {
      var st' := NextState(read, sel, st, budgets[0]);
      NextSingles(read, sel, st, budgets[0], capacity);
      segs' := EndsWhole(read, sel, st', budgets[1..], capacity, mid);
      StreamsAdd(Stream(segs, Context(2)), Packet(read, sel, st, budgets[0]),
                 Flatten(Drive(read, sel, st', budgets[1..]).packets));
    }
  }

  lemma LongListRight(read: Read, items: seq<ListItem>, budgets: seq<nat>, capacity: nat, s: BufferedRead.State)
    requires var sel := Selected(read, items);
             NoneBad(sel) && |sel| >= LAST_INDEX && !TailFits(read, sel, capacity) && Drive(read, sel, FRESH, budgets).finished
    requires Within(budgets, capacity) && !s.Pending()
    ensures var sel := Selected(read, items); ReaderLog(read, sel, budgets, s) == Some(s.log + [Delivered(read, sel), ReportEnd])
  {
    var sel := Selected(read, items);
    var segs := EndsWhole(read, sel, FRESH, budgets, capacity, []);
    WholeRead(read, sel, budgets, s, segs);
  }

  /**
   * In packets of a capacity, every list arrives right whenever it is sent whole, if and
   * only if it has at most 65536 items or its tail does not fit.
   */
  lemma RoundTripIff(read: Read, items: seq<ListItem>, capacity: nat, s: BufferedRead.State)
    requires NoneBad(Selected(read, items)) && !s.Pending()
    ensures var sel := Selected(read, items);
            (forall budgets :: Within(budgets, capacity) && Drive(read, sel, FRESH, budgets).finished ==>
                                 ReaderLog(read, sel, budgets, s) == Some(s.log + [Delivered(read, sel), ReportEnd]))
            <==> |sel| <= MAX_ITEMS || !TailFits(read, sel, capacity)
  {
    var sel := Selected(read, items);
    if |sel| <= MAX_ITEMS || !TailFits(read, sel, capacity) {
      forall budgets | Within(budgets, capacity) && Drive(read, sel, FRESH, budgets).finished
        ensures ReaderLog(read, sel, budgets, s) == Some(s.log + [Delivered(read, sel), ReportEnd])
      {
        if |sel| <= MAX_ITEMS {
          RoundTrip(read, items, budgets, s);
        } else {
          LongListRight(read, items, budgets, capacity, s);
        }
      }
    } else {
      var budgets := LongListRepeats(read, items, capacity, MAX_ITEMS, s);
    }
  }

  // ---------------------------------------------------------------------------
  // Lists that never end
  // ---------------------------------------------------------------------------

  const READ := Read(NO_PATH, 0, false, 0)

  /** A one-byte item. */
  const BYTE := ListItem(None, Leaf(Anonymous, 1, 0), None)

  ghost predicate AllBytes(sel: seq<ListItem>) {
    forall i :: 0 <= i < |sel| ==> sel[i] == BYTE
  }

  ghost function Snug(): nat {
    READ.Cost(false, BYTE)
  }

  lemma FitOne(read: Read, initial: bool, sel: seq<ListItem>, s: nat, room: nat, cost: nat)
    requires s < |sel| && !sel[s].IsBad() && read.Cost(initial, sel[s]) == cost <= room
    requires s + 1 < |sel| ==> read.Cost(initial, sel[s + 1]) > room - cost
    ensures read.Fit(initial, sel, s, room) == 1
  {
  }

  /** A packet with room for one item takes exactly one. */
  lemma SnugTakes(sel: seq<ListItem>, st: EncodeState)
    requires AllBytes(sel) && Resumes(sel, st) && From(st) < |sel|
    ensures ListStarts(READ, st, Snug()) && Taken(READ, sel, st, Snug()) == 1
  {
    SingleCost(READ, BYTE);
    SizePositive(READ.Encoded(IsInitial(st), BYTE));
    FitOne(READ, IsInitial(st), sel, From(st), Room(READ, st, Snug()), READ.Cost(IsInitial(st), BYTE));
  }

  lemma SnugStep(sel: seq<ListItem>, st: EncodeState)
    requires AllBytes(sel) && |sel| >= MAX_ITEMS && Resumes(sel, st)
    ensures !Finishes(READ, sel, st, Snug()) && Resumes(sel, NextState(READ, sel, st, Snug()))
  {
    SnugTakes(sel, st);
    NextResumes(READ, sel, st, Snug());
  }

  /** One item a packet, the index comes to 65535, which means a fresh start, and so for ever. */
  lemma {:induction false} SnugNeverEnds(sel: seq<ListItem>, st: EncodeState, budgets: seq<nat>)
    requires AllBytes(sel) && NoneBad(sel) && |sel| >= MAX_ITEMS && Resumes(sel, st)
    requires forall i :: 0 <= i < |budgets| ==> budgets[i] == Snug()
    ensures !Drive(READ, sel, st, budgets).finished
    decreases |budgets|
  {
    if budgets != [] {
      SnugStep(sel, st);
      SnugNeverEnds(sel, NextState(READ, sel, st, Snug()), budgets[1..]);
    }
  }

  lemma {:induction false} SelectsAll(items: seq<ListItem>)
    ensures Selected(READ, items) == items
  {
    if items != [] {
      SelectsAll(items[1..]);
      assert items == [items[0]] + items[1..];
    }
  }

  /** Packets with room for any one item finish the list, if there are as many as it has items. */
  ghost predicate Ends(read: Read, items: seq<ListItem>, budgets: seq<nat>)
    requires NoneBad(Selected(read, items))
  {
    var sel := Selected(read, items);
    && (forall i :: 0 <= i < |budgets| ==> Roomy(read, sel, budgets[i])) && |budgets| >= 1 && |budgets| >= |sel|
    ==> Drive(read, sel, FRESH, budgets).finished
  }

  lemma ShortEnds(read: Read, items: seq<ListItem>, budgets: seq<nat>)
    requires NoneBad(Selected(read, items)) && |Selected(read, items)| < MAX_ITEMS
    ensures Ends(read, items, budgets)
  {
    var sel := Selected(read, items);
    if (forall i :: 0 <= i < |budgets| ==> Roomy(read, sel, budgets[i])) && |budgets| >= 1 && |budgets| >= |sel| {
      ChunkingEnds(read, items, budgets);
    }
  }

  lemma SnugRoomy(sel: seq<ListItem>)
    requires AllBytes(sel)
    ensures NoneBad(sel) && Roomy(READ, sel, Snug())
  {
    SingleCost(READ, BYTE);
  }

  lemma SnugDoesNotEnd(items: seq<ListItem>, budgets: seq<nat>)
    requires AllBytes(items) && |budgets| == |items| >= MAX_ITEMS && forall i :: 0 <= i < |budgets| ==> budgets[i] == Snug()
    ensures Selected(READ, items) == items && NoneBad(items) && !Ends(READ, items, budgets)
  {
    SelectsAll(items);
    SnugRoomy(items);
    SnugNeverEnds(items, FRESH, budgets);
  }

  lemma LongDoesNotEnd(n: nat) returns (items: seq<ListItem>, budgets: seq<nat>)
    requires n >= MAX_ITEMS
    ensures NoneBad(Selected(READ, items)) && |Selected(READ, items)| == n && !Ends(READ, items, budgets)
  {
    items, budgets := seq(n, _ => BYTE), seq(n, _ => Snug());
    SnugDoesNotEnd(items, budgets);
  }

  /** Chunking ends for all lists of a length and all packets with room if and only if the length is below 65536. */
  lemma EndsIff(n: nat)
    ensures (forall read, items, budgets :: NoneBad(Selected(read, items)) && |Selected(read, items)| == n ==> Ends(read, items, budgets))
            <==> n < MAX_ITEMS
  {
    if n < MAX_ITEMS {
      forall read, items, budgets | NoneBad(Selected(read, items)) && |Selected(read, items)| == n
        ensures Ends(read, items, budgets)
      {
        ShortEnds(read, items, budgets);
      }
    } else {
      var items, budgets := LongDoesNotEnd(n);
    }
  }

  // ---------------------------------------------------------------------------
  // The default capacity
  // ---------------------------------------------------------------------------

  /** The largest payload of a report packet in the default configuration. */
  const DEFAULT_CAPACITY: nat := 64000

  lemma HeaderBytes(path: AttributePath, version: nat, first: seq<Token>, ids: seq<Token>)
    requires first == [Open(Anonymous, Structure), Open(Context(1), Structure), Data(Context(0), UnsignedBytes(version), version),
                       Open(Context(1), List)]
    requires ids == IdTokens(path) + [Close]
    ensures Bytes(Header(path, version, ReplaceAll)) == Bytes(first) + Bytes(ids)
  {
    HeaderIs(path, version, ReplaceAll);
    assert Header(path, version, ReplaceAll) == first + ids;
    BytesAppend(first, ids);
  }

  lemma SnugHeader(path: AttributePath)
    requires path == NO_PATH
    ensures Bytes(Header(path, 0, ReplaceAll)) == 18
  {
    var first := [Open(Anonymous, Structure), Open(Context(1), Structure), Data(Context(0), 1, 0), Open(Context(1), List)];
    var ids := [Data(Context(2), 1, 0), Data(Context(3), 1, 0), Data(Context(4), 1, 0), Close];
    FourBytes(first[0], first[1], first[2], first[3]);
    FourBytes(ids[0], ids[1], ids[2], ids[3]);
    assert IdTokens(path) + [Close] == ids;
    HeaderBytes(path, 0, first, ids);
  }

  lemma SnugBytes()
    ensures Snug() == 25
  {
    SnugHeader(READ.path);
    SingleCost(READ, BYTE);
    assert Flat(READ.Encoded(true, BYTE))[1..] == [];
  }

  lemma FourBytes(a: Token, b: Token, c: Token, d: Token)
    ensures Bytes([a, b, c, d]) == TokenBytes(a) + TokenBytes(b) + TokenBytes(c) + TokenBytes(d)
  {
    assert [a, b, c, d][1..] == [b, c, d] && [b, c, d][1..] == [c, d] && [c, d][1..] == [d] && [d][1..] == [];
    assert Bytes([d]) == TokenBytes(d) + Bytes([d][1..]);
    assert Bytes([c, d]) == TokenBytes(c) + Bytes([d]);
    assert Bytes([b, c, d]) == TokenBytes(b) + Bytes([c, d]);
  }

  lemma ThreeCost(read: Read, sel: seq<ListItem>, s: nat, cost: nat)
    requires s + 3 <= |sel| && forall i :: s <= i < s + 3 ==> read.Cost(false, sel[i]) == cost
    ensures CostOf(read, false, sel, s, s + 3) == cost + cost + cost
  {
    assert CostOf(read, false, sel, s + 2, s + 3) == cost + CostOf(read, false, sel, s + 3, s + 3);
    assert CostOf(read, false, sel, s + 1, s + 3) == cost + CostOf(read, false, sel, s + 2, s + 3);
  }

  /** In packets of the default capacity, 65537 one-byte items can arrive with 65536 of them repeated. */
  lemma DefaultRepeats(s: BufferedRead.State, n: nat) returns (items: seq<ListItem>, budgets: seq<nat>)
    requires !s.Pending() && n == MAX_ITEMS + 1
    ensures |Selected(READ, items)| == n && NoneBad(Selected(READ, items))
    ensures Within(budgets, DEFAULT_CAPACITY) && Drive(READ, Selected(READ, items), FRESH, budgets).finished
    ensures ReaderLog(READ, Selected(READ, items), budgets, s) != Some(s.log + [Delivered(READ, Selected(READ, items)), ReportEnd])
  {
    items := seq(n, _ => BYTE);
    SelectsAll(items);
    SnugBytes();
    ThreeCost(READ, items, n - 3, Snug());
    budgets := LongListRepeats(READ, items, DEFAULT_CAPACITY, n - 1, s);
  }
}
