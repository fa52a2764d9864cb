/**
 * AttributeValueEncoder: a list attribute is encoded into one packet after another.
 * The first packet gets one report holding as many items as fit, every later packet
 * one append report per item. Three bytes are reserved for closing the first report.
 */
module ListEncoder {
  import opened Ids
  import opened TlvWriter

  const INVALID_LIST_INDEX: nat := 0xFFFF

  /** Bytes reserved for closing the list, the attribute data and the report. */
  const END_BYTES: nat := 3

  // ---------------------------------------------------------------------------
  // Attribute reports as TLV elements
  // ---------------------------------------------------------------------------

  datatype Report = Report(path: AttributePath, version: nat, op: ListOp, value: Elem)

  function UnsignedBytes(v: nat): nat {
    if v <= 0xFF then 1 else if v <= 0xFFFF then 2 else if v <= 0xFFFF_FFFF then 4 else 8
  }

  function Unsigned(tag: nat, v: nat): Elem {
    Leaf(Context(tag), UnsignedBytes(v), v)
  }

  /** An append is marked by a null list index. */
  function PathElem(path: AttributePath, op: ListOp): Elem {
    Node(Context(1), List,
         [Unsigned(2, path.endpoint), Unsigned(3, path.cluster), Unsigned(4, path.attribute)]
         + if op.AppendItem? then [Leaf(Context(5), 0, 0)] else [])
  }

  function ReportElem(r: Report): Elem {
    Node(Anonymous, Structure, [Node(Context(1), Structure, [Unsigned(0, r.version), PathElem(r.path, r.op), r.value])])
  }

  /** What `PrepareAttribute` writes: everything of a report before its value. */
  function Header(path: AttributePath, version: nat, op: ListOp): seq<Token> {
    [Open(Anonymous, Structure), Open(Context(1), Structure)] + (Flat(Unsigned(0, version)) + Flat(PathElem(path, op)))
  }

  /** What `FinishAttribute` writes. */
  const FOOTER: seq<Token> := [Close, Close]

  lemma ReportTokens(r: Report)
    ensures Flat(ReportElem(r)) == (Header(r.path, r.version, r.op) + Flat(r.value)) + FOOTER
  {
    var v, p := Unsigned(0, r.version), PathElem(r.path, r.op);
    var inner := Node(Context(1), Structure, [v, p, r.value]);
    assert [v, p, r.value] == [v] + ([p] + [r.value]);
    FlatOne(v);
    FlatOne(p);
    FlatOne(r.value);
    FlatAllAppend([p], [r.value]);
    FlatAllAppend([v], [p] + [r.value]);
    FlatOne(inner);
    assert Flat(inner) == [Open(Context(1), Structure)] + (Flat(v) + (Flat(p) + Flat(r.value))) + [Close];
  }

  lemma FlatThree(a: Elem, b: Elem, c: Elem)
    ensures FlatAll([a, b, c]) == Flat(a) + Flat(b) + Flat(c)
  {
    assert [a, b, c] == [a] + [b] + [c];
    FlatAllAppend([a] + [b], [c]);
    FlatAllAppend([a], [b]);
    FlatOne(a);
    FlatOne(b);
    FlatOne(c);
  }

  /** The ids of a path, each under its own tag. */
  function IdTokens(path: AttributePath): seq<Token> {
    [Data(Context(2), UnsignedBytes(path.endpoint), path.endpoint), Data(Context(3), UnsignedBytes(path.cluster), path.cluster),
     Data(Context(4), UnsignedBytes(path.attribute), path.attribute)]
  }

  lemma IdsFlat(path: AttributePath)
    ensures FlatAll([Unsigned(2, path.endpoint), Unsigned(3, path.cluster), Unsigned(4, path.attribute)]) == IdTokens(path)
  {
    FlatThree(Unsigned(2, path.endpoint), Unsigned(3, path.cluster), Unsigned(4, path.attribute));
  }

  /** What comes before the value of a report: the version under tag 0, the path under tag 1, and a null under tag 5 for an append. */
  lemma HeaderIs(path: AttributePath, version: nat, op: ListOp)
    ensures Header(path, version, op) ==
            [Open(Anonymous, Structure), Open(Context(1), Structure), Data(Context(0), UnsignedBytes(version), version), Open(Context(1), List)]
            + IdTokens(path) + (if op == AppendItem then [Data(Context(5), 0, 0)] else []) + [Close]
  {
    var ids := [Unsigned(2, path.endpoint), Unsigned(3, path.cluster), Unsigned(4, path.attribute)];
    var mark := if op == AppendItem then [Leaf(Context(5), 0, 0)] else [];
    IdsFlat(path);
    FlatAllAppend(ids, mark);
    FlatOne(Leaf(Context(5), 0, 0));
    assert FlatAll(mark) == if op == AppendItem then [Data(Context(5), 0, 0)] else [];
    assert Flat(PathElem(path, op)) == [Open(Context(1), List)] + (IdTokens(path) + FlatAll(mark)) + [Close];
  }

  /** An unsigned number takes the fewest of 1, 2, 4 or 8 bytes that can hold it. */
  lemma WidthIs(v: nat, bytes: nat)
    requires v < 0x1_0000_0000_0000_0000 && bytes in {1, 2, 4, 8}
    ensures UnsignedBytes(v) in {1, 2, 4, 8}
    ensures UnsignedBytes(v) <= bytes <==> v < Values256(bytes)
  {
    assert Values256(2) == 0x1_0000 && Values256(4) == 0x1_0000 * Values256(2) && Values256(8) == 0x1_0000_0000 * Values256(4) by {
      assert Values256(3) == 0x100 * Values256(2) && Values256(5) == 0x100 * Values256(4);
      assert Values256(6) == 0x100 * Values256(5) && Values256(7) == 0x100 * Values256(6);
    }
  }

  /** How many values so many bytes can tell apart. */
  function Values256(bytes: nat): nat {
    if bytes == 0 then 1 else 0x100 * Values256(bytes - 1)
  }

  lemma HeaderOpens(open: seq<Kind>, path: AttributePath, version: nat, op: ListOp)
    ensures OpenAfter(open, Header(path, version, op)) == Some(open + [Structure, Structure])
  {
    var v, p := Unsigned(0, version), PathElem(path, op);
    var opens := [Open(Anonymous, Structure), Open(Context(1), Structure)];
    var both := open + [Structure] + [Structure];
    assert opens[1..] == [Open(Context(1), Structure)] && opens[1..][1..] == [];
    assert OpenAfter(open, opens) == Some(both);
    ElementCloses(both, v);
    ElementCloses(both, p);
    OpenAfterAppend(both, Flat(v), Flat(p));
    OpenAfterAppend(open, opens, Flat(v) + Flat(p));
    assert both == open + [Structure, Structure];
  }

  /** Reading a report back: a null list index is an append, an array without one a whole list. */
  function DecodeReport(e: Elem): Option<Report> {
    if !(e.Node? && |e.children| == 1 && e.children[0].Node? && |e.children[0].children| == 3) then None
    else
      var parts := e.children[0].children;
      if !(parts[0].Leaf? && parts[1].Node? && 3 <= |parts[1].children| <= 4) then None
      else
        var ids := parts[1].children;
        if !(ids[0].Leaf? && ids[1].Leaf? && ids[2].Leaf?) then None
        else
          var op := if |ids| == 4 then AppendItem
                    else if parts[2].Node? && parts[2].kind == Array then ReplaceAll
                    else NotList;
          Some(Report(AttributePath(ids[0].value, ids[1].value, ids[2].value), parts[0].value, op, parts[2]))
  }

  /** The list operation is the one that the wire tells: arrays are whole lists. */
  ghost predicate Wellformed(r: Report) {
    r.op.AppendItem? || r.op == if r.value.Node? && r.value.kind == Array then ReplaceAll else NotList
  }

  lemma DecodeReportElem(r: Report)
    requires Wellformed(r)
    ensures DecodeReport(ReportElem(r)) == Some(r)
  {
  }

  // ---------------------------------------------------------------------------
  // What a list amounts to and what fits
  // ---------------------------------------------------------------------------

  /**
   * An item of the list: the fabric it belongs to if its type is fabric-scoped, its
   * value, and after how many tokens its own encoding fails, if it does.
   */
  datatype ListItem = ListItem(fabric: Option<nat>, value: Elem, fault: Option<nat>) {
    predicate IsBad() { fabric == Some(0) || fault.Some? }
  }

  /** Who reads what: the attribute and the fabric filter of the read. */
  datatype Read = Read(path: AttributePath, version: nat, filtered: bool, fabric: nat) {

    predicate Skips(item: ListItem) {
      filtered && item.fabric.Some? && item.fabric.value != 0 && item.fabric.value != fabric
    }

    function Whole(items: seq<ListItem>): Report {
      Report(path, version, ReplaceAll, Node(Context(2), Array, Values(items)))
    }

    function Append(item: ListItem): Report {
      Report(path, version, AppendItem, Retag(item.value, Context(2)))
    }

    function Appends(items: seq<ListItem>): seq<Report> {
      if items == [] then [] else [Append(items[0])] + Appends(items[1..])
    }

    /** An item as it is encoded: in the initial report, or as a report of its own. */
    function Encoded(initial: bool, item: ListItem): Elem {
      if initial then Retag(item.value, Anonymous) else ReportElem(Append(item))
    }

    /** The bytes an item takes. */
    function Cost(initial: bool, item: ListItem): nat {
      Size(Encoded(initial, item))
    }

    /** The bytes the initial report takes besides its items. */
    function Overhead(): nat {
      Bytes(Header(path, version, ReplaceAll)) + TagBytes(Context(2)) + END_BYTES
    }

    /** How many items from index `s` on fit into the room, one after the other. */
    function Fit(initial: bool, items: seq<ListItem>, s: nat, room: nat): (n: nat)
      requires s <= |items|
      ensures s + n <= |items|
      decreases |items| - s
    {
      if s == |items| || items[s].IsBad() || Cost(initial, items[s]) > room then 0
      else 1 + Fit(initial, items, s + 1, room - Cost(initial, items[s]))
    }
  }

  /** The items that the reader is to see, in order. */
  function Selected(read: Read, items: seq<ListItem>): seq<ListItem> {
    if items == [] then []
    else if read.Skips(items[0]) then Selected(read, items[1..])
    else [items[0]] + Selected(read, items[1..])
  }

  function Values(items: seq<ListItem>): seq<Elem> {
    if items == [] then [] else [Retag(items[0].value, Anonymous)] + Values(items[1..])
  }

  function Elems(reports: seq<Report>): seq<Elem> {
    if reports == [] then [] else [ReportElem(reports[0])] + Elems(reports[1..])
  }

  /** What a 16-bit counter shows after so many steps. */
  function Wrap16(n: nat): (r: nat)
    ensures r <= n && r <= 0xFFFF
  {
    if n <= 0xFFFF then n else Wrap16(n - 0x1_0000)
  }

  lemma {:induction false} Wrap16Step(n: nat)
    ensures Wrap16(n + 1) == Inc16(Wrap16(n))
  {
    if n > 0xFFFF {
      Wrap16Step(n - 0x1_0000);
    }
  }

  /** What is carried from one packet to the next. */
  datatype EncodeState = EncodeState(index: nat, allowPartial: bool)

  const FRESH := EncodeState(INVALID_LIST_INDEX, false)

  /** The tokens that a run of items is encoded as. */
  function ItemTokens(read: Read, initial: bool, items: seq<ListItem>): seq<Token> {
    if items == [] then [] else Flat(read.Encoded(initial, items[0])) + ItemTokens(read, initial, items[1..])
  }

  lemma {:induction false} ValuesAppend(a: seq<ListItem>, b: seq<ListItem>)
    ensures Values(a + b) == Values(a) + Values(b)
  {
    if a == [] {
      assert a + b == b;
    } else {
      assert (a + b)[1..] == a[1..] + b;
      ValuesAppend(a[1..], b);
    }
  }

  /** They are the items of the initial report, or the reports of the items. */
  lemma {:induction false} ItemTokensAre(read: Read, items: seq<ListItem>)
    ensures ItemTokens(read, true, items) == FlatAll(Values(items))
    ensures ItemTokens(read, false, items) == FlatAll(Elems(read.Appends(items)))
  {
    if items != [] {
      ItemTokensAre(read, items[1..]);
      assert Values(items)[1..] == Values(items[1..]);
      assert read.Appends(items)[1..] == read.Appends(items[1..]);
      assert Elems(read.Appends(items))[1..] == Elems(read.Appends(items[1..]));
    }
  }

  /** One more item adds its own tokens. */
  lemma {:induction false} ItemTokensSnoc(read: Read, initial: bool, items: seq<ListItem>, item: ListItem)
    ensures ItemTokens(read, initial, items + [item]) == ItemTokens(read, initial, items) + Flat(read.Encoded(initial, item))
  {
    if items == [] {
      assert items + [item] == [item] && [item][1..] == [];
      assert Flat(read.Encoded(initial, item)) + [] == [] + Flat(read.Encoded(initial, item));
    } else {
      assert (items + [item])[0] == items[0] && (items + [item])[1..] == items[1..] + [item];
      ItemTokensSnoc(read, initial, items[1..], item);
      Associate(Flat(read.Encoded(initial, items[0])), ItemTokens(read, initial, items[1..]), Flat(read.Encoded(initial, item)));
    }
  }

  /** The bytes that the items `s` to `d` take. */
  function CostOf(read: Read, initial: bool, sel: seq<ListItem>, s: nat, d: nat): nat
    requires s <= d <= |sel|
    decreases d - s
  {
    if s == d then 0 else read.Cost(initial, sel[s]) + CostOf(read, initial, sel, s + 1, d)
  }

  lemma {:induction false} TokensCost(read: Read, initial: bool, sel: seq<ListItem>, s: nat, d: nat)
    requires s <= d <= |sel|
    ensures Bytes(ItemTokens(read, initial, sel[s..d])) == CostOf(read, initial, sel, s, d)
    decreases d - s
  {
    if s < d {
      assert sel[s..d][0] == sel[s] && sel[s..d][1..] == sel[s + 1..d];
      TokensCost(read, initial, sel, s + 1, d);
      BytesAppend(Flat(read.Encoded(initial, sel[s])), ItemTokens(read, initial, sel[s + 1..d]));
    }
  }

  lemma {:induction false} PutAllAppend(w: Writer, a: seq<Token>, b: seq<Token>)
    ensures w.PutAll(a + b) == if w.PutAll(a).0 != NoError then w.PutAll(a) else w.PutAll(a).1.PutAll(b)
    decreases |a|
  {
    if a == [] {
      assert a + b == b;
    } else {
      assert (a + b)[1..] == a[1..] + b;
      PutAllAppend(w.Put(a[0]).1, a[1..], b);
    }
  }

  // ---------------------------------------------------------------------------
  // The writer between items
  // ---------------------------------------------------------------------------

  /** The writer after more tokens that fit. */
  ghost function After(w: Writer, ts: seq<Token>): Writer {
    if Bytes(ts) <= w.remaining then w.(remaining := w.remaining - Bytes(ts), content := w.content + ts) else w
  }

  lemma AfterNothing(w: Writer)
    ensures After(w, []) == w
  {
    assert w.content + [] == w.content;
  }

  lemma AfterAfter(w: Writer, a: seq<Token>, b: seq<Token>)
    requires Bytes(a) + Bytes(b) <= w.remaining
    ensures Bytes(a + b) == Bytes(a) + Bytes(b)
    ensures After(After(w, a), b) == After(w, a + b)
  {
    BytesAppend(a, b);
    Associate(w.content, a, b);
  }

  /** The writer once the items `s` to `d` of the selection are written. */
  ghost function WriterAt(read: Read, initial: bool, sel: seq<ListItem>, s: nat, d: nat, w: Writer): Writer
    requires s <= d <= |sel|
  {
    After(w, ItemTokens(read, initial, sel[s..d]))
  }

  lemma WriterAtStart(read: Read, initial: bool, sel: seq<ListItem>, s: nat, w: Writer)
    requires s <= |sel|
    ensures WriterAt(read, initial, sel, s, s, w) == w
  {
    assert sel[s..s] == [];
    assert ItemTokens(read, initial, []) == [];
    AfterNothing(w);
  }

  lemma AddItem(read: Read, initial: bool, w: Writer, sel: seq<ListItem>, s: nat, d: nat)
    requires s <= d < |sel|
    requires Bytes(ItemTokens(read, initial, sel[s..d])) + read.Cost(initial, sel[d]) <= w.remaining
    ensures Bytes(ItemTokens(read, initial, sel[s..d + 1])) ==
            Bytes(ItemTokens(read, initial, sel[s..d])) + read.Cost(initial, sel[d])
    ensures After(w, ItemTokens(read, initial, sel[s..d + 1])) ==
            After(After(w, ItemTokens(read, initial, sel[s..d])),
                  Flat(read.Encoded(initial, sel[d])))
  {
    assert sel[s..d + 1] == sel[s..d] + [sel[d]];
    ItemTokensSnoc(read, initial, sel[s..d], sel[d]);
    AfterAfter(w, ItemTokens(read, initial, sel[s..d]),
               Flat(read.Encoded(initial, sel[d])));
  }

  lemma FitHead(read: Read, initial: bool, sel: seq<ListItem>, s: nat, room: nat)
    requires s <= |sel| && read.Fit(initial, sel, s, room) > 0
    ensures s < |sel| && !sel[s].IsBad() && read.Cost(initial, sel[s]) <= room
    ensures read.Fit(initial, sel, s, room) == 1 + read.Fit(initial, sel, s + 1, room - read.Cost(initial, sel[s]))
  {
  }

  /** What fits behind some items that fit is the rest of what fits. */
  lemma {:induction false} FitCosts(read: Read, initial: bool, sel: seq<ListItem>, s: nat, d: nat, room: nat)
    requires s <= d <= |sel| && d <= s + read.Fit(initial, sel, s, room)
    ensures CostOf(read, initial, sel, s, d) <= room
    ensures read.Fit(initial, sel, s, room) == (d - s) + read.Fit(initial, sel, d, room - CostOf(read, initial, sel, s, d))
    decreases d - s
  {
    if s < d {
      FitHead(read, initial, sel, s, room);
      FitCosts(read, initial, sel, s + 1, d, room - read.Cost(initial, sel[s]));
    }
  }

  /** Items that fit were written whole. */
  lemma FitSplit(read: Read, initial: bool, sel: seq<ListItem>, s: nat, d: nat, w: Writer)
    requires s <= d <= |sel| && d <= s + read.Fit(initial, sel, s, w.remaining)
    ensures Bytes(ItemTokens(read, initial, sel[s..d])) + WriterAt(read, initial, sel, s, d, w).remaining == w.remaining
    ensures read.Fit(initial, sel, s, w.remaining) ==
            (d - s) + read.Fit(initial, sel, d, WriterAt(read, initial, sel, s, d, w).remaining)
  {
    FitCosts(read, initial, sel, s, d, w.remaining);
    TokensCost(read, initial, sel, s, d);
  }

  /** The next item is written behind the others if and only if it belongs to what fits. */
  lemma FitStep(read: Read, initial: bool, sel: seq<ListItem>, s: nat, d: nat, w: Writer)
    requires s <= d <= |sel| && d <= s + read.Fit(initial, sel, s, w.remaining)
    ensures d < |sel| ==>
              (d < s + read.Fit(initial, sel, s, w.remaining) <==>
                 !sel[d].IsBad() && read.Cost(initial, sel[d]) <= WriterAt(read, initial, sel, s, d, w).remaining)
    ensures d < s + read.Fit(initial, sel, s, w.remaining) ==>
              WriterAt(read, initial, sel, s, d + 1, w) ==
              After(WriterAt(read, initial, sel, s, d, w),
                    Flat(read.Encoded(initial, sel[d])))
  {
    FitSplit(read, initial, sel, s, d, w);
    if d < s + read.Fit(initial, sel, s, w.remaining) {
      AddItem(read, initial, w, sel, s, d);
    }
  }

  /** From index `m` on, the selection comes from the items from index `i` on. */
  ghost predicate IsSelection(read: Read, items: seq<ListItem>, i: nat, sel: seq<ListItem>, m: nat) {
    && i <= |items| && m <= |sel|
    && sel[m..] == Selected(read, items[i..])
    && (i == |items| ==> m == |sel|)
  }

  lemma SelectionStart(read: Read, items: seq<ListItem>, sel: seq<ListItem>)
    requires sel == Selected(read, items)
    ensures IsSelection(read, items, 0, sel, 0)
  {
    assert items[0..] == items && sel[0..] == sel;
  }

  lemma SelectOne(read: Read, items: seq<ListItem>, i: nat, sel: seq<ListItem>, m: nat)
    requires i < |items| && IsSelection(read, items, i, sel, m)
    ensures if read.Skips(items[i]) then IsSelection(read, items, i + 1, sel, m)
            else m < |sel| && sel[m] == items[i] && IsSelection(read, items, i + 1, sel, m + 1)
  {
    assert items[i..][1..] == items[i + 1..];
    if !read.Skips(items[i]) {
      assert sel[m..][0] == sel[m] && sel[m..][1..] == sel[m + 1..];
    }
    if i + 1 == |items| {
      assert Selected(read, items[i + 1..]) == [];
      assert |sel[m..]| == if read.Skips(items[i]) then 0 else 1;
    }
  }

  lemma ClosesBytes()
    ensures Bytes([Close, Close, Close]) == 3 && Bytes([Open(Context(2), Array)]) == 2
  {
    assert [Close, Close, Close][1..] == [Close, Close] && [Close, Close][1..] == [Close] && [Close][1..] == [];
    assert [Open(Context(2), Array)][1..] == [];
  }

  /** The writer with the initial report opened. */
  ghost function Started(read: Read, w: Writer): Writer
    requires read.Overhead() <= w.remaining
  {
    Writer(w.remaining - read.Overhead(), w.reserved + END_BYTES, w.open + [Structure, Structure, Array],
           w.content + Header(read.path, read.version, ReplaceAll) + [Open(Context(2), Array)])
  }

  /** The writer with the three innermost containers closed from the reserved bytes. */
  ghost function Ended(w: Writer): Writer
    requires w.reserved >= END_BYTES && |w.open| >= 3
  {
    Writer(w.remaining, w.reserved - END_BYTES, w.open[..|w.open| - 3], w.content + [Close, Close, Close])
  }

  lemma CloseTwo(w: Writer)
    requires w.remaining >= 2 && |w.open| >= 2
    ensures w.PutAll(FOOTER) == (NoError, Writer(w.remaining - 2, w.reserved, w.open[..|w.open| - 2], w.content + FOOTER))
  {
    var once := w.open[..|w.open| - 1];
    assert FOOTER[1..] == [Close] && [Close][1..] == [];
    assert once[..|once| - 1] == w.open[..|w.open| - 2];
    assert Bytes(FOOTER) == 2;
    PutAllFits(w, FOOTER);
  }

  // ---------------------------------------------------------------------------
  // What one packet holds
  // ---------------------------------------------------------------------------

  /** The state a packet starts from belongs to the list: a fresh start, or the items before the index can be encoded. */
  ghost predicate Resumes(sel: seq<ListItem>, st: EncodeState) {
    IsInitial(st) || (st.index < INVALID_LIST_INDEX && st.index <= |sel| && forall j :: 0 <= j < st.index ==> !sel[j].IsBad())
  }

  ghost predicate IsInitial(st: EncodeState) {
    st.index == INVALID_LIST_INDEX
  }

  ghost function From(st: EncodeState): nat {
    if IsInitial(st) then 0 else st.index
  }

  /** The packet has room for what comes before the first item. */
  ghost predicate ListStarts(read: Read, st: EncodeState, remaining: nat) {
    !IsInitial(st) || read.Overhead() <= remaining
  }

  /** The room for items. */
  ghost function Room(read: Read, st: EncodeState, remaining: nat): nat
    requires ListStarts(read, st, remaining)
  {
    if IsInitial(st) then remaining - read.Overhead() else remaining
  }

  /** How many items the packet takes. */
  ghost function Taken(read: Read, sel: seq<ListItem>, st: EncodeState, remaining: nat): (n: nat)
    requires Resumes(sel, st) && ListStarts(read, st, remaining)
    ensures From(st) + n <= |sel|
  {
    read.Fit(IsInitial(st), sel, From(st), Room(read, st, remaining))
  }

  /** The reports for `n` items: one report for all of them at first, one for each later. */
  ghost function ChunkReports(read: Read, sel: seq<ListItem>, st: EncodeState, n: nat): seq<Report>
    requires From(st) + n <= |sel|
  {
    if IsInitial(st) then [read.Whole(sel[..n])] else read.Appends(sel[st.index..st.index + n])
  }

  ghost predicate ChunkOf(read: Read, sel: seq<ListItem>, st: EncodeState, w: Writer, err: Error, st': EncodeState, w': Writer)
    requires Resumes(sel, st) && ListStarts(read, st, w.remaining)
  {
    var n := Taken(read, sel, st, w.remaining);
    var d := From(st) + n;
    var added := FlatAll(Elems(ChunkReports(read, sel, st, n)));
    && Bytes(added) <= w.remaining && w' == After(w, added)
    && (err == NoError <==> d == |sel|)
    && (d < |sel| && !sel[d].IsBad() ==> err == NoMemory)
    && (n == 0 && d < |sel| && sel[d].IsBad() && read.Cost(IsInitial(st), sel[d]) <= Room(read, st, w.remaining) ==> err != NoMemory)
    && st' == if err == NoError then FRESH else EncodeState(Wrap16(d), !IsInitial(st) || n > 0)
  }

  lemma WholeTokens(read: Read, items: seq<ListItem>)
    ensures Flat(ReportElem(read.Whole(items))) ==
            Header(read.path, read.version, ReplaceAll) + [Open(Context(2), Array)] + FlatAll(Values(items)) + [Close, Close, Close]
  {
    ReportTokens(read.Whole(items));
    var head, tokens := Header(read.path, read.version, ReplaceAll), FlatAll(Values(items));
    assert (head + ([Open(Context(2), Array)] + tokens + [Close])) + FOOTER ==
           head + [Open(Context(2), Array)] + tokens + [Close, Close, Close];
  }

  /** Opening, filling and closing the initial report writes that report. */
  lemma InitialChunk(read: Read, sel: seq<ListItem>, n: nat, w: Writer)
    requires read.Overhead() <= w.remaining && n <= |sel|
    requires Bytes(ItemTokens(read, true, sel[0..n])) <= Started(read, w).remaining
    ensures |WriterAt(read, true, sel, 0, n, Started(read, w)).open| >= 3
    ensures WriterAt(read, true, sel, 0, n, Started(read, w)).reserved >= END_BYTES
    ensures Bytes(FlatAll(Elems([read.Whole(sel[..n])]))) <= w.remaining
    ensures Ended(WriterAt(read, true, sel, 0, n, Started(read, w))) == After(w, FlatAll(Elems([read.Whole(sel[..n])])))
  {
    var head, tokens := Header(read.path, read.version, ReplaceAll), FlatAll(Values(sel[..n]));
    var open, closes := [Open(Context(2), Array)], [Close, Close, Close];
    assert sel[0..n] == sel[..n];
    ItemTokensAre(read, sel[..n]);
    assert Elems([read.Whole(sel[..n])]) == [ReportElem(read.Whole(sel[..n]))];
    FlatOne(ReportElem(read.Whole(sel[..n])));
    WholeTokens(read, sel[..n]);
    BytesAppend(head, open);
    BytesAppend(head + open, tokens);
    BytesAppend(head + open + tokens, closes);
    ClosesBytes();
    var inside := w.open + [Structure, Structure, Array];
    assert inside[..|inside| - 3] == w.open;
    Associate(w.content, head, open);
    Associate(w.content, head + open, tokens);
    Associate(w.content, head + open + tokens, closes);
  }

  /** The writer once a packet took its items, with the initial report closed again. */
  ghost function ChunkEnd(read: Read, sel: seq<ListItem>, st: EncodeState, w: Writer): Writer
    requires Resumes(sel, st) && ListStarts(read, st, w.remaining)
  {
    var n := Taken(read, sel, st, w.remaining);
    if IsInitial(st) then WriterAt(read, true, sel, 0, n, Started(read, w))
    else WriterAt(read, false, sel, st.index, st.index + n, w)
  }

  lemma ChunkWriter(read: Read, sel: seq<ListItem>, st: EncodeState, w: Writer)
    requires Resumes(sel, st) && ListStarts(read, st, w.remaining)
    ensures var added := FlatAll(Elems(ChunkReports(read, sel, st, Taken(read, sel, st, w.remaining))));
            && Bytes(added) <= w.remaining
            && (!IsInitial(st) ==> ChunkEnd(read, sel, st, w) == After(w, added))
            && (IsInitial(st) ==> ChunkEnd(read, sel, st, w).reserved >= END_BYTES && |ChunkEnd(read, sel, st, w).open| >= 3)
            && (IsInitial(st) ==> Ended(ChunkEnd(read, sel, st, w)) == After(w, added))
  {
    var n := Taken(read, sel, st, w.remaining);
    if IsInitial(st) {
      FitSplit(read, true, sel, 0, n, Started(read, w));
      InitialChunk(read, sel, n, w);
    } else {
      FitSplit(read, false, sel, st.index, st.index + n, w);
      ItemTokensAre(read, sel[st.index..st.index + n]);
    }
  }

  /** The writer and the index that the items of a packet start from. */
  ghost predicate StartsFrom(read: Read, sel: seq<ListItem>, st: EncodeState, w: Writer, initial: bool, s: nat, start: Writer)
    requires Resumes(sel, st) && ListStarts(read, st, w.remaining)
  {
    initial == IsInitial(st) && s == From(st) && start == if initial then Started(read, w) else w
  }

  lemma StartReserves(read: Read, sel: seq<ListItem>, st: EncodeState, w: Writer, initial: bool, s: nat, start: Writer)
    requires Resumes(sel, st) && ListStarts(read, st, w.remaining) && StartsFrom(read, sel, st, w, initial, s, start)
    ensures s <= |sel| && s < INVALID_LIST_INDEX && forall j :: 0 <= j < s ==> !sel[j].IsBad()
    ensures var end := WriterAt(read, initial, sel, s, s + read.Fit(initial, sel, s, start.remaining), start);
            initial ==> end.reserved >= END_BYTES && |end.open| >= 3
  {
    ChunkWriter(read, sel, st, w);
  }

  lemma ChunkTaken(read: Read, sel: seq<ListItem>, st: EncodeState, w: Writer, initial: bool, s: nat, start: Writer, d: nat)
    requires Resumes(sel, st) && ListStarts(read, st, w.remaining) && StartsFrom(read, sel, st, w, initial, s, start)
    requires s <= |sel| && d == s + read.Fit(initial, sel, s, start.remaining)
    ensures d - s == Taken(read, sel, st, w.remaining) && WriterAt(read, initial, sel, s, d, start) == ChunkEnd(read, sel, st, w)
  {
  }

  lemma ChunkWrote(read: Read, sel: seq<ListItem>, st: EncodeState, w: Writer, initial: bool, s: nat, start: Writer, d: nat, w': Writer)
    requires Resumes(sel, st) && ListStarts(read, st, w.remaining) && StartsFrom(read, sel, st, w, initial, s, start)
    requires s <= |sel| && d == s + read.Fit(initial, sel, s, start.remaining)
    requires var end := WriterAt(read, initial, sel, s, d, start);
             if initial then end.reserved >= END_BYTES && |end.open| >= 3 && w' == Ended(end) else w' == end
    ensures d - s == Taken(read, sel, st, w.remaining)
    ensures var added := FlatAll(Elems(ChunkReports(read, sel, st, d - s))); Bytes(added) <= w.remaining && w' == After(w, added)
  {
    ChunkTaken(read, sel, st, w, initial, s, start, d);
    ChunkWriter(read, sel, st, w);
  }

  /** What the encoder has done with a packet is what a chunk is. */
  lemma ChunkDone(read: Read, sel: seq<ListItem>, st: EncodeState, w: Writer, initial: bool, s: nat, start: Writer,
                  err: Error, d: nat, st': EncodeState, w': Writer)
    requires Resumes(sel, st) && ListStarts(read, st, w.remaining) && StartsFrom(read, sel, st, w, initial, s, start)
    requires s <= |sel| && d == s + read.Fit(initial, sel, s, start.remaining)
    requires var end := WriterAt(read, initial, sel, s, d, start);
             if initial then end.reserved >= END_BYTES && |end.open| >= 3 && w' == Ended(end) else w' == end
    requires err == NoError <==> d == |sel|
    requires err != NoError && !sel[d].IsBad() ==> err == NoMemory
    requires err != NoError && d == s && sel[d].IsBad() && read.Cost(initial, sel[d]) <= start.remaining ==> err != NoMemory
    requires st' == if err == NoError then FRESH else EncodeState(Wrap16(d), !initial || d > s)
    ensures ChunkOf(read, sel, st, w, err, st', w')
  {
    ChunkWrote(read, sel, st, w, initial, s, start, d, w');
  }

  // ---------------------------------------------------------------------------
  // The encoder of one packet
  // ---------------------------------------------------------------------------

  class AttributeValueEncoder {
    const read: Read
    var writer: Writer
    var state: EncodeState
    var listOp: ListOp
    var initial: bool
    var encodedAny: bool
    var current: nat

    constructor (read: Read, writer: Writer, state: EncodeState)
      ensures this.read == read && this.writer == writer && this.state == state
      ensures current == INVALID_LIST_INDEX && !initial && !encodedAny && listOp == NotList
    {
      this.read, this.writer, this.state := read, writer, state;
      listOp, initial, encodedAny, current := NotList, false, false, INVALID_LIST_INDEX;
    }

    method PrepareAttribute() returns (err: Error)
      modifies this`writer
      ensures (err, writer) == old(writer).PutAll(Header(read.path, read.version, listOp))
    {
      var (e, w) := writer.PutAll(Header(read.path, read.version, listOp));
      err, writer := e, w;
    }

    method EncodeValue(item: ListItem, tag: Tag) returns (err: Error)
      modifies this`writer
      ensures item.fault.None? ==> (err, writer) == old(writer).PutAll(Flat(Retag(item.value, tag)))
      ensures item.fault.Some? ==> err != NoError
      ensures item.fault.Some? && Size(Retag(item.value, tag)) <= old(writer.remaining) ==> err == EncodingFault
    {
      var tokens := Flat(Retag(item.value, tag));
      ElementCloses(writer.open, Retag(item.value, tag));
      if item.fault.Some? && Bytes(tokens) <= writer.remaining {
        PutSomeFits(writer, tokens, if item.fault.value < |tokens| then item.fault.value else |tokens|);
        assert tokens[..|tokens|] == tokens;
      }
      if item.fault.Some? && item.fault.value < |tokens| {
        tokens := tokens[..item.fault.value];
      }
      var (e, w) := writer.PutAll(tokens);
      err, writer := e, w;
      if item.fault.Some? && err == NoError {
        err := EncodingFault;
      }
    }

    /** Writes one report, for the list operation that is set, or fails. */
    method EncodeAttributeReportIB(item: ListItem) returns (err: Error)
      modifies this`writer
      ensures item.fault.None? ==>
                (err, writer) == old(writer).PutAll(Flat(ReportElem(Report(read.path, read.version, listOp, Retag(item.value, Context(2))))))
      ensures item.fault.Some? ==> err != NoError
      ensures item.fault.Some?
              && Size(ReportElem(Report(read.path, read.version, listOp, Retag(item.value, Context(2))))) <= old(writer.remaining)
              ==> err == EncodingFault
    {
      ghost var head, value := Header(read.path, read.version, listOp), Flat(Retag(item.value, Context(2)));
      ReportTokens(Report(read.path, read.version, listOp, Retag(item.value, Context(2))));
      PutAllAppend(writer, head + value, FOOTER);
      PutAllAppend(writer, head, value);
      BytesAppend(head + value, FOOTER);
      BytesAppend(head, value);
      HeaderOpens(writer.open, read.path, read.version, listOp);
      PutAllFits(writer, head);
      err := PrepareAttribute();
      if err != NoError {
        return;
      }
      err := EncodeValue(item, Context(2));
      if err != NoError {
        return;
      }
      var (e, w) := writer.PutAll(FOOTER);
      err, writer := e, w;
    }

    /** Encodes an item whole, or leaves no trace of it. */
    method EncodeListItem(item: ListItem) returns (err: Error)
      requires !initial ==> listOp == AppendItem
      requires item.fabric != Some(0)
      modifies this`writer, this`state, this`encodedAny, this`current
      ensures old(current) < old(state.index) ==>
                err == NoError && unchanged(`writer) && unchanged(`state) && unchanged(`encodedAny) && current == Inc16(old(current))
      ensures old(current) >= old(state.index) && item.fault.None? && read.Cost(initial, item) <= old(writer.remaining) ==>
                && err == NoError && encodedAny
                && current == Inc16(old(current)) && state == old(state).(index := current)
                && writer == After(old(writer), EncodedItem(item))
      ensures old(current) >= old(state.index) && (item.fault.Some? || read.Cost(initial, item) > old(writer.remaining)) ==>
                err != NoError && unchanged(this) && (item.fault.None? ==> err == NoMemory)
      ensures old(current) >= old(state.index) && item.fault.Some? && read.Cost(initial, item) <= old(writer.remaining) ==> err != NoMemory
    {
      if current < state.index {
        current := Inc16(current);
        return NoError;
      }
      var backup := writer;
      PutElement(writer, read.Encoded(initial, item));
      if initial {
        err := EncodeValue(item, Anonymous);
      } else {
        err := EncodeAttributeReportIB(item);
      }
      if err != NoError {
        writer := backup;
        return;
      }
      current := Inc16(current);
      state := state.(index := current);
      encodedAny := true;
    }

    ghost function EncodedItem(item: ListItem): seq<Token>
      reads this
    {
      Flat(read.Encoded(initial, item))
    }

    /** `ListEncodeHelper::Encode`. */
    method Encode(item: ListItem) returns (err: Error)
      requires !initial ==> listOp == AppendItem
      modifies this`writer, this`state, this`encodedAny, this`current
      ensures read.Skips(item) ==> err == NoError && unchanged(this)
      ensures !read.Skips(item) && old(current) < old(state.index) && !item.IsBad() ==>
                err == NoError && unchanged(`writer) && unchanged(`state) && unchanged(`encodedAny) && current == Inc16(old(current))
      ensures !read.Skips(item) && old(current) >= old(state.index) && Fits(item, old(writer.remaining)) ==>
                && err == NoError && encodedAny
                && current == Inc16(old(current)) && state == old(state).(index := current)
                && writer == After(old(writer), EncodedItem(item))
      ensures !read.Skips(item) && old(current) >= old(state.index) && !Fits(item, old(writer.remaining)) ==>
                err != NoError && unchanged(this) && (!item.IsBad() ==> err == NoMemory)
      ensures !read.Skips(item) && old(current) >= old(state.index) && item.IsBad() && read.Cost(initial, item) <= old(writer.remaining) ==>
                err != NoMemory
    {
      if item.fabric == Some(0) {
        return InvalidFabric;
      }
      if read.Skips(item) {
        return NoError;
      }
      err := EncodeListItem(item);
    }

    ghost predicate Fits(item: ListItem, room: nat)
      reads this
    {
      !item.IsBad() && read.Cost(initial, item) <= room
    }

    /**
     * The first `m` selected items were visited and the first `d` are encoded, of which
     * this packet holds what follows `s`. The counters show both numbers in 16 bits.
     */
    ghost predicate At(sel: seq<ListItem>, s: nat, d: nat, m: nat, w0: Writer)
      requires s <= d <= |sel|
      reads this
    {
      && m <= d && (m < d ==> d == s) && s < INVALID_LIST_INDEX
      && current == Wrap16(m) && state.index == Wrap16(d) && writer == WriterAt(read, initial, sel, s, d, w0)
    }

    /** Encodes item `i` of the list; `m` of the selected items precede it. */
    method EncodeNext(items: seq<ListItem>, i: nat, ghost sel: seq<ListItem>, ghost s: nat, ghost d: nat, ghost m: nat, ghost w0: Writer)
      returns (err: Error, ghost d': nat, ghost m': nat)
      requires !initial ==> listOp == AppendItem
      requires i < |items| && IsSelection(read, items, i, sel, m)
      requires s <= |sel| && forall j :: 0 <= j < s ==> !sel[j].IsBad()
      requires s <= d <= s + Fit(sel, s, w0) && At(sel, s, d, m, w0)
      modifies this`writer, this`state, this`encodedAny, this`current
      ensures d <= d' <= s + Fit(sel, s, w0) && At(sel, s, d', m', w0)
      ensures state.allowPartial == old(state.allowPartial) && encodedAny == (old(encodedAny) || d' > d)
      ensures err == NoError ==> IsSelection(read, items, i + 1, sel, m')
      ensures err != NoError ==> d' == s + Fit(sel, s, w0) < |sel| && (!sel[d'].IsBad() ==> err == NoMemory)
      ensures err != NoError && sel[d'].IsBad() && read.Cost(initial, sel[d']) <= WriterAt(read, initial, sel, s, d', w0).remaining ==>
                err != NoMemory
    {
      SelectOne(read, items, i, sel, m);
      FitStep(read, initial, sel, s, d, w0);
      Wrap16Step(m);
      err := Encode(items[i]);
      m' := if err == NoError && !read.Skips(items[i]) then m + 1 else m;
      d' := if m' > d then m' else d;
    }

    ghost function Fit(sel: seq<ListItem>, s: nat, w: Writer): (n: nat)
      requires s <= |sel|
      reads this
      ensures s + n <= |sel|
    {
      read.Fit(initial, sel, s, w.remaining)
    }

    /** The callback of `EncodeList`: encodes every item until one fails. */
    method EncodeItems(items: seq<ListItem>, ghost sel: seq<ListItem>, ghost s: nat) returns (err: Error, ghost d: nat)
      requires !initial ==> listOp == AppendItem
      requires sel == Selected(read, items)
      requires current == 0 && state.index == s <= |sel| && s < INVALID_LIST_INDEX
      requires forall j :: 0 <= j < s ==> !sel[j].IsBad()
      modifies this`writer, this`state, this`encodedAny, this`current
      ensures d == s + Fit(sel, s, old(writer))
      ensures writer == WriterAt(read, initial, sel, s, d, old(writer)) && state == old(state).(index := Wrap16(d))
      ensures encodedAny == (old(encodedAny) || d > s)
      ensures err == NoError <==> d == |sel|
      ensures err != NoError && !sel[d].IsBad() ==> err == NoMemory
      ensures err != NoError && d == s && sel[d].IsBad() && read.Cost(initial, sel[d]) <= old(writer.remaining) ==> err != NoMemory
    {
      ghost var w0 := writer;
      d := s;
      WriterAtStart(read, initial, sel, s, w0);
      SelectionStart(read, items, sel);
      ghost var m: nat := 0;
      var i := 0;
      while i < |items|
        invariant i <= |items| && s <= d <= s + Fit(sel, s, w0) && At(sel, s, d, m, w0)
        invariant IsSelection(read, items, i, sel, m)
        invariant state.allowPartial == old(state.allowPartial) && encodedAny == (old(encodedAny) || d > s)
      {
        err, d, m := EncodeNext(items, i, sel, s, d, m, w0);
        if err != NoError {
          return;
        }
        i := i + 1;
      }
      err := NoError;
    }

    /** Opens the initial report, or prepares for appending. A failed assertion of the source is `died`. */
    method EnsureListStarted() returns (died: bool, err: Error)
      requires current == INVALID_LIST_INDEX
      modifies this`writer, this`state, this`listOp, this`initial, this`current
      ensures !died
      ensures initial == (old(state.index) == INVALID_LIST_INDEX)
      ensures err == NoError ==> current == 0 && (!initial ==> listOp == AppendItem)
      ensures !initial ==> err == NoError && writer == old(writer) && state == EncodeState(old(state.index), true)
      ensures initial && read.Overhead() > old(writer.remaining) ==> err == NoMemory && state == FRESH
      ensures initial && read.Overhead() <= old(writer.remaining) ==>
                err == NoError && state == EncodeState(0, true) && writer == Started(read, old(writer))
    {
      initial := state.index == INVALID_LIST_INDEX;
      if initial {
        state := state.(allowPartial := false);
        listOp := ReplaceAll;
        HeaderOpens(writer.open, read.path, read.version, ReplaceAll);
        PutAllFits(writer, Header(read.path, read.version, ReplaceAll));
        err := PrepareAttribute();
        if err != NoError {
          return false, err;
        }
        var outer := writer.open[|writer.open| - 1];
        var (e1, w1) := writer.Put(Open(Context(2), Array));
        writer := w1;
        if e1 != NoError {
          return false, e1;
        }
        if outer != Structure {
          return true, NoError;
        }
        var (e2, w2) := writer.Reserve(END_BYTES);
        writer := w2;
        if e2 != NoError {
          return false, e2;
        }
        state := state.(index := 0);
      } else {
        listOp := AppendItem;
      }
      current := 0;
      state := state.(allowPartial := true);
      return false, NoError;
    }

    /** Closes the initial report with the reserved bytes. */
    method EnsureListEnded() returns (died: bool)
      requires initial ==> writer.reserved >= END_BYTES && |writer.open| >= 3
      modifies this`writer, this`state
      ensures !died
      ensures !initial ==> unchanged(`writer) && unchanged(`state)
      ensures initial ==> writer == Ended(old(writer)) && state == old(state).(allowPartial := old(state.allowPartial) && encodedAny)
    {
      if !initial {
        return false;
      }
      var (e0, w0) := writer.Unreserve(END_BYTES);
      if e0 != NoError {
        return true;
      }
      var (e1, w1) := w0.Put(Close);
      if e1 != NoError {
        return true;
      }
      CloseTwo(w1);
      var (e2, w2) := w1.PutAll(FOOTER);
      if e2 != NoError {
        return true;
      }
      assert w2.content == writer.content + [Close, Close, Close];
      writer := w2;
      if !encodedAny {
        state := state.(allowPartial := false);
      }
      return false;
    }

    /** The items and the end of the list. */
    method EncodeAndEnd(items: seq<ListItem>, ghost sel: seq<ListItem>, ghost s: nat) returns (died: bool, err: Error, ghost d: nat)
      requires !initial ==> listOp == AppendItem
      requires sel == Selected(read, items) && !encodedAny
      requires current == 0 && state == EncodeState(s, true) && s <= |sel| && s < INVALID_LIST_INDEX
      requires forall j :: 0 <= j < s ==> !sel[j].IsBad()
      requires var end := WriterAt(read, initial, sel, s, s + Fit(sel, s, writer), writer);
               initial ==> end.reserved >= END_BYTES && |end.open| >= 3
      modifies this`writer, this`state, this`encodedAny, this`current
      ensures !died && d == s + Fit(sel, s, old(writer))
      ensures var end := WriterAt(read, initial, sel, s, d, old(writer));
              if initial then end.reserved >= END_BYTES && |end.open| >= 3 && writer == Ended(end) else writer == end
      ensures state == if err == NoError then FRESH else EncodeState(Wrap16(d), !initial || d > s)
      ensures err == NoError <==> d == |sel|
      ensures err != NoError && !sel[d].IsBad() ==> err == NoMemory
      ensures err != NoError && d == s && sel[d].IsBad() && read.Cost(initial, sel[d]) <= old(writer.remaining) ==> err != NoMemory
    {
      err, d := EncodeItems(items, sel, s);
      died := EnsureListEnded();
      if err == NoError {
        state := FRESH;
      }
    }

    /**
     * Encodes as much of the list as fits into the packet. Whatever the items and the
     * budget, no assertion of the source fails.
     */
    method EncodeList(items: seq<ListItem>, ghost sel: seq<ListItem>) returns (died: bool, err: Error)
      requires current == INVALID_LIST_INDEX && !encodedAny
      requires sel == Selected(read, items) && Resumes(sel, state)
      modifies this
      ensures !died
      ensures ListStarts(read, old(state), old(writer.remaining)) ==>
                ChunkOf(read, sel, old(state), old(writer), err, state, writer)
      ensures !ListStarts(read, old(state), old(writer.remaining)) ==> err == NoMemory && state == FRESH
    {
      died, err := EnsureListStarted();
      if died || err != NoError {
        return;
      }
      ghost var start, s, d := writer, state.index, 0;
      StartReserves(read, sel, old(state), old(writer), initial, s, start);
      died, err, d := EncodeAndEnd(items, sel, s);
      ChunkDone(read, sel, old(state), old(writer), initial, s, start, err, d, state, writer);
    }
  }
}
