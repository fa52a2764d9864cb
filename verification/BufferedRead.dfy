/**
 * BufferedReadCallback: puts the chunks of a list together again, so that the
 * callback behind it sees every list attribute in one piece.
 */
module BufferedRead {
  import opened Ids
  import opened TlvWriter

  /** A report as the read client hands it on: data with its version, or a failure status. */
  datatype Incoming =
    | DataIb(path: AttributePath, op: ListOp, version: Option<nat>, value: Elem)
    | StatusIb(path: AttributePath, op: ListOp, status: nat)

  /** The path that nothing is latched for. */
  const NO_PATH := AttributePath(0, 0, 0)

  /** What the callback behind the buffer sees. */
  datatype Event = Attribute(ib: Incoming) | ReportEnd | Failure

  /** The latched path with its list operation and version, the buffered items, and the events so far. */
  datatype State = State(path: AttributePath, op: ListOp, version: Option<nat>, list: seq<Elem>, log: seq<Event>) {

    /** The latched path awaits the rest of its list. */
    predicate Pending() { op != NotList }

    function Whole(): Event {
      Attribute(DataIb(path, ReplaceAll, version, Node(Anonymous, Array, list)))
    }

    /** `DispatchBufferedData` before a report on the given path. */
    function Flush(next: AttributePath): State {
      if Pending() && path != next then State(NO_PATH, NotList, None, [], log + [Whole()]) else this
    }

    function Forward(ib: Incoming): State {
      State(ib.path, ib.op, if ib.DataIb? then ib.version else None, list, log + [Attribute(ib)])
    }

    /** `OnAttributeData`. */
    function OnData(ib: Incoming): State {
      var s := Flush(ib.path);
      if ib.StatusIb? || ib.op == NotList then s.Forward(ib)
      else if ib.op == ReplaceAll then
        if ib.value.Node? && ib.value.kind == Array
        then State(ib.path, ib.op, ib.version, Anonymized(ib.value.children), s.log)
        else s.(log := s.log + [Failure])
      else
        var added := if ib.op == AppendItem then [Retag(ib.value, Anonymous)] else [];
        State(ib.path, ib.op, ib.version, s.list + added, s.log)
    }

    /** `OnReportEnd`. */
    function OnEnd(): State {
      if Pending() then State(NO_PATH, NotList, None, [], log + [Whole(), ReportEnd])
      else this.(log := log + [ReportEnd])
    }

    /** `OnError`: drops the buffered items, not the latched path. */
    function OnError(): State {
      this.(list := [], log := log + [Failure])
    }

    function Run(ibs: seq<Incoming>): State
      decreases |ibs|
    {
      if ibs == [] then this else OnData(ibs[0]).Run(ibs[1..])
    }
  }

  function Anonymized(es: seq<Elem>): seq<Elem> {
    if es == [] then [] else [Retag(es[0], Anonymous)] + Anonymized(es[1..])
  }

  lemma {:induction false} AnonymizedAppend(a: seq<Elem>, b: seq<Elem>)
    ensures Anonymized(a + b) == Anonymized(a) + Anonymized(b)
  {
    if a == [] {
      assert a + b == b;
    } else {
      assert (a + b)[1..] == a[1..] + b;
      AnonymizedAppend(a[1..], b);
    }
  }

  lemma {:induction false} RunAppend(s: State, a: seq<Incoming>, b: seq<Incoming>)
    ensures s.Run(a + b) == s.Run(a).Run(b)
    decreases |a|
  {
    if a == [] {
      assert a + b == b;
    } else {
      assert (a + b)[1..] == a[1..] + b;
      RunAppend(s.OnData(a[0]), a[1..], b);
    }
  }

  // ---------------------------------------------------------------------------
  // The callback
  // ---------------------------------------------------------------------------

  class BufferedReadCallback {
    var path: AttributePath
    var op: ListOp
    var version: Option<nat>
    var list: seq<Elem>
    var log: seq<Event>

    ghost function Abs(): State
      reads this
    {
      State(path, op, version, list, log)
    }

    constructor ()
      ensures Abs() == State(NO_PATH, NotList, None, [], [])
    {
      path, op, version, list, log := NO_PATH, NotList, None, [], [];
    }

    method BufferListItem(item: Elem)
      modifies this`list
      ensures list == old(list) + [Retag(item, Anonymous)]
    {
      list := list + [Retag(item, Anonymous)];
    }

    method BufferData(ib: Incoming) returns (ok: bool)
      requires ib.DataIb?
      modifies this`list
      ensures ok == (ib.op == ReplaceAll ==> ib.value.Node? && ib.value.kind == Array)
      ensures !ok ==> unchanged(this)
      ensures ok ==> list == match ib.op
                             case ReplaceAll => Anonymized(ib.value.children)
                             case AppendItem => old(list) + [Retag(ib.value, Anonymous)]
                             case _ => old(list)
    {
      if ib.op == ReplaceAll {
        if !(ib.value.Node? && ib.value.kind == Array) {
          return false;
        }
        list := [];
        var i := 0;
        while i < |ib.value.children|
          invariant i <= |ib.value.children|
          invariant list == Anonymized(ib.value.children[..i])
        {
          assert ib.value.children[..i + 1] == ib.value.children[..i] + [ib.value.children[i]];
          AnonymizedAppend(ib.value.children[..i], [ib.value.children[i]]);
          BufferListItem(ib.value.children[i]);
          i := i + 1;
        }
        assert ib.value.children[..i] == ib.value.children;
      } else if ib.op == AppendItem {
        BufferListItem(ib.value);
      }
      return true;
    }

    /** Hands the buffered list on unless it may still grow. */
    method DispatchBufferedData(next: AttributePath, failed: bool, endOfReport: bool)
      modifies this
      ensures next == old(path) && (!endOfReport || failed) ==> unchanged(this)
      ensures next != old(path) || (endOfReport && !failed) ==>
                Abs() == if old(Abs()).Pending() then State(NO_PATH, NotList, None, [], old(log) + [old(Abs()).Whole()])
                         else old(Abs())
    {
      if next == path {
        if !endOfReport {
          return;
        }
        if failed {
          return;
        }
      }
      if op == NotList {
        return;
      }
      op := ReplaceAll;
      log := log + [Attribute(DataIb(path, op, version, Node(Anonymous, Array, list)))];
      list := [];
      path, op, version := NO_PATH, NotList, None;
    }

    method OnAttributeData(ib: Incoming)
      modifies this
      ensures Abs() == old(Abs()).OnData(ib)
    {
      DispatchBufferedData(ib.path, ib.StatusIb?, false);
      if ib.op != NotList && ib.DataIb? {
        var ok := BufferData(ib);
        if !ok {
          log := log + [Failure];
          return;
        }
      } else {
        log := log + [Attribute(ib)];
      }
      path, op, version := ib.path, ib.op, if ib.DataIb? then ib.version else None;
    }

    method OnReportEnd()
      modifies this
      ensures Abs() == old(Abs()).OnEnd()
    {
      DispatchBufferedData(path, false, true);
      log := log + [ReportEnd];
    }

    method OnError()
      modifies this
      ensures Abs() == old(Abs()).OnError()
    {
      list := [];
      log := log + [Failure];
    }
  }

  // ---------------------------------------------------------------------------
  // What the callback behind the buffer sees
  // ---------------------------------------------------------------------------

  datatype Appended = Appended(version: Option<nat>, item: Elem)

  /** A list replaced and then appended to, or a report that carries no list operation. */
  datatype Segment =
    | Group(path: AttributePath, version: Option<nat>, items: seq<Elem>, appends: seq<Appended>)
    | Single(ib: Incoming)

  ghost predicate ValidSegment(g: Segment) {
    g.Single? ==> g.ib.op == NotList
  }

  function PathOf(g: Segment): AttributePath {
    if g.Group? then g.path else g.ib.path
  }

  function AppendIbs(path: AttributePath, appends: seq<Appended>): seq<Incoming> {
    if appends == [] then []
    else [DataIb(path, AppendItem, appends[0].version, appends[0].item)] + AppendIbs(path, appends[1..])
  }

  /** The reports of a segment; the array of the first one may carry any tag. */
  function Ibs(g: Segment, tag: Tag): seq<Incoming> {
    if g.Single? then [g.ib]
    else [DataIb(g.path, ReplaceAll, g.version, Node(tag, Array, g.items))] + AppendIbs(g.path, g.appends)
  }

  function Stream(segs: seq<Segment>, tag: Tag): seq<Incoming> {
    if segs == [] then [] else Ibs(segs[0], tag) + Stream(segs[1..], tag)
  }

  function AppendedItems(appends: seq<Appended>): seq<Elem> {
    if appends == [] then [] else [Retag(appends[0].item, Anonymous)] + AppendedItems(appends[1..])
  }

  /** All items of a group in order, in one list, under the version that came last. */
  function Collapsed(g: Segment): Event
    requires g.Group?
  {
    Attribute(DataIb(g.path, ReplaceAll, if g.appends == [] then g.version else g.appends[|g.appends| - 1].version,
                     Node(Anonymous, Array, Anonymized(g.items) + AppendedItems(g.appends))))
  }

  /**
   * What is seen of a sequence of segments: every report without a list operation as
   * it came, and every group in one piece unless the next segment is about the same path.
   */
  function Seen(segs: seq<Segment>): seq<Event> {
    if segs == [] then []
    else
      (if segs[0].Single? then [Attribute(segs[0].ib)]
       else if |segs| > 1 && PathOf(segs[1]) == segs[0].path then []
       else [Collapsed(segs[0])])
      + Seen(segs[1..])
  }

  /** Appends to the latched list only grow it. */
  lemma {:induction false} AppendsGrow(s: State, path: AttributePath, appends: seq<Appended>)
    requires s.Pending() && s.path == path
    ensures s.Run(AppendIbs(path, appends)) ==
            if appends == [] then s
            else State(path, AppendItem, appends[|appends| - 1].version, s.list + AppendedItems(appends), s.log)
    decreases |appends|
  {
    if appends != [] {
      var ibs, item, rest := AppendIbs(path, appends), [Retag(appends[0].item, Anonymous)], appends[1..];
      var s' := s.OnData(ibs[0]);
      assert ibs[1..] == AppendIbs(path, rest) && s'.list == s.list + item;
      AppendsGrow(s', path, rest);
      Associate(s.list, item, AppendedItems(rest));
      if rest == [] {
        assert s.list + item + [] == s.list + item;
      } else {
        assert rest[|rest| - 1] == appends[|appends| - 1];
      }
    }
  }

  /** The state in which a group leaves the buffer. */
  ghost predicate Holds(s: State, g: Segment)
    requires g.Group?
  {
    s.Pending() && s.path == g.path && s.Whole() == Collapsed(g)
  }

  lemma GroupRun(s: State, g: Segment, tag: Tag)
    requires g.Group?
    ensures Holds(s.Run(Ibs(g, tag)), g)
    ensures s.Run(Ibs(g, tag)).log == s.Flush(g.path).log
  {
    var ibs := Ibs(g, tag);
    assert ibs[1..] == AppendIbs(g.path, g.appends);
    AppendsGrow(s.OnData(ibs[0]), g.path, g.appends);
    if g.appends == [] {
      assert Anonymized(g.items) + AppendedItems(g.appends) == Anonymized(g.items);
    }
  }

  lemma SingleRun(s: State, g: Segment, tag: Tag)
    requires g.Single? && ValidSegment(g)
    ensures !s.Run(Ibs(g, tag)).Pending()
    ensures s.Run(Ibs(g, tag)).log == s.Flush(g.ib.path).log + [Attribute(g.ib)]
  {
    assert [g.ib][1..] == [];
  }

  /** The buffer holds the group that came last, or nothing. */
  ghost predicate HoldsLast(s: State, held: seq<Segment>) {
    |held| <= 1 && if held == [] then !s.Pending() else held[0].Group? && Holds(s, held[0])
  }

  lemma EndSeen(s: State, held: seq<Segment>)
    requires HoldsLast(s, held)
    ensures s.OnEnd().log == s.log + Seen(held) + [ReportEnd] && !s.OnEnd().Pending()
  {
    if held != [] {
      assert held[1..] == [];
      assert Seen(held) == [Collapsed(held[0])];
      assert s.log + [s.Whole(), ReportEnd] == s.log + [Collapsed(held[0])] + [ReportEnd];
    } else {
      assert s.log + [] + [ReportEnd] == s.log + [ReportEnd];
    }
  }

  /** A segment turns the buffer from holding one group to holding the next. */
  lemma SegmentSeen(s: State, held: seq<Segment>, g: Segment, rest: seq<Segment>, tag: Tag) returns (held': seq<Segment>)
    requires HoldsLast(s, held) && ValidSegment(g)
    ensures HoldsLast(s.Run(Ibs(g, tag)), held')
    ensures s.Run(Ibs(g, tag)).log + Seen(held' + rest) == s.log + Seen(held + ([g] + rest))
  {
    var segs := [g] + rest;
    assert segs[1..] == rest;
    FlushSeen(s, held, segs);
    if g.Group? {
      GroupRun(s, g, tag);
      held' := [g];
    } else {
      SingleRun(s, g, tag);
      held' := [];
      assert [] + rest == rest;
      assert s.Flush(g.ib.path).log + [Attribute(g.ib)] + Seen(rest) == s.Flush(g.ib.path).log + ([Attribute(g.ib)] + Seen(rest));
    }
  }

  /** With a group in the buffer, the rest of the stream is seen as if the group came first. */
  lemma {:induction false} RunSeen(s: State, held: seq<Segment>, segs: seq<Segment>, tag: Tag)
    requires forall i :: 0 <= i < |segs| ==> ValidSegment(segs[i])
    requires HoldsLast(s, held)
    ensures s.Run(Stream(segs, tag)).OnEnd().log == s.log + Seen(held + segs) + [ReportEnd]
    ensures !s.Run(Stream(segs, tag)).OnEnd().Pending()
    decreases |segs|
  {
    if segs == [] {
      assert held + segs == held;
      EndSeen(s, held);
    } else {
      assert segs == [segs[0]] + segs[1..];
      RunAppend(s, Ibs(segs[0], tag), Stream(segs[1..], tag));
      var held' := SegmentSeen(s, held, segs[0], segs[1..], tag);
      RunSeen(s.Run(Ibs(segs[0], tag)), held', segs[1..], tag);
    }
  }

  lemma FlushSeen(s: State, held: seq<Segment>, segs: seq<Segment>)
    requires segs != [] && HoldsLast(s, held)
    ensures s.Flush(PathOf(segs[0])).log + Seen(segs) == s.log + Seen(held + segs)
  {
    if held == [] {
      assert held + segs == segs;
    } else {
      assert (held + segs)[1..] == segs && (held + segs)[1] == segs[0];
      if PathOf(segs[0]) == held[0].path {
        assert Seen(held + segs) == [] + Seen(segs);
      } else {
        assert s.log + [s.Whole()] + Seen(segs) == s.log + ([s.Whole()] + Seen(segs));
      }
    }
  }

  /**
   * Over any report made of list groups and reports without list operations, the
   * callback sees every group in one piece and everything else as it came, in order.
   */
  lemma ReportSeen(s: State, segs: seq<Segment>, tag: Tag)
    requires !s.Pending() && forall i :: 0 <= i < |segs| ==> ValidSegment(segs[i])
    ensures s.Run(Stream(segs, tag)).OnEnd().log == s.log + Seen(segs) + [ReportEnd]
    ensures !s.Run(Stream(segs, tag)).OnEnd().Pending()
  {
    RunSeen(s, [], segs, tag);
    assert [] + segs == segs;
  }

  /** What would be seen if every segment were: one event for each. */
  function Each(segs: seq<Segment>): seq<Event> {
    if segs == [] then []
    else [if segs[0].Single? then Attribute(segs[0].ib) else Collapsed(segs[0])] + Each(segs[1..])
  }

  /** No list group is directly followed by a segment on its own path. */
  ghost predicate NoneReplaced(segs: seq<Segment>) {
    forall i :: 0 <= i < |segs| - 1 && segs[i].Group? ==> PathOf(segs[i + 1]) != segs[i].path
  }

  lemma {:induction false} SeenCount(segs: seq<Segment>)
    ensures |Each(segs)| == |segs| && |Seen(segs)| <= |segs|
    ensures NoneReplaced(segs) ==> Seen(segs) == Each(segs)
    ensures !NoneReplaced(segs) ==> |Seen(segs)| < |segs|
  {
    if segs != [] {
      var rest := segs[1..];
      SeenCount(rest);
      assert forall i :: 0 <= i < |rest| ==> rest[i] == segs[i + 1];
      if !(segs[0].Group? && |segs| > 1 && PathOf(segs[1]) == segs[0].path) {
        assert NoneReplaced(rest) ==> NoneReplaced(segs);
      }
    }
  }

  /**
   * Every group and every other report is seen if and only if no group is directly
   * followed by a segment on its own path; the reader lets such a segment replace it.
   */
  lemma AllSeenIff(s: State, segs: seq<Segment>, tag: Tag)
    requires !s.Pending() && forall i :: 0 <= i < |segs| ==> ValidSegment(segs[i])
    ensures s.Run(Stream(segs, tag)).OnEnd().log == s.log + Each(segs) + [ReportEnd] <==> NoneReplaced(segs)
  {
    ReportSeen(s, segs, tag);
    SeenCount(segs);
    if !NoneReplaced(segs) {
      assert |s.log + Seen(segs) + [ReportEnd]| < |s.log + Each(segs) + [ReportEnd]|;
    }
  }

  // ---------------------------------------------------------------------------
  // Failures and errors
  // ---------------------------------------------------------------------------

  /** A failure status, whatever is buffered: a list follows it if and only if it carries a list operation. */
  lemma StatusSeenAlone(s: State, path: AttributePath, op: ListOp, status: nat)
    ensures var failure, before := StatusIb(path, op, status), s.Flush(path);
            && s.OnData(failure).OnEnd().log ==
               before.log + [Attribute(failure)]
               + (if op == NotList then [] else [Attribute(DataIb(path, ReplaceAll, None, Node(Anonymous, Array, before.list)))])
               + [ReportEnd]
            && (s.OnData(failure).OnEnd().log == before.log + [Attribute(failure), ReportEnd] <==> op == NotList)
  {
  }

  /** A report, the end of a report, or an error. */
  datatype Input = Got(ib: Incoming) | End | Broken

  function Step(s: State, x: Input): State {
    match x
    case Got(ib) => s.OnData(ib)
    case End => s.OnEnd()
    case Broken => s.OnError()
  }

  function RunAll(s: State, xs: seq<Input>): State
    decreases |xs|
  {
    if xs == [] then s else RunAll(Step(s, xs[0]), xs[1..])
  }

  /** A whole list that can be taken in. */
  predicate IsWholeList(x: Input) {
    x.Got? && x.ib.DataIb? && x.ib.op == ReplaceAll && x.ib.value.Node? && x.ib.value.kind == Array
  }

  /** A whole list that is no array: it is refused and changes nothing. */
  predicate IsRefused(x: Input) {
    x.Got? && x.ib.DataIb? && x.ib.op == ReplaceAll && !IsWholeList(x)
  }

  /** What an input makes the reader say of itself. */
  function Own(x: Input): seq<Event> {
    if x.End? then [ReportEnd]
    else if x.Broken? || IsRefused(x) then [Failure]
    else if x.ib.StatusIb? || x.ib.op == NotList then [Attribute(x.ib)]
    else []
  }

  /** The input ends the wait for the rest of a list on the path: the report ends or is about another path. */
  predicate Interrupts(path: AttributePath, x: Input) {
    x.End? || (x.Got? && x.ib.path != path)
  }

  /** The input leaves the list on the path open. */
  predicate KeepsOpen(path: AttributePath, x: Input) {
    x.Broken? || (x.Got? && x.ib.path == path && x.ib.op != NotList && !IsWholeList(x))
  }

  /** In every state and for every input: the buffered list is delivered if and only if its wait ends. */
  lemma StepDelivers(s: State, x: Input)
    ensures Step(s, x).log == s.log + (if s.Pending() && Interrupts(s.path, x) then [s.Whole()] else []) + Own(x)
  {
  }

  // ---------------------------------------------------------------------------
  // Items that stay in the buffer
  // ---------------------------------------------------------------------------

  /**
   * Items in the buffer that belong to no list any more are delivered under whatever
   * list is waited for when its wait ends, unless a whole list or an error comes first.
   */
  predicate Leaks(waiting: Option<AttributePath>, xs: seq<Input>)
    decreases |xs|
  {
    if xs == [] then false
    else
      var x, rest := xs[0], xs[1..];
      if waiting.Some? && Interrupts(waiting.value, x) then true
      else if x.Broken? || IsWholeList(x) then false
      else if IsRefused(x) then Leaks(waiting, rest)
      else if x.End? || x.ib.op == NotList then Leaks(None, rest)
      else Leaks(Some(x.ib.path), rest)
  }

  function Waiting(s: State): Option<AttributePath> {
    if s.Pending() then Some(s.path) else None
  }

  /** What a reader says next does not depend on what it said before. */
  lemma {:induction false} LogGrows(s: State, xs: seq<Input>)
    ensures RunAll(s, xs).log == s.log + RunAll(s.(log := []), xs).log
    decreases |xs|
  {
    if xs != [] {
      var t, e := Step(s, xs[0]), Step(s.(log := []), xs[0]);
      assert t.log == s.log + e.log && e == t.(log := e.log);
      LogGrows(t, xs[1..]);
      LogGrows(e, xs[1..]);
      Associate(s.log, e.log, RunAll(t.(log := []), xs[1..]).log);
    }
  }

  /** Logs that differ once stay different. */
  lemma StayDifferent(a: State, b: State, xs: seq<Input>)
    requires |a.log| == |b.log| && a.log != b.log
    ensures RunAll(a, xs).log != RunAll(b, xs).log
  {
    LogGrows(a, xs);
    LogGrows(b, xs);
    assert RunAll(a, xs).log[..|a.log|] == a.log && RunAll(b, xs).log[..|b.log|] == b.log;
  }

  /** One input to a reader with left-over items and to one without: what is left of them. */
  lemma LeakStep(a: State, b: State, left: seq<Elem>, x: Input)
    requires b == a.(list := b.list) && a.list == left + b.list && left != []
    ensures var a', b' := Step(a, x), Step(b, x);
            if a.Pending() && Interrupts(a.path, x) then |a'.log| == |b'.log| && a'.log != b'.log
            else if x.Broken? || IsWholeList(x) then a' == b'
            else && b' == a'.(list := b'.list) && a'.list == left + b'.list
                 && Waiting(a') == (if IsRefused(x) then Waiting(a) else if x.End? || x.ib.op == NotList then None else Some(x.ib.path))
  {
    if a.Pending() && Interrupts(a.path, x) {
      assert |a.list| != |b.list|;
      assert Step(a, x).log[|a.log|] == a.Whole() && Step(b, x).log[|a.log|] == b.Whole();
    } else if x.Got? && x.ib.DataIb? && x.ib.op == AppendItem {
      Associate(left, b.list, [Retag(x.ib.value, Anonymous)]);
    } else {
      assert left + (b.list + []) == left + b.list;
    }
  }

  /** A reader with left-over items says the same as one without if and only if they do not leak. */
  lemma {:induction false} LeaksIff(a: State, b: State, left: seq<Elem>, xs: seq<Input>)
    requires b == a.(list := b.list) && a.list == left + b.list && left != []
    ensures RunAll(a, xs).log == RunAll(b, xs).log <==> !Leaks(Waiting(a), xs)
    decreases |xs|
  {
    if xs != [] {
      var x := xs[0];
      LeakStep(a, b, left, x);
      if a.Pending() && Interrupts(a.path, x) {
        StayDifferent(Step(a, x), Step(b, x), xs[1..]);
      } else if !(x.Broken? || IsWholeList(x)) {
        LeaksIff(Step(a, x), Step(b, x), left, xs[1..]);
      }
    }
  }

  /** A reader that waits for nothing, holds the items and has said so much. */
  function Idle(list: seq<Elem>, log: seq<Event>): State {
    State(NO_PATH, NotList, None, list, log)
  }

  /** Readers that wait for nothing behave alike if they hold and said the same. */
  lemma {:induction false} IdleAlike(a: State, b: State, xs: seq<Input>)
    requires !a.Pending() && !b.Pending() && a.list == b.list && a.log == b.log
    ensures RunAll(a, xs).log == RunAll(b, xs).log
    decreases |xs|
  {
    if xs != [] && Step(a, xs[0]) != Step(b, xs[0]) {
      IdleAlike(Step(a, xs[0]), Step(b, xs[0]), xs[1..]);
    }
  }

  /** An idle reader that holds items says the same as one that holds none if and only if they do not leak. */
  lemma IdleLeaksIff(left: seq<Elem>, log: seq<Event>, xs: seq<Input>)
    ensures RunAll(Idle(left, log), xs).log == RunAll(Idle([], log), xs).log <==> !(left != [] && Leaks(None, xs))
  {
    if left != [] {
      assert left + [] == left;
      LeaksIff(Idle(left, log), Idle([], log), left, xs);
    }
  }

  // ---------------------------------------------------------------------------
  // A failure in place of a list
  // ---------------------------------------------------------------------------

  /**
   * What is left of a list that a failure with a list operation should have replaced
   * surfaces: when its wait ends, or as left-over items later.
   */
  predicate Surfaces(path: AttributePath, items: bool, xs: seq<Input>) {
    if xs == [] then false
    else
      var x, rest := xs[0], xs[1..];
      if Interrupts(path, x) then true
      else if IsRefused(x) then Surfaces(path, items, rest)
      else if x.Broken? then Surfaces(path, false, rest)
      else if IsWholeList(x) then false
      else items && Leaks(if x.ib.op == NotList then None else Some(path), rest)
  }

  lemma {:induction false} SurfacesIff(a: State, xs: seq<Input>)
    requires a.Pending()
    ensures RunAll(a, xs).log == RunAll(Idle([], a.log), xs).log <==> !Surfaces(a.path, a.list != [], xs)
    decreases |xs|
  {
    if xs != [] {
      var x, b := xs[0], Idle([], a.log);
      var a', b' := Step(a, x), Step(b, x);
      if Interrupts(a.path, x) {
        DeliveredOnce(a, xs);
      } else if IsRefused(x) || x.Broken? {
        assert b' == Idle([], a'.log);
        SurfacesIff(a', xs[1..]);
      } else if !IsWholeList(x) {
        assert a.list + [] == a.list;
        assert b' == a'.(list := b'.list) && a'.list == a.list + b'.list;
        if a.list != [] {
          LeaksIff(a', b', a.list, xs[1..]);
        }
      }
    }
  }

  /** A list that is delivered at once is said in addition to all else. */
  lemma DeliveredOnce(a: State, xs: seq<Input>)
    requires a.Pending() && xs != [] && Interrupts(a.path, xs[0])
    ensures RunAll(a, xs).log == RunAll(Idle([], a.log + [a.Whole()]), xs).log
    ensures RunAll(a, xs).log != RunAll(Idle([], a.log), xs).log
  {
    WaitEnds(a, xs);
    LogGrows(Idle([], a.log + [a.Whole()]), xs);
    LogGrows(Idle([], a.log), xs);
    assert Idle([], a.log).(log := []) == Idle([], a.log + [a.Whole()]).(log := []);
    assert |RunAll(a, xs).log| == |RunAll(Idle([], a.log), xs).log| + 1;
  }

  /** A list whose wait ends leaves the reader as if it had delivered or dropped it before. */
  lemma WaitEnds(t: State, xs: seq<Input>)
    requires t.Pending() && xs != [] && !KeepsOpen(t.path, xs[0])
    ensures RunAll(t, xs) ==
            RunAll(if Interrupts(t.path, xs[0]) then Idle([], t.log + [t.Whole()]) else Idle(t.list, t.log), xs)
  {
    var idle := if Interrupts(t.path, xs[0]) then Idle([], t.log + [t.Whole()]) else Idle(t.list, t.log);
    assert t.log + [t.Whole()] + [ReportEnd] == t.log + [t.Whole(), ReportEnd];
    assert Step(t, xs[0]) == Step(idle, xs[0]);
  }

  /** All items of a group. */
  function GroupItems(g: Segment): seq<Elem>
    requires g.Group?
  {
    Anonymized(g.items) + AppendedItems(g.appends)
  }

  /**
   * A failure status on the path of the group before it takes its place: over every
   * continuation the reader says what it would if it had dropped the group, if and only
   * if the items of the group do not come up again. Without a list operation they come up
   * only by leaking; with one, also by the wait for more of the list.
   */
  lemma FailureSuppressesIff(s: State, g: Segment, op: ListOp, status: nat, tag: Tag, xs: seq<Input>)
    requires !s.Pending() && g.Group?
    ensures var failure := StatusIb(g.path, op, status);
            RunAll(s.Run(Ibs(g, tag)).OnData(failure), xs).log == RunAll(Idle([], s.log + [Attribute(failure)]), xs).log
            <==> !(if op == NotList then GroupItems(g) != [] && Leaks(None, xs) else Surfaces(g.path, GroupItems(g) != [], xs))
  {
    GroupRun(s, g, tag);
    var t := s.Run(Ibs(g, tag)).OnData(StatusIb(g.path, op, status));
    if op == NotList {
      IdleAlike(t, Idle(t.list, t.log), xs);
      IdleLeaksIff(t.list, t.log, xs);
    } else {
      SurfacesIff(t, xs);
    }
  }

  lemma RunFour(s: State, x0: Input, x1: Input, x2: Input, x3: Input)
    ensures RunAll(s, [x0, x1, x2, x3]) == Step(Step(Step(Step(s, x0), x1), x2), x3)
  {
    var s1 := Step(s, x0);
    assert [x0, x1, x2, x3][1..] == [x1, x2, x3] && [x1, x2, x3][1..] == [x2, x3] && [x2, x3][1..] == [x3] && [x3][1..] == [];
    assert RunAll(s, [x0, x1, x2, x3]) == RunAll(s1, [x1, x2, x3]);
    assert RunAll(s1, [x1, x2, x3]) == RunAll(Step(s1, x1), [x2, x3]);
    assert RunAll(Step(s1, x1), [x2, x3]) == RunAll(Step(Step(s1, x1), x2), [x3]);
  }

  /** Items of a suppressed list come up under another path: a whole list, its failure, and an append elsewhere. */
  lemma ItemsUnderAnotherPath(s: State, p: AttributePath, q: AttributePath, a: Elem, b: Elem, status: nat)
    requires !s.Pending()
    ensures var xs := [Got(DataIb(p, ReplaceAll, Some(0), Node(Anonymous, Array, [a]))), Got(StatusIb(p, NotList, status)),
                       Got(DataIb(q, AppendItem, Some(0), b)), End];
            var both := [Retag(a, Anonymous), Retag(b, Anonymous)];
            RunAll(s, xs).log ==
            s.log + [Attribute(StatusIb(p, NotList, status)), Attribute(DataIb(q, ReplaceAll, Some(0), Node(Anonymous, Array, both))), ReportEnd]
  {
    var x0, x1 := Got(DataIb(p, ReplaceAll, Some(0), Node(Anonymous, Array, [a]))), Got(StatusIb(p, NotList, status));
    var x2 := Got(DataIb(q, AppendItem, Some(0), b));
    var s1 := Step(s, x0);
    assert Anonymized([a]) == [Retag(a, Anonymous)] + Anonymized([a][1..]);
    var s2 := Step(s1, x1);
    var s3 := Step(s2, x2);
    assert s3.list == [Retag(a, Anonymous), Retag(b, Anonymous)];
    RunFour(s, x0, x1, x2, End);
  }

  // ---------------------------------------------------------------------------
  // An error in the middle of a list
  // ---------------------------------------------------------------------------

  /** The items that inputs append to an open list since the last error. */
  function ItemsOf(xs: seq<Input>): seq<Elem> {
    if xs == [] || xs[|xs| - 1].Broken? then [] else ItemsOf(xs[..|xs| - 1]) + ItemOf(xs[|xs| - 1])
  }

  function ItemOf(x: Input): seq<Elem> {
    if x.Got? && x.ib.DataIb? && x.ib.op == AppendItem then [Retag(x.ib.value, Anonymous)] else []
  }

  function Said(xs: seq<Input>): seq<Event> {
    if xs == [] then [] else Said(xs[..|xs| - 1]) + Own(xs[|xs| - 1])
  }

  /** The version an open list carries after more inputs. */
  function VersionAfter(version: Option<nat>, xs: seq<Input>): Option<nat> {
    if xs == [] then version
    else
      var x := xs[|xs| - 1];
      if !x.Got? || IsRefused(x) then VersionAfter(version, xs[..|xs| - 1])
      else if x.ib.DataIb? then x.ib.version else None
  }

  /** How many inputs leave the list on the path open. */
  function OpenLength(path: AttributePath, xs: seq<Input>): (k: nat)
    ensures k <= |xs| && (forall i :: 0 <= i < k ==> KeepsOpen(path, xs[i])) && (k < |xs| ==> !KeepsOpen(path, xs[k]))
  {
    if xs == [] || !KeepsOpen(path, xs[0]) then 0 else 1 + OpenLength(path, xs[1..])
  }

  lemma {:induction false} RunAllAppend(s: State, a: seq<Input>, b: seq<Input>)
    ensures RunAll(s, a + b) == RunAll(RunAll(s, a), b)
    decreases |a|
  {
    if a == [] {
      assert a + b == b;
    } else {
      assert (a + b)[0] == a[0] && (a + b)[1..] == a[1..] + b;
      RunAllAppend(Step(s, a[0]), a[1..], b);
    }
  }

  /** What is left of a list that an error interrupted: the path, and the items that come after the error. */
  ghost predicate Remains(t: State, s: State, xs: seq<Input>) {
    && t.Pending() && t.path == s.path && t.version == VersionAfter(s.version, xs)
    && t.list == ItemsOf(xs) && t.log == s.log + [Failure] + Said(xs)
  }

  /** What an input that leaves the list open makes of it. */
  lemma StepOpen(t: State, x: Input)
    requires t.Pending() && KeepsOpen(t.path, x)
    ensures var t' := Step(t, x);
            && t'.Pending() && t'.path == t.path && t'.log == t.log + Own(x)
            && t'.list == (if x.Broken? then [] else t.list + ItemOf(x))
            && t'.version == if !x.Got? || IsRefused(x) then t.version else if x.ib.DataIb? then x.ib.version else None
  {
    assert t.list + [] == t.list;
  }

  lemma RemainStep(t: State, s: State, xs: seq<Input>, x: Input)
    requires Remains(t, s, xs) && KeepsOpen(s.path, x)
    ensures Remains(Step(t, x), s, xs + [x])
  {
    assert (xs + [x])[..|xs|] == xs && (xs + [x])[|xs|] == x;
    StepOpen(t, x);
    Associate(s.log + [Failure], Said(xs), Own(x));
  }

  lemma {:induction false} ErrorRemains(s: State, xs: seq<Input>)
    requires s.Pending() && forall i :: 0 <= i < |xs| ==> KeepsOpen(s.path, xs[i])
    ensures Remains(RunAll(s.OnError(), xs), s, xs)
    decreases |xs|
  {
    if xs == [] {
      assert s.log + [Failure] + [] == s.log + [Failure];
    } else {
      var front, x := xs[..|xs| - 1], xs[|xs| - 1];
      ErrorRemains(s, front);
      assert xs == front + [x];
      RunAllAppend(s.OnError(), front, [x]);
      assert [x][1..] == [];
      RemainStep(RunAll(s.OnError(), front), s, front, x);
    }
  }

  /** The list that is delivered in place of an interrupted one: only what was appended after the error. */
  function Truncated(s: State, xs: seq<Input>): Event {
    Attribute(DataIb(s.path, ReplaceAll, VersionAfter(s.version, xs), Node(Anonymous, Array, ItemsOf(xs))))
  }

  lemma RunSplit(e: State, xs: seq<Input>, k: nat)
    requires k <= |xs|
    ensures RunAll(e, xs) == RunAll(RunAll(e, xs[..k]), xs[k..])
  {
    assert xs == xs[..k] + xs[k..];
    RunAllAppend(e, xs[..k], xs[k..]);
  }

  /** The inputs that leave an interrupted list open, and then the one that does not. */
  lemma WaitAndEnd(s: State, k: nat, xs: seq<Input>, t: State)
    requires s.Pending() && k == OpenLength(s.path, xs) && t == RunAll(s.OnError(), xs[..k])
    ensures Remains(t, s, xs[..k])
    ensures k == |xs| ==> RunAll(s.OnError(), xs) == t
    ensures k < |xs| ==>
              RunAll(s.OnError(), xs) ==
              RunAll(if Interrupts(s.path, xs[k]) then Idle([], t.log + [t.Whole()]) else Idle(t.list, t.log), xs[k..])
  {
    ErrorRemains(s, xs[..k]);
    RunSplit(s.OnError(), xs, k);
    if k < |xs| {
      assert xs[k..][0] == xs[k];
      WaitEnds(t, xs[k..]);
    }
  }

  /**
   * Everything that can come after an error, with a list pending. As long as inputs
   * leave that list open it is waited for. Then, if the report ends or turns to another
   * path, a list is delivered that misses every item from before the error; if the path
   * is reported anew, none is, but what was appended since stays in the buffer.
   */
  lemma AfterError(s: State, xs: seq<Input>)
    requires s.Pending()
    ensures var k := OpenLength(s.path, xs);
            var said := s.log + [Failure] + Said(xs[..k]);
            var interrupted := k < |xs| && Interrupts(s.path, xs[k]);
            && (k == |xs| ==> RunAll(s.OnError(), xs).log == said)
            && (k < |xs| && !interrupted ==> RunAll(s.OnError(), xs).log == RunAll(Idle(ItemsOf(xs[..k]), said), xs[k..]).log)
            && (interrupted ==> RunAll(s.OnError(), xs).log == RunAll(Idle([], said + [Truncated(s, xs[..k])]), xs[k..]).log)
  {
    var k := OpenLength(s.path, xs);
    WaitAndEnd(s, k, xs, RunAll(s.OnError(), xs[..k]));
  }

  /** What a reader says after an error that drops the interrupted list, and what is appended to it, for good. */
  function DroppedLog(s: State, xs: seq<Input>): seq<Event> {
    var k := if s.Pending() then OpenLength(s.path, xs) else 0;
    RunAll(Idle([], s.log + [Failure] + Said(xs[..k])), xs[k..]).log
  }

  /**
   * Over every continuation after an error, nothing of the interrupted list or of what is
   * appended to it is delivered if and only if no list was pending, or its path is
   * reported anew before the report ends or turns to another path, and what was appended
   * in between, if anything, does not leak.
   */
  lemma NothingTruncatedIff(s: State, xs: seq<Input>)
    ensures var k := OpenLength(s.path, xs);
            RunAll(s.OnError(), xs).log == DroppedLog(s, xs)
            <==> !(s.Pending() && k < |xs| && (Interrupts(s.path, xs[k]) || (ItemsOf(xs[..k]) != [] && Leaks(None, xs[k..]))))
  {
    var k := OpenLength(s.path, xs);
    var said := s.log + [Failure] + Said(xs[..k]);
    if !s.Pending() {
      assert s.log + [Failure] + [] == s.log + [Failure] && xs[0..] == xs;
      IdleAlike(s.OnError(), Idle([], s.log + [Failure]), xs);
    } else if k == |xs| {
      AfterError(s, xs);
      assert xs[k..] == [];
    } else if Interrupts(s.path, xs[k]) {
      TruncatedDiffers(s, xs, k);
    } else {
      AfterError(s, xs);
      IdleLeaksIff(ItemsOf(xs[..k]), said, xs[k..]);
    }
  }

  lemma TruncatedDiffers(s: State, xs: seq<Input>, k: nat)
    requires s.Pending() && k == OpenLength(s.path, xs) < |xs| && Interrupts(s.path, xs[k])
    ensures RunAll(s.OnError(), xs).log != DroppedLog(s, xs)
  {
    var t := RunAll(s.OnError(), xs[..k]);
    WaitAndEnd(s, k, xs, t);
    RunSplit(s.OnError(), xs, k);
    assert xs[k..][0] == xs[k];
    DeliveredOnce(t, xs[k..]);
  }

  /** A list, an error, an append, plain data on the path and an append elsewhere: the first append comes up under the other path. */
  lemma AppendUnderAnotherPath(s: State, p: AttributePath, q: AttributePath, b: Elem, c: Elem, plain: Elem)
    requires s.Pending() && s.path == p
    ensures var xs := [Got(DataIb(p, AppendItem, Some(0), b)), Got(DataIb(p, NotList, Some(0), plain)),
                       Got(DataIb(q, AppendItem, Some(0), c)), End];
            var both := [Retag(b, Anonymous), Retag(c, Anonymous)];
            RunAll(s.OnError(), xs).log ==
            s.log + [Failure, Attribute(DataIb(p, NotList, Some(0), plain)),
                     Attribute(DataIb(q, ReplaceAll, Some(0), Node(Anonymous, Array, both))), ReportEnd]
  {
    var x0, x1 := Got(DataIb(p, AppendItem, Some(0), b)), Got(DataIb(p, NotList, Some(0), plain));
    var x2 := Got(DataIb(q, AppendItem, Some(0), c));
    var s1 := Step(s.OnError(), x0);
    assert s1.list == [Retag(b, Anonymous)];
    var s2 := Step(s1, x1);
    var s3 := Step(s2, x2);
    assert s3.list == [Retag(b, Anonymous), Retag(c, Anonymous)];
    RunFour(s.OnError(), x0, x1, x2, End);
  }

  lemma SeenAfter(g: Segment, segs: seq<Segment>, shown: seq<Event>)
    requires g.Group? && shown == if segs == [] || PathOf(segs[0]) != g.path then [Collapsed(g)] else []
    ensures Seen([g] + segs) == shown + Seen(segs)
  {
    assert ([g] + segs)[1..] == segs && (segs != [] ==> ([g] + segs)[1] == segs[0]);
  }

  /**
   * The next report after an error, made of list groups and reports without list
   * operations: an empty list comes before it if and only if a list was pending and the
   * report does not begin with its path, also if the report holds nothing at all.
   */
  lemma ErrorLeavesEmptyList(s: State, segs: seq<Segment>, tag: Tag)
    requires forall i :: 0 <= i < |segs| ==> ValidSegment(segs[i])
    ensures var left := s.Pending() && (segs == [] || PathOf(segs[0]) != s.path);
            s.OnError().Run(Stream(segs, tag)).OnEnd().log ==
            s.log + [Failure]
            + (if left then [Attribute(DataIb(s.path, ReplaceAll, s.version, Node(Anonymous, Array, [])))] else [])
            + Seen(segs) + [ReportEnd]
  {
    if !s.Pending() {
      ReportSeen(s.OnError(), segs, tag);
      assert s.log + [Failure] + [] == s.log + [Failure];
    } else {
      var g := Group(s.path, s.version, [], []);
      assert Anonymized([]) + AppendedItems([]) == [];
      RunSeen(s.OnError(), [g], segs, tag);
      var shown := if segs == [] || PathOf(segs[0]) != s.path then [Collapsed(g)] else [];
      SeenAfter(g, segs, shown);
      Associate(s.log + [Failure], shown, Seen(segs));
    }
  }
}
