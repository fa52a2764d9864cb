/** ChunkedWriteCallback: merges the responses to a chunked list write into one response. */
module ChunkedWrite {
  import opened Ids

  datatype Status = Success | Failure(code: nat)

  /** The status of `CHIP_ERROR_INCORRECT_STATE`: a general failure. */
  const INCORRECT_STATE := Failure(1)

  datatype Response = Response(path: AttributePath, op: ListOp, status: Status) {
    predicate IsListItemOperation() {
      op != NotList && op != ReplaceAll
    }

    /** The response appends to the list that is being written at the path. */
    predicate Appends(to: AttributePath) {
      op == AppendItem && path == to
    }
  }

  /** What the application is told. */
  datatype Event = Answer(path: AttributePath, status: Status) | Error(error: nat) | Done

  // ---------------------------------------------------------------------------
  // Groups of responses
  // ---------------------------------------------------------------------------

  type Group = g: seq<Response> | g != [] witness [Response(AttributePath(0, 0, 0), NotList, Success)]

  /** Every response goes to the group before it if it appends on its path, and opens a new group otherwise. */
  function Groups(xs: seq<Response>): seq<Group> {
    if xs == [] then []
    else
      var gs, x := Groups(xs[..|xs| - 1]), xs[|xs| - 1];
      if gs != [] && x.Appends(gs[|gs| - 1][0].path) then gs[..|gs| - 1] + [gs[|gs| - 1] + [x]] else gs + [[x]]
  }

  function Flatten(gs: seq<Group>): seq<Response> {
    if gs == [] then [] else Flatten(gs[..|gs| - 1]) + gs[|gs| - 1]
  }

  /** A response and the appends on its path that follow it. */
  ghost predicate WellFormed(g: Group) {
    forall j :: 0 < j < |g| ==> g[j].op == AppendItem && g[j].path == g[0].path
  }

  /** The response could not have gone to the group. */
  ghost predicate Apart(g: Group, x: Response) {
    x.op != AppendItem || x.path != g[0].path
  }

  ghost predicate Splits(gs: seq<Group>, xs: seq<Response>) {
    && Flatten(gs) == xs
    && (forall i :: 0 <= i < |gs| ==> WellFormed(gs[i]))
    && (forall i :: 0 <= i < |gs| - 1 ==> Apart(gs[i], gs[i + 1][0]))
  }

  lemma GroupOpens(gs: seq<Group>, xs: seq<Response>, x: Response)
    requires Splits(gs, xs) && (gs == [] || Apart(gs[|gs| - 1], x))
    ensures Splits(gs + [[x]], xs + [x])
  {
    assert (gs + [[x]])[..|gs|] == gs;
  }

  lemma GroupGrows(gs: seq<Group>, xs: seq<Response>, x: Response)
    requires Splits(gs, xs) && gs != [] && !Apart(gs[|gs| - 1], x)
    ensures Splits(gs[..|gs| - 1] + [gs[|gs| - 1] + [x]], xs + [x])
  {
    var front, last := gs[..|gs| - 1], gs[|gs| - 1];
    var gs' := front + [last + [x]];
    assert gs'[..|front|] == front;
    Associate(Flatten(front), last, [x]);
    forall i | 0 <= i < |gs'| - 1 ensures Apart(gs'[i], gs'[i + 1][0]) {
      assert Apart(gs[i], gs[i + 1][0]) && gs'[i] == gs[i] && gs'[i + 1][0] == gs[i + 1][0];
    }
  }

  /**
   * The groups split the stream, in order and without loss: a group is a response and the
   * appends on its path that follow it, and the next group begins with anything else.
   */
  lemma {:induction false} GroupsSplit(xs: seq<Response>)
    ensures Splits(Groups(xs), xs)
  {
    if xs != [] {
      var front, x := xs[..|xs| - 1], xs[|xs| - 1];
      var gs := Groups(front);
      GroupsSplit(front);
      assert xs == front + [x];
      if gs != [] && x.Appends(gs[|gs| - 1][0].path) {
        GroupGrows(gs, front, x);
      } else {
        GroupOpens(gs, front, x);
      }
    }
  }

  function FirstFailure(g: seq<Response>): Status {
    if g == [] then Success else if g[0].status.Failure? then g[0].status else FirstFailure(g[1..])
  }

  /** The single answer to a group. */
  function AnswerTo(g: Group): Event {
    Answer(g[0].path, if g[0].IsListItemOperation() then INCORRECT_STATE else FirstFailure(g))
  }

  function Answers(gs: seq<Group>): seq<Event> {
    if gs == [] then [] else Answers(gs[..|gs| - 1]) + [AnswerTo(gs[|gs| - 1])]
  }

  lemma {:induction false} SuccessIff(g: seq<Response>)
    ensures FirstFailure(g).Success? <==> forall i :: 0 <= i < |g| ==> g[i].status.Success?
  {
    if g != [] {
      SuccessIff(g[1..]);
      assert g == [g[0]] + g[1..];
    }
  }

  /** A group is answered with success just when a plain or whole-list write opened it and all of it succeeded. */
  lemma AnsweredSuccess(g: Group)
    ensures AnswerTo(g).status.Success? <==>
            (g[0].op == NotList || g[0].op == ReplaceAll) && forall i :: 0 <= i < |g| ==> g[i].status.Success?
  {
    SuccessIff(g);
  }

  lemma {:induction false} FirstFailureIs(g: seq<Response>) returns (i: nat)
    requires FirstFailure(g).Failure?
    ensures i < |g| && g[i].status == FirstFailure(g) && forall k :: 0 <= k < i ==> g[k].status.Success?
  {
    if g[0].status.Failure? {
      i := 0;
    } else {
      i := FirstFailureIs(g[1..]);
      i := i + 1;
    }
  }

  /** Any other answer is on the path of the group too, and is its first failure, or a general one if an item was written on its own. */
  lemma AnsweredFailure(g: Group)
    ensures AnswerTo(g).Answer? && AnswerTo(g).path == g[0].path
    ensures g[0].op != NotList && g[0].op != ReplaceAll ==> AnswerTo(g).status == Failure(1)
    ensures (g[0].op == NotList || g[0].op == ReplaceAll) && AnswerTo(g).status.Failure? ==>
              exists i :: 0 <= i < |g| && g[i].status == AnswerTo(g).status && forall k :: 0 <= k < i ==> g[k].status.Success?
  {
    if FirstFailure(g).Failure? {
      var i := FirstFailureIs(g);
    }
  }

  lemma {:induction false} FirstFailureAppend(g: seq<Response>, x: Response)
    ensures FirstFailure(g + [x]) == if FirstFailure(g).Failure? then FirstFailure(g) else x.status
  {
    if g == [] {
      assert g + [x] == [x];
    } else {
      assert (g + [x])[1..] == g[1..] + [x];
      FirstFailureAppend(g[1..], x);
    }
  }

  lemma FirstFailureOne(x: Response)
    ensures FirstFailure([x]) == x.status
  {
    assert [] + [x] == [x];
    FirstFailureAppend([], x);
  }

  // ---------------------------------------------------------------------------
  // The callback
  // ---------------------------------------------------------------------------

  datatype State = State(pending: Option<(AttributePath, Status)>, told: seq<Event>)

  function Respond(s: State, x: Response): State {
    if s.pending.Some? && x.Appends(s.pending.value.0) then
      if s.pending.value.1.Success? then s.(pending := Some((s.pending.value.0, x.status))) else s
    else
      State(Some((x.path, if x.IsListItemOperation() then INCORRECT_STATE else x.status)),
            s.told + if s.pending.Some? then [Answer(s.pending.value.0, s.pending.value.1)] else [])
  }

  function Finish(s: State): State {
    State(None, s.told + (if s.pending.Some? then [Answer(s.pending.value.0, s.pending.value.1)] else []) + [Done])
  }

  datatype Input = Responded(response: Response) | Failed(error: nat)

  function Step(s: State, input: Input): State {
    match input
    case Responded(x) => Respond(s, x)
    case Failed(e) => s.(told := s.told + [Error(e)])
  }

  /** The exchange so far. */
  function Feed(s: State, inputs: seq<Input>): State {
    if inputs == [] then s else Step(Feed(s, inputs[..|inputs| - 1]), inputs[|inputs| - 1])
  }

  /** The whole exchange. */
  function Run(s: State, inputs: seq<Input>): State {
    Finish(Feed(s, inputs))
  }

  class ChunkedWriteCallback {
    var path: Option<AttributePath>
    var status: Status
    ghost var told: seq<Event>

    ghost function Abstract(): State
      reads this
    {
      State(if path.Some? then Some((path.value, status)) else None, told)
    }

    constructor ()
      ensures Abstract() == State(None, [])
    {
      path, status, told := None, Success, [];
    }

    method IsAppendingToLastItem(x: Response) returns (appending: bool)
      ensures appending == (path.Some? && x.Appends(path.value))
    {
      if !x.IsListItemOperation() {
        return false;
      }
      if path.None? || path.value != x.path {
        return false;
      }
      return x.op == AppendItem;
    }

    method OnResponse(x: Response)
      modifies this
      ensures Abstract() == Respond(old(Abstract()), x)
    {
      var newStatus := x.status;
      if path.Some? {
        var appending := IsAppendingToLastItem(x);
        if appending {
          if status.Success? {
            status := newStatus;
          }
          return;
        }
        told := told + [Answer(path.value, status)];
      }
      if x.IsListItemOperation() {
        newStatus := INCORRECT_STATE;
      }
      path := Some(x.path);
      status := newStatus;
    }

    method OnError(error: nat)
      modifies this`told
      ensures told == old(told) + [Error(error)]
    {
      told := told + [Error(error)];
    }

    method OnDone()
      modifies this
      ensures Abstract() == Finish(old(Abstract()))
    {
      if path.Some? {
        told := told + [Answer(path.value, status)];
      }
      path := None;
      status := Success;
      told := told + [Done];
    }

    /** A whole exchange, ended by `OnDone`. */
    method Exchange(inputs: seq<Input>)
      modifies this
      ensures Abstract() == Run(old(Abstract()), inputs)
    {
      for i := 0 to |inputs|
        invariant Abstract() == Feed(old(Abstract()), inputs[..i])
      {
        assert inputs[..i + 1][..i] == inputs[..i];
        match inputs[i] {
          case Responded(x) => OnResponse(x);
          case Failed(e) => OnError(e);
        }
      }
      assert inputs[..|inputs|] == inputs;
      OnDone();
    }
  }

  // ---------------------------------------------------------------------------
  // What the application is told over a whole exchange
  // ---------------------------------------------------------------------------

  function ResponsesOf(inputs: seq<Input>): seq<Response> {
    if inputs == [] then []
    else
      var front, x := ResponsesOf(inputs[..|inputs| - 1]), inputs[|inputs| - 1];
      if x.Responded? then front + [x.response] else front
  }

  function ErrorsOf(inputs: seq<Input>): seq<Event> {
    if inputs == [] then []
    else
      var front, x := ErrorsOf(inputs[..|inputs| - 1]), inputs[|inputs| - 1];
      if x.Failed? then front + [Error(x.error)] else front
  }

  function AnswersIn(told: seq<Event>): seq<Event> {
    if told == [] then []
    else
      var front, e := AnswersIn(told[..|told| - 1]), told[|told| - 1];
      if e.Answer? then front + [e] else front
  }

  function ErrorsIn(told: seq<Event>): seq<Event> {
    if told == [] then []
    else
      var front, e := ErrorsIn(told[..|told| - 1]), told[|told| - 1];
      if e.Error? then front + [e] else front
  }

  lemma OneMore(told: seq<Event>, e: Event)
    ensures AnswersIn(told + [e]) == if e.Answer? then AnswersIn(told) + [e] else AnswersIn(told)
    ensures ErrorsIn(told + [e]) == if e.Error? then ErrorsIn(told) + [e] else ErrorsIn(told)
  {
    assert (told + [e])[..|told|] == told;
  }

  /** The groups that a stream has left behind, without the one that is still open. */
  function Closed(gs: seq<Group>): seq<Group> {
    if gs == [] then [] else gs[..|gs| - 1]
  }

  /** The last group is open, with the answer that it would get now. */
  ghost predicate Holds(s: State, gs: seq<Group>) {
    s.pending == if gs == [] then None else Some((AnswerTo(gs[|gs| - 1]).path, AnswerTo(gs[|gs| - 1]).status))
  }

  lemma RespondHolds(s: State, xs: seq<Response>, x: Response)
    requires Holds(s, Groups(xs))
    ensures var gs, gs' := Groups(xs), Groups(xs + [x]);
            && Holds(Respond(s, x), gs')
            && if |gs'| == |gs| || gs == [] then Respond(s, x).told == s.told && Closed(gs') == Closed(gs)
               else Respond(s, x).told == s.told + [AnswerTo(gs[|gs| - 1])] && Closed(gs') == gs
  {
    var gs, gs' := Groups(xs), Groups(xs + [x]);
    assert (xs + [x])[..|xs|] == xs && (xs + [x])[|xs|] == x;
    FirstFailureOne(x);
    if gs != [] {
      FirstFailureAppend(gs[|gs| - 1], x);
    }
    assert Closed(gs') == if |gs'| == |gs| then Closed(gs) else gs;
    assert s.told + [] == s.told;
  }

  /**
   * At every moment of an exchange, the application was told the answer to every group
   * that another response has ended, in order, and every error, and nothing else.
   */
  lemma {:induction false} ToldSoFar(told: seq<Event>, inputs: seq<Input>) returns (body: seq<Event>)
    ensures Feed(State(None, told), inputs).told == told + body && Done !in body
    ensures AnswersIn(body) == Answers(Closed(Groups(ResponsesOf(inputs)))) && ErrorsIn(body) == ErrorsOf(inputs)
    ensures Holds(Feed(State(None, told), inputs), Groups(ResponsesOf(inputs)))
  {
    if inputs == [] {
      body := [];
    } else {
      var front, x := inputs[..|inputs| - 1], inputs[|inputs| - 1];
      body := ToldSoFar(told, front);
      body := ToldOneMore(told, body, Feed(State(None, told), front), ResponsesOf(front), x);
    }
  }

  lemma ToldOneMore(told: seq<Event>, body: seq<Event>, s: State, xs: seq<Response>, x: Input) returns (body': seq<Event>)
    requires s.told == told + body && Done !in body && AnswersIn(body) == Answers(Closed(Groups(xs))) && Holds(s, Groups(xs))
    ensures Step(s, x).told == told + body' && Done !in body'
    ensures var xs' := if x.Responded? then xs + [x.response] else xs;
            AnswersIn(body') == Answers(Closed(Groups(xs'))) && Holds(Step(s, x), Groups(xs'))
    ensures ErrorsIn(body') == if x.Failed? then ErrorsIn(body) + [Error(x.error)] else ErrorsIn(body)
  {
    body' := body;
    if x.Failed? {
      body' := body + [Error(x.error)];
      OneMore(body, Error(x.error));
      Associate(told, body, [Error(x.error)]);
    } else {
      var gs, gs' := Groups(xs), Groups(xs + [x.response]);
      RespondHolds(s, xs, x.response);
      if |gs'| != |gs| && gs != [] {
        var answer := AnswerTo(gs[|gs| - 1]);
        body' := body + [answer];
        OneMore(body, answer);
        Associate(told, body, [answer]);
      }
    }
  }

  /**
   * Over every exchange the application gets exactly one answer for each group, in order,
   * every error, in order, and then, once and last, the end.
   */
  lemma OneAnswerPerGroup(told: seq<Event>, inputs: seq<Input>) returns (body: seq<Event>)
    ensures Run(State(None, told), inputs).told == told + body + [Done] && Done !in body
    ensures AnswersIn(body) == Answers(Groups(ResponsesOf(inputs))) && ErrorsIn(body) == ErrorsOf(inputs)
    ensures Run(State(None, told), inputs).pending.None?
  {
    var gs := Groups(ResponsesOf(inputs));
    body := ToldSoFar(told, inputs);
    if gs != [] {
      var answer := AnswerTo(gs[|gs| - 1]);
      OneMore(body, answer);
      Associate(told, body, [answer]);
      body := body + [answer];
    } else {
      assert told + body + [] == told + body;
    }
  }
}
