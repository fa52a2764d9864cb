/**
 * AttributePathExpandIterator-Checked.cpp: both iterators driven in lockstep. A
 * failed comparison, which ends the process in the source, is the outcome `alive == false`.
 */
module CheckedIterator {
  import opened Ids
  import opened PathExpansion
  import opened ExpansionTheorems
  import opened ResetTheorems
  import Ember = EmberIterator
  import DataModel = DataModelIterator

  class Iterator {
    const dataModel: DataModel.Iterator
    const ember: Ember.Iterator

    ghost predicate Valid()
      reads this, dataModel, ember
    {
      && dataModel.Valid() && ember.Valid()
      && dataModel.tree == ember.tree && dataModel.request == ember.request
    }

    /** Both iterators are at the same position of a request without collisions. */
    ghost predicate InStep()
      reads this, dataModel, ember
    {
      Valid() && dataModel.cursor == ember.cursor && NoCollision(ember.tree, ember.request)
    }

    constructor (t: Tree, req: Request)
      requires ValidTree(t)
      ensures Valid() && fresh(dataModel) && fresh(ember)
      ensures ember.tree == t && ember.request == req
      ensures dataModel.cursor == ember.cursor == FirstFrom(t, req, 0, 0, 0)
    {
      dataModel := new DataModel.Iterator(t, req);
      ember := new Ember.Iterator(t, req);
    }

    /** Compares what the two iterators point at. */
    method CheckOutputsIdentical() returns (alive: bool)
      requires Valid()
      ensures ValidCursor(ember.tree, ember.request, ember.cursor)
      ensures ValidCursor(ember.tree, ember.request, dataModel.cursor)
      ensures alive == SameOutput(ember.tree, State(ember.request, ember.cursor), State(ember.request, dataModel.cursor))
    {
      var dmResult, dmPath := dataModel.Get();
      var emResult, emPath := ember.Get();
      alive := dmResult == emResult && (!dmResult || dmPath == emPath);
    }

    /** Moves both; the process goes on just when they agree, which iterators in step always do. */
    method Next() returns (alive: bool, more: bool)
      requires Valid()
      modifies dataModel, ember
      ensures Valid() && ember.request == old(ember.request)
      ensures ValidCursor(ember.tree, ember.request, old(ember.cursor))
      ensures ValidCursor(ember.tree, ember.request, old(dataModel.cursor))
      ensures ember.cursor == EmberStep(ember.tree, ember.request, old(ember.cursor))
      ensures dataModel.cursor == Step(ember.tree, ember.request, old(dataModel.cursor))
      ensures more == ember.cursor.At?
      ensures ValidCursor(ember.tree, ember.request, ember.cursor) && ValidCursor(ember.tree, ember.request, dataModel.cursor)
      ensures alive == SameOutput(ember.tree, State(ember.request, ember.cursor), State(ember.request, dataModel.cursor))
      ensures old(InStep()) ==> alive && InStep()
    {
      var dmResult := dataModel.Next();
      var emResult := ember.Next();
      if old(InStep()) {
        NotStuck(ember.tree, ember.request, old(ember.cursor));
      }
      alive := CheckOutputsIdentical();
      alive, more := alive && dmResult == emResult, emResult;
    }

    method ResetCurrentCluster() returns (alive: bool)
      requires Valid()
      modifies dataModel, ember
      ensures Valid() && ember.request == old(ember.request)
      ensures ValidCursor(ember.tree, ember.request, old(ember.cursor))
      ensures ValidCursor(ember.tree, ember.request, old(dataModel.cursor))
      ensures ember.cursor == Rewind(ember.tree, ember.request, old(ember.cursor))
      ensures dataModel.cursor == Rewind(ember.tree, ember.request, old(dataModel.cursor))
      ensures ValidCursor(ember.tree, ember.request, ember.cursor) && ValidCursor(ember.tree, ember.request, dataModel.cursor)
      ensures alive == SameOutput(ember.tree, State(ember.request, ember.cursor), State(ember.request, dataModel.cursor))
      ensures old(dataModel.cursor) == old(ember.cursor) ==> alive && dataModel.cursor == ember.cursor
    {
      dataModel.ResetCurrentCluster();
      ember.ResetCurrentCluster();
      alive := CheckOutputsIdentical();
    }

    method ResetTo(req: Request) returns (alive: bool)
      requires Valid()
      modifies dataModel, ember
      ensures Valid() && ember.request == req
      ensures alive && dataModel.cursor == ember.cursor == FirstFrom(ember.tree, req, 0, 0, 0)
    {
      dataModel.ResetTo(req);
      ember.ResetTo(req);
      alive := CheckOutputsIdentical();
    }
  }

  /** Any run of operations: without collisions the comparison never fails. */
  method RunChecked(t: Tree, req: Request, ops: seq<Op>) returns (alive: bool)
    requires ValidTree(t)
    ensures NoCollision(t, req) && RequestsClear(t, ops) ==> alive
  {
    var it := new Iterator(t, req);
    alive := it.CheckOutputsIdentical();
    for i := 0 to |ops|
      invariant it.Valid() && it.ember.tree == t && fresh(it.dataModel) && fresh(it.ember)
      invariant NoCollision(t, req) && RequestsClear(t, ops) ==> alive && it.InStep()
    {
      if !alive {
        return;
      }
      match ops[i] {
        case Next =>
          var more;
          alive, more := it.Next();
        case ResetCurrentCluster => alive := it.ResetCurrentCluster();
        case ResetTo(r) => alive := it.ResetTo(r);
      }
    }
  }

  /**
   * Moving over a whole request: the comparison never fails if and only if the request
   * has no collision, and then the iterators are exhausted at the end.
   */
  method DrainChecked(t: Tree, req: Request) returns (alive: bool)
    requires ValidTree(t)
    ensures alive <==> NoCollision(t, req)
  {
    var it := new Iterator(t, req);
    FirstFromValid(t, req, 0, 0, 0);
    ghost var i: nat, e: nat, c: nat := 0, 0, 0;
    ghost var collides := !NoCollision(t, req);
    if collides {
      i, e, c :| i < |req| && e < |t| && c < |t[e].clusters| && Collides(t, req, i, e, c);
      FirstFromNotPast(t, req, 0, 0, 0, i, e, c);
    }
    alive := it.CheckOutputsIdentical();
    var more, current := it.dataModel.Get();
    while alive && more
      invariant it.Valid() && fresh(it.dataModel) && fresh(it.ember) && it.ember.tree == t && it.ember.request == req
      invariant ValidCursor(t, req, it.dataModel.cursor) && more == it.dataModel.cursor.At?
      invariant ValidCursor(t, req, it.ember.cursor)
      invariant alive == SameOutput(t, State(req, it.ember.cursor), State(req, it.dataModel.cursor))
      invariant !collides ==> alive && it.InStep()
      invariant collides ==> i < |req| && e < |t| && c < |t[e].clusters| && Collides(t, req, i, e, c) && NotPast(it.ember.cursor, i, e, c)
      decreases |Remaining(t, req, it.dataModel.cursor)|
    {
      StepValid(t, req, it.dataModel.cursor);
      StepTakesOne(t, req, it.dataModel.cursor);
      if collides {
        EmberStepNotPast(t, req, it.ember.cursor, i, e, c);
      }
      var emberMore;
      alive, emberMore := it.Next();
      more, current := it.dataModel.Get();
    }
  }

  /** The paths that the index-based iterator still produces, until it ends. */
  method CollectEmber(it: Ember.Iterator) returns (outs: seq<Output>)
    requires it.Valid() && NoCollision(it.tree, it.request) && ValidCursor(it.tree, it.request, it.cursor)
    modifies it
    ensures outs == Remaining(it.tree, old(it.request), old(it.cursor))
  {
    ghost var t, req, start := it.tree, it.request, it.cursor;
    outs := [];
    var found, current := it.Get();
    while found
      invariant it.Valid() && it.request == req
      invariant ValidCursor(t, req, it.cursor) && found == it.cursor.At?
      invariant found ==> current == Current(t, req, it.cursor)
      invariant outs + Remaining(t, req, it.cursor) == Remaining(t, req, start)
      decreases |Remaining(t, req, it.cursor)|
    {
      ghost var cur := it.cursor;
      NotStuck(t, req, cur);
      StepValid(t, req, cur);
      StepTakesOne(t, req, cur);
      Associate(outs, [current], Remaining(t, req, Step(t, req, cur)));
      outs := outs + [current];
      var _ := it.Next();
      found, current := it.Get();
    }
  }

  /** The paths that the tree-walking iterator still produces, until it ends. */
  method CollectDataModel(it: DataModel.Iterator) returns (outs: seq<Output>)
    requires it.Valid() && ValidCursor(it.tree, it.request, it.cursor)
    modifies it
    ensures outs == Remaining(it.tree, old(it.request), old(it.cursor))
  {
    ghost var t, req, start := it.tree, it.request, it.cursor;
    outs := [];
    var found, current := it.Get();
    while found
      invariant it.Valid() && it.request == req
      invariant ValidCursor(t, req, it.cursor) && found == it.cursor.At?
      invariant found ==> current == Current(t, req, it.cursor)
      invariant outs + Remaining(t, req, it.cursor) == Remaining(t, req, start)
      decreases |Remaining(t, req, it.cursor)|
    {
      ghost var cur := it.cursor;
      StepValid(t, req, cur);
      StepTakesOne(t, req, cur);
      Associate(outs, [current], Remaining(t, req, Step(t, req, cur)));
      outs := outs + [current];
      var _ := it.Next();
      found, current := it.Get();
    }
  }

  /** Draining the index-based iterator yields the nested comprehension, which is what the request stands for, and ends. */
  method DrainEmber(t: Tree, req: Request) returns (outs: seq<Output>)
    requires ValidTree(t) && NoCollision(t, req)
    ensures outs == Expand(t, req, 0)
    ensures forall o :: o in outs <==> exists j :: 0 <= j < |req| && StandsFor(t, req[j], o)
  {
    var it := new Ember.Iterator(t, req);
    StartIsWhole(t, req);
    outs := CollectEmber(it);
    forall o ensures o in outs <==> exists j :: 0 <= j < |req| && StandsFor(t, req[j], o) {
      RequestContents(t, req, 0, o);
    }
  }

  /** Draining the tree-walking iterator yields the same comprehension for every request, and ends. */
  method DrainDataModel(t: Tree, req: Request) returns (outs: seq<Output>)
    requires ValidTree(t)
    ensures outs == Expand(t, req, 0)
    ensures forall o :: o in outs <==> exists j :: 0 <= j < |req| && StandsFor(t, req[j], o)
  {
    var it := new DataModel.Iterator(t, req);
    StartIsWhole(t, req);
    outs := CollectDataModel(it);
    forall o ensures o in outs <==> exists j :: 0 <= j < |req| && StandsFor(t, req[j], o) {
      RequestContents(t, req, 0, o);
    }
  }

  /** Resetting the cluster of the index-based iterator, wherever it stands: what it produces afterwards. */
  method ResumeEmber(t: Tree, req: Request, n: nat) returns (outs: seq<Output>)
    requires ValidTree(t) && NoCollision(t, req)
    ensures Resumed(t, req, n, outs)
  {
    var it := new Ember.Iterator(t, req);
    MovedNone(t, req);
    for j := 0 to n
      invariant it.Valid() && fresh(it) && it.tree == t && it.request == req
      invariant ValidCursor(t, req, it.cursor) && Moved(t, req, it.cursor, j)
    {
      MovedOne(t, req, it.cursor, j);
      NotStuck(t, req, it.cursor);
      var _ := it.Next();
    }
    RewindValid(t, req, it.cursor);
    ResetResumes(t, req, it.cursor, n);
    it.ResetCurrentCluster();
    outs := CollectEmber(it);
  }

  /** The same for the tree-walking iterator, for every request. */
  method ResumeDataModel(t: Tree, req: Request, n: nat) returns (outs: seq<Output>)
    requires ValidTree(t)
    ensures Resumed(t, req, n, outs)
  {
    var it := new DataModel.Iterator(t, req);
    MovedNone(t, req);
    for j := 0 to n
      invariant it.Valid() && fresh(it) && it.tree == t && it.request == req
      invariant ValidCursor(t, req, it.cursor) && Moved(t, req, it.cursor, j)
    {
      MovedOne(t, req, it.cursor, j);
      var _ := it.Next();
    }
    RewindValid(t, req, it.cursor);
    ResetResumes(t, req, it.cursor, n);
    it.ResetCurrentCluster();
    outs := CollectDataModel(it);
  }

  /**
   * A tree whose tables are within their limits and a request on which the two
   * iterators part: the cluster lists 65535 attributes and the request names the last.
   */
  lemma CollisionWitness() returns (t: Tree, req: Request)
    ensures ValidTree(t) && !NoCollision(t, req)
  {
    var attributes := seq(0xFFFF, i => 0x1_0000 + i);
    t := [Endpoint(1, true, [Cluster(6, attributes)])];
    req := [PathParams(INVALID_ENDPOINT, 6, 0x1_0000 + LAST_ATTRIBUTE_INDEX)];
    assert ValidCluster(t[0].clusters[0]);
    assert Collides(t, req, 0, 0, 0);
  }
}
