/**
 * TLV elements, the tokens they are written as, and a writer with a byte budget,
 * reserved bytes and a stack of open containers. A write that does not fit leaves
 * torn bytes behind, which only going back to a checkpoint removes.
 */
module TlvWriter {
  import opened Ids

  datatype Tag = Anonymous | Context(number: nat)

  datatype Kind = Structure | Array | List

  /** A TLV element: a value of so many bytes, or a container. */
  datatype Elem = Leaf(tag: Tag, bytes: nat, value: nat) | Node(tag: Tag, kind: Kind, children: seq<Elem>)

  datatype Token = Data(tag: Tag, bytes: nat, value: nat) | Open(tag: Tag, kind: Kind) | Close | Torn(bytes: nat)

  function Flat(e: Elem): seq<Token>
    decreases e, 0
  {
    match e
    case Leaf(tag, bytes, value) => [Data(tag, bytes, value)]
    case Node(tag, kind, children) => [Open(tag, kind)] + FlatAll(children) + [Close]
  }

  function FlatAll(es: seq<Elem>): seq<Token>
    decreases es, 1
  {
    if es == [] then [] else Flat(es[0]) + FlatAll(es[1..])
  }

  /** A control byte, and one more byte for a context tag. */
  function TagBytes(tag: Tag): nat {
    if tag.Anonymous? then 1 else 2
  }

  function TokenBytes(t: Token): nat {
    match t
    case Data(tag, bytes, _) => TagBytes(tag) + bytes
    case Open(tag, _) => TagBytes(tag)
    case Close => 1
    case Torn(bytes) => bytes
  }

  function Bytes(ts: seq<Token>): nat {
    if ts == [] then 0 else TokenBytes(ts[0]) + Bytes(ts[1..])
  }

  /** The bytes an element takes up. */
  function Size(e: Elem): nat {
    Bytes(Flat(e))
  }

  /** The same element under another tag, as `CopyElement` writes it. */
  function Retag(e: Elem, tag: Tag): Elem {
    match e
    case Leaf(_, bytes, value) => Leaf(tag, bytes, value)
    case Node(_, kind, children) => Node(tag, kind, children)
  }

  /** The same value, or a container of the same kind with the same children; only the tag may differ. */
  predicate SameContent(a: Elem, b: Elem) {
    match (a, b)
    case (Leaf(_, bytes, value), Leaf(_, bytes', value')) => bytes == bytes' && value == value'
    case (Node(_, kind, children), Node(_, kind', children')) => kind == kind' && children == children'
    case _ => false
  }

  lemma {:induction false} BytesAppend(a: seq<Token>, b: seq<Token>)
    ensures Bytes(a + b) == Bytes(a) + Bytes(b)
  {
    if a == [] {
      assert a + b == b;
    } else {
      assert (a + b)[1..] == a[1..] + b;
      BytesAppend(a[1..], b);
    }
  }

  lemma {:induction false} FlatAllAppend(a: seq<Elem>, b: seq<Elem>)
    ensures FlatAll(a + b) == FlatAll(a) + FlatAll(b)
  {
    if a == [] {
      assert a + b == b;
    } else {
      assert (a + b)[1..] == a[1..] + b;
      FlatAllAppend(a[1..], b);
    }
  }

  lemma FlatOne(e: Elem)
    ensures FlatAll([e]) == Flat(e)
  {
    assert [e][1..] == [];
    assert Flat(e) + [] == Flat(e);
  }

  // ---------------------------------------------------------------------------
  // Reading tokens back
  // ---------------------------------------------------------------------------

  /** The elements up to the end or to a closing token, and what follows them. */
  function Parse(ts: seq<Token>): (r: Option<(seq<Elem>, seq<Token>)>)
    ensures r.Some? ==> |r.value.1| <= |ts|
    decreases |ts|
  {
    if ts == [] || ts[0].Close? then Some(([], ts))
    else
      match ts[0]
      case Data(tag, bytes, value) =>
        (match Parse(ts[1..])
         case None => None
         case Some((es, rest)) => Some(([Leaf(tag, bytes, value)] + es, rest)))
      case Open(tag, kind) =>
        (match Parse(ts[1..])
         case None => None
         case Some((children, rest)) =>
           if rest == [] then None
           else
             match Parse(rest[1..])
             case None => None
             case Some((es, rest')) => Some(([Node(tag, kind, children)] + es, rest')))
      case _ => None
  }

  lemma ParseData(tag: Tag, bytes: nat, value: nat, tail: seq<Token>, es: seq<Elem>, rest: seq<Token>)
    requires Parse(tail) == Some((es, rest))
    ensures Parse([Data(tag, bytes, value)] + tail) == Some(([Leaf(tag, bytes, value)] + es, rest))
  {
    assert ([Data(tag, bytes, value)] + tail)[1..] == tail;
  }

  lemma ParseOpen(tag: Tag, kind: Kind, inside: seq<Token>, children: seq<Elem>, tail: seq<Token>, es: seq<Elem>, rest: seq<Token>)
    requires Parse(inside) == Some((children, [Close] + tail))
    requires Parse(tail) == Some((es, rest))
    ensures Parse([Open(tag, kind)] + inside) == Some(([Node(tag, kind, children)] + es, rest))
  {
    assert ([Open(tag, kind)] + inside)[1..] == inside;
    assert ([Close] + tail)[1..] == tail;
  }

  lemma NodeTokens(e: Elem, tail: seq<Token>)
    requires e.Node?
    ensures Flat(e) + tail == [Open(e.tag, e.kind)] + (FlatAll(e.children) + ([Close] + tail))
  {
    Associate([Open(e.tag, e.kind)] + FlatAll(e.children), [Close], tail);
    Associate([Open(e.tag, e.kind)], FlatAll(e.children), [Close] + tail);
  }

  /** What was written element by element is read back unchanged, whatever closes it. */
  lemma {:induction false} ParseFlat(es: seq<Elem>, rest: seq<Token>)
    requires rest == [] || rest[0].Close?
    ensures Parse(FlatAll(es) + rest) == Some((es, rest))
    decreases es
  {
    if es == [] {
      assert FlatAll(es) + rest == rest;
    } else {
      var e, tail := es[0], FlatAll(es[1..]) + rest;
      assert es == [e] + es[1..];
      ParseFlat(es[1..], rest);
      Associate(Flat(e), FlatAll(es[1..]), rest);
      if e.Leaf? {
        ParseData(e.tag, e.bytes, e.value, tail, es[1..], rest);
      } else {
        ParseFlat(e.children, [Close] + tail);
        NodeTokens(e, tail);
        ParseOpen(e.tag, e.kind, FlatAll(e.children) + ([Close] + tail), e.children, tail, es[1..], rest);
      }
    }
  }

  // ---------------------------------------------------------------------------
  // The writer
  // ---------------------------------------------------------------------------

  datatype Error = NoError | NoMemory | IncorrectState | InvalidFabric | EncodingFault

  datatype Writer = Writer(remaining: nat, reserved: nat, open: seq<Kind>, content: seq<Token>) {

    function Reserve(n: nat): (Error, Writer) {
      if remaining < n then (NoMemory, this) else (NoError, this.(remaining := remaining - n, reserved := reserved + n))
    }

    function Unreserve(n: nat): (Error, Writer) {
      if reserved < n then (NoMemory, this) else (NoError, this.(remaining := remaining + n, reserved := reserved - n))
    }

    /** Writes one token; too little room leaves as many bytes of it as fit. */
    function Put(t: Token): (Error, Writer) {
      if t.Close? && open == [] then (IncorrectState, this)
      else
        var stack := if t.Close? then open[..|open| - 1] else open;
        if TokenBytes(t) > remaining then
          (NoMemory, Writer(0, reserved, stack, content + [Torn(remaining)]))
        else
          (NoError, Writer(remaining - TokenBytes(t), reserved, if t.Open? then stack + [t.kind] else stack, content + [t]))
    }

    /** Writes tokens until one fails. */
    function PutAll(ts: seq<Token>): (Error, Writer)
      decreases |ts|
    {
      if ts == [] then (NoError, this)
      else
        var (err, w) := Put(ts[0]);
        if err != NoError then (err, w) else w.PutAll(ts[1..])
    }
  }

  /** The containers that are open after the tokens, unless they close more than was open. */
  function OpenAfter(open: seq<Kind>, ts: seq<Token>): Option<seq<Kind>>
    decreases |ts|
  {
    if ts == [] then Some(open)
    else if ts[0].Close? then (if open == [] then None else OpenAfter(open[..|open| - 1], ts[1..]))
    else OpenAfter(if ts[0].Open? then open + [ts[0].kind] else open, ts[1..])
  }

  /** Tokens that close no more than is open are all written if they fit, and fail for lack of room if not. */
  lemma {:induction false} PutAllFits(w: Writer, ts: seq<Token>)
    requires OpenAfter(w.open, ts).Some?
    ensures if Bytes(ts) <= w.remaining
            then w.PutAll(ts) ==
                 (NoError, Writer(w.remaining - Bytes(ts), w.reserved, OpenAfter(w.open, ts).value, w.content + ts))
            else w.PutAll(ts).0 == NoMemory
    decreases |ts|
  {
    if ts == [] {
      assert w.content + ts == w.content;
    } else {
      var (err, w') := w.Put(ts[0]);
      if err == NoError {
        PutAllFits(w', ts[1..]);
        assert w'.content + ts[1..] == w.content + ts;
      }
    }
  }

  /** If tokens fit, so does every beginning of them. */
  lemma {:induction false} PutSomeFits(w: Writer, ts: seq<Token>, k: nat)
    requires OpenAfter(w.open, ts).Some? && Bytes(ts) <= w.remaining && k <= |ts|
    ensures w.PutAll(ts[..k]).0 == NoError
    decreases |ts|
  {
    if k > 0 {
      var (err, w') := w.Put(ts[0]);
      assert ts[..k][1..] == ts[1..][..k - 1];
      PutSomeFits(w', ts[1..], k - 1);
    }
  }

  lemma {:induction false} OpenAfterAppend(open: seq<Kind>, a: seq<Token>, b: seq<Token>)
    requires OpenAfter(open, a).Some?
    ensures OpenAfter(open, a + b) == OpenAfter(OpenAfter(open, a).value, b)
    decreases |a|
  {
    if a == [] {
      assert a + b == b;
    } else {
      assert (a + b)[1..] == a[1..] + b;
      OpenAfterAppend(if a[0].Close? then open[..|open| - 1] else if a[0].Open? then open + [a[0].kind] else open, a[1..], b);
    }
  }

  /** Whole elements leave the open containers as they were. */
  lemma {:induction false} ElementsClose(open: seq<Kind>, es: seq<Elem>)
    ensures OpenAfter(open, FlatAll(es)) == Some(open)
    decreases es, 1
  {
    if es != [] {
      ElementCloses(open, es[0]);
      ElementsClose(open, es[1..]);
      OpenAfterAppend(open, Flat(es[0]), FlatAll(es[1..]));
    }
  }

  lemma {:induction false} ElementCloses(open: seq<Kind>, e: Elem)
    ensures OpenAfter(open, Flat(e)) == Some(open)
    decreases e, 0
  {
    if e.Node? {
      var inside := open + [e.kind];
      ElementsClose(inside, e.children);
      OpenAfterAppend(inside, FlatAll(e.children), [Close]);
      assert Flat(e)[1..] == FlatAll(e.children) + [Close];
      assert inside[..|inside| - 1] == open;
      assert [Close][1..] == [];
    }
  }

  /** An element is written whole or fails for lack of room. */
  lemma PutElement(w: Writer, e: Elem)
    ensures if Size(e) <= w.remaining
            then w.PutAll(Flat(e)) == (NoError, Writer(w.remaining - Size(e), w.reserved, w.open, w.content + Flat(e)))
            else w.PutAll(Flat(e)).0 == NoMemory
  {
    ElementCloses(w.open, e);
    PutAllFits(w, Flat(e));
  }
}
