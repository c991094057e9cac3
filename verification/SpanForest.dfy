/**
 Forests of named, timed spans and their linear form.  A trace is a sequence of span
 events, each naming the spans that enclose it; it is well nested when it is the
 depth-first walk of a forest.
 */
module SpanForest {
  import opened Options

  datatype Kind = Open | Close

  /**
   A span, its first child and its next sibling.  `selfOnOpen` and `selfOnClose` say whether
   the record of that event lists the span itself as its innermost ancestor.
   */
  datatype Forest =
    | Leaf
    | Node(name: string, from: int, until: int, selfOnOpen: bool, selfOnClose: bool,
           children: Forest, siblings: Forest)

  datatype SpanEvent = SpanEvent(kind: Kind, name: string, ancestors: seq<string>, at: int)

  /** A span event without its context. */
  datatype Mark = Mark(kind: Kind, name: string, at: int)

  function Around(path: seq<string>, name: string, self: bool): seq<string> {
    if self then path + [name] else path
  }

  /** The depth-first walk of `f` beneath `path`, followed by `tail`. */
  function Walk(f: Forest, path: seq<string>, tail: seq<SpanEvent>): seq<SpanEvent>
    decreases f
  {
    match f
    case Leaf => tail
    case Node(name, from, until, selfOnOpen, selfOnClose, children, siblings) =>
      var close := SpanEvent(Close, name, Around(path, name, selfOnClose), until);
      [SpanEvent(Open, name, Around(path, name, selfOnOpen), from)]
      + Walk(children, path + [name], [close] + Walk(siblings, path, tail))
  }

  // ---------------------------------------------------------------- the nesting automaton

  /** The open spans after `e`, unless `e` does not fit them. */
  function Nest(stack: seq<string>, e: SpanEvent): Option<seq<string>> {
    match e.kind
    case Open =>
      if e.ancestors == stack || e.ancestors == stack + [e.name] then Some(stack + [e.name]) else None
    case Close =>
      if stack == [] then None
      else
        var outer := stack[..|stack| - 1];
        if stack[|stack| - 1] == e.name && (e.ancestors == outer || e.ancestors == outer + [e.name])
        then Some(outer) else None
  }

  function NestAll(stack: seq<string>, evs: seq<SpanEvent>): Option<seq<string>>
    decreases |evs|
  {
    if evs == [] then Some(stack)
    else
      match Nest(stack, evs[0])
      case None => None
      case Some(stack') => NestAll(stack', evs[1..])
  }

  lemma NestCons(stack: seq<string>, e: SpanEvent, evs: seq<SpanEvent>)
    ensures NestAll(stack, [e] + evs)
            == match Nest(stack, e) case None => None case Some(stack') => NestAll(stack', evs)
  {
    assert ([e] + evs)[1..] == evs;
  }

  /** A walk leaves the open spans as it found them. */
  lemma {:induction false} WalkNests(f: Forest, path: seq<string>, tail: seq<SpanEvent>)
    ensures NestAll(path, Walk(f, path, tail)) == NestAll(path, tail)
    decreases f
  {
    match f
    case Leaf =>
    case Node(name, from, until, selfOnOpen, selfOnClose, children, siblings) =>
      var close := SpanEvent(Close, name, Around(path, name, selfOnClose), until);
      var after := [close] + Walk(siblings, path, tail);
      NestCons(path, SpanEvent(Open, name, Around(path, name, selfOnOpen), from), Walk(children, path + [name], after));
      WalkNests(children, path + [name], after);
      assert (path + [name])[..|path|] == path;
      NestCons(path + [name], close, Walk(siblings, path, tail));
      WalkNests(siblings, path, tail);
  }

  /**
   Whatever closes exactly the spans of `path` starts with the walk of some forest
   beneath it, and the rest still closes `path`.
   */
  lemma {:induction false} NestedIsWalk(path: seq<string>, evs: seq<SpanEvent>)
    returns (f: Forest, rest: seq<SpanEvent>)
    requires NestAll(path, evs) == Some([])
    ensures evs == Walk(f, path, rest)
    ensures |rest| <= |evs| && NestAll(path, rest) == Some([])
    ensures rest == [] || rest[0].kind == Close
    decreases |evs|
  {
    if evs == [] || evs[0].kind == Close {
      f, rest := Leaf, evs;
    } else {
      var e := evs[0];
      var inner := path + [e.name];
      var children, after := NestedIsWalk(inner, evs[1..]);
      var close := after[0];
      assert inner[..|path|] == path;
      var siblings, rest' := NestedIsWalk(path, after[1..]);
      rest := rest';
      f := Node(e.name, e.at, close.at, e.ancestors != path, close.ancestors != path, children, siblings);
      assert after == [close] + Walk(siblings, path, rest);
      assert evs == [e] + evs[1..];
    }
  }

  // ---------------------------------------------------------------- the tree behind the marks

  /** The forest as a profile shows it: without the recording style. */
  function Plain(f: Forest): Forest {
    match f
    case Leaf => Leaf
    case Node(name, from, until, _, _, children, siblings) =>
      Node(name, from, until, false, false, Plain(children), Plain(siblings))
  }

  /** Moves every time of `f` by `d`. */
  function Shift(f: Forest, d: int): Forest {
    match f
    case Leaf => Leaf
    case Node(name, from, until, o, c, children, siblings) =>
      Node(name, from + d, until + d, o, c, Shift(children, d), Shift(siblings, d))
  }

  datatype Parsed = Parsed(forest: Forest, rest: seq<Mark>)

  /** Rebuilds spans until the marks end or an enclosing span closes. */
  function Parse(ms: seq<Mark>): (p: Parsed)
    ensures |p.rest| <= |ms|
    decreases |ms|
  {
    if ms == [] || ms[0].kind == Close then Parsed(Leaf, ms)
    else
      var inner := Parse(ms[1..]);
      if inner.rest == [] then Parsed(Leaf, ms)
      else
        var outer := Parse(inner.rest[1..]);
        Parsed(Node(ms[0].name, ms[0].at, inner.rest[0].at, false, false, inner.forest, outer.forest), outer.rest)
  }

  /** The marks of `evs`, with every time moved by `d`. */
  function MarksOf(evs: seq<SpanEvent>, d: int): seq<Mark> {
    if evs == [] then [] else [Mark(evs[0].kind, evs[0].name, evs[0].at + d)] + MarksOf(evs[1..], d)
  }

  lemma MarksCons(e: SpanEvent, evs: seq<SpanEvent>, d: int)
    ensures MarksOf([e] + evs, d) == [Mark(e.kind, e.name, e.at + d)] + MarksOf(evs, d)
  {
    assert ([e] + evs)[1..] == evs;
  }

  lemma ParseNode(open: Mark, inner: seq<Mark>, children: Forest, close: Mark, outer: seq<Mark>, siblings: Forest,
                  rest: seq<Mark>)
    requires open.kind == Open && Parse(inner) == Parsed(children, [close] + outer)
             && Parse(outer) == Parsed(siblings, rest)
    ensures Parse([open] + inner) == Parsed(Node(open.name, open.at, close.at, false, false, children, siblings), rest)
  {
    assert ([open] + inner)[1..] == inner && ([close] + outer)[1..] == outer;
  }

  lemma ParseMarksOfNode(open: SpanEvent, inner: seq<SpanEvent>, cf: Forest, close: SpanEvent, outer: seq<SpanEvent>,
                         sf: Forest, rest: seq<Mark>, d: int)
    requires open.kind == Open
    requires Parse(MarksOf(inner, d)) == Parsed(cf, MarksOf([close] + outer, d))
             && Parse(MarksOf(outer, d)) == Parsed(sf, rest)
    ensures Parse(MarksOf([open] + inner, d))
            == Parsed(Node(open.name, open.at + d, close.at + d, false, false, cf, sf), rest)
  {
    MarksCons(open, inner, d);
    MarksCons(close, outer, d);
    ParseNode(Mark(Open, open.name, open.at + d), MarksOf(inner, d), cf,
              Mark(close.kind, close.name, close.at + d), MarksOf(outer, d), sf, rest);
  }

  lemma WalkUnfolds(f: Forest, path: seq<string>, tail: seq<SpanEvent>, open: SpanEvent, close: SpanEvent)
    requires f.Node? && open == SpanEvent(Open, f.name, Around(path, f.name, f.selfOnOpen), f.from)
    requires close == SpanEvent(Close, f.name, Around(path, f.name, f.selfOnClose), f.until)
    ensures Walk(f, path, tail) == [open] + Walk(f.children, path + [f.name], [close] + Walk(f.siblings, path, tail))
  {
  }

  lemma ShiftPlainUnfolds(f: Forest, d: int)
    requires f.Node?
    ensures Shift(Plain(f), d) == Node(f.name, f.from + d, f.until + d, false, false,
                                       Shift(Plain(f.children), d), Shift(Plain(f.siblings), d))
  {
  }

  /** Parsing the marks of a walk gives back its forest, whatever closing mark follows. */
  lemma {:induction false} ParseUndoesWalk(f: Forest, path: seq<string>, tail: seq<SpanEvent>, d: int)
    requires tail == [] || tail[0].kind == Close
    ensures Parse(MarksOf(Walk(f, path, tail), d)) == Parsed(Shift(Plain(f), d), MarksOf(tail, d))
    decreases f
  {
    if f.Node? {
      var open := SpanEvent(Open, f.name, Around(path, f.name, f.selfOnOpen), f.from);
      var close := SpanEvent(Close, f.name, Around(path, f.name, f.selfOnClose), f.until);
      var outer := Walk(f.siblings, path, tail);
      var inner := Walk(f.children, path + [f.name], [close] + outer);
      ParseUndoesWalk(f.children, path + [f.name], [close] + outer, d);
      ParseUndoesWalk(f.siblings, path, tail, d);
      WalkUnfolds(f, path, tail, open, close);
      ShiftPlainUnfolds(f, d);
      ParseMarksOfNode(open, inner, Shift(Plain(f.children), d), close, outer, Shift(Plain(f.siblings), d),
        MarksOf(tail, d), d);
    }
  }

  /** The automaton, started with no open span, accepts exactly the walks of forests. */
  lemma NestedIffForest(evs: seq<SpanEvent>)
    ensures NestAll([], evs) == Some([]) <==> exists f :: evs == Walk(f, [], [])
  {
    if NestAll([], evs) == Some([]) {
      var f, rest := NestedIsWalk([], evs);
      assert rest == [];
    }
    if f :| evs == Walk(f, [], []) {
      WalkNests(f, [], []);
    }
  }

  /** The recording style too is fixed by the events. */
  lemma {:induction false} WalkIsInjective(f: Forest, g: Forest, path: seq<string>, tail: seq<SpanEvent>,
                                           tail': seq<SpanEvent>)
    requires Walk(f, path, tail) == Walk(g, path, tail')
    requires (tail == [] || tail[0].kind == Close) && (tail' == [] || tail'[0].kind == Close)
    ensures f == g && tail == tail'
    decreases f
  {
    match f
    case Leaf =>
    case Node(name, from, until, selfOnOpen, selfOnClose, children, siblings) =>
      var w := Walk(f, path, tail);
      assert w[0].kind == Open && g.Node?;
      assert |w[0].ancestors| == |path| + if selfOnOpen then 1 else 0;
      var close := SpanEvent(Close, name, Around(path, name, selfOnClose), until);
      var close' := SpanEvent(Close, g.name, Around(path, g.name, g.selfOnClose), g.until);
      var after, after' := [close] + Walk(siblings, path, tail), [close'] + Walk(g.siblings, path, tail');
      assert w[1..] == Walk(children, path + [name], after) == Walk(g.children, path + [name], after');
      WalkIsInjective(children, g.children, path + [name], after, after');
      assert close == after[0] == after'[0] == close';
      assert |close.ancestors| == |path| + if selfOnClose then 1 else 0;
      assert after[1..] == after'[1..];
      WalkIsInjective(siblings, g.siblings, path, tail, tail');
  }
}
