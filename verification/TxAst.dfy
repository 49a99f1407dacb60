/** Values that may be missing. */
module Wrappers {
  datatype Option<+T> = None | Some(value: T)
}

/** The syntax trees the transaction-safety analyser walks. */
module TxAst {
  import opened Wrappers

  /** One ESTree node. The analyser gives a rule to some node types and walks every other type child by child. */
  datatype Node =
    | Ident(name: string)
    | Text(text: string)
    | Null
      // any other node type whose children are evaluated in order: await, expression statement, declaration, array, ...
    | Composite(parts: seq<Node>)
    | Object(properties: seq<Node>)
    | Property(computed: bool, key: Node, value: Node)
      // `line` is the line of the property name
    | Member(computed: bool, receiver: Node, property: Node, line: nat)
    | Not(operand: Node)
    | Call(callee: Node, arguments: seq<Node>, line: nat)
    | Function(body: Node)
    | Return(argument: Option<Node>)
    | Throw(error: Node)
    | Block(statements: seq<Node>)
      // an if statement, a conditional expression or a short-circuit operator
    | If(test: Node, consequent: Node, alternate: Option<Node>)
      // any loop: the head is evaluated before each round
    | Loop(head: Node, body: Node)
    | Break
    | Continue
    | Try(block: Node, handler: Option<Catch>, finalizer: Option<Node>)

  /** A catch clause and the line it starts on. */
  datatype Catch = Catch(body: Node, line: nat)

  function Listed(o: Option<Node>): seq<Node> {
    if o.Some? then [o.value] else []
  }

  function HandlerBody(h: Option<Catch>): seq<Node> {
    if h.Some? then [h.value.body] else []
  }

  /** The child nodes, in the order of the node's keys. */
  function Kids(n: Node): seq<Node> {
    match n
    case Composite(parts) => parts
    case Object(properties) => properties
    case Property(_, key, value) => [key, value]
    case Member(_, receiver, property, _) => [receiver, property]
    case Not(operand) => [operand]
    case Call(callee, arguments, _) => [callee] + arguments
    case Function(body) => [body]
    case Return(argument) => Listed(argument)
    case Throw(error) => [error]
    case Block(statements) => statements
    case If(test, consequent, alternate) => [test, consequent] + Listed(alternate)
    case Loop(head, body) => [head, body]
    case Try(block, handler, finalizer) => [block] + HandlerBody(handler) + Listed(finalizer)
    case _ => []
  }

  function Size(n: Node): nat {
    match n
    case Composite(parts) => 1 + SizeAll(parts)
    case Object(properties) => 1 + SizeAll(properties)
    case Property(_, key, value) => 3 + Size(key) + Size(value)
    case Member(_, receiver, property, _) => 3 + Size(receiver) + Size(property)
    case Not(operand) => 2 + Size(operand)
    case Call(callee, arguments, _) => 2 + Size(callee) + SizeAll(arguments)
    case Function(body) => 2 + Size(body)
    case Return(argument) => 1 + (if argument.Some? then 1 + Size(argument.value) else 0)
    case Throw(error) => 2 + Size(error)
    case Block(statements) => 1 + SizeAll(statements)
    case If(test, consequent, alternate) =>
      3 + Size(test) + Size(consequent) + (if alternate.Some? then 1 + Size(alternate.value) else 0)
    case Loop(head, body) => 3 + Size(head) + Size(body)
    case Try(block, handler, finalizer) =>
      2 + Size(block) + (if handler.Some? then 1 + Size(handler.value.body) else 0)
        + (if finalizer.Some? then 1 + Size(finalizer.value) else 0)
    case _ => 1
  }

  function SizeAll(ns: seq<Node>): nat {
    if ns == [] then 0 else 1 + Size(ns[0]) + SizeAll(ns[1..])
  }

  lemma SizeOfConcat(a: seq<Node>, b: seq<Node>)
    ensures SizeAll(a + b) == SizeAll(a) + SizeAll(b)
  {
    if a == [] {
      assert a + b == b;
    } else {
      assert (a + b)[1..] == a[1..] + b;
      SizeOfConcat(a[1..], b);
    }
  }

  lemma SizeOfNone()
    ensures SizeAll([]) == 0
  {
  }

  lemma SizeOfOne(a: Node)
    ensures SizeAll([a]) == 1 + Size(a)
  {
    assert [a][1..] == [];
  }

  lemma SizeOfTwo(a: Node, b: Node)
    ensures SizeAll([a, b]) == 2 + Size(a) + Size(b)
  {
    assert [a, b][1..] == [b];
    SizeOfOne(b);
  }

  lemma {:induction false} KidsAreSmaller(n: Node)
    ensures Size(n) == 1 + SizeAll(Kids(n))
  {
    hide SizeAll;
    SizeOfNone();
    match n
    case Property(_, key, value) => SizeOfTwo(key, value);
    case Member(_, receiver, property, _) => SizeOfTwo(receiver, property);
    case Not(operand) => SizeOfOne(operand);
    case Call(callee, arguments, _) =>
      SizeOfOne(callee);
      SizeOfConcat([callee], arguments);
    case Function(body) => SizeOfOne(body);
    case Return(argument) => if argument.Some? { SizeOfOne(argument.value); }
    case Throw(error) => SizeOfOne(error);
    case If(test, consequent, alternate) =>
      SizeOfTwo(test, consequent);
      if alternate.Some? { SizeOfOne(alternate.value); }
      SizeOfConcat([test, consequent], Listed(alternate));
    case Loop(head, body) => SizeOfTwo(head, body);
    case Try(block, handler, finalizer) =>
      SizeOfOne(block);
      if handler.Some? { SizeOfOne(handler.value.body); }
      if finalizer.Some? { SizeOfOne(finalizer.value); }
      SizeOfConcat([block] + HandlerBody(handler), Listed(finalizer));
      SizeOfConcat([block], HandlerBody(handler));
    case _ =>
  }

  lemma MemberIsSmaller(ns: seq<Node>, k: Node)
    requires k in ns
    ensures Size(k) < SizeAll(ns)
  {
    if ns[0] != k { MemberIsSmaller(ns[1..], k); }
  }

  /** Call this where a function recurses on one child. */
  lemma KidIsSmaller(n: Node, k: Node)
    requires k in Kids(n)
    ensures Size(k) < Size(n)
  {
    KidsAreSmaller(n);
    MemberIsSmaller(Kids(n), k);
  }
}
