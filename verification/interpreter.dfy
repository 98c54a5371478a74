/** The tree-walking evaluator of Interpreter.java.

    The methods walk the tree and update the scopes in place, as the Java code does. Each is
    proved against `Eval`, a reference evaluator on snapshots of the scope chain (`Store`), for
    every tree without tuple nodes; the tuple forms (a tuple literal, tuple destructuring and
    tuple pattern matching) get their own reference functions, which take the elements of the
    tuple being matched, for elements without tuple nodes. On every tree the methods also keep
    the constants, keep each outer scope's names (`KeepsKeys`), refuse a reserved match target
    before evaluating anything, and leave a matched name bound to the value of the match. */
module Interpreter {
  import A = Ast
  import opened Results
  import opened Runtime

  /** The arithmetic of evaluateNumericBinaryExpr: the number two numbers and an operator give. */
  type Arith = (int, int, string) -> int

  /** The names a match may not bind. */
  const ReservedNames: set<string> := {"true", "false", "null"}

  // ---------------------------------------------------------------------------------------
  // Atom comparison (String.compareTo)

  /** String.compareTo: the difference of the first differing characters, or of the lengths. */
  function CompareTo(a: string, b: string): (c: int)
    ensures c == 0 <==> a == b
  {
    if a == [] || b == [] then |a| - |b|
    else if a[0] != b[0] then a[0] as int - b[0] as int
    else
      assert a == [a[0]] + a[1..] && b == [b[0]] + b[1..];
      CompareTo(a[1..], b[1..])
  }

  /** Dictionary order: `a` is a proper prefix of `b`, or is smaller at the first difference. */
  ghost predicate Precedes(a: string, b: string) {
    (|a| < |b| && a == b[..|a|]) ||
    exists k :: 0 <= k < |a| && k < |b| && a[..k] == b[..k] && a[k] < b[k]
  }

  /** Two strings with the same first character are ordered by what follows it. */
  lemma PrecedesTail(a: string, b: string)
    requires a != [] && b != [] && a[0] == b[0]
    ensures Precedes(a, b) <==> Precedes(a[1..], b[1..])
  {
    if Precedes(a, b) {
      PrecedesDropFirst(a, b);
    }
    if Precedes(a[1..], b[1..]) {
      PrecedesAddFirst(a, b);
    }
  }

  lemma PrecedesDropFirst(a: string, b: string)
    requires a != [] && b != [] && a[0] == b[0] && Precedes(a, b)
    ensures Precedes(a[1..], b[1..])
  {
    if |a| < |b| && a == b[..|a|] {
      forall j | 0 <= j < |a| - 1
        ensures a[1..][j] == b[1..][..|a| - 1][j]
      {
        assert a[j + 1] == b[..|a|][j + 1];
      }
      assert a[1..] == b[1..][..|a| - 1];
    } else {
      var k :| 0 <= k < |a| && k < |b| && a[..k] == b[..k] && a[k] < b[k];
      assert k != 0;
      assert a[1..][..k - 1] == b[1..][..k - 1];
      assert a[1..][k - 1] < b[1..][k - 1];
    }
  }

  lemma PrecedesAddFirst(a: string, b: string)
    requires a != [] && b != [] && a[0] == b[0] && Precedes(a[1..], b[1..])
    ensures Precedes(a, b)
  {
    if |a| - 1 < |b| - 1 && a[1..] == b[1..][..|a| - 1] {
      assert a == [a[0]] + a[1..];
      assert b[..|a|] == [b[0]] + b[1..][..|a| - 1];
    } else {
      var k :| 0 <= k < |a| - 1 && k < |b| - 1 && a[1..][..k] == b[1..][..k] && a[1..][k] < b[1..][k];
      assert a[..k + 1] == [a[0]] + a[1..][..k];
      assert b[..k + 1] == [b[0]] + b[1..][..k];
      assert a[k + 1] < b[k + 1];
    }
  }

  /** compareTo's sign is dictionary order, and swapping the operands negates it. */
  lemma {:induction false} CompareToOrders(a: string, b: string)
    ensures CompareTo(a, b) < 0 <==> Precedes(a, b)
    ensures CompareTo(a, b) == -CompareTo(b, a)
  {
    if a == [] || b == [] {
    } else if a[0] != b[0] {
      if a[0] < b[0] {
        assert a[..0] == b[..0];
      }
    } else {
      CompareToOrders(a[1..], b[1..]);
      PrecedesTail(a, b);
    }
  }

  /** evaluateAtomComparison: `==` compares the names, the other relational operators compare
      them with compareTo; any other operator gives null. */
  function AtomComparison(a: string, b: string, op: string): Value {
    if op == "==" then Boolean(a == b)
    else if op == ">=" then Boolean(CompareTo(a, b) >= 0)
    else if op == ">" then Boolean(CompareTo(a, b) > 0)
    else if op == "<=" then Boolean(CompareTo(a, b) <= 0)
    else if op == "<" then Boolean(CompareTo(a, b) < 0)
    else if op == "!=" then Boolean(CompareTo(a, b) != 0)
    else Null
  }

  /** Atoms are compared in dictionary order of their names, which is a strict total order. */
  lemma AtomComparisonOrders(a: string, b: string, op: string)
    ensures AtomComparison(a, b, "<") == Boolean(Precedes(a, b))
    ensures AtomComparison(a, b, ">") == Boolean(Precedes(b, a))
    ensures AtomComparison(a, b, "<=") == Boolean(Precedes(a, b) || a == b)
    ensures AtomComparison(a, b, ">=") == Boolean(Precedes(b, a) || a == b)
    ensures AtomComparison(a, b, "!=") == Boolean(a != b)
    ensures AtomComparison(a, b, "==") == Boolean(a == b)
    ensures !(Precedes(a, b) && Precedes(b, a)) && !(Precedes(a, b) && a == b)
    ensures Precedes(a, b) || a == b || Precedes(b, a)
    ensures op !in {"==", "!=", "<", "<=", ">", ">="} ==> AtomComparison(a, b, op) == Null
  {
    CompareToOrders(a, b);
    CompareToOrders(b, a);
  }

  /** evaluateBinaryExpr on the two operand values: arithmetic on two numbers, a comparison of
      two atoms, null otherwise. */
  function Binary(lhs: Value, rhs: Value, op: string, arith: Arith): Value {
    if lhs.Number? && rhs.Number? then Number(arith(lhs.number, rhs.number, op))
    else if lhs.Atom? && rhs.Atom? then AtomComparison(lhs.name, rhs.name, op)
    else Null
  }

  // ---------------------------------------------------------------------------------------
  // Reference evaluator

  /** A value and the scope chain's variables after evaluating a node. */
  datatype Outcome = Outcome(value: Value, store: Store)

  /** The values of a tuple literal's elements and the variables after evaluating them. */
  datatype Items = Items(values: seq<Value>, store: Store)

  /** Trees without tuple nodes. */
  predicate Simple(e: A.Node) {
    match e
    case Program(body) => forall k :: 0 <= k < |body| ==> Simple(body[k])
    case BinaryExpr(l, r, _) => Simple(l) && Simple(r)
    case MatchExpr(target, value) => !target.Tuple? && Simple(value)
    case Tuple(_) => false
    case _ => true
  }

  predicate AllSimple(es: seq<A.Node>) {
    forall k :: 0 <= k < |es| ==> Simple(es[k])
  }

  predicate AllIdentifiers(es: seq<A.Node>) {
    forall k :: 0 <= k < |es| ==> es[k].Identifier?
  }

  /** A scope chain snapshot together with its constants. */
  ghost predicate Shaped(st: Store, cs: seq<set<string>>) {
    st != [] && |cs| == |st|
  }

  /** A store result completed with the value of the expression. */
  function Finish(r: Result<Store>, v: Value): Result<Outcome> {
    if r.Ok? then Ok(Outcome(v, r.value)) else Err(r.error)
  }

  /** evaluate on a tree without tuples: the value it gives and the variables afterwards, or
      the fatal error it stops with. */
  function Eval(e: A.Node, st: Store, cs: seq<set<string>>, arith: Arith): (r: Result<Outcome>)
    requires Simple(e) && Shaped(st, cs)
    ensures r.Ok? ==> |r.value.store| == |st|
    decreases e, 1
  {
    match e
    case Program(_) => EvalBody(e, 0, Null, st, cs, arith)
    case NumericLiteral(n) => Ok(Outcome(Number(n), st))
    case Atom(a) => Ok(Outcome(Atom(a), st))
    case Identifier(x) =>
      var v :- Fetch(st, x);
      Ok(Outcome(v, st))
    case BinaryExpr(l, rt, op) =>
      var lo :- Eval(l, st, cs, arith);
      var ro :- Eval(rt, lo.store, cs, arith);
      Ok(Outcome(Binary(lo.value, ro.value, op, arith), ro.store))
    case MatchExpr(target, value) =>
      if !target.Identifier? then Err(InvalidMatchTarget)
      else if target.symbol in ReservedNames then Err(ReservedMatchTarget(target.symbol))
      else
        var o :- Eval(value, st, cs, arith);
        if Nearest(st, target.symbol) < |st| then Finish(Assignment(o.store, cs, target.symbol, o.value), o.value)
        else Finish(Binding(o.store, cs, target.symbol, o.value), o.value)
  }

  /** evaluateProgram from statement `i` on, `last` being the value of the statement before. */
  function EvalBody(p: A.Node, i: nat, last: Value, st: Store, cs: seq<set<string>>, arith: Arith): (r: Result<Outcome>)
    requires p.Program? && Simple(p) && i <= |p.body| && Shaped(st, cs)
    ensures r.Ok? ==> |r.value.store| == |st|
    decreases p, 0, |p.body| - i
  {
    if i == |p.body| then Ok(Outcome(last, st))
    else
      var o :- Eval(p.body[i], st, cs, arith);
      EvalBody(p, i + 1, o.value, o.store, cs, arith)
  }

  /** evaluateTuple from element `i` on, `acc` holding the values of the elements before. */
  function EvalItems(es: seq<A.Node>, i: nat, acc: seq<Value>, st: Store, cs: seq<set<string>>, arith: Arith): (r: Result<Items>)
    requires AllSimple(es) && i <= |es| && Shaped(st, cs)
    ensures r.Ok? ==> |r.value.store| == |st| && |r.value.values| == |acc| + |es| - i
    decreases |es| - i
  {
    if i == |es| then Ok(Items(acc, st))
    else
      var o :- Eval(es[i], st, cs, arith);
      EvalItems(es, i + 1, acc + [o.value], o.store, cs, arith)
  }

  /** Destructuring from target `i` on: each name is declared with the element at its position. */
  function BindAll(names: seq<A.Node>, items: seq<Value>, i: nat, st: Store, cs: seq<set<string>>): (r: Result<Store>)
    requires AllIdentifiers(names) && |items| == |names| && i <= |names| && Shaped(st, cs)
    ensures r.Ok? ==> |r.value| == |st|
    decreases |names| - i
  {
    if i == |names| then Ok(st)
    else
      var st' :- Binding(st, cs, names[i].symbol, items[i]);
      BindAll(names, items, i + 1, st', cs)
  }

  /** Pattern matching from target `i` on: each target is evaluated and must give a value of the
      kind of the element at its position. */
  function CheckKinds(targets: seq<A.Node>, items: seq<Value>, i: nat, st: Store, cs: seq<set<string>>, arith: Arith): (r: Result<Store>)
    requires AllSimple(targets) && |items| == |targets| && i <= |targets| && Shaped(st, cs)
    ensures r.Ok? ==> |r.value| == |st|
    decreases |targets| - i
  {
    if i == |targets| then Ok(st)
    else
      var o :- Eval(targets[i], st, cs, arith);
      if KindOf(o.value) != KindOf(items[i]) then Err(MatchError)
      else CheckKinds(targets, items, i + 1, o.store, cs, arith)
  }

  /** A tuple target matched against a tuple with elements `items`: sizes must agree; a
      non-empty target of names destructures, any other target is a pattern. */
  function MatchTuple(targets: seq<A.Node>, items: seq<Value>, st: Store, cs: seq<set<string>>, arith: Arith): (r: Result<Store>)
    requires AllSimple(targets) && Shaped(st, cs)
    ensures r.Ok? ==> |r.value| == |st|
  {
    if |items| != |targets| then Err(MatchError)
    else if targets != [] && AllIdentifiers(targets) then BindAll(targets, items, 0, st, cs)
    else CheckKinds(targets, items, 0, st, cs, arith)
  }

  // ---------------------------------------------------------------------------------------
  // Agreement of the methods with the reference evaluator

  ghost predicate Agrees(r: Result<Value>, spec: Result<Outcome>, st: Store) {
    match spec
    case Ok(o) => r == Ok(o.value) && st == o.store
    case Err(err) => r == Err(err)
  }

  /** A tuple result holding `items`, with the variables `spec` gives. */
  ghost predicate AgreesTuple(r: Result<Value>, spec: Result<Store>, items: seq<Value>, st: Store)
    reads if r.Ok? && r.value.Tuple? then {r.value.tuple} else {}
  {
    match spec
    case Ok(s) => r.Ok? && r.value.Tuple? && r.value.tuple.contents == items && st == s
    case Err(err) => r == Err(err)
  }

  /** The outcome of a tuple literal: a new tuple of the elements' values. */
  ghost predicate AgreesItems(r: Result<Value>, spec: Result<Items>, st: Store)
    reads if r.Ok? && r.value.Tuple? then {r.value.tuple} else {}
  {
    match spec
    case Ok(it) => r.Ok? && r.value.Tuple? && r.value.tuple.contents == it.values && st == it.store
    case Err(err) => r == Err(err)
  }

  /** The values of a tuple literal's elements, with the variables `spec` gives. */
  ghost predicate AgreesValues(r: Result<seq<Value>>, spec: Result<Items>, st: Store) {
    match spec
    case Ok(it) => r == Ok(it.values) && st == it.store
    case Err(err) => r == Err(err)
  }

  /** What any evaluation does to the scopes: the outer scopes keep exactly the names they bind,
      and the innermost scope only gains names. */
  ghost predicate KeepsKeys(st: Store, st': Store) {
    |st'| == |st| && (st != [] ==> st[0].Keys <= st'[0].Keys) &&
    forall k :: 0 < k < |st| ==> st'[k].Keys == st[k].Keys
  }

  /** Under `KeepsKeys` a name is found in the same scope as before, or it has just been declared
      in the innermost scope. */
  lemma NearestKept(st: Store, st': Store, x: string)
    requires KeepsKeys(st, st')
    ensures Nearest(st', x) == Nearest(st, x) || (Nearest(st', x) == 0 && st != [] && x !in st[0])
  {
    if st != [] && x in st'[0] && x !in st[0] {
    } else {
      NearestSameKeys(st, st', x);
    }
  }

  lemma KeepsKeysTransitive(s1: Store, s2: Store, s3: Store)
    requires KeepsKeys(s1, s2) && KeepsKeys(s2, s3)
    ensures KeepsKeys(s1, s3)
  {
  }

  lemma WrittenKeepsKeys(st: Store, name: string, v: Value)
    ensures KeepsKeys(st, Written(st, name, v))
  {
    var k := Nearest(st, name);
    if k < |st| {
      assert st[k][name := v].Keys == st[k].Keys;
    }
  }

  lemma DeclaredKeepsKeys(st: Store, name: string, v: Value)
    requires st != []
    ensures KeepsKeys(st, st[0 := st[0][name := v]])
  {
  }

  // ---------------------------------------------------------------------------------------
  // The evaluator

  /** evaluate: dispatches on the node kind. */
  method Evaluate(e: A.Node, env: Environment, arith: Arith) returns (r: Result<Value>)
    requires env.Linked()
    modifies env.Chain()
    ensures env.Consts() == old(env.Consts())
    ensures KeepsKeys(old(env.Bindings()), env.Bindings())
    ensures Simple(e) ==> Agrees(r, Eval(e, old(env.Bindings()), old(env.Consts()), arith), env.Bindings())
    ensures e.Tuple? && AllSimple(e.contents) ==>
              AgreesItems(r, EvalItems(e.contents, 0, [], old(env.Bindings()), old(env.Consts()), arith), env.Bindings())
    ensures e.Tuple? && r.Ok? ==> r.value.Tuple? && fresh(r.value.tuple) && |r.value.tuple.contents| == |e.contents|
    ensures e.MatchExpr? && e.toAssigned.Identifier? && e.toAssigned.symbol in ReservedNames ==>
              r == Err(ReservedMatchTarget(e.toAssigned.symbol)) && env.Bindings() == old(env.Bindings())
    decreases e, 3
  {
    match e
    case NumericLiteral(n) => return Ok(Number(n));
    case Program(_) => r := EvaluateProgram(e, env, arith);
    case BinaryExpr(_, _, _) => r := EvaluateBinaryExpr(e, env, arith);
    case MatchExpr(_, _) => r := EvaluateMatchExpr(e, env, arith);
    case Atom(a) => return Ok(Atom(a));
    case Identifier(x) => r := env.Lookup(x); env.LookupIsFetch(x);
    case Tuple(_) => r := EvaluateTuple(e, env, arith);
  }

  /** evaluateProgram: the value of the last statement, null for an empty program. */
  method EvaluateProgram(p: A.Node, env: Environment, arith: Arith) returns (r: Result<Value>)
    requires p.Program? && env.Linked()
    modifies env.Chain()
    ensures env.Consts() == old(env.Consts())
    ensures KeepsKeys(old(env.Bindings()), env.Bindings())
    ensures Simple(p) ==> Agrees(r, Eval(p, old(env.Bindings()), old(env.Consts()), arith), env.Bindings())
    ensures p.body == [] ==> r == Ok(Null) && env.Bindings() == old(env.Bindings())
    decreases p, 1
  {
    ghost var spec := if Simple(p) then Eval(p, env.Bindings(), env.Consts(), arith) else Err(MatchError);
    var last := Null;
    var i := 0;
    while i < |p.body|
      invariant i <= |p.body| && env.Linked()
      invariant env.Consts() == old(env.Consts())
      invariant KeepsKeys(old(env.Bindings()), env.Bindings())
      invariant Simple(p) ==> spec == EvalBody(p, i, last, env.Bindings(), env.Consts(), arith)
      invariant i == 0 ==> last == Null && env.Bindings() == old(env.Bindings())
    {
      ghost var before := env.Bindings();
      var o := EvaluateStatement(p, i, last, env, arith);
      KeepsKeysTransitive(old(env.Bindings()), before, env.Bindings());
      last :- o;
      i := i + 1;
    }
    return Ok(last);
  }

  /** One pass of the loop of evaluateProgram: the value of statement `i`, which replaces the
      value `last` of the statement before it. */
  method EvaluateStatement(p: A.Node, i: nat, ghost last: Value, env: Environment, arith: Arith) returns (r: Result<Value>)
    requires p.Program? && i < |p.body| && env.Linked()
    modifies env.Chain()
    ensures env.Consts() == old(env.Consts())
    ensures KeepsKeys(old(env.Bindings()), env.Bindings())
    ensures Simple(p) && r.Ok? ==>
              EvalBody(p, i, last, old(env.Bindings()), old(env.Consts()), arith)
                == EvalBody(p, i + 1, r.value, env.Bindings(), env.Consts(), arith)
    ensures Simple(p) && r.Err? ==> EvalBody(p, i, last, old(env.Bindings()), old(env.Consts()), arith) == Err(r.error)
    decreases p, 0
  {
    r := Evaluate(p.body[i], env, arith);
    BodyStep(p, i, last, r, old(env.Bindings()), env.Bindings(), env.Consts(), arith);
  }

  /** evaluateBinaryExpr: both operands, left first, then `Binary`. */
  method EvaluateBinaryExpr(e: A.Node, env: Environment, arith: Arith) returns (r: Result<Value>)
    requires e.BinaryExpr? && env.Linked()
    modifies env.Chain()
    ensures env.Consts() == old(env.Consts())
    ensures KeepsKeys(old(env.Bindings()), env.Bindings())
    ensures Simple(e) ==> Agrees(r, Eval(e, old(env.Bindings()), old(env.Consts()), arith), env.Bindings())
    decreases e, 1
  {
    var lhs :- Evaluate(e.left, env, arith);
    var rhs :- Evaluate(e.right, env, arith);
    return Ok(Binary(lhs, rhs, e.op, arith));
  }

  /** evaluateTuple: a new tuple of the elements' values, in order. */
  method EvaluateTuple(e: A.Node, env: Environment, arith: Arith) returns (r: Result<Value>)
    requires e.Tuple? && env.Linked()
    modifies env.Chain()
    ensures env.Consts() == old(env.Consts())
    ensures KeepsKeys(old(env.Bindings()), env.Bindings())
    ensures AllSimple(e.contents) ==>
              AgreesItems(r, EvalItems(e.contents, 0, [], old(env.Bindings()), old(env.Consts()), arith), env.Bindings())
    ensures r.Ok? ==> r.value.Tuple? && fresh(r.value.tuple) && |r.value.tuple.contents| == |e.contents|
    decreases e, 2
  {
    var items :- EvaluateElements(e, env, arith);
    var t := new Aggregate(items);
    return Ok(Tuple(t));
  }

  /** The loop of evaluateTuple: the values of the elements, left to right. */
  method EvaluateElements(e: A.Node, env: Environment, arith: Arith) returns (r: Result<seq<Value>>)
    requires e.Tuple? && env.Linked()
    modifies env.Chain()
    ensures env.Consts() == old(env.Consts())
    ensures KeepsKeys(old(env.Bindings()), env.Bindings())
    ensures AllSimple(e.contents) ==>
              AgreesValues(r, EvalItems(e.contents, 0, [], old(env.Bindings()), old(env.Consts()), arith), env.Bindings())
    ensures r.Ok? ==> |r.value| == |e.contents|
    decreases e, 1
  {
    ghost var spec := if AllSimple(e.contents) then EvalItems(e.contents, 0, [], env.Bindings(), env.Consts(), arith)
                      else Err(MatchError);
    var items: seq<Value> := [];
    var i := 0;
    while i < |e.contents|
      invariant i <= |e.contents| && env.Linked() && |items| == i
      invariant env.Consts() == old(env.Consts())
      invariant KeepsKeys(old(env.Bindings()), env.Bindings())
      invariant AllSimple(e.contents) ==> spec == EvalItems(e.contents, i, items, env.Bindings(), env.Consts(), arith)
    {
      var v :- EvaluateElement(e, i, items, env, arith);
      items := items + [v];
      i := i + 1;
    }
    return Ok(items);
  }

  /** One pass of the loop of evaluateTuple: the value of element `i`, which joins the values
      `acc` of the elements before it. */
  method EvaluateElement(e: A.Node, i: nat, ghost acc: seq<Value>, env: Environment, arith: Arith) returns (r: Result<Value>)
    requires e.Tuple? && i < |e.contents| && env.Linked()
    modifies env.Chain()
    ensures env.Consts() == old(env.Consts())
    ensures KeepsKeys(old(env.Bindings()), env.Bindings())
    ensures AllSimple(e.contents) && r.Ok? ==>
              EvalItems(e.contents, i, acc, old(env.Bindings()), old(env.Consts()), arith)
                == EvalItems(e.contents, i + 1, acc + [r.value], env.Bindings(), env.Consts(), arith)
    ensures AllSimple(e.contents) && r.Err? ==>
              EvalItems(e.contents, i, acc, old(env.Bindings()), old(env.Consts()), arith) == Err(r.error)
    decreases e, 0
  {
    r := Evaluate(e.contents[i], env, arith);
    ItemsStep(e.contents, i, acc, r, old(env.Bindings()), env.Bindings(), env.Consts(), arith);
  }

  /** evaluateMatchExpr: binds a name, destructures a tuple into names, or checks a tuple
      pattern; the matched value is the result. */
  method EvaluateMatchExpr(e: A.Node, env: Environment, arith: Arith) returns (r: Result<Value>)
    requires e.MatchExpr? && env.Linked()
    modifies env.Chain()
    ensures env.Consts() == old(env.Consts())
    ensures KeepsKeys(old(env.Bindings()), env.Bindings())
    ensures Simple(e) ==> Agrees(r, Eval(e, old(env.Bindings()), old(env.Consts()), arith), env.Bindings())
    ensures !e.toAssigned.Identifier? && !e.toAssigned.Tuple? ==>
              r == Err(InvalidMatchTarget) && env.Bindings() == old(env.Bindings())
    ensures e.toAssigned.Identifier? && e.toAssigned.symbol in ReservedNames ==>
              r == Err(ReservedMatchTarget(e.toAssigned.symbol)) && env.Bindings() == old(env.Bindings())
    ensures e.toAssigned.Identifier? && r.Ok? ==> Fetch(env.Bindings(), e.toAssigned.symbol) == Ok(r.value)
    ensures e.toAssigned.Identifier? ==>
              var st, x := old(env.Bindings()), e.toAssigned.symbol;
              Nearest(st, x) < |st| && x in old(env.Consts())[Nearest(st, x)] && r.Ok? ==>
                0 < Nearest(st, x) && x !in st[0] && x in env.Bindings()[0]
    ensures e.toAssigned.Tuple? && !e.value.Identifier? && !e.value.Tuple? ==>
              r == Err(MatchError) && env.Bindings() == old(env.Bindings())
    ensures e.toAssigned.Tuple? && r.Ok? ==> r.value.Tuple? && |r.value.tuple.contents| == |e.toAssigned.contents|
    ensures e.toAssigned.Tuple? && AllSimple(e.toAssigned.contents) && e.value.Identifier? ==>
              match old(Fetch(env.Bindings(), e.value.symbol))
              case Err(err) => r == Err(err)
              case Ok(v) =>
                if !v.Tuple? then r == Err(MatchError)
                else Agrees(r, Finish(MatchTuple(e.toAssigned.contents, v.tuple.contents, old(env.Bindings()),
                                                 old(env.Consts()), arith), v), env.Bindings())
    ensures e.toAssigned.Tuple? && AllSimple(e.toAssigned.contents) && e.value.Tuple? && AllSimple(e.value.contents) ==>
              match EvalItems(e.value.contents, 0, [], old(env.Bindings()), old(env.Consts()), arith)
              case Err(err) => r == Err(err)
              case Ok(it) =>
                AgreesTuple(r, MatchTuple(e.toAssigned.contents, it.values, it.store, old(env.Consts()), arith),
                            it.values, env.Bindings())
    decreases e, 2
  {
    var target := e.toAssigned;
    if !target.Identifier? && !target.Tuple? {
      return Err(InvalidMatchTarget);
    }
    if target.Identifier? {
      r := MatchIdentifier(e, env, arith);
      return;
    }
    if !e.value.Identifier? && !e.value.Tuple? {
      return Err(MatchError);
    }
    ghost var before := env.Bindings();
    var rhs :- Evaluate(e.value, env, arith);
    if !rhs.Tuple? {
      return Err(MatchError);
    }
    r := MatchTupleTarget(e, rhs, env, arith);
  }

  /** The name case of evaluateMatchExpr: a reserved name is refused; otherwise the value is
      assigned where the name is bound, or declared in this scope when it is bound nowhere. */
  method MatchIdentifier(e: A.Node, env: Environment, arith: Arith) returns (r: Result<Value>)
    requires e.MatchExpr? && e.toAssigned.Identifier? && env.Linked()
    modifies env.Chain()
    ensures env.Consts() == old(env.Consts())
    ensures KeepsKeys(old(env.Bindings()), env.Bindings())
    ensures Simple(e) ==> Agrees(r, Eval(e, old(env.Bindings()), old(env.Consts()), arith), env.Bindings())
    ensures e.toAssigned.symbol in ReservedNames ==>
              r == Err(ReservedMatchTarget(e.toAssigned.symbol)) && env.Bindings() == old(env.Bindings())
    ensures r.Ok? ==> Fetch(env.Bindings(), e.toAssigned.symbol) == Ok(r.value)
    ensures var st, x := old(env.Bindings()), e.toAssigned.symbol;
            Nearest(st, x) < |st| && x in old(env.Consts())[Nearest(st, x)] && r.Ok? ==>
              0 < Nearest(st, x) && x !in st[0] && x in env.Bindings()[0]
    decreases e, 0
  {
    var x := e.toAssigned.symbol;
    if x in ReservedNames {
      return Err(ReservedMatchTarget(x));
    }
    env.ResolveIsNearest(x);
    var bound := env.Contains(x);
    var v :- Evaluate(e.value, env, arith);
    NearestKept(old(env.Bindings()), env.Bindings(), x);
    r := StoreName(x, v, bound, env);
  }

  /** The last step of the name case of evaluateMatchExpr: assignVariable when the name was bound
      before the value was evaluated, declareVariable otherwise. */
  method StoreName(x: string, v: Value, bound: bool, env: Environment) returns (r: Result<Value>)
    requires env.Linked()
    modifies env.Chain()
    ensures env.Consts() == old(env.Consts())
    ensures KeepsKeys(old(env.Bindings()), env.Bindings())
    ensures Agrees(r, Finish(if bound then Assignment(old(env.Bindings()), old(env.Consts()), x, v)
                             else Binding(old(env.Bindings()), old(env.Consts()), x, v), v), env.Bindings())
    ensures r.Ok? ==> r == Ok(v) && Fetch(env.Bindings(), x) == Ok(v)
  {
    if bound {
      r := env.Assign(x, v);
      WrittenKeepsKeys(old(env.Bindings()), x, v);
      if r.Ok? {
        FetchWritten(old(env.Bindings()), x, v, x);
      }
    } else {
      r := env.DeclareVariable(x, v);
      DeclaredKeepsKeys(old(env.Bindings()), x, v);
      FetchDeclared(old(env.Bindings()), x, v, x);
    }
  }

  /** The tuple case of evaluateMatchExpr once the matched value `rhs` is known: the sizes must
      agree; then a non-empty tuple of names declares each name with the element at its
      position, and any other tuple is a pattern whose elements must give values of the kinds
      of the elements at their positions. */
  method MatchTupleTarget(e: A.Node, rhs: Value, env: Environment, arith: Arith) returns (r: Result<Value>)
    requires e.MatchExpr? && e.toAssigned.Tuple? && rhs.Tuple? && env.Linked()
    modifies env.Chain()
    ensures env.Consts() == old(env.Consts())
    ensures KeepsKeys(old(env.Bindings()), env.Bindings())
    ensures AllSimple(e.toAssigned.contents) ==>
              Agrees(r, Finish(MatchTuple(e.toAssigned.contents, rhs.tuple.contents, old(env.Bindings()),
                                          old(env.Consts()), arith), rhs), env.Bindings())
    ensures |rhs.tuple.contents| != |e.toAssigned.contents| ==> r == Err(MatchError) && env.Bindings() == old(env.Bindings())
    ensures r.Ok? ==> r == Ok(rhs) && |rhs.tuple.contents| == |e.toAssigned.contents|
    decreases e, 1
  {
    var targets := e.toAssigned.contents;
    if |rhs.tuple.contents| != |targets| {
      return Err(MatchError);
    }
    if targets != [] && AllIdentifiers(targets) {
      r := BindNames(e, rhs, env);
    } else {
      r := CheckPattern(e, rhs, env, arith);
    }
  }

  /** Destructuring: each name of the target is declared with the element at its position. */
  method BindNames(e: A.Node, rhs: Value, env: Environment) returns (r: Result<Value>)
    requires e.MatchExpr? && e.toAssigned.Tuple? && rhs.Tuple? && env.Linked()
    requires AllIdentifiers(e.toAssigned.contents) && |rhs.tuple.contents| == |e.toAssigned.contents|
    modifies env.Chain()
    ensures env.Consts() == old(env.Consts())
    ensures KeepsKeys(old(env.Bindings()), env.Bindings())
    ensures Agrees(r, Finish(BindAll(e.toAssigned.contents, rhs.tuple.contents, 0, old(env.Bindings()), old(env.Consts())), rhs),
                   env.Bindings())
  {
    var targets := e.toAssigned.contents;
    ghost var items := rhs.tuple.contents;
    ghost var spec := BindAll(targets, items, 0, env.Bindings(), env.Consts());
    var i := 0;
    while i < |targets|
      invariant i <= |targets| && env.Linked() && rhs.tuple.contents == items
      invariant env.Consts() == old(env.Consts())
      invariant KeepsKeys(old(env.Bindings()), env.Bindings())
      invariant spec == BindAll(targets, items, i, env.Bindings(), env.Consts())
    {
      BindStep(targets, items, i, env.Bindings(), env.Consts());
      var _ :- env.DeclareVariable(targets[i].symbol, rhs.tuple.contents[i]);
      i := i + 1;
    }
    return Ok(rhs);
  }

  /** Pattern matching: each element of the target must give a value of the kind of the element
      at its position. */
  method CheckPattern(e: A.Node, rhs: Value, env: Environment, arith: Arith) returns (r: Result<Value>)
    requires e.MatchExpr? && e.toAssigned.Tuple? && rhs.Tuple? && env.Linked()
    requires |rhs.tuple.contents| == |e.toAssigned.contents|
    modifies env.Chain()
    ensures env.Consts() == old(env.Consts())
    ensures KeepsKeys(old(env.Bindings()), env.Bindings())
    ensures AllSimple(e.toAssigned.contents) ==>
              Agrees(r, Finish(CheckKinds(e.toAssigned.contents, rhs.tuple.contents, 0, old(env.Bindings()),
                                          old(env.Consts()), arith), rhs), env.Bindings())
    ensures r.Ok? ==> r == Ok(rhs)
    decreases e, 0
  {
    var targets := e.toAssigned.contents;
    ghost var items := rhs.tuple.contents;
    ghost var spec := if AllSimple(targets) then CheckKinds(targets, items, 0, env.Bindings(), env.Consts(), arith)
                      else Err(MatchError);
    var i := 0;
    while i < |targets|
      invariant i <= |targets| && env.Linked() && rhs.tuple.contents == items
      invariant env.Consts() == old(env.Consts())
      invariant KeepsKeys(old(env.Bindings()), env.Bindings())
      invariant AllSimple(targets) ==> spec == CheckKinds(targets, items, i, env.Bindings(), env.Consts(), arith)
    {
      ghost var before := env.Bindings();
      var o := Evaluate(targets[i], env, arith);
      KindsStep(targets, items, i, o, before, env.Bindings(), env.Consts(), arith);
      var v :- o;
      if KindOf(v) != KindOf(rhs.tuple.contents[i]) {
        return Err(MatchError);
      }
      i := i + 1;
    }
    return Ok(rhs);
  }

  // One step of each loop of the reference evaluator, as the methods above take it.

  lemma BodyStep(p: A.Node, i: nat, last: Value, r: Result<Value>, st: Store, st': Store,
                 cs: seq<set<string>>, arith: Arith)
    requires p.Program? && i < |p.body| && Shaped(st, cs)
    requires Simple(p) ==> Agrees(r, Eval(p.body[i], st, cs, arith), st')
    ensures Simple(p) && r.Ok? ==>
              Shaped(st', cs) && EvalBody(p, i, last, st, cs, arith) == EvalBody(p, i + 1, r.value, st', cs, arith)
    ensures Simple(p) && r.Err? ==> EvalBody(p, i, last, st, cs, arith) == Err(r.error)
  {
  }

  lemma ItemsStep(es: seq<A.Node>, i: nat, acc: seq<Value>, r: Result<Value>, st: Store, st': Store,
                  cs: seq<set<string>>, arith: Arith)
    requires i < |es| && Shaped(st, cs)
    requires AllSimple(es) ==> Agrees(r, Eval(es[i], st, cs, arith), st')
    ensures AllSimple(es) && r.Ok? ==>
              Shaped(st', cs) &&
              EvalItems(es, i, acc, st, cs, arith) == EvalItems(es, i + 1, acc + [r.value], st', cs, arith)
    ensures AllSimple(es) && r.Err? ==> EvalItems(es, i, acc, st, cs, arith) == Err(r.error)
  {
  }

  lemma BindStep(names: seq<A.Node>, items: seq<Value>, i: nat, st: Store, cs: seq<set<string>>)
    requires AllIdentifiers(names) && |items| == |names| && i < |names| && Shaped(st, cs)
    ensures var b := Binding(st, cs, names[i].symbol, items[i]);
            if b.Ok? then |b.value| == |st| && BindAll(names, items, i, st, cs) == BindAll(names, items, i + 1, b.value, cs)
            else BindAll(names, items, i, st, cs) == Err(b.error)
  {
  }

  lemma KindsStep(targets: seq<A.Node>, items: seq<Value>, i: nat, r: Result<Value>, st: Store, st': Store,
                  cs: seq<set<string>>, arith: Arith)
    requires |items| == |targets| && i < |targets| && Shaped(st, cs)
    requires AllSimple(targets) ==> Agrees(r, Eval(targets[i], st, cs, arith), st')
    ensures AllSimple(targets) && r.Ok? ==>
              Shaped(st', cs) &&
              CheckKinds(targets, items, i, st, cs, arith) ==
                (if KindOf(r.value) != KindOf(items[i]) then Err(MatchError)
                 else CheckKinds(targets, items, i + 1, st', cs, arith))
    ensures AllSimple(targets) && r.Err? ==> CheckKinds(targets, items, i, st, cs, arith) == Err(r.error)
  {
  }

  // ---------------------------------------------------------------------------------------
  // Properties of the reference evaluator

  /** A program's value is the value of its last statement, run after the statements before it;
      an empty program gives null and changes nothing. */
  lemma ProgramSequence(body: seq<A.Node>, s: A.Node, st: Store, cs: seq<set<string>>, arith: Arith)
    requires AllSimple(body) && Simple(s) && Shaped(st, cs)
    ensures Eval(A.Program([]), st, cs, arith) == Ok(Outcome(Null, st))
    ensures Eval(A.Program(body + [s]), st, cs, arith) ==
              (var o :- Eval(A.Program(body), st, cs, arith); Eval(s, o.store, cs, arith))
  {
    BodySequence(body, s, 0, Null, st, cs, arith);
  }

  lemma {:induction false} BodySequence(body: seq<A.Node>, s: A.Node, i: nat, last: Value, st: Store, cs: seq<set<string>>, arith: Arith)
    requires AllSimple(body) && Simple(s) && Shaped(st, cs) && i <= |body|
    ensures EvalBody(A.Program(body + [s]), i, last, st, cs, arith) ==
              (var o :- EvalBody(A.Program(body), i, last, st, cs, arith); Eval(s, o.store, cs, arith))
    decreases |body| - i
  {
    var p, q := A.Program(body + [s]), A.Program(body);
    assert p.body[i] == if i < |body| then body[i] else s;
    if i < |body| {
      var o := Eval(body[i], st, cs, arith);
      if o.Ok? {
        BodySequence(body, s, i + 1, o.value.value, o.value.store, cs, arith);
      }
    }
  }

  /** Every name bound before stays bound in the same scope; a name bound afterwards only is
      bound in the innermost scope. */
  ghost predicate KeepsScopes(st: Store, st': Store) {
    |st'| == |st| &&
    forall x :: Nearest(st', x) == Nearest(st, x) || (Nearest(st, x) == |st| && Nearest(st', x) == 0)
  }

  lemma KeepsScopesTransitive(s1: Store, s2: Store, s3: Store)
    requires s1 != [] && KeepsScopes(s1, s2) && KeepsScopes(s2, s3)
    ensures KeepsScopes(s1, s3)
  {
  }

  /** An assignment's write leaves every name in the scope it was bound in. */
  lemma WrittenKeepsScopes(st: Store, name: string, v: Value)
    ensures KeepsScopes(st, Written(st, name, v))
  {
    var w := Written(st, name, v);
    forall x
      ensures Nearest(w, x) == Nearest(st, x)
    {
      assert forall j :: 0 <= j < |st| ==> (x in w[j] <==> x in st[j]);
      NearestSameKeys(st, w, x);
    }
  }

  /** A declaration in the innermost scope of a name bound nowhere else keeps the scopes. */
  lemma DeclaredKeepsScopes(st: Store, name: string, v: Value)
    requires st != [] && (Nearest(st, name) == 0 || Nearest(st, name) == |st|)
    ensures KeepsScopes(st, st[0 := st[0][name := v]])
  {
    var w := st[0 := st[0][name := v]];
    forall x | x != name
      ensures Nearest(w, x) == Nearest(st, x)
    {
      assert forall j :: 0 <= j < |st| ==> (x in w[j] <==> x in st[j]);
      NearestSameKeys(st, w, x);
    }
  }

  /** Evaluation never moves a binding to another scope and only declares in the innermost one. */
  lemma {:induction false} EvalKeepsScopes(e: A.Node, st: Store, cs: seq<set<string>>, arith: Arith)
    requires Simple(e) && Shaped(st, cs) && Eval(e, st, cs, arith).Ok?
    ensures KeepsScopes(st, Eval(e, st, cs, arith).value.store)
    decreases e, 1
  {
    match e
    case Program(_) => BodyKeepsScopes(e, 0, Null, st, cs, arith);
    case BinaryExpr(l, rt, _) =>
      var lo := Eval(l, st, cs, arith).value;
      EvalKeepsScopes(l, st, cs, arith);
      EvalKeepsScopes(rt, lo.store, cs, arith);
      KeepsScopesTransitive(st, lo.store, Eval(rt, lo.store, cs, arith).value.store);
    case MatchExpr(target, value) =>
      var x := target.symbol;
      var o := Eval(value, st, cs, arith).value;
      EvalKeepsScopes(value, st, cs, arith);
      if Nearest(st, x) < |st| || x in o.store[0] {
        WrittenKeepsScopes(o.store, x, o.value);
        KeepsScopesTransitive(st, o.store, Written(o.store, x, o.value));
      } else {
        DeclaredKeepsScopes(o.store, x, o.value);
        KeepsScopesTransitive(st, o.store, o.store[0 := o.store[0][x := o.value]]);
      }
    case _ =>
  }

  lemma {:induction false} BodyKeepsScopes(p: A.Node, i: nat, last: Value, st: Store, cs: seq<set<string>>, arith: Arith)
    requires p.Program? && Simple(p) && i <= |p.body| && Shaped(st, cs) && EvalBody(p, i, last, st, cs, arith).Ok?
    ensures KeepsScopes(st, EvalBody(p, i, last, st, cs, arith).value.store)
    decreases p, 0, |p.body| - i
  {
    if i < |p.body| {
      var o := Eval(p.body[i], st, cs, arith).value;
      EvalKeepsScopes(p.body[i], st, cs, arith);
      BodyKeepsScopes(p, i + 1, o.value, o.store, cs, arith);
      KeepsScopesTransitive(st, o.store, EvalBody(p, i + 1, o.value, o.store, cs, arith).value.store);
    }
  }

  /** A successful match binds its name to the matched value and leaves every other name as the
      right-hand side's evaluation left it. */
  lemma MatchBindsName(x: string, value: A.Node, st: Store, cs: seq<set<string>>, arith: Arith, other: string)
    requires Simple(value) && Shaped(st, cs)
    requires Eval(A.MatchExpr(A.Identifier(x), value), st, cs, arith).Ok?
    ensures Eval(value, st, cs, arith).Ok?
    ensures var o := Eval(A.MatchExpr(A.Identifier(x), value), st, cs, arith).value;
            o.value == Eval(value, st, cs, arith).value.value && Fetch(o.store, x) == Ok(o.value)
    ensures other != x ==>
              Fetch(Eval(A.MatchExpr(A.Identifier(x), value), st, cs, arith).value.store, other)
              == Fetch(Eval(value, st, cs, arith).value.store, other)
  {
    var o := Eval(value, st, cs, arith).value;
    if Nearest(st, x) < |st| || x in o.store[0] {
      EvalKeepsScopes(value, st, cs, arith);
      FetchWritten(o.store, x, o.value, other);
    } else {
      FetchDeclared(o.store, x, o.value, other);
    }
  }

  /** Matching onto a name bound as a constant, or onto true, false or null, is fatal. */
  lemma ConstantsCannotBeRebound(x: string, value: A.Node, st: Store, cs: seq<set<string>>, arith: Arith)
    requires Simple(value) && Shaped(st, cs)
    requires x in ReservedNames || (Nearest(st, x) < |st| && x in cs[Nearest(st, x)])
    ensures Eval(A.MatchExpr(A.Identifier(x), value), st, cs, arith).Err?
  {
    if x !in ReservedNames && Eval(value, st, cs, arith).Ok? {
      EvalKeepsScopes(value, st, cs, arith);
    }
  }

  /** The bindings a destructuring leaves untouched. */
  lemma {:induction false} BindAllKeeps(names: seq<A.Node>, items: seq<Value>, i: nat, st: Store, cs: seq<set<string>>, x: string)
    requires AllIdentifiers(names) && |items| == |names| && i <= |names| && Shaped(st, cs)
    requires BindAll(names, items, i, st, cs).Ok?
    requires forall k :: i <= k < |names| ==> names[k].symbol != x
    ensures Fetch(BindAll(names, items, i, st, cs).value, x) == Fetch(st, x)
    decreases |names| - i
  {
    if i < |names| {
      var st' := Binding(st, cs, names[i].symbol, items[i]).value;
      FetchDeclared(st, names[i].symbol, items[i], x);
      BindAllKeeps(names, items, i + 1, st', cs, x);
    }
  }

  /** Destructuring binds every name to the element at its position; of a name that occurs
      twice, the last occurrence wins. */
  lemma {:induction false} BindAllBinds(names: seq<A.Node>, items: seq<Value>, i: nat, st: Store, cs: seq<set<string>>, j: nat)
    requires AllIdentifiers(names) && |items| == |names| && i <= j < |names| && Shaped(st, cs)
    requires BindAll(names, items, i, st, cs).Ok?
    requires forall k :: j < k < |names| ==> names[k].symbol != names[j].symbol
    ensures Fetch(BindAll(names, items, i, st, cs).value, names[j].symbol) == Ok(items[j])
    decreases |names| - i
  {
    var st' := Binding(st, cs, names[i].symbol, items[i]).value;
    if i < j {
      BindAllBinds(names, items, i + 1, st', cs, j);
    } else {
      FetchDeclared(st, names[i].symbol, items[i], names[i].symbol);
      BindAllKeeps(names, items, i + 1, st', cs, names[j].symbol);
    }
  }

  /** A successful tuple destructuring `{x1, ..., xn} = t` binds each `xi` to the element of `t`
      at its position (the last one for a repeated name). */
  lemma DestructuringBinds(targets: seq<A.Node>, items: seq<Value>, st: Store, cs: seq<set<string>>, arith: Arith, j: nat)
    requires AllSimple(targets) && Shaped(st, cs) && targets != [] && AllIdentifiers(targets)
    requires MatchTuple(targets, items, st, cs, arith).Ok? && j < |targets|
    requires forall k :: j < k < |targets| ==> targets[k].symbol != targets[j].symbol
    ensures |items| == |targets|
    ensures Fetch(MatchTuple(targets, items, st, cs, arith).value, targets[j].symbol) == Ok(items[j])
  {
    BindAllBinds(targets, items, 0, st, cs, j);
  }
}
