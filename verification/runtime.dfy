/** Runtime values and scopes (RuntimeValue, Environment.java). Values and environments refer to
    each other (an anonymous function captures its declaration scope), so they share a module. */
module Runtime {
  import A = Ast
  import opened Results

  /** RuntimeValueType */
  datatype ValueType =
    | NullType | NumberType | BooleanType | AtomType | StringType | TupleType | ListType | MapType
    | NativeFunctionType | ModuleType | AnonymousFnType

  /** The built-in functions a NativeFunction value can stand for. */
  datatype Native =
    | Print | Date | IsBoolean | IsAtom | IsNumber | IsTuple | IsList | Len
    | TupleAt | TupleAppend | TupleDeleteAt | TupleInsertAt | TupleToList
    | EnumMap | EnumSum | EnumSort
    | ListAt | ListAppend | ListDeleteAt | ListInsertAt | ListPop
    | MapDelete | MapFetch | MapReplace | MapToList

  datatype Value =
    | Null
    | Number(number: int)
    | Boolean(boolean: bool)
    | Atom(name: string)
    | String(text: string)                    // the text as stored, including its double quotes
    | Tuple(tuple: Aggregate)                 // tuples and lists are mutable, shared objects
    | List(list: Aggregate)
    | Map(entries: MapObject)
    | NativeFunction(native: Native)
    | Module(moduleName: string, functions: map<string, Native>)
    | AnonymousFn(parameters: seq<A.Node>, returnExpr: A.Node, declarationEnv: Environment)

  function KindOf(v: Value): ValueType {
    match v
    case Null => NullType
    case Number(_) => NumberType
    case Boolean(_) => BooleanType
    case Atom(_) => AtomType
    case String(_) => StringType
    case Tuple(_) => TupleType
    case List(_) => ListType
    case Map(_) => MapType
    case NativeFunction(_) => NativeFunctionType
    case Module(_, _) => ModuleType
    case AnonymousFn(_, _, _) => AnonymousFnType
  }

  /** The object behind a tuple or list value. */
  function AggregateOf(v: Value): Aggregate
    requires v.Tuple? || v.List?
  {
    if v.Tuple? then v.tuple else v.list
  }

  /** The `contents` list of a tuple or list value, updated in place. */
  class Aggregate {
    var contents: seq<Value>

    constructor (contents: seq<Value>)
      ensures this.contents == contents
    {
      this.contents := contents;
    }
  }

  /** The hash map behind a map value, updated in place. */
  class MapObject {
    var entries: map<Value, Value>

    constructor ()
      ensures entries == map[]
    {
      entries := map[];
    }
  }

  /** Environment.java: one scope of a parent-linked chain. */
  class Environment {
    const parent: Environment?
    var variables: map<string, Value>
    var constants: set<string>
    /** The scopes above this one, nearest first. */
    ghost const Ancestors: seq<Environment>

    constructor (parent: Environment?)
      requires parent != null ==> parent.Linked()
      ensures this.parent == parent && variables == map[] && constants == {}
      ensures Linked() && Chain() == [this] + (if parent == null then [] else parent.Chain())
    {
      this.parent := parent;
      variables := map[];
      constants := {};
      Ancestors := if parent == null then [] else parent.Chain();
    }

    /** This scope and every scope above it, nearest first. */
    ghost function Chain(): (c: seq<Environment>)
      ensures c != [] && c[0] == this && c[1..] == Ancestors
    {
      [this] + Ancestors
    }

    /** `Ancestors` follows the `parent` links to the root. */
    ghost predicate Linked()
      decreases |Ancestors|
    {
      if parent == null then Ancestors == []
      else Ancestors == parent.Chain() && parent.Linked()
    }

    /** Every constant of this scope is bound in it. */
    ghost predicate Valid()
      reads this
    {
      constants <= variables.Keys
    }

    /** safeResolveEnvironment: the nearest scope of the chain that binds `name`, or null. */
    function SafeResolve(name: string): (r: Environment?)
      requires Linked()
      reads Chain()
      ensures r == null <==> forall k :: 0 <= k < |Chain()| ==> name !in Chain()[k].variables
      ensures r != null ==> exists k :: 0 <= k < |Chain()| && Chain()[k] == r && name in r.variables
                                        && forall j :: 0 <= j < k ==> name !in Chain()[j].variables
      decreases |Ancestors|
    {
      if name in variables then
        assert Chain()[0] == this;
        this
      else if parent == null then null
      else
        var r := parent.SafeResolve(name);
        assert forall k :: 0 <= k < |parent.Chain()| ==> parent.Chain()[k] == Chain()[k + 1];
        r
    }

    /** containsVariable: some scope of the chain binds `name`; never fails. */
    function Contains(name: string): (b: bool)
      requires Linked()
      reads Chain()
      ensures b <==> exists k :: 0 <= k < |Chain()| && name in Chain()[k].variables
    {
      SafeResolve(name) != null
    }

    /** resolveEnvironment: like `SafeResolve`, but an unbound name is fatal. */
    function Resolve(name: string): (r: Result<Environment>)
      requires Linked()
      reads Chain()
      ensures r == (if SafeResolve(name) == null then Err(NameError(name)) else Ok(SafeResolve(name)))
      decreases |Ancestors|
    {
      if name in variables then Ok(this)
      else if parent == null then Err(NameError(name))
      else parent.Resolve(name)
    }

    /** lookupVariable: the value in the nearest scope binding `name`, so inner bindings shadow
        outer ones; an unbound name is fatal. */
    function Lookup(name: string): (r: Result<Value>)
      requires Linked()
      reads Chain()
      ensures r.Ok? <==> Contains(name)
      ensures r.Err? ==> r.error == NameError(name)
      ensures name in variables ==> r == Ok(variables[name])
      ensures name !in variables && parent != null ==> r == parent.Lookup(name)
      decreases |Ancestors|
    {
      var env :- Resolve(name);
      Ok(env.variables[name])
    }

    /** The variables of every scope of the chain, nearest first. */
    ghost function Bindings(): (st: Store)
      reads Chain()
      ensures |st| == |Chain()| && forall k :: 0 <= k < |st| ==> st[k] == Chain()[k].variables
    {
      VariablesOf(Chain())
    }

    /** The constants of every scope of the chain, nearest first. */
    ghost function Consts(): (cs: seq<set<string>>)
      reads Chain()
      ensures |cs| == |Chain()| && forall k :: 0 <= k < |cs| ==> cs[k] == Chain()[k].constants
    {
      ConstantsOf(Chain())
    }

    /** Every scope of the chain is linked to the rest of the chain. */
    lemma {:induction false} ChainSuffix(i: nat)
      requires Linked() && i < |Chain()|
      ensures Chain()[i].Linked() && Chain()[i].Chain() == Chain()[i..]
      decreases i
    {
      if i > 0 {
        parent.ChainSuffix(i - 1);
      }
    }

    /** No scope occurs twice in a chain. */
    lemma ChainDistinct()
      requires Linked()
      ensures forall i, j :: 0 <= i < j < |Chain()| ==> Chain()[i] != Chain()[j]
    {
      forall i, j | 0 <= i < j < |Chain()|
        ensures Chain()[i] != Chain()[j]
      {
        ChainSuffix(i);
        ChainSuffix(j);
      }
    }

    /** `SafeResolve` finds the scope at the index `Nearest` computes on the bindings. */
    lemma ResolveIsNearest(name: string)
      requires Linked()
      ensures SafeResolve(name) == (if Nearest(Bindings(), name) == |Chain()| then null else Chain()[Nearest(Bindings(), name)])
    {
      var st := Bindings();
      var n := Nearest(st, name);
      var e := SafeResolve(name);
      if e != null {
        var k :| 0 <= k < |Chain()| && Chain()[k] == e && name in e.variables
                 && forall j :: 0 <= j < k ==> name !in Chain()[j].variables;
        assert st[k] == e.variables;
        assert k == n;
      }
    }

    /** `Lookup` reads the bindings as `Fetch` does. */
    lemma LookupIsFetch(name: string)
      requires Linked()
      ensures Lookup(name) == Fetch(Bindings(), name)
    {
      ResolveIsNearest(name);
    }

    /** assignVariable: writes `value` into the nearest scope binding `name`; no other scope changes.
        The write happens before the constant check, so a constant is overwritten and then the
        assignment fails. */
    method Assign(name: string, value: Value) returns (r: Result<Value>)
      requires Linked()
      modifies if SafeResolve(name) == null then {} else {SafeResolve(name)}
      ensures Bindings() == Written(old(Bindings()), name, value)
      ensures Consts() == old(Consts())
      ensures r == Assignment(old(Bindings()), old(Consts()), name, value).Yield(value)
    {
      ResolveIsNearest(name);
      ChainDistinct();
      ghost var before := Bindings();
      ghost var k := Nearest(before, name);
      var env :- Resolve(name);
      assert Chain()[k] == env;
      env.variables := env.variables[name := value];
      forall j | 0 <= j < |Chain()| && j != k
        ensures Bindings()[j] == before[j]
      {
        assert Chain()[j] != env;
      }
      assert Bindings()[k] == before[k][name := value];
      WrittenAt(before, Bindings(), name, value);
      if name in env.constants {
        return Err(ConstAssignment(name));
      }
      return Ok(value);
    }

    /** declareVariable: binds `name` in this scope, marking it constant when asked; a name this
        scope already binds is assigned instead (so re-declaring a constant is fatal). */
    method Declare(name: string, value: Value, constant: bool) returns (r: Result<Value>)
      requires Linked()
      modifies this
      ensures variables == old(variables)[name := value]
      ensures old(name in variables) ==>
                constants == old(constants) && r == (if name in constants then Err(ConstAssignment(name)) else Ok(value))
      ensures old(name !in variables) ==>
                constants == (if constant then old(constants) + {name} else old(constants)) && r == Ok(value)
      ensures old(Valid()) ==> Valid()
    {
      if name in variables {
        ChainDistinct();
        assert Nearest(Bindings(), name) == 0;
        r := Assign(name, value);
        assert Bindings()[0] == variables && Consts()[0] == constants;
        if r.Err? {
          return r;
        }
        return Ok(value);
      }
      variables := variables[name := value];
      if constant {
        constants := constants + {name};
      }
      return Ok(value);
    }

    /** declareVariable with two arguments: a non-constant declaration, read on the whole chain. */
    method DeclareVariable(name: string, value: Value) returns (r: Result<Value>)
      requires Linked()
      modifies this
      ensures Bindings() == old(Bindings())[0 := old(Bindings())[0][name := value]]
      ensures Consts() == old(Consts())
      ensures r == Binding(old(Bindings()), old(Consts()), name, value).Yield(value)
    {
      ChainDistinct();
      ghost var before := Bindings();
      ghost var consts := Consts();
      r := Declare(name, value, false);
      assert forall j :: 0 < j < |Chain()| ==> Bindings()[j] == before[j] && Consts()[j] == consts[j];
      assert Bindings() == before[0 := before[0][name := value]];
      assert Consts() == consts;
    }
  }

  /** A snapshot of the variables of a chain of scopes, nearest first. */
  type Store = seq<map<string, Value>>

  ghost function VariablesOf(chain: seq<Environment>): (st: Store)
    reads chain
    ensures |st| == |chain| && forall k :: 0 <= k < |chain| ==> st[k] == chain[k].variables
  {
    if chain == [] then [] else [chain[0].variables] + VariablesOf(chain[1..])
  }

  ghost function ConstantsOf(chain: seq<Environment>): (cs: seq<set<string>>)
    reads chain
    ensures |cs| == |chain| && forall k :: 0 <= k < |chain| ==> cs[k] == chain[k].constants
  {
    if chain == [] then [] else [chain[0].constants] + ConstantsOf(chain[1..])
  }

  /** The index of the nearest scope binding `name`, or `|st|` when no scope does. */
  function Nearest(st: Store, name: string): (k: nat)
    ensures k <= |st|
    ensures k < |st| ==> name in st[k]
    ensures forall j :: 0 <= j < k ==> name !in st[j]
  {
    if st == [] then 0
    else if name in st[0] then 0
    else 1 + Nearest(st[1..], name)
  }

  /** The value of `name` in the nearest scope binding it. */
  function Fetch(st: Store, name: string): (r: Result<Value>)
    ensures r.Ok? <==> exists k :: 0 <= k < |st| && name in st[k]
    ensures r.Err? ==> r.error == NameError(name)
  {
    var k := Nearest(st, name);
    if k == |st| then Err(NameError(name)) else Ok(st[k][name])
  }

  /** The write of assignVariable: the nearest scope binding `name` maps it to `v`. */
  function Written(st: Store, name: string, v: Value): (w: Store)
    ensures |w| == |st|
  {
    var k := Nearest(st, name);
    if k == |st| then st else st[k := st[k][name := v]]
  }

  /** A store that differs from `st` only in the nearest scope binding `name`, where `name` now
      maps to `v`, is the write of `v` to `name`. */
  lemma WrittenAt(st: Store, w: Store, name: string, v: Value)
    requires |w| == |st| && Nearest(st, name) < |st|
    requires w[Nearest(st, name)] == st[Nearest(st, name)][name := v]
    requires forall j :: 0 <= j < |st| && j != Nearest(st, name) ==> w[j] == st[j]
    ensures w == Written(st, name, v)
  {
  }

  /** assignVariable on a snapshot: an unbound name and a constant are fatal. */
  function Assignment(st: Store, cs: seq<set<string>>, name: string, v: Value): (r: Result<Store>)
    requires |cs| == |st|
    ensures r.Ok? ==> r.value == Written(st, name, v)
    ensures r.Err? <==> Nearest(st, name) == |st| || name in cs[Nearest(st, name)]
  {
    var k := Nearest(st, name);
    if k == |st| then Err(NameError(name))
    else if name in cs[k] then Err(ConstAssignment(name))
    else Ok(Written(st, name, v))
  }

  /** declareVariable(name, v) on a snapshot: binds `name` in the innermost scope, or assigns it
      there when that scope already binds it. */
  function Binding(st: Store, cs: seq<set<string>>, name: string, v: Value): (r: Result<Store>)
    requires |cs| == |st| && st != []
    ensures r.Ok? ==> r.value == st[0 := st[0][name := v]]
    ensures r.Err? <==> name in st[0] && name in cs[0]
  {
    if name in st[0] then Assignment(st, cs, name, v) else Ok(st[0 := st[0][name := v]])
  }

  /** After a write, `name` fetches the written value and every other name is unaffected. */
  lemma FetchWritten(st: Store, name: string, v: Value, other: string)
    requires Nearest(st, name) < |st|
    ensures Fetch(Written(st, name, v), name) == Ok(v)
    ensures other != name ==> Fetch(Written(st, name, v), other) == Fetch(st, other)
  {
    var k := Nearest(st, name);
    var w := Written(st, name, v);
    assert w == st[k := st[k][name := v]];
    forall j | 0 <= j < |st|
      ensures w[j].Keys == st[j].Keys
    {
      if j == k {
        assert w[j].Keys == st[j].Keys + {name};
      }
    }
    NearestSameKeys(st, w, name);
    if other != name {
      NearestSameKeys(st, w, other);
      var n := Nearest(st, other);
      assert n < |st| ==> w[n][other] == st[n][other];
    }
  }

  /** After binding `name` in the innermost scope, `name` fetches the bound value and every other
      name is unaffected. */
  lemma FetchDeclared(st: Store, name: string, v: Value, other: string)
    requires st != []
    ensures Fetch(st[0 := st[0][name := v]], name) == Ok(v)
    ensures other != name ==> Fetch(st[0 := st[0][name := v]], other) == Fetch(st, other)
  {
    var w := st[0 := st[0][name := v]];
    if other != name {
      assert forall j :: 0 <= j < |st| ==> (other in w[j] <==> other in st[j]);
      NearestSameKeys(st, w, other);
    }
  }

  /** `Nearest` only depends on which scopes bind the name. */
  lemma {:induction false} NearestSameKeys(st: Store, w: Store, name: string)
    requires |st| == |w|
    requires forall j :: 0 <= j < |st| ==> (name in w[j] <==> name in st[j])
    ensures Nearest(w, name) == Nearest(st, name)
  {
    if st != [] && name !in st[0] {
      NearestSameKeys(st[1..], w[1..], name);
    }
  }

  /** The names `createGlobalEnvironment` declares as constants. */
  const GlobalConstants: set<string> :=
    {"null", "true", "false", "print", "date"} + {"Tuple", "Enum", "List", "Map"}

  const TupleFunctions: map<string, Native> :=
    map["at" := TupleAt, "append" := TupleAppend, "delete_at" := TupleDeleteAt,
        "insert_at" := TupleInsertAt, "to_list" := TupleToList]
  const EnumFunctions: map<string, Native> := map["map" := EnumMap, "sum" := EnumSum, "sort" := EnumSort]
  const ListFunctions: map<string, Native> :=
    map["at" := ListAt, "append" := ListAppend, "delete_at" := ListDeleteAt,
        "insert_at" := ListInsertAt, "pop" := ListPop]
  const MapFunctions: map<string, Native> :=
    map["delete" := MapDelete, "fetch" := MapFetch, "replace" := MapReplace, "to_list" := MapToList]

  /** The constants `createGlobalEnvironment` declares before the modules. */
  const LiteralBindings: map<string, Value> :=
    map["null" := Null, "true" := Boolean(true), "false" := Boolean(false),
        "print" := NativeFunction(Print), "date" := NativeFunction(Date)]

  /** `st` with the four modules `declareAllModules` binds. */
  function WithModules(st: map<string, Value>): map<string, Value> {
    st["Tuple" := Module("Tuple", TupleFunctions)]["Enum" := Module("Enum", EnumFunctions)]
      ["List" := Module("List", ListFunctions)]["Map" := Module("Map", MapFunctions)]
  }

  /** `st` with the `is_*` predicates and `len`. */
  function WithPredicates(st: map<string, Value>): map<string, Value> {
    st["is_boolean" := NativeFunction(IsBoolean)]["is_atom" := NativeFunction(IsAtom)]
      ["is_number" := NativeFunction(IsNumber)]["is_tuple" := NativeFunction(IsTuple)]
      ["is_list" := NativeFunction(IsList)]["len" := NativeFunction(Len)]
  }

  /** The bindings of the global scope. */
  const GlobalBindings: map<string, Value> := WithPredicates(WithModules(LiteralBindings))

  /** createGlobalEnvironment: the root scope with the literals, the natives and the modules. */
  method CreateGlobalEnvironment() returns (env: Environment)
    ensures fresh(env) && env.parent == null && env.Linked() && env.Chain() == [env] && env.Valid()
    ensures env.variables == GlobalBindings && env.constants == GlobalConstants
  {
    env := new Environment(null);
    DeclareLiterals(env);
    ModulesAreNew();
    DeclareAllModules(env);
    PredicatesAreNew();
    DeclarePredicates(env);
  }

  /** No module shares its name with a literal or a native. */
  lemma ModulesAreNew()
    ensures forall m :: m in {"Tuple", "Enum", "List", "Map"} ==> m !in LiteralBindings
  {
  }

  /** No predicate shares its name with a binding declared before it. */
  lemma PredicatesAreNew()
    ensures forall x :: x in {"is_boolean", "is_atom", "is_number", "is_tuple", "is_list", "len"} ==>
              x !in WithModules(LiteralBindings)
  {
  }

  /** The literals and the two natives, each declared as a constant. */
  method DeclareLiterals(env: Environment)
    requires env.Linked() && env.variables == map[] && env.constants == {}
    modifies env
    ensures env.variables == LiteralBindings
    ensures env.constants == {"null", "true", "false", "print", "date"}
    ensures env.Valid()
  {
    var r;
    r := env.Declare("null", Null, true);
    r := env.Declare("true", Boolean(true), true);
    r := env.Declare("false", Boolean(false), true);
    r := env.Declare("print", NativeFunction(Print), true);
    r := env.Declare("date", NativeFunction(Date), true);
  }

  /** The `is_*` predicates and `len`, declared as ordinary bindings. */
  method DeclarePredicates(env: Environment)
    requires env.Linked()
    requires forall x :: x in {"is_boolean", "is_atom", "is_number", "is_tuple", "is_list", "len"} ==> x !in env.variables
    modifies env
    ensures env.variables == WithPredicates(old(env.variables))
    ensures env.constants == old(env.constants)
    ensures old(env.Valid()) ==> env.Valid()
  {
    var r;
    r := env.Declare("is_boolean", NativeFunction(IsBoolean), false);
    r := env.Declare("is_atom", NativeFunction(IsAtom), false);
    r := env.Declare("is_number", NativeFunction(IsNumber), false);
    r := env.Declare("is_tuple", NativeFunction(IsTuple), false);
    r := env.Declare("is_list", NativeFunction(IsList), false);
    r := env.Declare("len", NativeFunction(Len), false);
  }

  /** Modules.declareAllModules: the four modules, each bound as a constant. */
  method DeclareAllModules(env: Environment)
    requires env.Linked()
    requires forall m :: m in {"Tuple", "Enum", "List", "Map"} ==> m !in env.variables
    modifies env
    ensures env.variables == WithModules(old(env.variables))
    ensures env.constants == old(env.constants) + {"Tuple", "Enum", "List", "Map"}
    ensures old(env.Valid()) ==> env.Valid()
  {
    var r;
    r := env.Declare("Tuple", Module("Tuple", TupleFunctions), true);
    r := env.Declare("Enum", Module("Enum", EnumFunctions), true);
    r := env.Declare("List", Module("List", ListFunctions), true);
    r := env.Declare("Map", Module("Map", MapFunctions), true);
  }

  /** In the global scope, `null`, `true` and `false` are constants bound to the null and boolean
      values, while the `is_*` predicates and `len` are ordinary bindings a program may rebind. */
  lemma GlobalLiteralsAreConstant()
    ensures forall x :: x in {"null", "true", "false"} ==> x in GlobalConstants && x in GlobalBindings
    ensures GlobalBindings["null"] == Null && GlobalBindings["true"] == Boolean(true)
    ensures GlobalBindings["false"] == Boolean(false)
    ensures forall x :: x in {"is_boolean", "is_atom", "is_number", "is_tuple", "is_list", "len"} ==>
              x in GlobalBindings && x !in GlobalConstants
    ensures GlobalConstants <= GlobalBindings.Keys
  {
    GlobalKeys();
    GlobalLiteralValues();
  }

  /** The names the global scope binds: the literals and natives, the modules and the predicates. */
  lemma GlobalKeys()
    ensures GlobalBindings.Keys == GlobalConstants + {"is_boolean", "is_atom", "is_number", "is_tuple", "is_list", "len"}
    ensures forall x :: x in {"is_boolean", "is_atom", "is_number", "is_tuple", "is_list", "len"} ==> x !in GlobalConstants
  {
    assert LiteralBindings.Keys == {"null", "true", "false", "print", "date"};
    WithModulesKeeps(LiteralBindings);
    WithPredicatesKeeps(WithModules(LiteralBindings));
    PredicatesAreNew();
  }

  /** The values of `null`, `true` and `false` in the global scope. */
  lemma GlobalLiteralValues()
    ensures GlobalBindings["null"] == Null && GlobalBindings["true"] == Boolean(true)
    ensures GlobalBindings["false"] == Boolean(false)
  {
    LiteralKept("null");
    LiteralKept("true");
    LiteralKept("false");
  }

  /** A literal that is neither a module nor a predicate keeps its value in the global scope. */
  lemma LiteralKept(x: string)
    requires x in LiteralBindings
    requires x !in {"Tuple", "Enum", "List", "Map"}
    requires x !in {"is_boolean", "is_atom", "is_number", "is_tuple", "is_list", "len"}
    ensures GlobalBindings[x] == LiteralBindings[x]
  {
    WithModulesKeeps(LiteralBindings);
    WithPredicatesKeeps(WithModules(LiteralBindings));
  }

  /** Declaring the modules keeps every binding that is not a module's name. */
  lemma WithModulesKeeps(st: map<string, Value>)
    ensures WithModules(st).Keys == st.Keys + {"Tuple", "Enum", "List", "Map"}
    ensures forall x :: x in st && x !in {"Tuple", "Enum", "List", "Map"} ==> WithModules(st)[x] == st[x]
  {
  }

  /** Declaring the predicates keeps every binding that is not a predicate's name. */
  lemma WithPredicatesKeeps(st: map<string, Value>)
    ensures WithPredicates(st).Keys == st.Keys + {"is_boolean", "is_atom", "is_number", "is_tuple", "is_list", "len"}
    ensures forall x :: x in st && x !in {"is_boolean", "is_atom", "is_number", "is_tuple", "is_list", "len"} ==>
              WithPredicates(st)[x] == st[x]
  {
  }

  /** is_boolean, is_atom, is_number, is_tuple and is_list: whether the single argument has the kind. */
  function IsKind(kind: ValueType, fn: string, args: seq<Value>): (r: Result<Value>)
    ensures r.Err? <==> |args| != 1
    ensures r.Err? ==> r.error == InvalidArguments(fn)
    ensures r.Ok? ==> r.value.Boolean?
    ensures r == Ok(Boolean(true)) <==> |args| == 1 && KindOf(args[0]) == kind
  {
    if |args| != 1 then Err(InvalidArguments(fn)) else Ok(Boolean(KindOf(args[0]) == kind))
  }

  /** len: the element count of a tuple or list, the length without its quotes of a string. */
  method Length(args: seq<Value>) returns (r: Result<Value>)
    ensures |args| != 1 ==> r == Err(InvalidArguments("len"))
    ensures |args| == 1 && args[0].Tuple? ==> r == Ok(Number(|args[0].tuple.contents|))
    ensures |args| == 1 && args[0].List? ==> r == Ok(Number(|args[0].list.contents|))
    ensures |args| == 1 && args[0].String? ==> r == Ok(Number(|args[0].text| - 2))
    ensures |args| == 1 && !(args[0].Tuple? || args[0].List? || args[0].String?) ==> r == Err(ArgumentKind("len"))
  {
    if |args| != 1 {
      return Err(InvalidArguments("len"));
    }
    var arg := args[0];
    match arg {
      case Tuple(t) => return Ok(Number(|t.contents|));
      case List(l) => return Ok(Number(|l.contents|));
      case String(s) => return Ok(Number(|s| - 2));
      case _ => return Err(ArgumentKind("len"));
    }
  }
}
