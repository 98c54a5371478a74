/** The natives of the Tuple, List, Map and Enum modules (Modules.java).

    Every native takes its argument list, checks the count and the kinds first (a mismatch is
    fatal), and the Tuple, List and Map operations that change their argument do so in place
    and return the same object. Tuple and List operations with the same name run the same code
    on a different kind, so each is one method with the kind and the native's name as
    parameters. */
module Library {
  import opened Results
  import opened Runtime
  import S = Sorting

  // ---------------------------------------------------------------------------------------
  // Argument guards

  /** expect: the given kind must be the expected one. */
  function Expect(given: ValueType, expected: ValueType, fn: string): (c: Check)
    ensures c.Pass? <==> given == expected
    ensures c.Fail? ==> c.error == ArgumentKind(fn)
  {
    if given != expected then Fail(ArgumentKind(fn)) else Pass
  }

  /** expectArgs: the native must get exactly the required number of arguments. */
  function ExpectArgs(fn: string, given: nat, required: nat): (c: Check)
    ensures c.Pass? <==> given == required
    ensures c.Fail? ==> c.error == InvalidArguments(fn)
  {
    if given != required then Fail(InvalidArguments(fn)) else Pass
  }

  /** expectEnumerable: the value must be a list or a map. */
  function ExpectEnumerable(v: Value, fn: string): (c: Check)
    ensures c.Pass? <==> v.List? || v.Map?
    ensures c.Fail? ==> c.error == ArgumentKind(fn)
  {
    if !v.List? && !v.Map? then Fail(ArgumentKind(fn)) else Pass
  }

  /** The checks a Tuple or List native starts with: `count` arguments, the first of `kind`. */
  function Operand(fn: string, kind: ValueType, args: seq<Value>, count: nat): (r: Result<Aggregate>)
    requires kind == TupleType || kind == ListType
    requires count > 0
    ensures r.Ok? <==> |args| == count && KindOf(args[0]) == kind
    ensures r.Ok? ==> (args[0].Tuple? || args[0].List?) && r.value == AggregateOf(args[0])
    ensures |args| != count ==> r == Err(InvalidArguments(fn))
    ensures |args| == count && KindOf(args[0]) != kind ==> r == Err(ArgumentKind(fn))
  {
    if |args| != count then Err(InvalidArguments(fn))
    else if KindOf(args[0]) != kind then Err(ArgumentKind(fn))
    else Ok(AggregateOf(args[0]))
  }

  /** The checks a Map native starts with: `count` arguments, the first a map. */
  function MapOperand(fn: string, args: seq<Value>, count: nat): (r: Result<MapObject>)
    requires count > 0
    ensures r.Ok? <==> |args| == count && args[0].Map?
    ensures r.Ok? ==> r.value == args[0].entries
    ensures |args| != count ==> r == Err(InvalidArguments(fn))
    ensures |args| == count && !args[0].Map? ==> r == Err(ArgumentKind(fn))
  {
    if |args| != count then Err(InvalidArguments(fn))
    else if !args[0].Map? then Err(ArgumentKind(fn))
    else Ok(args[0].entries)
  }

  /** The index argument: it must be a number. */
  function Index(fn: string, v: Value): (r: Result<int>)
    ensures r.Ok? <==> v.Number?
    ensures r.Ok? ==> r.value == v.number
    ensures r.Err? ==> r.error == ArgumentKind(fn)
  {
    if v.Number? then Ok(v.number) else Err(ArgumentKind(fn))
  }

  /** The object a native may change: the aggregate or map of its first argument. */
  function Target(args: seq<Value>): set<object> {
    if args == [] then {}
    else if args[0].Tuple? || args[0].List? then {AggregateOf(args[0])}
    else if args[0].Map? then {args[0].entries}
    else {}
  }

  // ---------------------------------------------------------------------------------------
  // Positional updates

  /** `v` placed at `i`, the elements from `i` on shifted up. */
  function Inserted(s: seq<Value>, i: nat, v: Value): (r: seq<Value>)
    requires i <= |s|
    ensures |r| == |s| + 1 && r[i] == v && multiset(r) == multiset(s) + multiset{v}
    ensures forall k :: 0 <= k < i ==> r[k] == s[k]
    ensures forall k :: i < k < |r| ==> r[k] == s[k - 1]
  {
    assert s == s[..i] + s[i..];
    s[..i] + [v] + s[i..]
  }

  /** The element at `i` removed, the elements after it shifted down. */
  function Removed(s: seq<Value>, i: nat): (r: seq<Value>)
    requires i < |s|
    ensures |r| == |s| - 1 && multiset(r) == multiset(s) - multiset{s[i]}
    ensures forall k :: 0 <= k < i ==> r[k] == s[k]
    ensures forall k :: i <= k < |r| ==> r[k] == s[k + 1]
  {
    assert s == s[..i] + [s[i]] + s[i + 1..];
    s[..i] + s[i + 1..]
  }

  /** delete_at undoes insert_at at the same index. */
  lemma RemoveInserted(s: seq<Value>, i: nat, v: Value)
    requires i <= |s|
    ensures Removed(Inserted(s, i, v), i) == s
  {
  }

  /** insert_at of the removed element undoes delete_at at the same index. */
  lemma InsertRemoved(s: seq<Value>, i: nat)
    requires i < |s|
    ensures Inserted(Removed(s, i), i, s[i]) == s
  {
  }

  // ---------------------------------------------------------------------------------------
  // Tuple and List natives

  /** at/2: the element at the index; nothing changes. An index out of range is fatal. */
  method At(fn: string, kind: ValueType, args: seq<Value>) returns (r: Result<Value>)
    requires kind == TupleType || kind == ListType
    ensures Operand(fn, kind, args, 2).Err? ==> r == Err(Operand(fn, kind, args, 2).error)
    ensures Operand(fn, kind, args, 2).Ok? && !args[1].Number? ==> r == Err(ArgumentKind(fn))
    ensures Operand(fn, kind, args, 2).Ok? && args[1].Number? ==>
              var c, i := AggregateOf(args[0]).contents, args[1].number;
              r == if 0 <= i < |c| then Ok(c[i]) else Err(IndexError(fn))
  {
    var a :- Operand(fn, kind, args, 2);
    var i :- Index(fn, args[1]);
    if i < 0 || i >= |a.contents| {
      return Err(IndexError(fn));
    }
    return Ok(a.contents[i]);
  }

  /** append/2: adds the element at the end, in place, and returns the same tuple or list. */
  method Append(fn: string, kind: ValueType, args: seq<Value>) returns (r: Result<Value>)
    requires kind == TupleType || kind == ListType
    modifies Target(args)
    ensures Operand(fn, kind, args, 2).Err? ==> r == Err(Operand(fn, kind, args, 2).error) && unchanged(Target(args))
    ensures Operand(fn, kind, args, 2).Ok? ==>
              r == Ok(args[0]) && AggregateOf(args[0]).contents == old(AggregateOf(args[0]).contents) + [args[1]]
  {
    var a :- Operand(fn, kind, args, 2);
    a.contents := a.contents + [args[1]];
    return Ok(args[0]);
  }

  /** delete_at/2: removes the element at the index in place and returns the same object. An
      index out of range is fatal. */
  method DeleteAt(fn: string, kind: ValueType, args: seq<Value>) returns (r: Result<Value>)
    requires kind == TupleType || kind == ListType
    modifies Target(args)
    ensures r.Err? ==> unchanged(Target(args))
    ensures Operand(fn, kind, args, 2).Err? ==> r == Err(Operand(fn, kind, args, 2).error)
    ensures Operand(fn, kind, args, 2).Ok? && !args[1].Number? ==> r == Err(ArgumentKind(fn))
    ensures Operand(fn, kind, args, 2).Ok? && args[1].Number? ==>
              var c, i := old(AggregateOf(args[0]).contents), args[1].number;
              if 0 <= i < |c| then r == Ok(args[0]) && AggregateOf(args[0]).contents == Removed(c, i)
              else r == Err(IndexError(fn))
  {
    var a :- Operand(fn, kind, args, 2);
    var i :- Index(fn, args[1]);
    if i < 0 || i >= |a.contents| {
      return Err(IndexError(fn));
    }
    a.contents := a.contents[..i] + a.contents[i + 1..];
    return Ok(args[0]);
  }

  /** insert_at/3: places the value at the index in place, shifting the rest up, and returns the
      same object. An index past the end is fatal; one equal to the size appends. */
  method InsertAt(fn: string, kind: ValueType, args: seq<Value>) returns (r: Result<Value>)
    requires kind == TupleType || kind == ListType
    modifies Target(args)
    ensures r.Err? ==> unchanged(Target(args))
    ensures Operand(fn, kind, args, 3).Err? ==> r == Err(Operand(fn, kind, args, 3).error)
    ensures Operand(fn, kind, args, 3).Ok? && !args[1].Number? ==> r == Err(ArgumentKind(fn))
    ensures Operand(fn, kind, args, 3).Ok? && args[1].Number? ==>
              var c, i := old(AggregateOf(args[0]).contents), args[1].number;
              if 0 <= i <= |c| then r == Ok(args[0]) && AggregateOf(args[0]).contents == Inserted(c, i, args[2])
              else r == Err(IndexError(fn))
  {
    var a :- Operand(fn, kind, args, 3);
    var i :- Index(fn, args[1]);
    if i < 0 || i > |a.contents| {
      return Err(IndexError(fn));
    }
    a.contents := a.contents[..i] + [args[2]] + a.contents[i..];
    return Ok(args[0]);
  }

  /** Tuple.to_list/1: a new list holding the tuple's elements; the tuple does not change. */
  method TupleToList(args: seq<Value>) returns (r: Result<Value>)
    ensures Operand("Tuple.to_list", TupleType, args, 1).Err? ==> r == Err(Operand("Tuple.to_list", TupleType, args, 1).error)
    ensures Operand("Tuple.to_list", TupleType, args, 1).Ok? ==>
              r.Ok? && r.value.List? && fresh(r.value.list) && r.value.list.contents == args[0].tuple.contents
  {
    var t :- Operand("Tuple.to_list", TupleType, args, 1);
    var list := new Aggregate([]);
    list.contents := list.contents + t.contents;
    return Ok(List(list));
  }

  /** List.pop/1: removes the last element in place and returns the new tuple {last, list}. An
      empty list is fatal. */
  method Pop(args: seq<Value>) returns (r: Result<Value>)
    modifies Target(args)
    ensures r.Err? ==> unchanged(Target(args))
    ensures Operand("List.pop", ListType, args, 1).Err? ==> r == Err(Operand("List.pop", ListType, args, 1).error)
    ensures Operand("List.pop", ListType, args, 1).Ok? ==>
              var c := old(args[0].list.contents);
              if c == [] then r == Err(IndexError("List.pop"))
              else r.Ok? && r.value.Tuple? && fresh(r.value.tuple) && r.value.tuple.contents == [c[|c| - 1], args[0]]
                   && args[0].list.contents == c[..|c| - 1]
  {
    var list :- Operand("List.pop", ListType, args, 1);
    if |list.contents| == 0 {
      return Err(IndexError("List.pop"));
    }
    var result := new Aggregate([]);
    result.contents := result.contents + [list.contents[|list.contents| - 1]];
    list.contents := list.contents[..|list.contents| - 1];
    result.contents := result.contents + [args[0]];
    return Ok(Tuple(result));
  }

  /** List.append then List.pop on the same list: the pop hands back the appended value with the
      list itself, and the list is as before. */
  method AppendThenPop(list: Aggregate, v: Value) returns (r: Result<Value>)
    modifies list
    ensures list.contents == old(list.contents)
    ensures r.Ok? && r.value.Tuple? && r.value.tuple.contents == [v, List(list)]
  {
    var appended := Append("List.append", ListType, [List(list), v]);
    r := Pop([List(list)]);
  }

  /** insert_at then delete_at at the same index: the list is as before, and it is the same list. */
  method InsertThenDelete(list: Aggregate, i: nat, v: Value) returns (r: Result<Value>)
    requires i <= |list.contents|
    modifies list
    ensures list.contents == old(list.contents)
    ensures r == Ok(List(list))
  {
    ghost var before := list.contents;
    assert Operand("List.insert_at", ListType, [List(list), Number(i), v], 3) == Ok(list);
    var inserted := InsertAt("List.insert_at", ListType, [List(list), Number(i), v]);
    assert list.contents == Inserted(before, i, v);
    assert Operand("List.delete_at", ListType, [List(list), Number(i)], 2) == Ok(list);
    r := DeleteAt("List.delete_at", ListType, [List(list), Number(i)]);
    RemoveInserted(before, i, v);
  }

  // ---------------------------------------------------------------------------------------
  // Map natives

  /** Map.fetch/2: the value bound to the key, or null when the key is absent; nothing changes. */
  method MapFetch(args: seq<Value>) returns (r: Result<Value>)
    ensures MapOperand("Map.fetch", args, 2).Err? ==> r == Err(MapOperand("Map.fetch", args, 2).error)
    ensures MapOperand("Map.fetch", args, 2).Ok? ==>
              var m := args[0].entries.entries;
              r == Ok(if args[1] in m then m[args[1]] else Null)
  {
    var m :- MapOperand("Map.fetch", args, 2);
    if args[1] !in m.entries {
      return Ok(Null);
    }
    return Ok(m.entries[args[1]]);
  }

  /** Map.delete/2: removes the key in place and returns the same map; an absent key is fatal. */
  method MapDelete(args: seq<Value>) returns (r: Result<Value>)
    modifies Target(args)
    ensures r.Err? ==> unchanged(Target(args))
    ensures MapOperand("Map.delete", args, 2).Err? ==> r == Err(MapOperand("Map.delete", args, 2).error)
    ensures MapOperand("Map.delete", args, 2).Ok? ==>
              var m := old(args[0].entries.entries);
              if args[1] in m then r == Ok(args[0]) && args[0].entries.entries == m - {args[1]}
              else r == Err(IndexError("Map.delete"))
  {
    var m :- MapOperand("Map.delete", args, 2);
    if args[1] !in m.entries {
      return Err(IndexError("Map.delete"));
    }
    m.entries := m.entries - {args[1]};
    return Ok(args[0]);
  }

  /** Map.replace/3: rebinds the key in place and returns the same map; an absent key is fatal. */
  method MapReplace(args: seq<Value>) returns (r: Result<Value>)
    modifies Target(args)
    ensures r.Err? ==> unchanged(Target(args))
    ensures MapOperand("Map.replace", args, 3).Err? ==> r == Err(MapOperand("Map.replace", args, 3).error)
    ensures MapOperand("Map.replace", args, 3).Ok? ==>
              var m := old(args[0].entries.entries);
              if args[1] in m then r == Ok(args[0]) && args[0].entries.entries == m[args[1] := args[2]]
              else r == Err(IndexError("Map.replace"))
  {
    var m :- MapOperand("Map.replace", args, 3);
    if args[1] !in m.entries {
      return Err(IndexError("Map.replace"));
    }
    m.entries := m.entries[args[1] := args[2]];
    return Ok(args[0]);
  }

  /** The element of a list made by Map.to_list for one entry: a 2-tuple of the key and value. */
  ghost predicate IsEntryTuple(v: Value, m: map<Value, Value>)
    reads if v.Tuple? then {v.tuple} else {}
  {
    v.Tuple? && |v.tuple.contents| == 2 && v.tuple.contents[0] in m && m[v.tuple.contents[0]] == v.tuple.contents[1]
  }

  /** Map.to_list/1: a new list with one new {key, value} tuple per entry, each key once; the
      order of the entries is the hash map's and is left open. */
  method MapToList(args: seq<Value>) returns (r: Result<Value>)
    ensures MapOperand("Map.to_list", args, 1).Err? ==> r == Err(MapOperand("Map.to_list", args, 1).error)
    ensures MapOperand("Map.to_list", args, 1).Ok? ==> r.Ok? && r.value.List? && fresh(r.value.list)
    ensures r.Ok? && MapOperand("Map.to_list", args, 1).Ok? ==>
              var c, m := r.value.list.contents, args[0].entries.entries;
              |c| == |m| &&
              (forall j :: 0 <= j < |c| ==> IsEntryTuple(c[j], m) && fresh(c[j].tuple)) &&
              (forall k :: k in m ==> exists j :: 0 <= j < |c| && c[j].tuple.contents[0] == k)
  {
    var m :- MapOperand("Map.to_list", args, 1);
    var items: seq<Value> := [];
    var remaining := m.entries.Keys;
    while remaining != {}
      invariant remaining <= m.entries.Keys
      invariant |items| + |remaining| == |m.entries|
      invariant forall j :: 0 <= j < |items| ==> IsEntryTuple(items[j], m.entries) && fresh(items[j].tuple)
      invariant forall j :: 0 <= j < |items| ==> items[j].tuple.contents[0] !in remaining
      invariant forall k :: k in m.entries && k !in remaining ==>
                  exists j :: 0 <= j < |items| && items[j].tuple.contents[0] == k
      decreases |remaining|
    {
      var key :| key in remaining;
      var entry := Pair(key, m.entries[key]);
      ghost var before := items;
      items := items + [Tuple(entry)];
      forall k | k in m.entries && k !in remaining - {key}
        ensures exists j :: 0 <= j < |items| && items[j].tuple.contents[0] == k
      {
        if k == key {
          assert items[|before|].tuple.contents[0] == k;
        } else {
          var j :| 0 <= j < |before| && before[j].tuple.contents[0] == k;
          assert items[j] == before[j];
        }
      }
      remaining := remaining - {key};
    }
    var list := new Aggregate(items);
    return Ok(List(list));
  }

  /** A new tuple of two elements. */
  method Pair(first: Value, second: Value) returns (t: Aggregate)
    ensures fresh(t) && t.contents == [first, second]
  {
    t := new Aggregate([]);
    t.contents := t.contents + [first];
    t.contents := t.contents + [second];
  }

  // ---------------------------------------------------------------------------------------
  // Enum natives

  /** Enum.sort/1: a new list of the argument's numbers, atoms, tuples, lists and strings in
      that order, each group stably sorted by its key; the argument does not change. */
  method EnumSort(args: seq<Value>) returns (r: Result<Value>)
    ensures Operand("Enum.sort", ListType, args, 1).Err? ==> r == Err(Operand("Enum.sort", ListType, args, 1).error)
    ensures Operand("Enum.sort", ListType, args, 1).Ok? ==>
              r.Ok? && r.value.List? && fresh(r.value.list)
              && r.value.list.contents == S.Values(S.SortEntries(old(S.Entries(args[0].list.contents))))
  {
    var list :- Operand("Enum.sort", ListType, args, 1);
    var entries := S.Entries(list.contents);
    assert entries == old(S.Entries(args[0].list.contents));
    var newList := SortGroups(entries);
    r := Ok(List(newList));
  }

  /** The loop of Enum.sort over the entries of its argument: one group at a time, stopping
      early once every element has been placed. The new list is not visible until the loop is
      done, so its contents are gathered in a local sequence. */
  method SortGroups(entries: seq<S.Entry>) returns (newList: Aggregate)
    ensures fresh(newList) && newList.contents == S.Values(S.SortEntries(entries))
  {
    ghost var sorted := S.Values(S.SortEntries(entries));
    var contents: seq<Value> := [];
    var i := 0;
    FirstGroup(entries, sorted);
    while i < S.GroupCount
      invariant i <= S.GroupCount
      invariant sorted == contents + S.Values(S.SortedFrom(entries, i))
    {
      if |contents| == |entries| {
        break;
      }
      var group := S.Values(S.InsertionSort(S.InGroup(entries, i)));
      NextGroup(entries, i, contents, sorted);
      contents := contents + group;
      i := i + 1;
    }
    AllGroupsPlaced(entries, i, contents, sorted);
    newList := new Aggregate(contents);
  }

  /** Before the first group nothing is placed. */
  lemma FirstGroup(entries: seq<S.Entry>, sorted: seq<Value>)
    requires sorted == S.Values(S.SortEntries(entries))
    ensures sorted == [] + S.Values(S.SortedFrom(entries, 0))
  {
  }

  /** Placing group `g` after the groups before it leaves the groups after it. */
  lemma NextGroup(entries: seq<S.Entry>, g: nat, placed: seq<Value>, sorted: seq<Value>)
    requires g < S.GroupCount
    requires sorted == placed + S.Values(S.SortedFrom(entries, g))
    ensures sorted == placed + S.Values(S.InsertionSort(S.InGroup(entries, g))) + S.Values(S.SortedFrom(entries, g + 1))
  {
    var group, rest := S.InsertionSort(S.InGroup(entries, g)), S.SortedFrom(entries, g + 1);
    ValuesAppend(group, rest);
    Regroup(placed, S.Values(group), S.Values(rest));
  }

  /** The loop may stop after the last group, or once as many elements are placed as the
      argument has: then nothing is left to place. */
  lemma AllGroupsPlaced(entries: seq<S.Entry>, g: nat, placed: seq<Value>, sorted: seq<Value>)
    requires g == S.GroupCount || |placed| == |entries|
    requires sorted == S.Values(S.SortEntries(entries))
    requires sorted == placed + S.Values(S.SortedFrom(entries, g))
    ensures placed == sorted
  {
    S.SortPermutes(entries);
    if g >= S.GroupCount {
      assert S.SortedFrom(entries, g) == [];
    }
    assert S.Values(S.SortedFrom(entries, g)) == [];
  }

  lemma Regroup(a: seq<Value>, b: seq<Value>, c: seq<Value>)
    ensures a + (b + c) == (a + b) + c
  {
  }

  lemma {:induction false} ValuesAppend(a: seq<S.Entry>, b: seq<S.Entry>)
    ensures S.Values(a + b) == S.Values(a) + S.Values(b)
  {
  }

  /** A callback result Enum.map over a map accepts: a tuple of two elements. */
  ghost predicate IsPair(x: Result<Value>)
    reads if x.Ok? && x.value.Tuple? then {x.value.tuple} else {}
  {
    x.Ok? && x.value.Tuple? && |x.value.tuple.contents| == 2
  }

  /** Enum.map/2: over a list, a new list of the callback's results in order; over a map, a new
      map from the callback's 2-tuples. The callback is a one-parameter anonymous function for a
      list and a two-parameter one for a map; `apply1` and `apply2` give the result of its body
      with the parameters bound. */
  method EnumMap(args: seq<Value>, apply1: (Value, Value) -> Result<Value>,
                 apply2: (Value, Value, Value) -> Result<Value>) returns (r: Result<Value>)
    ensures |args| != 2 ==> r == Err(InvalidArguments("Enum.map"))
    ensures |args| == 2 && !(args[0].List? || args[0].Map?) ==> r == Err(ArgumentKind("Enum.map"))
    ensures |args| == 2 && (args[0].List? || args[0].Map?) && !args[1].AnonymousFn? ==> r == Err(ArgumentKind("Enum.map"))
    ensures |args| == 2 && args[0].List? && args[1].AnonymousFn? ==>
              var c, fn := args[0].list.contents, args[1];
              if |fn.parameters| != 1 then r == Err(InvalidArguments("Enum.map"))
              else
                ((forall i :: 0 <= i < |c| ==> apply1(fn, c[i]).Ok?) ==>
                   r.Ok? && r.value.List? && fresh(r.value.list) && |r.value.list.contents| == |c| &&
                   forall i :: 0 <= i < |c| ==> apply1(fn, c[i]) == Ok(r.value.list.contents[i])) &&
                (r.Err? <==> exists i :: 0 <= i < |c| && apply1(fn, c[i]).Err?) &&
                (r.Err? ==> exists i :: 0 <= i < |c| && apply1(fn, c[i]) == Err(r.error) &&
                                        forall j :: 0 <= j < i ==> apply1(fn, c[j]).Ok?)
    ensures |args| == 2 && args[0].Map? && args[1].AnonymousFn? ==>
              var m, fn := args[0].entries.entries, args[1];
              if |fn.parameters| != 2 then r == Err(InvalidArguments("Enum.map"))
              else
                (r.Ok? <==> forall k :: k in m ==> IsPair(apply2(fn, k, m[k]))) &&
                (r.Ok? ==>
                   r.value.Map? && fresh(r.value.entries) &&
                   (forall k :: k in m ==> apply2(fn, k, m[k]).value.tuple.contents[0] in r.value.entries.entries) &&
                   (forall k2 :: k2 in r.value.entries.entries ==>
                      exists k :: k in m && apply2(fn, k, m[k]).value.tuple.contents == [k2, r.value.entries.entries[k2]]))
  {
    if |args| != 2 {
      return Err(InvalidArguments("Enum.map"));
    }
    :- ExpectEnumerable(args[0], "Enum.map");
    :- Expect(KindOf(args[1]), AnonymousFnType, "Enum.map");
    var fn := args[1];
    if args[0].List? {
      if |fn.parameters| != 1 {
        return Err(InvalidArguments("Enum.map"));
      }
      r := MapList(args[0].list, fn, apply1);
    } else {
      if |fn.parameters| != 2 {
        return Err(InvalidArguments("Enum.map"));
      }
      r := MapMap(args[0].entries, fn, apply2);
    }
  }

  /** The list case of Enum.map. */
  method MapList(list: Aggregate, fn: Value, apply1: (Value, Value) -> Result<Value>) returns (r: Result<Value>)
    ensures (forall i :: 0 <= i < |list.contents| ==> apply1(fn, list.contents[i]).Ok?) ==>
              r.Ok? && r.value.List? && fresh(r.value.list) && |r.value.list.contents| == |list.contents| &&
              forall i :: 0 <= i < |list.contents| ==> apply1(fn, list.contents[i]) == Ok(r.value.list.contents[i])
    ensures r.Err? <==> exists i :: 0 <= i < |list.contents| && apply1(fn, list.contents[i]).Err?
    ensures r.Err? ==> exists i :: 0 <= i < |list.contents| && apply1(fn, list.contents[i]) == Err(r.error) &&
                                  forall j :: 0 <= j < i ==> apply1(fn, list.contents[j]).Ok?
  {
    var res := new Aggregate([]);
    var i := 0;
    while i < |list.contents|
      invariant i <= |list.contents| && fresh(res) && |res.contents| == i
      invariant forall j :: 0 <= j < i ==> apply1(fn, list.contents[j]) == Ok(res.contents[j])
    {
      var v := apply1(fn, list.contents[i]);
      if v.Err? {
        return Err(v.error);
      }
      res.contents := res.contents + [v.value];
      i := i + 1;
    }
    return Ok(List(res));
  }

  /** The map case of Enum.map: entries are visited in an order left open; a key two results
      share keeps the value of the later one. */
  method MapMap(m: MapObject, fn: Value, apply2: (Value, Value, Value) -> Result<Value>) returns (r: Result<Value>)
    ensures r.Ok? <==> forall k :: k in m.entries ==> IsPair(apply2(fn, k, m.entries[k]))
    ensures r.Ok? ==>
              r.value.Map? && fresh(r.value.entries) &&
              (forall k :: k in m.entries ==> apply2(fn, k, m.entries[k]).value.tuple.contents[0] in r.value.entries.entries) &&
              (forall k2 :: k2 in r.value.entries.entries ==>
                 exists k :: k in m.entries && apply2(fn, k, m.entries[k]).value.tuple.contents == [k2, r.value.entries.entries[k2]])
  {
    var res := new MapObject();
    var remaining := m.entries.Keys;
    while remaining != {}
      invariant remaining <= m.entries.Keys && fresh(res)
      invariant forall k :: k in m.entries && k !in remaining ==> IsPair(apply2(fn, k, m.entries[k]))
      invariant forall k :: k in m.entries && k !in remaining ==>
                  apply2(fn, k, m.entries[k]).value.tuple.contents[0] in res.entries
      invariant forall k2 :: k2 in res.entries ==>
                  exists k :: k in m.entries && k !in remaining && apply2(fn, k, m.entries[k]).value.tuple.contents == [k2, res.entries[k2]]
      decreases |remaining|
    {
      var key :| key in remaining;
      var result := apply2(fn, key, m.entries[key]);
      if result.Err? || !result.value.Tuple? || |result.value.tuple.contents| != 2 {
        return if result.Err? then Err(result.error) else Err(ArgumentKind("Enum.map"));
      }
      var pair := result.value.tuple.contents;
      ghost var previous := res.entries;
      res.entries := res.entries[pair[0] := pair[1]];
      assert previous.Keys <= res.entries.Keys;
      remaining := remaining - {key};
    }
    return Ok(Map(res));
  }
}
