/** The order Enum.sort puts a list in (Modules.java, sort/1).

    Enum.sort collects the numbers, then the atoms, the tuples, the lists and the strings of
    its argument, each group sorted by a key (the number, the atom's name, the element count,
    the string's text) with Java's stable sort; elements of any other kind are dropped. The
    keys are read once, into `Entry` values, and everything else here is about sequences. */
module Sorting {
  import opened Runtime
  import I = Interpreter

  /** What one group is ordered by. */
  datatype SortKey = Num(n: int) | Text(s: string)

  /** An element with its group and its key, read when the sort starts. */
  datatype Entry = Entry(value: Value, group: nat, key: SortKey)

  /** The number of groups that are kept. */
  const GroupCount: nat := 5

  /** The group of each kind, in output order; every other kind is in no kept group. */
  function GroupOf(v: Value): nat {
    match v
    case Number(_) => 0
    case Atom(_) => 1
    case Tuple(_) => 2
    case List(_) => 3
    case String(_) => 4
    case _ => GroupCount
  }

  /** The key Java's comparator reads from each kind. */
  function KeyOf(v: Value): SortKey
    reads if v.Tuple? || v.List? then {AggregateOf(v)} else {}
  {
    match v
    case Number(n) => Num(n)
    case Atom(a) => Text(a)
    case Tuple(t) => Num(|t.contents|)
    case List(l) => Num(|l.contents|)
    case String(s) => Text(s)
    case _ => Num(0)
  }

  /** The tuples and lists among `s`. */
  function AggregatesIn(s: seq<Value>): set<Aggregate> {
    set v | v in s && (v.Tuple? || v.List?) :: AggregateOf(v)
  }

  /** The entries of the elements of `s`, in order. */
  function Entries(s: seq<Value>): (es: seq<Entry>)
    reads AggregatesIn(s)
    ensures |es| == |s|
    ensures forall i :: 0 <= i < |s| ==> es[i] == Entry(s[i], GroupOf(s[i]), KeyOf(s[i]))
  {
    if s == [] then [] else [Entry(s[0], GroupOf(s[0]), KeyOf(s[0]))] + Entries(s[1..])
  }

  function Values(es: seq<Entry>): (vs: seq<Value>)
    ensures |vs| == |es| && forall i :: 0 <= i < |es| ==> vs[i] == es[i].value
  {
    if es == [] then [] else [es[0].value] + Values(es[1..])
  }

  // ---------------------------------------------------------------------------------------
  // Keys

  /** Numbers and sizes compare as integers, names and texts with compareTo. */
  predicate KeyLe(a: SortKey, b: SortKey) {
    if a.Num? && b.Num? then a.n <= b.n
    else if a.Text? && b.Text? then I.CompareTo(a.s, b.s) <= 0
    else true
  }

  /** Any two keys compare one way or the other. */
  lemma KeyLeTotal(a: SortKey, b: SortKey)
    ensures KeyLe(a, b) || KeyLe(b, a)
  {
    if a.Text? && b.Text? {
      I.CompareToOrders(a.s, b.s);
    }
  }

  /** Neighbours are in key order. */
  predicate Ordered(s: seq<Entry>) {
    forall i :: 0 <= i < |s| - 1 ==> KeyLe(s[i].key, s[i + 1].key)
  }

  // ---------------------------------------------------------------------------------------
  // Stable insertion sort

  /** Inserts `x` after every element whose key is not above its own. */
  function InsertLast(s: seq<Entry>, x: Entry): (r: seq<Entry>)
    ensures |r| == |s| + 1 && multiset(r) == multiset(s) + multiset{x}
    ensures r[|r| - 1] == x || (s != [] && r[|r| - 1] == s[|s| - 1])
    ensures Ordered(s) ==> Ordered(r)
  {
    if s == [] || KeyLe(s[|s| - 1].key, x.key) then s + [x]
    else
      KeyLeTotal(s[|s| - 1].key, x.key);
      assert s == s[..|s| - 1] + [s[|s| - 1]];
      InsertLast(s[..|s| - 1], x) + [s[|s| - 1]]
  }

  /** A stable sort by key: each element is inserted after the ones before it with equal key. */
  function InsertionSort(s: seq<Entry>): (r: seq<Entry>)
    ensures Ordered(r) && multiset(r) == multiset(s)
  {
    if s == [] then []
    else
      assert s == s[..|s| - 1] + [s[|s| - 1]];
      InsertLast(InsertionSort(s[..|s| - 1]), s[|s| - 1])
  }

  /** The elements of `s` with key `k`, in order. */
  function WithKey(s: seq<Entry>, k: SortKey): seq<Entry> {
    if s == [] then []
    else WithKey(s[..|s| - 1], k) + (if s[|s| - 1].key == k then [s[|s| - 1]] else [])
  }

  lemma {:induction false} WithKeyAppend(a: seq<Entry>, b: seq<Entry>, k: SortKey)
    ensures WithKey(a + b, k) == WithKey(a, k) + WithKey(b, k)
    decreases |b|
  {
    if b == [] {
      assert a + b == a;
    } else {
      assert (a + b)[..|a + b| - 1] == a + b[..|b| - 1];
      WithKeyAppend(a, b[..|b| - 1], k);
    }
  }

  /** Inserting `x` puts it after every element with its key. */
  lemma {:induction false} InsertLastStable(s: seq<Entry>, x: Entry, k: SortKey)
    ensures WithKey(InsertLast(s, x), k) == WithKey(s, k) + WithKey([x], k)
  {
    if s == [] || KeyLe(s[|s| - 1].key, x.key) {
      WithKeyAppend(s, [x], k);
    } else {
      var init, last := s[..|s| - 1], s[|s| - 1];
      assert last.key != x.key;
      InsertLastStable(init, x, k);
      WithKeyAppend(InsertLast(init, x), [last], k);
      WithKeyAppend(init, [last], k);
      assert s == init + [last];
    }
  }

  /** The sort is stable: elements with equal keys keep their order. */
  lemma {:induction false} SortStable(s: seq<Entry>, k: SortKey)
    ensures WithKey(InsertionSort(s), k) == WithKey(s, k)
  {
    if s != [] {
      var init, last := s[..|s| - 1], s[|s| - 1];
      SortStable(init, k);
      InsertLastStable(InsertionSort(init), last, k);
      WithKeyAppend(init, [last], k);
      assert s == init + [last];
    }
  }

  // ---------------------------------------------------------------------------------------
  // Groups

  /** The elements of `s` in group `g`, in order. */
  function InGroup(s: seq<Entry>, g: nat): (r: seq<Entry>)
    ensures forall i :: 0 <= i < |r| ==> r[i].group == g
    ensures |r| <= |s|
  {
    if s == [] then []
    else (if s[0].group == g then [s[0]] else []) + InGroup(s[1..], g)
  }

  /** The elements of `s` in the groups from `g` on that are kept. */
  function InGroupsFrom(s: seq<Entry>, g: nat): (r: seq<Entry>)
    ensures |r| <= |s|
  {
    if s == [] then []
    else (if g <= s[0].group < GroupCount then [s[0]] else []) + InGroupsFrom(s[1..], g)
  }

  /** The sorted groups from `g` on, one after the other. */
  function SortedFrom(s: seq<Entry>, g: nat): (r: seq<Entry>)
    ensures forall i :: 0 <= i < |r| ==> g <= r[i].group < GroupCount
    decreases GroupCount - g
  {
    if g >= GroupCount then []
    else
      SortedGroupMembers(s, g);
      InsertionSort(InGroup(s, g)) + SortedFrom(s, g + 1)
  }

  /** Sorting a group keeps it a group. */
  lemma SortedGroupMembers(s: seq<Entry>, g: nat)
    ensures forall i :: 0 <= i < |InsertionSort(InGroup(s, g))| ==> InsertionSort(InGroup(s, g))[i].group == g
  {
    var a, b := InsertionSort(InGroup(s, g)), InGroup(s, g);
    forall i | 0 <= i < |a|
      ensures a[i].group == g
    {
      assert a[i] in multiset(a);
      assert a[i] in b;
    }
  }

  /** What Enum.sort returns, as entries. */
  function SortEntries(s: seq<Entry>): seq<Entry> {
    SortedFrom(s, 0)
  }

  /** Group `g` and the groups after it together hold the groups from `g` on. */
  lemma {:induction false} GroupsSplit(s: seq<Entry>, g: nat)
    requires g < GroupCount
    ensures multiset(InGroupsFrom(s, g)) == multiset(InGroup(s, g)) + multiset(InGroupsFrom(s, g + 1))
  {
    if s != [] {
      GroupsSplit(s[1..], g);
    }
  }

  lemma {:induction false} SortedFromPermutes(s: seq<Entry>, g: nat)
    ensures multiset(SortedFrom(s, g)) == multiset(InGroupsFrom(s, g))
    decreases GroupCount - g
  {
    if g >= GroupCount {
      NoGroupsBeyond(s, g);
    } else {
      SortedFromPermutes(s, g + 1);
      GroupsSplit(s, g);
    }
  }

  lemma {:induction false} NoGroupsBeyond(s: seq<Entry>, g: nat)
    requires g >= GroupCount
    ensures InGroupsFrom(s, g) == []
  {
    if s != [] {
      NoGroupsBeyond(s[1..], g);
    }
  }

  /** Enum.sort keeps exactly the numbers, atoms, tuples, lists and strings of its argument. */
  lemma SortPermutes(s: seq<Entry>)
    ensures multiset(SortEntries(s)) == multiset(InGroupsFrom(s, 0))
    ensures |SortEntries(s)| <= |s|
  {
    SortedFromPermutes(s, 0);
    assert |SortEntries(s)| == |multiset(SortEntries(s))|;
  }

  /** Groups in ascending order, each one in key order. */
  predicate GroupsOrdered(r: seq<Entry>) {
    forall i :: 0 <= i < |r| - 1 ==>
      r[i].group < r[i + 1].group || (r[i].group == r[i + 1].group && KeyLe(r[i].key, r[i + 1].key))
  }

  /** A group in key order followed by later groups in order is in order. */
  lemma AppendGroup(a: seq<Entry>, b: seq<Entry>, g: nat)
    requires Ordered(a) && forall i :: 0 <= i < |a| ==> a[i].group == g
    requires GroupsOrdered(b) && forall i :: 0 <= i < |b| ==> g < b[i].group
    ensures GroupsOrdered(a + b)
  {
    var r := a + b;
    forall i | 0 <= i < |r| - 1
      ensures r[i].group < r[i + 1].group || (r[i].group == r[i + 1].group && KeyLe(r[i].key, r[i + 1].key))
    {
      if i < |a| - 1 {
        assert r[i] == a[i] && r[i + 1] == a[i + 1];
      } else if i == |a| - 1 {
        assert r[i] == a[i] && r[i + 1] == b[0];
      } else {
        assert r[i] == b[i - |a|] && r[i + 1] == b[i - |a| + 1];
      }
    }
  }

  /** Enum.sort's order: groups in ascending order, each one in key order. */
  lemma {:induction false} SortedFromOrders(s: seq<Entry>, g: nat)
    ensures GroupsOrdered(SortedFrom(s, g))
    decreases GroupCount - g
  {
    if g < GroupCount {
      var a, b := InsertionSort(InGroup(s, g)), SortedFrom(s, g + 1);
      SortedFromOrders(s, g + 1);
      SortedGroupMembers(s, g);
      AppendGroup(a, b, g);
      assert SortedFrom(s, g) == a + b;
    }
  }

  lemma SortOrders(s: seq<Entry>)
    ensures forall i :: 0 <= i < |SortEntries(s)| - 1 ==>
              var r := SortEntries(s);
              r[i].group < r[i + 1].group || (r[i].group == r[i + 1].group && KeyLe(r[i].key, r[i + 1].key))
  {
    SortedFromOrders(s, 0);
  }

  /** Within each group, elements with equal keys keep their order. */
  lemma GroupStable(s: seq<Entry>, g: nat, k: SortKey)
    ensures WithKey(InsertionSort(InGroup(s, g)), k) == WithKey(InGroup(s, g), k)
  {
    SortStable(InGroup(s, g), k);
  }
}
