/** Concrete runs of both evaluators on small inputs taken from the repository's tests
    and documentation, worked out from the models. */
module Scenarios {
  import opened PyValues
  import opened FieldNames
  import opened SharedValues
  import opened CallDictSpec
  import L = LegacyCallSpec
  import Cn = Containment
  import opened VisitOrder

  /** `dict.__getitem__` as a callable with function id 7; anything else called here
      raises TypeError. */
  const GETITEM: nat := 7

  function DictGetItem(h: Heap, c: Invocation): Outcome
  {
    if c.fid == GETITEM && |c.args| == 2 && c.kwargs == [] && c.args[1].Str? then
      Outcome(GetItem(h, c.args[0], KStr(c.args[1].s)), [])
    else Outcome(Err(TypeError), [])
  }

  /** The arena of `test_shared_value`: the inner dict {'b': 1} at 0, `dict.__getitem__`
      at 1, the args list `[shared.a, 'b']` at 2 and the invocation dict at 3. */
  const TestHeap: Heap := [
    Dict([(KStr("b"), Int(1))]),
    Func(GETITEM),
    List([Shared(Some("a")), Str("b")]),
    Dict([(FUNC, Ptr(1)), (ARGS, Ptr(2))])
  ]

  const TestShared: map<Key, Value> := map[KStr("a") := Ptr(0)]

  lemma ParseSingleName()
    ensures Parse("a") == Field(Ok(KStr("a")), [], false)
  {
    assert AttrEnd("a", 1) == 1;
    assert AttrEnd("a", 0) == 1;
    assert "a"[..1] == "a" && "a"[1..] == [];
    assert !IsDigits("a") by { assert !('0' <= "a"[0] <= '9'); }
  }

  /** `shared.a` resolves to the dict stored under 'a'. */
  lemma SharedAResolves()
    ensures Resolve(TestHeap, TestShared, Some("a")) == Ok(Ptr(0))
  {
    ParseSingleName();
  }

  /** `n` nines. */
  function Nines(n: nat): (s: string)
    ensures |s| == n && forall k :: 0 <= k < n ==> s[k] == '9'
  {
    if n == 0 then [] else Nines(n - 1) + "9"
  }

  function Pow10(n: nat): nat
  {
    if n == 0 then 1 else 10 * Pow10(n - 1)
  }

  lemma {:induction false} NinesValue(n: nat)
    ensures DecimalValue(Nines(n)) == Pow10(n) - 1
  {
    if n > 0 {
      NinesValue(n - 1);
      assert Nines(n)[..n - 1] == Nines(n - 1);
    }
  }

  /** `SharedValue('9999999999999999999x')` (nineteen nines, then 'x') raises ValueError
      when it is resolved, whatever the shared data: its leading digits already exceed
      `SSIZE_MAX`, although the whole name is not a number. */
  lemma OversizedLeadingDigits(h: Heap, ctx: map<Key, Value>)
    ensures !IsDigits(Nines(19) + "x")
    ensures Resolve(h, ctx, Some(Nines(19) + "x")) == Err(ValueError)
  {
    var d := Nines(19);
    var s := d + "x";
    NinesValue(19);
    assert Pow10(10) == 10_000_000_000;
    assert Pow10(19) == 1_000_000_000 * Pow10(10);
    IndexKeyOverflow(d, "x");
    assert !IsDigits(s) by { assert !('0' <= s[19] <= '9'); }
    assert AttrEnd(s, 0) == |s|;
    assert s[..|s|] == s;
  }

  const TestArgs: seq<Value> := [Shared(Some("a")), Str("b")]
  const TestCall := Invocation(GETITEM, [Ptr(0), Str("b")], [])

  lemma TestNodeEntries()
    ensures Find(TestHeap[3].entries, ARGS) == Some(Ptr(2))
    ensures Find(TestHeap[3].entries, KWARGS) == None
    ensures Find(TestHeap[3].entries, FUNC) == Some(Ptr(1))
    ensures Find(TestHeap[3].entries, RETURNS) == None
    ensures Find(TestHeap[3].entries, L.RETURN) == None
    ensures Find(TestHeap[3].entries, EVALUATE) == None
  {
    var es := TestHeap[3].entries;
    assert es[1..][0] == (ARGS, Ptr(2)) && es[1..][1..] == [];
  }

  /** What the invocation node asks for: the args list, no kwargs, the default true
      'evaluate', and `dict.__getitem__` as its function. */
  lemma TestSources()
    ensures ArgsSource(TestHeap, TestHeap[3].entries) == Ok(TestArgs)
    ensures KwargsSource(TestHeap, TestHeap[3].entries) == Ok([])
    ensures Get(TestHeap[3].entries, EVALUATE, Bool(true)) == Bool(true)
    ensures Get(TestHeap[3].entries, FUNC, NoneValue) == Ptr(1)
    ensures FromPairs([]) == []
  {
    TestNodeEntries();
  }

  /** `dict.__getitem__({'b': 1}, 'b')` returns 1. */
  lemma TestGetItem()
    ensures DictGetItem(TestHeap, TestCall) == Outcome(Ok(Int(1)), [])
  {
    assert Find(TestHeap[0].entries, KStr("b")) == Some(Int(1));
  }

  lemma TestApply(st: St, lst: L.St)
    requires st == St(TestHeap, TestShared, map[], []) && lst == L.St(TestHeap, TestShared, [])
    ensures Apply(Ptr(1), TestCall.args, [], TestHeap[3].entries, st, DictGetItem) ==
            (Ok(Int(1)), st.(calls := [TestCall]))
    ensures L.Apply(Ptr(1), TestCall.args, [], TestHeap[3].entries, lst, DictGetItem) ==
            (Ok(Int(1)), lst.(calls := [TestCall]))
  {
    TestNodeEntries();
    TestGetItem();
    assert FuncId(TestHeap, Ptr(1)) == Ok(GETITEM);
    assert KeywordNames([]) == Ok([]);
    assert TestHeap + [] == TestHeap && [] + [TestCall] == [TestCall];
  }

  lemma TestArgsEvaluate(st: St)
    requires st.heap == TestHeap && st.shared == TestShared
    ensures EvalArgs(10, TestArgs, 0, [], st, DictGetItem) == (Ok(TestCall.args), st)
  {
    SharedAResolves();
    assert EvalArgs(10, TestArgs, 2, TestCall.args, st, DictGetItem) == (Ok(TestCall.args), st);
    assert [Ptr(0)] + [Str("b")] == TestCall.args;
    assert EvalArgs(10, TestArgs, 1, [Ptr(0)], st, DictGetItem) == (Ok(TestCall.args), st);
    assert [] + [Ptr(0)] == [Ptr(0)];
  }

  lemma TestArgsCall(st: L.St)
    requires st.heap == TestHeap && st.shared == TestShared
    ensures L.CallItems(10, TestArgs, 0, [], st, DictGetItem) == (Ok(TestCall.args), st)
  {
    SharedAResolves();
    assert L.CallItems(10, TestArgs, 2, TestCall.args, st, DictGetItem) == (Ok(TestCall.args), st);
    assert [Ptr(0)] + [Str("b")] == TestCall.args;
    assert L.CallItems(10, TestArgs, 1, [Ptr(0)], st, DictGetItem) == (Ok(TestCall.args), st);
    assert [] + [Ptr(0)] == [Ptr(0)];
  }

  lemma TestInvokeNow(st: St)
    requires st == St(TestHeap, TestShared, map[], [])
    ensures InvokeNow(10, TestHeap[3].entries, st, DictGetItem) == (Ok(Int(1)), st.(calls := [TestCall]))
  {
    var es := TestHeap[3].entries;
    TestSources();
    TestArgsEvaluate(st);
    TestApply(st, L.St(TestHeap, TestShared, []));
    assert EvalKwargs(10, [], 0, [], st, DictGetItem) == (Ok([]), st);
    assert Eval(9, Ptr(1), st, DictGetItem) == (Ok(Ptr(1)), st);
  }

  /** test_base.py, `test_shared_value`: the call dict evaluates to 1, after exactly one
      call `dict.__getitem__({'b': 1}, 'b')`; the shared data is unchanged. */
  lemma TestSharedValue()
    ensures Eval(10, Ptr(3), St(TestHeap, TestShared, map[], []), DictGetItem) ==
            (Ok(Int(1)), St(TestHeap, TestShared, map[], [TestCall]))
  {
    var st := St(TestHeap, TestShared, map[], []);
    var es := TestHeap[3].entries;
    TestNodeEntries();
    TestInvokeNow(st);
    assert IsCallable(TestHeap, Ptr(3));
    assert Eval(10, Ptr(3), st, DictGetItem) == Invoke(10, es, st, DictGetItem);
  }

  lemma TestInvokeLegacy(st: L.St)
    requires st == L.St(TestHeap, TestShared, [])
    ensures L.Invoke(10, TestHeap[3].entries, st, DictGetItem) == (Ok(Int(1)), st.(calls := [TestCall]))
  {
    var es := TestHeap[3].entries;
    TestSources();
    TestArgsCall(st);
    TestApply(St(TestHeap, TestShared, map[], []), st);
    assert L.CallEntries(10, [], 0, [], st, DictGetItem) == (Ok([]), st);
    assert L.Call(9, Ptr(1), st, DictGetItem) == (Ok(Ptr(1)), st);
  }

  /** The same node through the legacy `call` gives the same answer. */
  lemma TestSharedValueLegacy()
    ensures L.Call(10, Ptr(3), L.St(TestHeap, TestShared, []), DictGetItem) ==
            (Ok(Int(1)), L.St(TestHeap, TestShared, [TestCall]))
  {
    var st := L.St(TestHeap, TestShared, []);
    TestNodeEntries();
    TestInvokeLegacy(st);
    assert IsCallable(TestHeap, Ptr(3));
  }

  /** test_base.py, `test_callable`: a dict with 'func' is callable, a function is not. */
  lemma TestCallable()
    ensures IsCallable([Func(0), Dict([(FUNC, Ptr(0))])], Ptr(1))
    ensures !IsCallable([Func(0), Dict([(FUNC, Ptr(0))])], Ptr(0))
  {
    assert Keys([(FUNC, Ptr(0))]) == [FUNC];
  }

  lemma ParseItemThenAttr()
    ensures Parse("a[b].test") == Field(Ok(KStr("a")), [Item("b"), Attr("test")], false)
  {
    var s := "a[b].test";
    assert AttrEnd(s, 1) == 1;
    assert AttrEnd(s, 0) == 1;
    assert s[..1] == "a" && s[1..] == "[b].test";
    assert !IsDigits("a") by { assert !('0' <= "a"[0] <= '9'); }
    var r1 := "[b].test";
    assert CloseAt(r1, 2) == Some(2);
    assert CloseAt(r1, 1) == Some(2);
    assert r1[1..2] == "b" && r1[3..] == ".test";
    var r2 := ".test";
    assert AttrEnd(r2, 5) == 5;
    assert AttrEnd(r2, 1) == 5;
    assert r2[1..5] == "test" && r2[5..] == [];
  }

  /** A reference whose path reaches None and then asks it for an attribute raises
      AttributeError: only KeyError makes a SharedValue come back unresolved. */
  lemma AttributeOfNoneRaises()
    ensures Resolve([Dict([(KStr("b"), NoneValue)])], map[KStr("a") := Ptr(0)], Some("a[b].test"))
            == Err(AttributeError)
  {
    ParseItemThenAttr();
    assert Find([(KStr("b"), NoneValue)], KStr("b")) == Some(NoneValue);
  }

  /** A reference whose bracketed key is missing comes back as itself. */
  lemma MissingKeyKeepsReference()
    ensures Resolve([Dict([(KStr("c"), NoneValue)])], map[KStr("a") := Ptr(0)], Some("a[b].test"))
            == Ok(Shared(Some("a[b].test")))
  {
    ParseItemThenAttr();
    assert Find([(KStr("c"), NoneValue)], KStr("b")) == None;
  }

  /** A dict holding an object from outside the evaluator (index 1): the output dict is
      allocated past it, at 2, and refers to that same object. Both arenas are closed. */
  const ForeignHeap: Heap := [Dict([(KStr("a"), Ptr(1))]), Record(map[])]

  lemma ForeignObjectShared(callee: Callee)
    ensures Eval(2, Ptr(0), St(ForeignHeap, map[], map[], []), callee) ==
              (Ok(Ptr(2)), St(ForeignHeap + [Dict([(KStr("a"), Ptr(1))])], map[], map[0 := 2], []))
    ensures Cn.SelfContained(ForeignHeap)
    ensures Cn.SelfContained(ForeignHeap + [Dict([(KStr("a"), Ptr(1))])])
  {
    var st := St(ForeignHeap, map[], map[], []);
    var st2 := ForeignFill(callee);
    assert EvalContainer(2, 0, st, callee) == (Ok(Ptr(2)), st2);
    ForeignHeapsClosed();
  }

  /** The fill loop of `ForeignObjectShared`: the one child is a record, settled as it is. */
  lemma ForeignFill(callee: Callee) returns (st2: St)
    ensures st2 == St(ForeignHeap + [Dict([(KStr("a"), Ptr(1))])], map[], map[0 := 2], [])
    ensures var st1 := St(ForeignHeap + [Shell(ForeignHeap[0])], map[], map[0 := 2], []);
            Fill(2, 2, SortByRank(st1.heap, Children(ForeignHeap[0])), 0, st1, callee) ==
              (Ok(()), st2)
  {
    var st1 := St(ForeignHeap + [Dict([])], map[], map[0 := 2], []);
    var kids := [(KStr("a"), Ptr(1))];
    assert Shell(ForeignHeap[0]) == Dict([]);
    assert Children(ForeignHeap[0]) == kids;
    assert SortByRank(st1.heap, kids) == kids;
    assert Eval(1, Ptr(1), st1, callee) == (Ok(Ptr(1)), st1);
    st2 := st1.(heap := Put(st1.heap, 2, KStr("a"), Ptr(1)));
    assert st2.heap == ForeignHeap + [Dict([(KStr("a"), Ptr(1))])];
    assert Fill(2, 2, kids, 1, st2, callee) == (Ok(()), st2);
  }

  lemma ForeignHeapsClosed()
    ensures Cn.SelfContained(ForeignHeap)
    ensures Cn.SelfContained(ForeignHeap + [Dict([(KStr("a"), Ptr(1))])])
  {
  }

  /** The legacy copy of `[obj, [1]]` where `obj` (index 2) is an outside object: the
      inner list is copied to 3, the outer one to 4, and `obj` is shared, not copied. */
  const ForeignListHeap: Heap := [List([Ptr(2), Ptr(1)]), List([Int(1)]), Record(map[])]

  lemma ForeignObjectSharedLegacy(callee: Callee)
    ensures L.Call(3, Ptr(0), L.St(ForeignListHeap, map[], []), callee) ==
              (Ok(Ptr(4)), L.St(ForeignListHeap + [List([Int(1)]), List([Ptr(2), Ptr(3)])], map[], []))
    ensures Cn.SelfContained(ForeignListHeap)
    ensures Cn.SelfContained(ForeignListHeap + [List([Int(1)]), List([Ptr(2), Ptr(3)])])
  {
    var st := L.St(ForeignListHeap, map[], []);
    assert !IsCallable(ForeignListHeap, Ptr(0)) && !IsCallable(ForeignListHeap, Ptr(1));
    assert L.Call(2, Ptr(2), st, callee) == (Ok(Ptr(2)), st);
    assert L.CallItems(2, [Int(1)], 0, [], st, callee) == (Ok([Int(1)]), st);
    var st1 := st.(heap := ForeignListHeap + [List([Int(1)])]);
    assert L.Call(2, Ptr(1), st, callee) == (Ok(Ptr(3)), st1);
    var xs := [Ptr(2), Ptr(1)];
    assert xs[0] == Ptr(2) && xs[1] == Ptr(1);
    assert [] + [Ptr(2)] == [Ptr(2)] && [Ptr(2)] + [Ptr(3)] == [Ptr(2), Ptr(3)];
    assert L.CallItems(3, xs, 2, [Ptr(2), Ptr(3)], st1, callee) == (Ok([Ptr(2), Ptr(3)]), st1);
    assert L.CallItems(3, xs, 1, [Ptr(2)], st, callee) == (Ok([Ptr(2), Ptr(3)]), st1);
    assert L.CallItems(3, xs, 0, [], st, callee) == (Ok([Ptr(2), Ptr(3)]), st1);
    assert ForeignListHeap[0].items == xs && |st1.heap| == 4;
    assert st1.heap + [List([Ptr(2), Ptr(3)])] ==
             ForeignListHeap + [List([Int(1)]), List([Ptr(2), Ptr(3)])];
  }
}
