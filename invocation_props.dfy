/** Properties of invocation dicts under `eval`: a deferred invocation becomes a runnable
    copy, an invocation calls its function exactly once per visit (invocations are not
    memoized, so a shared one runs again), and 'returns' binds the result under every
    target. */
module InvocationProps {
  import opened PyValues
  import opened SharedValues
  import opened FieldNames
  import opened CallDictSpec
  import opened CallDictProps

  /** With a false 'evaluate' entry nothing is evaluated and nothing is called: the result
      is a new dict with the same entries except 'evaluate', still an invocation. */
  lemma DeferredInvocation(fuel: nat, v: Value, st: St, callee: Callee)
    requires fuel >= 1 && IsCallable(st.heap, v)
    requires !Truthy(st.heap, Get(st.heap[v.id].entries, EVALUATE, Bool(true)))
    ensures var (r, st') := Eval(fuel, v, st, callee);
            var es := st.heap[v.id].entries;
            && r == Ok(Ptr(|st.heap|))
            && st'.calls == st.calls && st'.shared == st.shared && st'.memo == st.memo
            && |st'.heap| == |st.heap| + 1 && st'.heap[..|st.heap|] == st.heap
            && st'.heap[|st.heap|].Dict?
            && EVALUATE !in Keys(st'.heap[|st.heap|].entries)
            && (forall k :: k != EVALUATE ==> Find(st'.heap[|st.heap|].entries, k) == Find(es, k))
            && IsCallable(st'.heap, r.value)
  {
    var es := st.heap[v.id].entries;
    assert Eval(fuel, v, st, callee) == Invoke(fuel, es, st, callee);
    var copy := Without(es, EVALUATE);
    assert Invoke(fuel, es, st, callee) ==
             (Ok(Ptr(|st.heap|)), st.(heap := st.heap + [Dict(copy)]));
    assert Find(copy, FUNC) == Find(es, FUNC);
  }

  /** The deferred copy, met again later in an evaluation, is invoked with its remaining
      entries. */
  lemma DeferredRunsLater(fuel: nat, fuel': nat, v: Value, st: St, later: St, callee: Callee)
    requires fuel >= 1 && fuel' >= 1 && IsCallable(st.heap, v)
    requires !Truthy(st.heap, Get(st.heap[v.id].entries, EVALUATE, Bool(true)))
    requires Extends(Eval(fuel, v, st, callee).1, later)
    ensures var r := Eval(fuel, v, st, callee).0;
            r.Ok? && Eval(fuel', r.value, later, callee) ==
              InvokeNow(fuel', Without(st.heap[v.id].entries, EVALUATE), later, callee)
  {
    DeferredInvocation(fuel, v, st, callee);
    var es := st.heap[v.id].entries;
    assert Eval(fuel, v, st, callee) == Invoke(fuel, es, st, callee);
    var copy := Without(es, EVALUATE);
    var st' := Eval(fuel, v, st, callee).1;
    assert later.heap[|st.heap|] == st'.heap[|st.heap|] == Dict(copy);
    assert Find(copy, FUNC) == Find(es, FUNC);
    assert Find(copy, EVALUATE) == None;
  }

  // ---------------------------------------------------------------------------------
  // One visit, one call.

  lemma {:induction false} ArgsInert(fuel: nat, raw: seq<Value>, i: nat, acc: seq<Value>,
                                     st: St, callee: Callee)
    requires fuel >= 2 && i <= |raw|
    requires forall m :: i <= m < |raw| ==> Inert(st.heap, raw[m])
    ensures EvalArgs(fuel, raw, i, acc, st, callee) == (Ok(acc + raw[i..]), st)
    decreases |raw| - i
  {
    if i == |raw| {
      assert acc + raw[i..] == acc;
    } else {
      EvalSettled(fuel - 1, raw[i], st, callee);
      ArgsInert(fuel, raw, i + 1, acc + [raw[i]], st, callee);
      assert acc + [raw[i]] + raw[i + 1..] == acc + raw[i..];
    }
  }

  lemma {:induction false} KwargsInert(fuel: nat, raw: seq<(Key, Value)>, i: nat,
                                       acc: seq<(Key, Value)>, st: St, callee: Callee)
    requires fuel >= 2 && i <= |raw|
    requires forall m :: i <= m < |raw| ==> Inert(st.heap, raw[m].1)
    ensures EvalKwargs(fuel, raw, i, acc, st, callee) == (Ok(acc + raw[i..]), st)
    decreases |raw| - i
  {
    if i == |raw| {
      assert acc + raw[i..] == acc;
    } else {
      EvalSettled(fuel - 1, raw[i].1, st, callee);
      assert (raw[i].0, raw[i].1) == raw[i];
      KwargsInert(fuel, raw, i + 1, acc + [raw[i]], st, callee);
      ArgsOrderKept(acc, raw, i);
    }
  }

  lemma ArgsOrderKept<T>(acc: seq<T>, raw: seq<T>, i: nat)
    requires i < |raw|
    ensures acc + [raw[i]] + raw[i + 1..] == acc + raw[i..]
  {
    assert raw[i..] == [raw[i]] + raw[i + 1..];
  }

  /** An invocation of function `fid` whose positional arguments `raw` and keyword
      arguments `kw` (all with string keys) need no evaluation. */
  predicate PlainInvocation(st: St, v: Value, fid: nat, raw: seq<Value>, kw: seq<(Key, Value)>)
  {
    && IsCallable(st.heap, v)
    && var es := st.heap[v.id].entries;
    && Truthy(st.heap, Get(es, EVALUATE, Bool(true)))
    && (Get(es, EVALUATE, Bool(true)).Ptr? ==> Get(es, EVALUATE, Bool(true)).id < |st.heap|)
    && ArgsSource(st.heap, es) == Ok(raw)
    && KwargsSource(st.heap, es) == Ok(kw)
    && Get(es, FUNC, NoneValue).Ptr?
    && Deref(st.heap, Get(es, FUNC, NoneValue).id) == Some(Func(fid))
    && (forall m :: 0 <= m < |raw| ==> Inert(st.heap, raw[m]))
    && (forall m :: 0 <= m < |kw| ==> Inert(st.heap, kw[m].1) && kw[m].0.KStr?)
    && UniqueKeys(kw)
  }

  /** Such an invocation calls the function once with exactly those arguments; the call is
      logged, the objects it made are appended, and its result is the value of the
      invocation (a SharedValue result is looked up in the shared data), bound under the
      'returns' targets when there are any. */
  lemma CallsOnce(fuel: nat, v: Value, st: St, callee: Callee, fid: nat,
                  raw: seq<Value>, kw: seq<(Key, Value)>)
    requires fuel >= 2 && PlainInvocation(st, v, fid, raw, kw)
    ensures KeywordNames(kw).Ok?
    ensures var c := Invocation(fid, raw, KeywordNames(kw).value);
            var o := callee(st.heap, c);
            var st1 := st.(heap := st.heap + o.made, calls := st.calls + [c]);
            var u := match o.result case Err(e) => Err(e) case Ok(x) => Unwrap(st.shared, x);
            var t := FindReturns(st.heap[v.id].entries);
            Eval(fuel, v, st, callee) ==
              if u.Ok? && t.Some? then Bind(Targets(st1.heap, t.value), 0, u.value, st1)
              else (u, st1)
  {
    var es := st.heap[v.id].entries;
    var f := Get(es, FUNC, NoneValue);
    assert Eval(fuel, v, st, callee) == Invoke(fuel, es, st, callee);
    assert Invoke(fuel, es, st, callee) == InvokeNow(fuel, es, st, callee);
    PlainInvokeNow(fuel, v, st, callee, fid, raw, kw);
    assert FuncId(st.heap, f) == Ok(fid);
  }

  /** The arguments of such an invocation are passed on as they are. */
  lemma PlainInvokeNow(fuel: nat, v: Value, st: St, callee: Callee, fid: nat,
                       raw: seq<Value>, kw: seq<(Key, Value)>)
    requires fuel >= 2 && PlainInvocation(st, v, fid, raw, kw)
    ensures var es := st.heap[v.id].entries;
            InvokeNow(fuel, es, st, callee) == Apply(Get(es, FUNC, NoneValue), raw, kw, es, st, callee)
  {
    var es := st.heap[v.id].entries;
    var f := Get(es, FUNC, NoneValue);
    AllArgsInert(fuel, raw, st, callee);
    AllKwargsInert(fuel, kw, st, callee);
    EvalSettled(fuel - 1, f, st, callee);
    assert Eval(fuel - 1, f, st, callee) == (Ok(f), st);
  }

  lemma AllArgsInert(fuel: nat, raw: seq<Value>, st: St, callee: Callee)
    requires fuel >= 2 && forall m :: 0 <= m < |raw| ==> Inert(st.heap, raw[m])
    ensures EvalArgs(fuel, raw, 0, [], st, callee) == (Ok(raw), st)
  {
    ArgsInert(fuel, raw, 0, [], st, callee);
    assert [] + raw[0..] == raw;
  }

  lemma AllKwargsInert(fuel: nat, kw: seq<(Key, Value)>, st: St, callee: Callee)
    requires fuel >= 2 && UniqueKeys(kw) && forall m :: 0 <= m < |kw| ==> Inert(st.heap, kw[m].1)
    ensures EvalKwargs(fuel, kw, 0, [], st, callee) == (Ok(kw), st)
    ensures FromPairs(kw) == kw
  {
    KwargsInert(fuel, kw, 0, [], st, callee);
    assert [] + kw[0..] == kw;
  }

  lemma PlainInvocationStays(st: St, st1: St, v: Value, fid: nat, raw: seq<Value>,
                             kw: seq<(Key, Value)>)
    requires PlainInvocation(st, v, fid, raw, kw) && Extends(st, st1)
    ensures PlainInvocation(st1, v, fid, raw, kw)
  {
    var h, h1 := st.heap, st1.heap;
    var es := h[v.id].entries;
    assert h1[v.id] == h[v.id];
    ObjectStays(h, h1, Get(es, EVALUATE, Bool(true)));
    ObjectStays(h, h1, Get(es, FUNC, NoneValue));
    match Find(es, ARGS) {
      case None =>
      case Some(a) => ObjectStays(h, h1, a);
    }
    match Find(es, KWARGS) {
      case None =>
      case Some(a) => ObjectStays(h, h1, a);
    }
    forall m | 0 <= m < |raw| ensures Inert(h1, raw[m]) {
      ObjectStays(h, h1, raw[m]);
    }
    forall m | 0 <= m < |kw| ensures Inert(h1, kw[m].1) {
      ObjectStays(h, h1, kw[m].1);
    }
  }

  /** A value that denotes an object of the arena denotes the same object in a larger one,
      so everything computed from it stays the same. */
  lemma ObjectStays(h: Heap, h1: Heap, a: Value)
    requires |h| <= |h1| && forall j :: 0 <= j < |h| ==> h1[j] == h[j]
    ensures a.Ptr? && a.id < |h| ==> h1[a.id] == h[a.id]
    ensures Iterate(h, a).Ok? ==> Iterate(h1, a) == Iterate(h, a)
    ensures Inert(h, a) ==> Inert(h1, a)
    ensures a.Ptr? && a.id < |h| ==> Truthy(h1, a) == Truthy(h, a) && Deref(h1, a.id) == Deref(h, a.id)
  {
  }

  /** Invocation dicts are not memoized: visiting the same one twice calls its function
      twice with the same arguments. */
  lemma InvokedOnEveryVisit(fuel: nat, v: Value, st: St, callee: Callee, fid: nat,
                            raw: seq<Value>, kw: seq<(Key, Value)>)
    requires fuel >= 2 && PlainInvocation(st, v, fid, raw, kw)
    ensures KeywordNames(kw).Ok?
    ensures var st1 := Eval(fuel, v, st, callee).1;
            var st2 := Eval(fuel, v, st1, callee).1;
            st2.calls == st.calls + [Invocation(fid, raw, KeywordNames(kw).value)] +
                                    [Invocation(fid, raw, KeywordNames(kw).value)]
  {
    CallsOnceLogged(fuel, v, st, callee, fid, raw, kw);
    var st1 := Eval(fuel, v, st, callee).1;
    EvalExtends(fuel, v, st, callee);
    PlainInvocationStays(st, st1, v, fid, raw, kw);
    CallsOnceLogged(fuel, v, st1, callee, fid, raw, kw);
  }

  /** The call log after such an invocation: one more call, whatever 'returns' binds. */
  lemma CallsOnceLogged(fuel: nat, v: Value, st: St, callee: Callee, fid: nat,
                        raw: seq<Value>, kw: seq<(Key, Value)>)
    requires fuel >= 2 && PlainInvocation(st, v, fid, raw, kw)
    ensures KeywordNames(kw).Ok?
    ensures Eval(fuel, v, st, callee).1.calls ==
              st.calls + [Invocation(fid, raw, KeywordNames(kw).value)]
  {
    CallsOnce(fuel, v, st, callee, fid, raw, kw);
    var c := Invocation(fid, raw, KeywordNames(kw).value);
    var o := callee(st.heap, c);
    var st1 := st.(heap := st.heap + o.made, calls := st.calls + [c]);
    var u := match o.result case Err(e) => Err(e) case Ok(x) => Unwrap(st.shared, x);
    var t := FindReturns(st.heap[v.id].entries);
    if u.Ok? && t.Some? {
      BindOnlyShared(Targets(st1.heap, t.value), 0, u.value, st1);
    }
  }

  // ---------------------------------------------------------------------------------
  // 'returns'.

  /** Binding the result: either every target is hashable and each target's key now maps
      to the result while every other key is as before, or a TypeError is raised at an
      unhashable target. */
  lemma {:induction false} BindTargets(ts: seq<Value>, i: nat, r: Value, st: St)
    requires i <= |ts|
    ensures var (res, st') := Bind(ts, i, r, st);
            && (res.Ok? <==> forall m :: i <= m < |ts| ==> TargetKey(st.heap, ts[m]).Ok?)
            && (res.Ok? ==> (res.value == r &&
                  forall m :: i <= m < |ts| ==>
                    TargetKey(st.heap, ts[m]).value in st'.shared &&
                    st'.shared[TargetKey(st.heap, ts[m]).value] == r))
            && (res.Ok? ==> forall k :: (forall m :: i <= m < |ts| ==> TargetKey(st.heap, ts[m]) != Ok(k)) ==>
                  (k in st'.shared <==> k in st.shared) &&
                  (k in st.shared ==> st'.shared[k] == st.shared[k]))
            && (res.Err? ==> res.exc == TypeError)
    decreases |ts| - i
  {
    if i < |ts| {
      match TargetKey(st.heap, ts[i])
      case Err(_) =>
      case Ok(k) =>
        var st1 := st.(shared := st.shared[k := r]);
        BindTargets(ts, i + 1, r, st1);
        var (res, st') := Bind(ts, i + 1, r, st1);
        if res.Ok? {
          forall m | i <= m < |ts|
            ensures TargetKey(st.heap, ts[m]).value in st'.shared
            ensures st'.shared[TargetKey(st.heap, ts[m]).value] == r
          {
            if m == i {
              BindKeeps(ts, i + 1, r, st1, k);
            }
          }
        }
    }
  }

  /** Targets of other keys leave the entry for `k` alone. */
  lemma {:induction false} BindKeeps(ts: seq<Value>, i: nat, r: Value, st: St, k: Key)
    requires i <= |ts| && k in st.shared && st.shared[k] == r
    ensures var st' := Bind(ts, i, r, st).1; k in st'.shared && st'.shared[k] == r
    decreases |ts| - i
  {
    if i < |ts| {
      match TargetKey(st.heap, ts[i])
      case Err(_) =>
      case Ok(k') => BindKeeps(ts, i + 1, r, st.(shared := st.shared[k' := r]), k);
    }
  }

  /** A 'returns' list of SharedValues writes the result under each one's full name as a
      flat key: `shared.a.b` writes the key "a.b", not the entry "b" inside "a". */
  lemma ReturnsWriteFlatNames(names: seq<string>, r: Value, st: St)
    ensures var ts := seq(|names|, m requires 0 <= m < |names| => Shared(Some(names[m])));
            var (res, st') := Bind(ts, 0, r, st);
            res == Ok(r) &&
            forall m :: 0 <= m < |names| ==> KStr(names[m]) in st'.shared &&
                                             st'.shared[KStr(names[m])] == r
  {
    var ts := seq(|names|, m requires 0 <= m < |names| => Shared(Some(names[m])));
    BindTargets(ts, 0, r, st);
    assert forall m :: 0 <= m < |ts| ==> TargetKey(st.heap, ts[m]) == Ok(KStr(names[m]));
  }

  // ---------------------------------------------------------------------------------
  // SharedValue references.

  /** `shared.a` in the data evaluates to the shared-data entry 'a' when there is one and
      to itself otherwise, changing nothing; a name that starts with a digit run beyond
      `SSIZE_MAX` raises ValueError instead. */
  lemma SharedAttributeEvaluates(fuel: nat, a: string, st: St, callee: Callee)
    requires fuel >= 1 && PlainAttr(a) && !IsDigits(a)
    ensures Eval(fuel, Shared(Extend(None, a)), st, callee) ==
              (if DecimalValue(LeadingDigits(a)) > SSIZE_MAX then Err(ValueError)
               else Ok(if KStr(a) in st.shared then st.shared[KStr(a)] else Shared(Some(a))), st)
  {
    ResolveRootAttribute(st.heap, st.shared, a);
  }
}
