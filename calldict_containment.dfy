/** `eval` keeps the arena closed: started on a self-contained arena with shared data of
    it, and calling functions that return only objects of the arena or objects they made,
    every object it builds, every binding it makes in the shared data and every result it
    returns names only objects of the arena. */
module CallDictContainment {
  import opened PyValues
  import opened SharedValues
  import opened VisitOrder
  import opened CallDictSpec
  import opened Containment

  /** A closed state: a self-contained arena, shared data of it, and a memo whose outputs
      are objects of it. */
  predicate StBelow(st: St)
  {
    && SelfContained(st.heap)
    && SharedBelow(st.shared, |st.heap|)
    && (forall id :: id in st.memo ==> st.memo[id] < |st.heap|)
  }

  /** `b` is a closed state whose arena holds at least that of `a`. */
  predicate Closed(a: St, b: St)
  {
    StBelow(b) && |a.heap| <= |b.heap|
  }

  lemma EntriesBelowMono(es: seq<(Key, Value)>, n: nat, m: nat)
    requires EntriesBelow(es, n) && n <= m
    ensures EntriesBelow(es, m)
  {
  }

  lemma ValuesBelowMono(xs: seq<Value>, n: nat, m: nat)
    requires ValuesBelow(xs, n) && n <= m
    ensures ValuesBelow(xs, m)
  {
  }

  /** The children of an object of the arena, in visiting order, belong to the arena. */
  lemma OrderBelow(h: Heap, o: Obj, n: nat)
    requires ObjBelow(o, n)
    ensures EntriesBelow(SortByRank(h, Children(o)), n)
  {
    var s := Children(o);
    assert EntriesBelow(s, n);
    var r := SortByRank(h, s);
    forall i | 0 <= i < |r| ensures KeyBelow(r[i].0, n) && ValueBelow(r[i].1, n) {
      VisitedAreChildren(h, s, r[i]);
      var j :| 0 <= j < |s| && s[j] == r[i];
    }
  }

  /** Allocating one object of the arena keeps a closed state closed. */
  lemma AllocClosed(st: St, o: Obj)
    requires StBelow(st) && ObjBelow(o, |st.heap| + 1)
    ensures StBelow(st.(heap := st.heap + [o]))
  {
    AppendContained(st.heap, [o]);
  }

  lemma TargetsBelow(h: Heap, v: Value)
    requires SelfContained(h) && ValueBelow(v, |h|)
    ensures ValuesBelow(Targets(h, v), |h|)
  {
    if v.Ptr? && v.id < |h| && h[v.id].List? {
      assert ObjBelow(h[v.id], |h|);
    }
  }

  /** The positional and keyword arguments named by an invocation dict of the arena. */
  lemma ArgsSourceBelow(h: Heap, es: seq<(Key, Value)>)
    requires SelfContained(h) && EntriesBelow(es, |h|)
    ensures ArgsSource(h, es).Ok? ==> ValuesBelow(ArgsSource(h, es).value, |h|)
  {
    FindBelow(es, ARGS, |h|);
    if Find(es, ARGS).Some? {
      IterateBelow(h, Find(es, ARGS).value);
    }
  }

  lemma KwargsSourceBelow(h: Heap, es: seq<(Key, Value)>)
    requires SelfContained(h) && EntriesBelow(es, |h|)
    ensures KwargsSource(h, es).Ok? ==> EntriesBelow(KwargsSource(h, es).value, |h|)
  {
    FindBelow(es, KWARGS, |h|);
    var kv := Find(es, KWARGS);
    if kv.Some? && kv.value.Ptr? && kv.value.id < |h| {
      assert ObjBelow(h[kv.value.id], |h|);
    }
  }

  lemma {:induction false} EvalContained(fuel: nat, v: Value, st: St, callee: Callee)
    requires ContainedCallee(callee) && StBelow(st) && ValueBelow(v, |st.heap|)
    ensures var (r, st') := Eval(fuel, v, st, callee);
            Closed(st, st') && (r.Ok? ==> ValueBelow(r.value, |st'.heap|))
    decreases fuel, 3
  {
    if fuel == 0 {
    } else if IsCallable(st.heap, v) {
      assert ObjBelow(st.heap[v.id], |st.heap|);
      InvokeContained(fuel, st.heap[v.id].entries, st, callee);
    } else if IsPlain(st.heap, v) {
      ContainerContained(fuel, v.id, st, callee);
    } else if v.Shared? {
      ResolveBelow(st.heap, st.shared, v.name);
    }
  }

  lemma {:induction false} ContainerContained(fuel: nat, id: nat, st: St, callee: Callee)
    requires fuel >= 1 && IsPlain(st.heap, Ptr(id))
    requires ContainedCallee(callee) && StBelow(st)
    ensures var (r, st') := EvalContainer(fuel, id, st, callee);
            Closed(st, st') && (r.Ok? ==> ValueBelow(r.value, |st'.heap|))
    decreases fuel, 2
  {
    if id !in st.memo {
      var y := |st.heap|;
      var o := st.heap[id];
      assert ObjBelow(o, |st.heap|);
      ObjBelowMono(Shell(o), |st.heap|, y + 1);
      AllocClosed(st, Shell(o));
      var st1 := st.(heap := st.heap + [Shell(o)], memo := st.memo[id := y]);
      var order := SortByRank(st1.heap, Children(o));
      OrderBelow(st1.heap, o, |st1.heap|);
      FillContained(fuel, y, order, 0, st1, callee);
    }
  }

  lemma {:induction false} FillContained(fuel: nat, y: nat, kids: seq<(Key, Value)>, i: nat,
                                         st: St, callee: Callee)
    requires fuel >= 1 && i <= |kids| && y < |st.heap|
    requires ContainedCallee(callee) && StBelow(st) && EntriesBelow(kids, |st.heap|)
    ensures Closed(st, Fill(fuel, y, kids, i, st, callee).1)
    decreases fuel, 1, |kids| - i
  {
    if i < |kids| {
      var (r, st1) := Eval(fuel - 1, kids[i].1, st, callee);
      EvalContained(fuel - 1, kids[i].1, st, callee);
      if r.Ok? {
        PutContained(st1.heap, y, kids[i].0, r.value);
        var st2 := st1.(heap := Put(st1.heap, y, kids[i].0, r.value));
        EntriesBelowMono(kids, |st.heap|, |st2.heap|);
        FillContained(fuel, y, kids, i + 1, st2, callee);
      }
    }
  }

  lemma {:induction false} InvokeContained(fuel: nat, es: seq<(Key, Value)>, st: St,
                                           callee: Callee)
    requires fuel >= 1 && ContainedCallee(callee) && StBelow(st) && EntriesBelow(es, |st.heap|)
    ensures var (r, st') := Invoke(fuel, es, st, callee);
            Closed(st, st') && (r.Ok? ==> ValueBelow(r.value, |st'.heap|))
    decreases fuel, 2
  {
    if Truthy(st.heap, Get(es, EVALUATE, Bool(true))) {
      InvokeNowContained(fuel, es, st, callee);
    } else {
      WithoutBelow(es, EVALUATE, |st.heap|);
      EntriesBelowMono(Without(es, EVALUATE), |st.heap|, |st.heap| + 1);
      AllocClosed(st, Dict(Without(es, EVALUATE)));
    }
  }

  lemma {:induction false} InvokeNowContained(fuel: nat, es: seq<(Key, Value)>, st: St,
                                              callee: Callee)
    requires fuel >= 1 && ContainedCallee(callee) && StBelow(st) && EntriesBelow(es, |st.heap|)
    ensures var (r, st') := InvokeNow(fuel, es, st, callee);
            Closed(st, st') && (r.Ok? ==> ValueBelow(r.value, |st'.heap|))
    decreases fuel, 1, 3
  {
    ArgsSourceBelow(st.heap, es);
    match ArgsSource(st.heap, es)
    case Err(_) =>
    case Ok(rawArgs) =>
      var (args, st1) := EvalArgs(fuel, rawArgs, 0, [], st, callee);
      ArgsContained(fuel, rawArgs, 0, [], st, callee);
      if args.Ok? {
        EntriesBelowMono(es, |st.heap|, |st1.heap|);
        InvokeWithContained(fuel, es, args.value, st1, callee);
      }
  }

  lemma {:induction false} InvokeWithContained(fuel: nat, es: seq<(Key, Value)>,
                                               args: seq<Value>, st: St, callee: Callee)
    requires fuel >= 1 && ContainedCallee(callee) && StBelow(st)
    requires EntriesBelow(es, |st.heap|) && ValuesBelow(args, |st.heap|)
    ensures var (r, st') := InvokeWith(fuel, es, args, st, callee);
            Closed(st, st') && (r.Ok? ==> ValueBelow(r.value, |st'.heap|))
    decreases fuel, 1, 2
  {
    KwargsSourceBelow(st.heap, es);
    match KwargsSource(st.heap, es)
    case Err(_) =>
    case Ok(rawKw) =>
      var (kw, st1) := EvalKwargs(fuel, rawKw, 0, [], st, callee);
      KwargsContained(fuel, rawKw, 0, [], st, callee);
      if kw.Ok? {
        EntriesBelowMono(es, |st.heap|, |st1.heap|);
        ValuesBelowMono(args, |st.heap|, |st1.heap|);
        FromPairsBelow(kw.value, |st1.heap|);
        FuncContained(fuel, es, args, FromPairs(kw.value), st1, callee);
      }
  }

  /** The last part of an invocation: evaluate 'func', then call it. */
  lemma {:induction false} FuncContained(fuel: nat, es: seq<(Key, Value)>, args: seq<Value>,
                                         kw: seq<(Key, Value)>, st: St, callee: Callee)
    requires fuel >= 1 && ContainedCallee(callee) && StBelow(st)
    requires EntriesBelow(es, |st.heap|) && ValuesBelow(args, |st.heap|)
    requires EntriesBelow(kw, |st.heap|)
    ensures var (f, st1) := Eval(fuel - 1, Get(es, FUNC, NoneValue), st, callee);
            f.Ok? ==> var (r, st') := Apply(f.value, args, kw, es, st1, callee);
                      Closed(st, st') && (r.Ok? ==> ValueBelow(r.value, |st'.heap|))
    ensures Closed(st, Eval(fuel - 1, Get(es, FUNC, NoneValue), st, callee).1)
    decreases fuel, 1, 1, 0
  {
    FindBelow(es, FUNC, |st.heap|);
    var (f, st1) := Eval(fuel - 1, Get(es, FUNC, NoneValue), st, callee);
    EvalContained(fuel - 1, Get(es, FUNC, NoneValue), st, callee);
    if f.Ok? {
      EntriesBelowMono(kw, |st.heap|, |st1.heap|);
      EntriesBelowMono(es, |st.heap|, |st1.heap|);
      ValuesBelowMono(args, |st.heap|, |st1.heap|);
      ApplyContained(f.value, args, kw, es, st1, callee);
    }
  }

  lemma {:induction false} ArgsContained(fuel: nat, raw: seq<Value>, i: nat, acc: seq<Value>,
                                         st: St, callee: Callee)
    requires fuel >= 1 && i <= |raw| && ContainedCallee(callee) && StBelow(st)
    requires ValuesBelow(raw, |st.heap|) && ValuesBelow(acc, |st.heap|)
    ensures var (r, st') := EvalArgs(fuel, raw, i, acc, st, callee);
            Closed(st, st') && (r.Ok? ==> ValuesBelow(r.value, |st'.heap|))
    decreases fuel, 1, 1, |raw| - i
  {
    if i < |raw| {
      var (r, st1) := Eval(fuel - 1, raw[i], st, callee);
      EvalContained(fuel - 1, raw[i], st, callee);
      if r.Ok? {
        ValuesBelowMono(raw, |st.heap|, |st1.heap|);
        ValuesBelowMono(acc, |st.heap|, |st1.heap|);
        ArgsContained(fuel, raw, i + 1, acc + [r.value], st1, callee);
      }
    }
  }

  lemma {:induction false} KwargsContained(fuel: nat, raw: seq<(Key, Value)>, i: nat,
                                           acc: seq<(Key, Value)>, st: St, callee: Callee)
    requires fuel >= 1 && i <= |raw| && ContainedCallee(callee) && StBelow(st)
    requires EntriesBelow(raw, |st.heap|) && EntriesBelow(acc, |st.heap|)
    ensures var (r, st') := EvalKwargs(fuel, raw, i, acc, st, callee);
            Closed(st, st') && (r.Ok? ==> EntriesBelow(r.value, |st'.heap|))
    decreases fuel, 1, 1, |raw| - i
  {
    if i < |raw| {
      var (r, st1) := Eval(fuel - 1, raw[i].1, st, callee);
      EvalContained(fuel - 1, raw[i].1, st, callee);
      if r.Ok? {
        EntriesBelowMono(raw, |st.heap|, |st1.heap|);
        EntriesBelowMono(acc, |st.heap|, |st1.heap|);
        KwargsContained(fuel, raw, i + 1, acc + [(raw[i].0, r.value)], st1, callee);
      }
    }
  }

  lemma ApplyContained(f: Value, args: seq<Value>, kw: seq<(Key, Value)>,
                       es: seq<(Key, Value)>, st: St, callee: Callee)
    requires ContainedCallee(callee) && StBelow(st) && ValueBelow(f, |st.heap|)
    requires ValuesBelow(args, |st.heap|) && EntriesBelow(kw, |st.heap|)
    requires EntriesBelow(es, |st.heap|)
    ensures var (r, st') := Apply(f, args, kw, es, st, callee);
            Closed(st, st') && (r.Ok? ==> ValueBelow(r.value, |st'.heap|))
  {
    match FuncId(st.heap, f)
    case Err(_) =>
    case Ok(fid) =>
      match KeywordNames(kw)
      case Err(_) =>
      case Ok(names) =>
        var c := Invocation(fid, args, names);
        assert NamedBelow(names, |st.heap|) by {
          forall i | 0 <= i < |names| ensures ValueBelow(names[i].1, |st.heap|) {
            assert kw[i] == (KStr(names[i].0), names[i].1);
          }
        }
        var o := callee(st.heap, c);
        CallContained(callee, st.heap, c);
        var st1 := st.(heap := st.heap + o.made, calls := st.calls + [c]);
        match o.result
        case Err(_) =>
        case Ok(r0) =>
          match Unwrap(st1.shared, r0)
          case Err(_) =>
          case Ok(r) =>
            if FindReturns(es).Some? {
              FindBelow(es, RETURNS, |st1.heap|);
              TargetsBelow(st1.heap, FindReturns(es).value);
              BindContained(Targets(st1.heap, FindReturns(es).value), 0, r, st1);
            }
  }

  /** Binding stores keys and a result of the arena and leaves the arena alone. */
  lemma {:induction false} BindContained(ts: seq<Value>, i: nat, r: Value, st: St)
    requires i <= |ts| && StBelow(st) && ValuesBelow(ts, |st.heap|) && ValueBelow(r, |st.heap|)
    ensures var (b, st') := Bind(ts, i, r, st);
            StBelow(st') && st'.heap == st.heap && (b.Ok? ==> b.value == r)
    decreases |ts| - i
  {
    if i < |ts| {
      match TargetKey(st.heap, ts[i])
      case Err(_) =>
      case Ok(k) =>
        assert KeyBelow(k, |st.heap|);
        BindContained(ts, i + 1, r, st.(shared := st.shared[k := r]));
    }
  }

  /** `eval(data, shared_data, memo={})` on a closed input keeps the arena closed and
      returns a value of it. */
  lemma EvalKeepsArenaClosed(fuel: nat, v: Value, h: Heap, shared: map<Key, Value>,
                             calls: seq<Invocation>, callee: Callee)
    requires ContainedCallee(callee) && SelfContained(h) && SharedBelow(shared, |h|)
    requires ValueBelow(v, |h|)
    ensures var (r, st') := Eval(fuel, v, St(h, shared, map[], calls), callee);
            SelfContained(st'.heap) && SharedBelow(st'.shared, |st'.heap|) &&
            |h| <= |st'.heap| && (r.Ok? ==> ValueBelow(r.value, |st'.heap|))
  {
    EvalContained(fuel, v, St(h, shared, map[], calls), callee);
  }
}
