/** The legacy `call` keeps the arena closed in the same sense as `eval`: on a
    self-contained arena with shared data of it, and with functions that return only
    objects of the arena or objects they made, every copy it builds, every binding and
    every result names only objects of the arena. */
module LegacyContainment {
  import opened PyValues
  import opened SharedValues
  import opened LegacyCallSpec
  import C = CallDictSpec
  import opened Containment

  /** A closed state: a self-contained arena and shared data of it. */
  predicate StBelow(st: St)
  {
    SelfContained(st.heap) && SharedBelow(st.shared, |st.heap|)
  }

  /** `b` is a closed state whose arena holds at least that of `a`. */
  predicate Closed(a: St, b: St)
  {
    StBelow(b) && |a.heap| <= |b.heap|
  }

  lemma EntriesBelowMono(es: seq<(Key, Value)>, n: nat, m: nat)
    requires EntriesBelow(es, n) && n <= m
    ensures EntriesBelow(es, m)
  {
  }

  lemma ValuesBelowMono(xs: seq<Value>, n: nat, m: nat)
    requires ValuesBelow(xs, n) && n <= m
    ensures ValuesBelow(xs, m)
  {
  }

  /** Allocating one object of the arena keeps a closed state closed. */
  lemma AllocClosed(st: St, o: Obj)
    requires StBelow(st) && ObjBelow(o, |st.heap| + 1)
    ensures StBelow(st.(heap := st.heap + [o]))
  {
    AppendContained(st.heap, [o]);
  }

  lemma {:induction false} CallContained(fuel: nat, v: Value, st: St, callee: Callee)
    requires ContainedCallee(callee) && StBelow(st) && ValueBelow(v, |st.heap|)
    ensures var (r, st') := Call(fuel, v, st, callee);
            Closed(st, st') && (r.Ok? ==> ValueBelow(r.value, |st'.heap|))
    decreases fuel, 3
  {
    if fuel == 0 {
    } else if C.IsCallable(st.heap, v) {
      assert ObjBelow(st.heap[v.id], |st.heap|);
      InvokeContained(fuel, st.heap[v.id].entries, st, callee);
    } else if v.Ptr? && v.id < |st.heap| && st.heap[v.id].Dict? {
      assert ObjBelow(st.heap[v.id], |st.heap|);
      var (r, st1) := CallEntries(fuel, st.heap[v.id].entries, 0, [], st, callee);
      EntriesContained(fuel, st.heap[v.id].entries, 0, [], st, callee);
      if r.Ok? {
        FromPairsBelow(r.value, |st1.heap|);
        EntriesBelowMono(FromPairs(r.value), |st1.heap|, |st1.heap| + 1);
        AllocClosed(st1, Dict(FromPairs(r.value)));
      }
    } else if v.Ptr? && v.id < |st.heap| && st.heap[v.id].List? {
      assert ObjBelow(st.heap[v.id], |st.heap|);
      var (r, st1) := CallItems(fuel, st.heap[v.id].items, 0, [], st, callee);
      ItemsContained(fuel, st.heap[v.id].items, 0, [], st, callee);
      if r.Ok? {
        ValuesBelowMono(r.value, |st1.heap|, |st1.heap| + 1);
        AllocClosed(st1, List(r.value));
      }
    } else if v.Shared? {
      ResolveBelow(st.heap, st.shared, v.name);
    }
  }

  lemma {:induction false} ItemsContained(fuel: nat, xs: seq<Value>, i: nat, acc: seq<Value>,
                                          st: St, callee: Callee)
    requires fuel >= 1 && i <= |xs| && ContainedCallee(callee) && StBelow(st)
    requires ValuesBelow(xs, |st.heap|) && ValuesBelow(acc, |st.heap|)
    ensures var (r, st') := CallItems(fuel, xs, i, acc, st, callee);
            Closed(st, st') && (r.Ok? ==> ValuesBelow(r.value, |st'.heap|))
    decreases fuel, 0, |xs| - i
  {
    if i < |xs| {
      var (r, st1) := Call(fuel - 1, xs[i], st, callee);
      CallContained(fuel - 1, xs[i], st, callee);
      if r.Ok? {
        ValuesBelowMono(xs, |st.heap|, |st1.heap|);
        ValuesBelowMono(acc, |st.heap|, |st1.heap|);
        ItemsContained(fuel, xs, i + 1, acc + [r.value], st1, callee);
      }
    }
  }

  lemma {:induction false} EntriesContained(fuel: nat, es: seq<(Key, Value)>, i: nat,
                                            acc: seq<(Key, Value)>, st: St, callee: Callee)
    requires fuel >= 1 && i <= |es| && ContainedCallee(callee) && StBelow(st)
    requires EntriesBelow(es, |st.heap|) && EntriesBelow(acc, |st.heap|)
    ensures var (r, st') := CallEntries(fuel, es, i, acc, st, callee);
            Closed(st, st') && (r.Ok? ==> EntriesBelow(r.value, |st'.heap|))
    decreases fuel, 0, |es| - i
  {
    if i < |es| {
      var (r, st1) := Call(fuel - 1, es[i].1, st, callee);
      CallContained(fuel - 1, es[i].1, st, callee);
      if r.Ok? {
        EntriesBelowMono(es, |st.heap|, |st1.heap|);
        EntriesBelowMono(acc, |st.heap|, |st1.heap|);
        EntriesContained(fuel, es, i + 1, acc + [(es[i].0, r.value)], st1, callee);
      }
    }
  }

  /** The positional and keyword arguments named by an invocation dict of the arena. */
  lemma SourcesBelow(h: Heap, es: seq<(Key, Value)>)
    requires SelfContained(h) && EntriesBelow(es, |h|)
    ensures C.ArgsSource(h, es).Ok? ==> ValuesBelow(C.ArgsSource(h, es).value, |h|)
    ensures C.KwargsSource(h, es).Ok? ==> EntriesBelow(C.KwargsSource(h, es).value, |h|)
    ensures RawArguments(h, es).Ok? ==>
              ValuesBelow(RawArguments(h, es).value.0, |h|) &&
              EntriesBelow(RawArguments(h, es).value.1, |h|)
  {
    FindBelow(es, C.ARGS, |h|);
    if Find(es, C.ARGS).Some? {
      IterateBelow(h, Find(es, C.ARGS).value);
    }
    FindBelow(es, C.KWARGS, |h|);
    var kv := Find(es, C.KWARGS);
    if kv.Some? && kv.value.Ptr? && kv.value.id < |h| {
      assert ObjBelow(h[kv.value.id], |h|);
    }
  }

  lemma {:induction false} InvokeContained(fuel: nat, es: seq<(Key, Value)>, st: St,
                                           callee: Callee)
    requires fuel >= 1 && ContainedCallee(callee) && StBelow(st) && EntriesBelow(es, |st.heap|)
    ensures var (r, st') := Invoke(fuel, es, st, callee);
            Closed(st, st') && (r.Ok? ==> ValueBelow(r.value, |st'.heap|))
    decreases fuel, 2
  {
    if Truthy(st.heap, C.Get(es, C.EVALUATE, Bool(true))) {
      EvaluatedContained(fuel, es, st, callee);
    } else {
      SourcesBelow(st.heap, es);
      match RawArguments(st.heap, es)
      case Err(_) =>
      case Ok((args, kw)) =>
        FindBelow(es, C.FUNC, |st.heap|);
        ApplyContained(C.Get(es, C.FUNC, NoneValue), args, kw, es, st, callee);
    }
  }

  /** The branch with a true 'evaluate'. */
  lemma {:induction false} EvaluatedContained(fuel: nat, es: seq<(Key, Value)>, st: St,
                                              callee: Callee)
    requires fuel >= 1 && Truthy(st.heap, C.Get(es, C.EVALUATE, Bool(true)))
    requires ContainedCallee(callee) && StBelow(st) && EntriesBelow(es, |st.heap|)
    ensures var (r, st') := Invoke(fuel, es, st, callee);
            Closed(st, st') && (r.Ok? ==> ValueBelow(r.value, |st'.heap|))
    decreases fuel, 1
  {
    SourcesBelow(st.heap, es);
    match C.ArgsSource(st.heap, es)
    case Err(_) =>
    case Ok(rawArgs) =>
      var (args, st1) := CallItems(fuel, rawArgs, 0, [], st, callee);
      ItemsContained(fuel, rawArgs, 0, [], st, callee);
      if args.Ok? {
        EntriesBelowMono(es, |st.heap|, |st1.heap|);
        SourcesBelow(st1.heap, es);
        match C.KwargsSource(st1.heap, es)
        case Err(_) =>
        case Ok(rawKw) =>
          var (kw, st2) := CallEntries(fuel, rawKw, 0, [], st1, callee);
          EntriesContained(fuel, rawKw, 0, [], st1, callee);
          if kw.Ok? {
            EntriesBelowMono(es, |st.heap|, |st2.heap|);
            ValuesBelowMono(args.value, |st1.heap|, |st2.heap|);
            FromPairsBelow(kw.value, |st2.heap|);
            FuncContained(fuel, es, args.value, FromPairs(kw.value), st2, callee);
            var (f, st3) := Call(fuel - 1, C.Get(es, C.FUNC, NoneValue), st2, callee);
            if f.Ok? {
              assert Invoke(fuel, es, st, callee) ==
                       Apply(f.value, args.value, FromPairs(kw.value), es, st3, callee);
            }
          }
      }
  }

  /** The last part of an evaluated invocation: call 'func' on the node, then apply it. */
  lemma {:induction false} FuncContained(fuel: nat, es: seq<(Key, Value)>, args: seq<Value>,
                                         kw: seq<(Key, Value)>, st: St, callee: Callee)
    requires fuel >= 1 && ContainedCallee(callee) && StBelow(st)
    requires EntriesBelow(es, |st.heap|) && ValuesBelow(args, |st.heap|)
    requires EntriesBelow(kw, |st.heap|)
    ensures var (f, st1) := Call(fuel - 1, C.Get(es, C.FUNC, NoneValue), st, callee);
            Closed(st, st1) &&
            (f.Ok? ==> var (r, st') := Apply(f.value, args, kw, es, st1, callee);
                       Closed(st, st') && (r.Ok? ==> ValueBelow(r.value, |st'.heap|)))
    decreases fuel, 0, 0
  {
    FindBelow(es, C.FUNC, |st.heap|);
    var (f, st1) := Call(fuel - 1, C.Get(es, C.FUNC, NoneValue), st, callee);
    CallContained(fuel - 1, C.Get(es, C.FUNC, NoneValue), st, callee);
    if f.Ok? {
      EntriesBelowMono(kw, |st.heap|, |st1.heap|);
      EntriesBelowMono(es, |st.heap|, |st1.heap|);
      ValuesBelowMono(args, |st.heap|, |st1.heap|);
      ApplyContained(f.value, args, kw, es, st1, callee);
    }
  }

  lemma ApplyContained(f: Value, args: seq<Value>, kw: seq<(Key, Value)>,
                       es: seq<(Key, Value)>, st: St, callee: Callee)
    requires ContainedCallee(callee) && StBelow(st) && ValueBelow(f, |st.heap|)
    requires ValuesBelow(args, |st.heap|) && EntriesBelow(kw, |st.heap|)
    requires EntriesBelow(es, |st.heap|)
    ensures var (r, st') := Apply(f, args, kw, es, st, callee);
            Closed(st, st') && (r.Ok? ==> ValueBelow(r.value, |st'.heap|))
  {
    match C.FuncId(st.heap, f)
    case Err(_) =>
    case Ok(fid) =>
      match C.KeywordNames(kw)
      case Err(_) =>
      case Ok(names) =>
        var c := Invocation(fid, args, names);
        assert NamedBelow(names, |st.heap|) by {
          forall i | 0 <= i < |names| ensures ValueBelow(names[i].1, |st.heap|) {
            assert kw[i] == (KStr(names[i].0), names[i].1);
          }
        }
        Containment.CallContained(callee, st.heap, c);
        FindBelow(es, RETURN, |st.heap|);
  }

  /** `call(data, sharedData)` on a closed input keeps the arena closed and returns a
      value of it. */
  lemma CallKeepsArenaClosed(fuel: nat, v: Value, h: Heap, shared: map<Key, Value>,
                             calls: seq<Invocation>, callee: Callee)
    requires ContainedCallee(callee) && SelfContained(h) && SharedBelow(shared, |h|)
    requires ValueBelow(v, |h|)
    ensures var (r, st') := Call(fuel, v, St(h, shared, calls), callee);
            SelfContained(st'.heap) && SharedBelow(st'.shared, |st'.heap|) &&
            |h| <= |st'.heap| && (r.Ok? ==> ValueBelow(r.value, |st'.heap|))
  {
    CallContained(fuel, v, St(h, shared, calls), callee);
  }
}
