/** Properties of the legacy `call`: it never changes the input structure, it maps a
    plain dict or list to a new one whose entries are the calls of the input's entries in
    turn, it calls the function of a non-evaluated node on the raw arguments, and it binds
    the result under the single 'return' target. Without a memo, a container that holds
    itself never finishes. */
module LegacyCallProps {
  import opened PyValues
  import opened SharedValues
  import FieldNames
  import C = CallDictSpec
  import opened LegacyCallSpec

  /** `b` comes after `a`: objects are only appended, calls are only appended. */
  predicate Extends(a: St, b: St)
  {
    |a.heap| <= |b.heap| && b.heap[..|a.heap|] == a.heap && a.calls <= b.calls
  }

  lemma ExtendsTrans(a: St, b: St, c: St)
    requires Extends(a, b) && Extends(b, c)
    ensures Extends(a, c)
  {
    assert c.heap[..|a.heap|] == c.heap[..|b.heap|][..|a.heap|];
  }

  // ---------------------------------------------------------------------------------
  // `call` only adds to the state: the caller's structure is never modified.

  lemma {:induction false} CallExtends(fuel: nat, v: Value, st: St, callee: Callee)
    ensures Extends(st, Call(fuel, v, st, callee).1)
    decreases fuel, 2
  {
    if fuel == 0 {
    } else if C.IsCallable(st.heap, v) {
      InvokeExtends(fuel, st.heap[v.id].entries, st, callee);
    } else if v.Ptr? && v.id < |st.heap| && st.heap[v.id].Dict? {
      var (r, st1) := CallEntries(fuel, st.heap[v.id].entries, 0, [], st, callee);
      EntriesExtends(fuel, st.heap[v.id].entries, 0, [], st, callee);
      if r.Ok? {
        ExtendsTrans(st, st1, st1.(heap := st1.heap + [Dict(FromPairs(r.value))]));
      }
    } else if v.Ptr? && v.id < |st.heap| && st.heap[v.id].List? {
      var (r, st1) := CallItems(fuel, st.heap[v.id].items, 0, [], st, callee);
      ItemsExtends(fuel, st.heap[v.id].items, 0, [], st, callee);
      if r.Ok? {
        ExtendsTrans(st, st1, st1.(heap := st1.heap + [List(r.value)]));
      }
    }
  }

  lemma {:induction false} ItemsExtends(fuel: nat, xs: seq<Value>, i: nat, acc: seq<Value>,
                                        st: St, callee: Callee)
    requires fuel >= 1 && i <= |xs|
    ensures Extends(st, CallItems(fuel, xs, i, acc, st, callee).1)
    decreases fuel, 0, |xs| - i
  {
    if i < |xs| {
      var (r, st1) := Call(fuel - 1, xs[i], st, callee);
      CallExtends(fuel - 1, xs[i], st, callee);
      if r.Ok? {
        ItemsExtends(fuel, xs, i + 1, acc + [r.value], st1, callee);
        ExtendsTrans(st, st1, CallItems(fuel, xs, i + 1, acc + [r.value], st1, callee).1);
      }
    }
  }

  lemma {:induction false} EntriesExtends(fuel: nat, es: seq<(Key, Value)>, i: nat,
                                          acc: seq<(Key, Value)>, st: St, callee: Callee)
    requires fuel >= 1 && i <= |es|
    ensures Extends(st, CallEntries(fuel, es, i, acc, st, callee).1)
    decreases fuel, 0, |es| - i
  {
    if i < |es| {
      var (r, st1) := Call(fuel - 1, es[i].1, st, callee);
      CallExtends(fuel - 1, es[i].1, st, callee);
      if r.Ok? {
        var acc1 := acc + [(es[i].0, r.value)];
        EntriesExtends(fuel, es, i + 1, acc1, st1, callee);
        ExtendsTrans(st, st1, CallEntries(fuel, es, i + 1, acc1, st1, callee).1);
      }
    }
  }

  lemma {:induction false} InvokeExtends(fuel: nat, es: seq<(Key, Value)>, st: St, callee: Callee)
    requires fuel >= 1
    ensures Extends(st, Invoke(fuel, es, st, callee).1)
    decreases fuel, 1, 1
  {
    if Truthy(st.heap, C.Get(es, C.EVALUATE, Bool(true))) {
      EvaluatedExtends(fuel, es, st, callee);
    } else {
      match RawArguments(st.heap, es)
      case Err(_) =>
      case Ok((args, kw)) => ApplyExtends(C.Get(es, C.FUNC, NoneValue), args, kw, es, st, callee);
    }
  }

  /** The branch with a true 'evaluate'. */
  lemma {:induction false} EvaluatedExtends(fuel: nat, es: seq<(Key, Value)>, st: St, callee: Callee)
    requires fuel >= 1 && Truthy(st.heap, C.Get(es, C.EVALUATE, Bool(true)))
    ensures Extends(st, Invoke(fuel, es, st, callee).1)
    decreases fuel, 1, 0
  {
    match C.ArgsSource(st.heap, es)
    case Err(_) =>
    case Ok(rawArgs) =>
      var (args, st1) := CallItems(fuel, rawArgs, 0, [], st, callee);
      ItemsExtends(fuel, rawArgs, 0, [], st, callee);
      if args.Ok? {
        match C.KwargsSource(st1.heap, es)
        case Err(_) =>
        case Ok(rawKw) =>
          var (kw, st2) := CallEntries(fuel, rawKw, 0, [], st1, callee);
          EntriesExtends(fuel, rawKw, 0, [], st1, callee);
          ExtendsTrans(st, st1, st2);
          if kw.Ok? {
            var (f, st3) := Call(fuel - 1, C.Get(es, C.FUNC, NoneValue), st2, callee);
            CallExtends(fuel - 1, C.Get(es, C.FUNC, NoneValue), st2, callee);
            ExtendsTrans(st, st2, st3);
            if f.Ok? {
              var st4 := Apply(f.value, args.value, FromPairs(kw.value), es, st3, callee).1;
              assert Invoke(fuel, es, st, callee).1 == st4;
              ApplyExtends(f.value, args.value, FromPairs(kw.value), es, st3, callee);
              ExtendsTrans(st, st3, st4);
            }
          }
      }
  }

  lemma ApplyExtends(f: Value, args: seq<Value>, kw: seq<(Key, Value)>, es: seq<(Key, Value)>,
                     st: St, callee: Callee)
    ensures Extends(st, Apply(f, args, kw, es, st, callee).1)
  {
    match C.FuncId(st.heap, f)
    case Err(_) =>
    case Ok(fid) =>
      match C.KeywordNames(kw)
      case Err(_) =>
      case Ok(names) =>
        var o := callee(st.heap, Invocation(fid, args, names));
        assert (st.heap + o.made)[..|st.heap|] == st.heap;
  }

  // ---------------------------------------------------------------------------------
  // A plain dict or list becomes a new one whose entries are the calls of the input's
  // entries, made one after another, each in the state the previous one left.

  /** `rs` are the results of calling each of `xs` in turn, starting in `st` and ending
      in `st'`, with none of the calls raising. */
  predicate Threaded(fuel: nat, xs: seq<Value>, rs: seq<Value>, st: St, st': St, callee: Callee)
    decreases |xs|
  {
    if xs == [] then rs == [] && st' == st
    else
      var (r, st1) := Call(fuel, xs[0], st, callee);
      rs != [] && r == Ok(rs[0]) && Threaded(fuel, xs[1..], rs[1..], st1, st', callee)
  }

  /** The values of an entry list, in order. */
  function Vals(es: seq<(Key, Value)>): (vs: seq<Value>)
    ensures |vs| == |es|
    ensures forall j :: 0 <= j < |es| ==> vs[j] == es[j].1
  {
    seq(|es|, j requires 0 <= j < |es| => es[j].1)
  }

  lemma {:induction false} ItemsThreaded(fuel: nat, xs: seq<Value>, i: nat, acc: seq<Value>,
                                         st: St, rs: seq<Value>, st': St, callee: Callee)
    requires fuel >= 1 && i <= |xs|
    ensures CallItems(fuel, xs, i, acc, st, callee) == (Ok(acc + rs), st')
            <==> Threaded(fuel - 1, xs[i..], rs, st, st', callee)
    decreases |xs| - i
  {
    if i == |xs| {
      assert xs[i..] == [];
      assert acc + rs == acc <==> rs == [];
    } else {
      var (r, st1) := Call(fuel - 1, xs[i], st, callee);
      assert xs[i..][0] == xs[i] && xs[i..][1..] == xs[i + 1..];
      if r.Ok? {
        var acc1 := acc + [r.value];
        var out := CallItems(fuel, xs, i + 1, acc1, st1, callee);
        if rs != [] && rs[0] == r.value {
          assert acc + rs == acc1 + rs[1..];
          ItemsThreaded(fuel, xs, i + 1, acc1, st1, rs[1..], st', callee);
        } else if out.0.Ok? {
          assert out.0.value[..|acc1|] == acc1;
          assert out.0.value[|acc|] == r.value;
          if rs == [] { assert |out.0.value| > |acc + rs|; } else { assert (acc + rs)[|acc|] == rs[0]; }
        }
      }
    }
  }

  lemma {:induction false} EntriesThreaded(fuel: nat, es: seq<(Key, Value)>, i: nat,
                                           acc: seq<(Key, Value)>, st: St,
                                           out: seq<(Key, Value)>, st': St, callee: Callee)
    requires fuel >= 1 && i <= |es|
    ensures CallEntries(fuel, es, i, acc, st, callee) == (Ok(acc + out), st')
            <==> Keys(out) == Keys(es[i..]) && Threaded(fuel - 1, Vals(es[i..]), Vals(out), st, st', callee)
    decreases |es| - i
  {
    if i == |es| {
      assert es[i..] == [] && Vals(es[i..]) == [];
      assert acc + out == acc <==> out == [];
    } else {
      var (r, st1) := Call(fuel - 1, es[i].1, st, callee);
      if r.Ok? {
        var acc1 := acc + [(es[i].0, r.value)];
        if out != [] && out[0] == (es[i].0, r.value) {
          EntriesThreaded(fuel, es, i + 1, acc1, st1, out[1..], st', callee);
          EntriesHere(fuel, es, i, acc, st, out, st', callee);
          EntriesRest(fuel, es, i, st, out, st', callee);
        } else {
          EntriesMismatch(fuel, es, i, acc, st, out, st', callee);
        }
      } else {
        EntriesSplit(es[i..], out);
      }
    }
  }

  /** The keys and values of a non-empty entry list, split into the first and the rest. */
  lemma EntriesSplit(es: seq<(Key, Value)>, out: seq<(Key, Value)>)
    requires es != []
    ensures Keys(es) == [es[0].0] + Keys(es[1..])
    ensures Vals(es)[0] == es[0].1 && Vals(es)[1..] == Vals(es[1..])
    ensures out != [] ==> Keys(out) == [out[0].0] + Keys(out[1..])
    ensures out != [] ==> Vals(out)[0] == out[0].1 && Vals(out)[1..] == Vals(out[1..])
  {
    assert es == [es[0]] + es[1..];
    if out != [] {
      assert out == [out[0]] + out[1..];
    }
  }

  /** The left-hand side of `EntriesThreaded`, one entry further on, when the first pair of
      `out` is the first entry's key with its call's result. */
  lemma EntriesHere(fuel: nat, es: seq<(Key, Value)>, i: nat, acc: seq<(Key, Value)>,
                    st: St, out: seq<(Key, Value)>, st': St, callee: Callee)
    requires fuel >= 1 && i < |es|
    requires var r := Call(fuel - 1, es[i].1, st, callee).0;
             r.Ok? && out != [] && out[0] == (es[i].0, r.value)
    ensures var st1 := Call(fuel - 1, es[i].1, st, callee).1;
            CallEntries(fuel, es, i, acc, st, callee) == (Ok(acc + out), st')
            <==> CallEntries(fuel, es, i + 1, acc + [out[0]], st1, callee) ==
                 (Ok(acc + [out[0]] + out[1..]), st')
  {
    assert acc + out == acc + [out[0]] + out[1..];
  }

  /** The right-hand side of `EntriesThreaded`, one entry further on. */
  lemma EntriesRest(fuel: nat, es: seq<(Key, Value)>, i: nat, st: St,
                    out: seq<(Key, Value)>, st': St, callee: Callee)
    requires fuel >= 1 && i < |es|
    requires var r := Call(fuel - 1, es[i].1, st, callee).0;
             r.Ok? && out != [] && out[0] == (es[i].0, r.value)
    ensures var st1 := Call(fuel - 1, es[i].1, st, callee).1;
            (Keys(out) == Keys(es[i..]) && Threaded(fuel - 1, Vals(es[i..]), Vals(out), st, st', callee))
            <==> (Keys(out[1..]) == Keys(es[i + 1..]) &&
                  Threaded(fuel - 1, Vals(es[i + 1..]), Vals(out[1..]), st1, st', callee))
  {
    EntriesSplit(es[i..], out);
    assert es[i..][1..] == es[i + 1..];
    ConsEqual(out[0].0, Keys(out[1..]), Keys(es[i + 1..]));
  }

  lemma ConsEqual<T>(a: T, xs: seq<T>, ys: seq<T>)
    ensures [a] + xs == [a] + ys <==> xs == ys
  {
    if [a] + xs == [a] + ys {
      assert xs == ([a] + xs)[1..];
    }
  }

  /** When the first pair of `out` is not the first entry's key with its call's result,
      neither side of `EntriesThreaded` holds. */
  lemma EntriesMismatch(fuel: nat, es: seq<(Key, Value)>, i: nat, acc: seq<(Key, Value)>,
                        st: St, out: seq<(Key, Value)>, st': St, callee: Callee)
    requires fuel >= 1 && i < |es|
    requires var r := Call(fuel - 1, es[i].1, st, callee).0;
             r.Ok? && !(out != [] && out[0] == (es[i].0, r.value))
    ensures CallEntries(fuel, es, i, acc, st, callee) != (Ok(acc + out), st')
    ensures !(Keys(out) == Keys(es[i..]) && Threaded(fuel - 1, Vals(es[i..]), Vals(out), st, st', callee))
  {
    var (r, st1) := Call(fuel - 1, es[i].1, st, callee);
    EntriesSplit(es[i..], out);
    var acc1 := acc + [(es[i].0, r.value)];
    var res := CallEntries(fuel, es, i + 1, acc1, st1, callee);
    assert CallEntries(fuel, es, i, acc, st, callee) == res;
    if res.0.Ok? {
      assert res.0.value[..|acc1|] == acc1;
      assert res.0.value[|acc|] == (es[i].0, r.value);
      if out == [] { assert |res.0.value| > |acc + out|; } else { assert (acc + out)[|acc|] == out[0]; }
    }
  }

  /** A list maps to a new list, appended after everything its items' calls allocated,
      exactly when its items are the calls of the input items, in order. */
  lemma ListResult(fuel: nat, id: nat, st: St, rs: seq<Value>, st1: St, callee: Callee)
    requires fuel >= 1 && id < |st.heap| && st.heap[id].List?
    ensures Call(fuel, Ptr(id), st, callee) == (Ok(Ptr(|st1.heap|)), st1.(heap := st1.heap + [List(rs)]))
            <==> Threaded(fuel - 1, st.heap[id].items, rs, st, st1, callee)
  {
    var xs := st.heap[id].items;
    var (r, s1) := CallItems(fuel, xs, 0, [], st, callee);
    assert xs[0..] == xs && [] + rs == rs;
    ItemsThreaded(fuel, xs, 0, [], st, rs, st1, callee);
    if r.Ok? {
      var lhs := s1.(heap := s1.heap + [List(r.value)]);
      var rhs := st1.(heap := st1.heap + [List(rs)]);
      if Ptr(|s1.heap|) == Ptr(|st1.heap|) && lhs == rhs {
        assert s1.heap == lhs.heap[..|s1.heap|] && st1.heap == rhs.heap[..|st1.heap|];
        assert lhs.heap[|s1.heap|] == List(r.value);
      }
    }
  }

  /** A plain dict (keys unique, no 'func') maps to a new dict with the same keys in the
      same order, exactly when each value is the call of the input's value, in order. */
  lemma DictResult(fuel: nat, id: nat, st: St, out: seq<(Key, Value)>, st1: St, callee: Callee)
    requires fuel >= 1 && id < |st.heap| && st.heap[id].Dict?
    requires UniqueKeys(st.heap[id].entries) && C.FUNC !in Keys(st.heap[id].entries)
    ensures Call(fuel, Ptr(id), st, callee) == (Ok(Ptr(|st1.heap|)), st1.(heap := st1.heap + [Dict(out)]))
            <==> Keys(out) == Keys(st.heap[id].entries) &&
                 Threaded(fuel - 1, Vals(st.heap[id].entries), Vals(out), st, st1, callee)
  {
    var es := st.heap[id].entries;
    if Keys(out) == Keys(es) && Threaded(fuel - 1, Vals(es), Vals(out), st, st1, callee) {
      DictFromThreaded(fuel, id, st, out, st1, callee);
    }
    if Call(fuel, Ptr(id), st, callee) == (Ok(Ptr(|st1.heap|)), st1.(heap := st1.heap + [Dict(out)])) {
      DictToThreaded(fuel, id, st, out, st1, callee);
    }
  }

  lemma DictUnfold(fuel: nat, id: nat, st: St, callee: Callee)
    requires fuel >= 1 && id < |st.heap| && st.heap[id].Dict?
    requires C.FUNC !in Keys(st.heap[id].entries)
    ensures var (r, s1) := CallEntries(fuel, st.heap[id].entries, 0, [], st, callee);
            Call(fuel, Ptr(id), st, callee) ==
              if r.Err? then (Err(r.exc), s1)
              else (Ok(Ptr(|s1.heap|)), s1.(heap := s1.heap + [Dict(FromPairs(r.value))]))
  {
    assert !C.IsCallable(st.heap, Ptr(id));
  }

  lemma DictFromThreaded(fuel: nat, id: nat, st: St, out: seq<(Key, Value)>, st1: St, callee: Callee)
    requires fuel >= 1 && id < |st.heap| && st.heap[id].Dict?
    requires UniqueKeys(st.heap[id].entries) && C.FUNC !in Keys(st.heap[id].entries)
    requires Keys(out) == Keys(st.heap[id].entries)
    requires Threaded(fuel - 1, Vals(st.heap[id].entries), Vals(out), st, st1, callee)
    ensures Call(fuel, Ptr(id), st, callee) == (Ok(Ptr(|st1.heap|)), st1.(heap := st1.heap + [Dict(out)]))
  {
    var es := st.heap[id].entries;
    DictUnfold(fuel, id, st, callee);
    assert es[0..] == es && [] + out == out;
    EntriesThreaded(fuel, es, 0, [], st, out, st1, callee);
    assert CallEntries(fuel, es, 0, [], st, callee) == (Ok(out), st1);
    KeysShareUniqueness(out, es);
    assert FromPairs(out) == out;
  }

  lemma DictToThreaded(fuel: nat, id: nat, st: St, out: seq<(Key, Value)>, st1: St, callee: Callee)
    requires fuel >= 1 && id < |st.heap| && st.heap[id].Dict?
    requires UniqueKeys(st.heap[id].entries) && C.FUNC !in Keys(st.heap[id].entries)
    requires Call(fuel, Ptr(id), st, callee) == (Ok(Ptr(|st1.heap|)), st1.(heap := st1.heap + [Dict(out)]))
    ensures Keys(out) == Keys(st.heap[id].entries)
    ensures Threaded(fuel - 1, Vals(st.heap[id].entries), Vals(out), st, st1, callee)
  {
    var es := st.heap[id].entries;
    DictUnfold(fuel, id, st, callee);
    var (r, s1) := CallEntries(fuel, es, 0, [], st, callee);
    assert r.Ok?;
    assert es[0..] == es && [] + r.value == r.value;
    EntriesThreaded(fuel, es, 0, [], st, r.value, s1, callee);
    KeysShareUniqueness(r.value, es);
    var lhs := s1.(heap := s1.heap + [Dict(FromPairs(r.value))]);
    var rhs := st1.(heap := st1.heap + [Dict(out)]);
    assert lhs == rhs;
    assert s1.heap == lhs.heap[..|s1.heap|] && st1.heap == rhs.heap[..|st1.heap|];
    assert lhs.heap[|s1.heap|] == Dict(r.value);
    assert s1 == st1 && r.value == out;
  }

  lemma KeysShareUniqueness(a: seq<(Key, Value)>, b: seq<(Key, Value)>)
    requires Keys(a) == Keys(b) && UniqueKeys(b)
    ensures UniqueKeys(a)
  {
    forall i, j | 0 <= i < j < |a| ensures a[i].0 != a[j].0 {
      assert Keys(a)[i] == b[i].0 && Keys(a)[j] == b[j].0;
    }
  }

  /** Without a memo, a list whose first item is the list itself recurses until the
      recursion limit (RuntimeError in Python 2), whatever the depth allowed, and nothing
      happens before that. */
  lemma {:induction false} SelfContainingList(fuel: nat, id: nat, st: St, callee: Callee)
    requires id < |st.heap| && st.heap[id].List?
    requires st.heap[id].items != [] && st.heap[id].items[0] == Ptr(id)
    ensures Call(fuel, Ptr(id), st, callee) == (Err(RuntimeError), st)
    decreases fuel
  {
    if fuel > 0 {
      SelfContainingList(fuel - 1, id, st, callee);
      assert CallItems(fuel, st.heap[id].items, 0, [], st, callee) == (Err(RuntimeError), st);
    }
  }

  // ---------------------------------------------------------------------------------
  // Invocation.

  /** With a false 'evaluate', the function is still called, once, on the raw 'args'
      items and 'kwargs' entries: nothing in them is evaluated or resolved first. */
  lemma DeferredCallsRaw(fuel: nat, v: Value, st: St, callee: Callee, fid: nat,
                         args: seq<Value>, kw: seq<(Key, Value)>, names: seq<(string, Value)>)
    requires fuel >= 1 && C.IsCallable(st.heap, v)
    requires !Truthy(st.heap, C.Get(st.heap[v.id].entries, C.EVALUATE, Bool(true)))
    requires RawArguments(st.heap, st.heap[v.id].entries) == Ok((args, kw))
    requires C.FuncId(st.heap, C.Get(st.heap[v.id].entries, C.FUNC, NoneValue)) == Ok(fid)
    requires C.KeywordNames(kw) == Ok(names)
    ensures args == Iterate(st.heap, Find(st.heap[v.id].entries, C.ARGS).value).value
    ensures Find(st.heap[v.id].entries, C.KWARGS).value == Ptr(Find(st.heap[v.id].entries, C.KWARGS).value.id)
    ensures kw == st.heap[Find(st.heap[v.id].entries, C.KWARGS).value.id].entries
    ensures Call(fuel, v, st, callee).1.calls == st.calls + [Invocation(fid, args, names)]
    ensures Call(fuel, v, st, callee).1.heap ==
              st.heap + callee(st.heap, Invocation(fid, args, names)).made
  {
    var es := st.heap[v.id].entries;
    RawArgumentsOk(st.heap, es, args, kw);
    assert Call(fuel, v, st, callee) == Invoke(fuel, es, st, callee);
    assert Invoke(fuel, es, st, callee) == Apply(C.Get(es, C.FUNC, NoneValue), args, kw, es, st, callee);
    ReturnBinding(C.Get(es, C.FUNC, NoneValue), args, kw, es, st, callee, fid, names);
  }

  lemma RawArgumentsOk(h: Heap, es: seq<(Key, Value)>, args: seq<Value>, kw: seq<(Key, Value)>)
    requires RawArguments(h, es) == Ok((args, kw))
    ensures args == Iterate(h, Find(es, C.ARGS).value).value
    ensures Find(es, C.KWARGS).value == Ptr(Find(es, C.KWARGS).value.id)
    ensures kw == h[Find(es, C.KWARGS).value.id].entries
  {
  }

  /** With a false 'evaluate', a node without 'args' or without 'kwargs' fails with
      KeyError before anything is called. */
  lemma DeferredNeedsBothKeys(fuel: nat, v: Value, st: St, callee: Callee)
    requires fuel >= 1 && C.IsCallable(st.heap, v)
    requires !Truthy(st.heap, C.Get(st.heap[v.id].entries, C.EVALUATE, Bool(true)))
    requires C.ARGS !in Keys(st.heap[v.id].entries) || C.KWARGS !in Keys(st.heap[v.id].entries)
    ensures Call(fuel, v, st, callee) == (Err(KeyError), st)
  {
    assert Call(fuel, v, st, callee) == Invoke(fuel, st.heap[v.id].entries, st, callee);
  }

  /** The function is called once; its result, even a SharedValue, is returned as it is;
      with a 'return' entry it is also stored under that one key (the SharedValue's name
      or the raw value) and no other key of the shared data changes; an unhashable target
      raises TypeError after the call. */
  lemma ReturnBinding(f: Value, args: seq<Value>, kw: seq<(Key, Value)>, es: seq<(Key, Value)>,
                      st: St, callee: Callee, fid: nat, names: seq<(string, Value)>)
    requires C.FuncId(st.heap, f) == Ok(fid) && C.KeywordNames(kw) == Ok(names)
    ensures var (r, st') := Apply(f, args, kw, es, st, callee);
            var o := callee(st.heap, Invocation(fid, args, names));
            && st'.calls == st.calls + [Invocation(fid, args, names)]
            && st'.heap == st.heap + o.made
            && (o.result.Err? || RETURN !in Keys(es) ==> r == o.result && st'.shared == st.shared)
            && (o.result.Ok? && RETURN in Keys(es) ==>
                  match C.TargetKey(st'.heap, Find(es, RETURN).value)
                  case Err(_) => r == Err(TypeError) && st'.shared == st.shared
                  case Ok(k) => r == o.result && st'.shared == st.shared[k := o.result.value]
                                && (forall k' :: k' != k && k' in st.shared ==>
                                       k' in st'.shared && st'.shared[k'] == st.shared[k']))
  {
    var o := callee(st.heap, Invocation(fid, args, names));
    if o.result.Ok? && RETURN in Keys(es) {
      var t := Find(es, RETURN).value;
      if !t.Shared? {
        assert C.TargetKey(st.heap + o.made, t).Err? ==> C.TargetKey(st.heap + o.made, t).exc == TypeError;
      }
    }
  }

  // ---------------------------------------------------------------------------------
  // The two versions on leaves.

  /** A value that is not a dict, list or SharedValue comes back unchanged, and nothing
      else happens. */
  lemma ScalarsUnchanged(fuel: nat, v: Value, st: St, callee: Callee)
    requires fuel >= 1 && !v.Shared?
    requires !(v.Ptr? && v.id < |st.heap| && (st.heap[v.id].Dict? || st.heap[v.id].List?))
    ensures Call(fuel, v, st, callee) == (Ok(v), st)
  {
  }

  /** On anything but a dict or list, `call` and `eval` give the same result, except on
      the root SharedValue: Python 2's `get_field` raises AttributeError on the name None
      where Python 3's raises TypeError. */
  lemma LeavesAgree(fuel: nat, v: Value, h: Heap, data: map<Key, Value>, memo: map<nat, nat>,
                    calls: seq<Invocation>, callee: Callee)
    requires fuel >= 1
    requires !(v.Ptr? && v.id < |h| && (h[v.id].Dict? || h[v.id].List?))
    ensures v != Shared(None) ==>
              Call(fuel, v, St(h, data, calls), callee).0 ==
              C.Eval(fuel, v, C.St(h, data, memo, calls), callee).0
    ensures v == Shared(None) ==>
              Call(fuel, v, St(h, data, calls), callee).0 == Err(AttributeError) &&
              C.Eval(fuel, v, C.St(h, data, memo, calls), callee).0 == Err(TypeError)
  {
  }

  /** `shared.a` evaluates under `call` to the shared-data entry 'a', or to itself when
      there is none; one more attribute on a named reference walks one attribute further
      from what the shorter name resolves to. */
  lemma AttributeReference(fuel: nat, name: Option<string>, a: string, st: St, callee: Callee)
    requires fuel >= 1 && PlainAttr(a) && !FieldNames.IsDigits(a)
    requires name.Some? ==> !FieldNames.Parse(name.value).malformed
    ensures name.None? ==>
              Call(fuel, Shared(Extend(name, a)), st, callee) ==
              (if FieldNames.DecimalValue(FieldNames.LeadingDigits(a)) > FieldNames.SSIZE_MAX
               then Err(ValueError)
               else Ok(if KStr(a) in st.shared then st.shared[KStr(a)] else Shared(Some(a))), st)
    ensures name.Some? ==>
              Call(fuel, Shared(Extend(name, a)), st, callee).1 == st &&
              GetField(st.heap, st.shared, Extend(name, a)) ==
                match GetField(st.heap, st.shared, name)
                case Err(e) => Err(e)
                case Ok(o) => GetAttr(st.heap, o, a)
  {
    if name.None? {
      ResolveRootAttribute(st.heap, st.shared, a);
    } else {
      ResolveExtended(st.heap, st.shared, name.value, a);
    }
  }
}
