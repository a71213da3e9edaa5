/** What the legacy `call(data, sharedData)` computes, as functions over an explicit
    state: the arena, the shared data and the log of invocations performed. The legacy
    evaluator has no memo and no visiting order, binds its result under 'return', and
    still calls the function when 'evaluate' is false, on the raw 'args' and 'kwargs'.
    It is Python 2 code: `iteritems` walks a dict in its own order, which the model
    takes to be the order of the entry list. */
module LegacyCallSpec {
  import opened PyValues
  import opened SharedValues
  import C = CallDictSpec

  datatype St = St(heap: Heap, shared: map<Key, Value>, calls: seq<Invocation>)

  const RETURN := KStr("return")

  /** The SharedValue branch. Python 2's `get_field` asks its argument for
      `_formatter_field_name_split`, which None lacks: the root SharedValue raises
      AttributeError. Every other name resolves as in `Resolve`. */
  function ResolveName(h: Heap, ctx: map<Key, Value>, name: Option<string>): Result<Value>
  {
    if name.None? then Err(AttributeError) else Resolve(h, ctx, name)
  }

  function Call(fuel: nat, v: Value, st: St, callee: Callee): (Result<Value>, St)
    decreases fuel, 2
  {
    if fuel == 0 then (Err(RuntimeError), st)
    else if C.IsCallable(st.heap, v) then Invoke(fuel, st.heap[v.id].entries, st, callee)
    else if v.Ptr? && v.id < |st.heap| && st.heap[v.id].Dict? then
      var (r, st1) := CallEntries(fuel, st.heap[v.id].entries, 0, [], st, callee);
      if r.Err? then (Err(r.exc), st1)
      else (Ok(Ptr(|st1.heap|)), st1.(heap := st1.heap + [Dict(FromPairs(r.value))]))
    else if v.Ptr? && v.id < |st.heap| && st.heap[v.id].List? then
      var (r, st1) := CallItems(fuel, st.heap[v.id].items, 0, [], st, callee);
      if r.Err? then (Err(r.exc), st1)
      else (Ok(Ptr(|st1.heap|)), st1.(heap := st1.heap + [List(r.value)]))
    else if v.Shared? then (ResolveName(st.heap, st.shared, v.name), st)
    else (Ok(v), st)
  }

  /** `[call(d, ...) for d in xs]` from element `i` on, `acc` holding the results so far. */
  function CallItems(fuel: nat, xs: seq<Value>, i: nat, acc: seq<Value>, st: St, callee: Callee)
    : (r: (Result<seq<Value>>, St))
    requires fuel >= 1 && i <= |xs|
    ensures r.0.Ok? ==> |r.0.value| == |acc| + |xs| - i && r.0.value[..|acc|] == acc
    decreases fuel, 0, |xs| - i
  {
    if i == |xs| then (Ok(acc), st)
    else
      var (r, st1) := Call(fuel - 1, xs[i], st, callee);
      if r.Err? then (Err(r.exc), st1)
      else CallItems(fuel, xs, i + 1, acc + [r.value], st1, callee)
  }

  /** `[(k, call(v, ...)) for k, v in es]` from entry `i` on: the pairs handed to `dict`. */
  function CallEntries(fuel: nat, es: seq<(Key, Value)>, i: nat, acc: seq<(Key, Value)>,
                       st: St, callee: Callee): (r: (Result<seq<(Key, Value)>>, St))
    requires fuel >= 1 && i <= |es|
    ensures r.0.Ok? ==> |r.0.value| == |acc| + |es| - i && r.0.value[..|acc|] == acc
    decreases fuel, 0, |es| - i
  {
    if i == |es| then (Ok(acc), st)
    else
      var (r, st1) := Call(fuel - 1, es[i].1, st, callee);
      if r.Err? then (Err(r.exc), st1)
      else CallEntries(fuel, es, i + 1, acc + [(es[i].0, r.value)], st1, callee)
  }

  /** The invocation branch. With a true 'evaluate' (the default) the args, kwargs and
      func are evaluated on a copy; otherwise the raw entries are used as they are. */
  function Invoke(fuel: nat, es: seq<(Key, Value)>, st: St, callee: Callee): (Result<Value>, St)
    requires fuel >= 1
    decreases fuel, 1
  {
    if Truthy(st.heap, C.Get(es, C.EVALUATE, Bool(true))) then
      match C.ArgsSource(st.heap, es)
      case Err(e) => (Err(e), st)
      case Ok(rawArgs) =>
        var (args, st1) := CallItems(fuel, rawArgs, 0, [], st, callee);
        if args.Err? then (Err(args.exc), st1)
        else
          match C.KwargsSource(st1.heap, es)
          case Err(e) => (Err(e), st1)
          case Ok(rawKw) =>
            var (kw, st2) := CallEntries(fuel, rawKw, 0, [], st1, callee);
            if kw.Err? then (Err(kw.exc), st2)
            else
              var (f, st3) := Call(fuel - 1, C.Get(es, C.FUNC, NoneValue), st2, callee);
              if f.Err? then (Err(f.exc), st3)
              else Apply(f.value, args.value, FromPairs(kw.value), es, st3, callee)
    else
      match RawArguments(st.heap, es)
      case Err(e) => (Err(e), st)
      case Ok((args, kw)) => Apply(C.Get(es, C.FUNC, NoneValue), args, kw, es, st, callee)
  }

  /** `*data['args'], **data['kwargs']` on the unevaluated node: both keys must be present
      (KeyError), the args must be iterable and the kwargs a dict (TypeError). */
  function RawArguments(h: Heap, es: seq<(Key, Value)>)
    : (r: Result<(seq<Value>, seq<(Key, Value)>)>)
    ensures r == Err(KeyError) <==> C.ARGS !in Keys(es) || C.KWARGS !in Keys(es)
    ensures r.Err? ==> r.exc in {KeyError, TypeError}
  {
    if C.ARGS !in Keys(es) || C.KWARGS !in Keys(es) then Err(KeyError)
    else
      match Iterate(h, Find(es, C.ARGS).value)
      case Err(e) => Err(e)
      case Ok(args) =>
        var kv := Find(es, C.KWARGS).value;
        if kv.Ptr? && kv.id < |h| && h[kv.id].Dict? then Ok((args, h[kv.id].entries))
        else Err(TypeError)
  }

  /** `r = data['func'](*args, **kwargs)`, then `sharedData[target] = r` when the node has a
      'return' entry. The result itself is returned as it is, even a SharedValue. */
  function Apply(f: Value, args: seq<Value>, kw: seq<(Key, Value)>, es: seq<(Key, Value)>,
                 st: St, callee: Callee): (Result<Value>, St)
  {
    match C.FuncId(st.heap, f)
    case Err(e) => (Err(e), st)
    case Ok(fid) =>
      match C.KeywordNames(kw)
      case Err(e) => (Err(e), st)
      case Ok(names) =>
        var c := Invocation(fid, args, names);
        var o := callee(st.heap, c);
        var st1 := st.(heap := st.heap + o.made, calls := st.calls + [c]);
        match o.result
        case Err(e) => (Err(e), st1)
        case Ok(r) =>
          match Find(es, RETURN)
          case None => (Ok(r), st1)
          case Some(t) =>
            match C.TargetKey(st1.heap, t)
            case Err(e) => (Err(e), st1)
            case Ok(k) => (Ok(r), st1.(shared := st1.shared[k := r]))
  }
}
