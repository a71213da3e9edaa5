/** What `calldict.eval` computes, as functions over an explicit state: the arena, the
    shared data, the identity memo of the current call tree, and the log of invocations
    performed. Each function returns the result (or the exception raised) together with
    the state after it. `fuel` is the remaining recursion depth; it stands for Python's
    recursion limit, and running out of it is a RecursionError. */
module CallDictSpec {
  import opened PyValues
  import opened SharedValues
  import opened VisitOrder

  datatype St = St(heap: Heap, shared: map<Key, Value>, memo: map<nat, nat>, calls: seq<Invocation>)

  const FUNC := KStr("func")
  const ARGS := KStr("args")
  const KWARGS := KStr("kwargs")
  const RETURNS := KStr("returns")
  const EVALUATE := KStr("evaluate")

  /** `is_callable(data)`: a dict with a 'func' key. A bare function is not one. */
  function IsCallable(h: Heap, v: Value): (b: bool)
    ensures b ==> v.Ptr? && v.id < |h| && h[v.id].Dict?
    ensures b <==> v.Ptr? && Deref(h, v.id).Some? && h[v.id].Dict? &&
                   Find(h[v.id].entries, FUNC).Some?
  {
    v.Ptr? && v.id < |h| && h[v.id].Dict? && FUNC in Keys(h[v.id].entries)
  }

  /** A dict or list that `eval` walks structurally: not an invocation. */
  predicate IsPlain(h: Heap, v: Value)
  {
    v.Ptr? && v.id < |h| && (h[v.id].List? || h[v.id].Dict?) && !IsCallable(h, v)
  }

  /** `d.get(k, default)`. */
  function Get(es: seq<(Key, Value)>, k: Key, default: Value): Value
  {
    match Find(es, k) case Some(v) => v case None => default
  }

  function Eval(fuel: nat, v: Value, st: St, callee: Callee): (Result<Value>, St)
    decreases fuel, 3
  {
    if fuel == 0 then (Err(RecursionError), st)
    else if IsCallable(st.heap, v) then Invoke(fuel, st.heap[v.id].entries, st, callee)
    else if IsPlain(st.heap, v) then EvalContainer(fuel, v.id, st, callee)
    else if v.Shared? then (Resolve(st.heap, st.shared, v.name), st)
    else (Ok(v), st)
  }

  /** The empty output container (`type(data)()` or `data[:]`) and the children to visit
      (`data.items()` or `enumerate(data)`). */
  function Shell(o: Obj): Obj
  {
    if o.Dict? then Dict([]) else o
  }

  function Children(o: Obj): seq<(Key, Value)>
  {
    match o
    case Dict(es) => es
    case List(xs) => Enumerate(xs)
    case _ => []
  }

  function EvalContainer(fuel: nat, id: nat, st: St, callee: Callee): (Result<Value>, St)
    requires fuel >= 1
    requires IsPlain(st.heap, Ptr(id))
    decreases fuel, 2
  {
    if id in st.memo then (Ok(Ptr(st.memo[id])), st)
    else
      var y := |st.heap|;
      var st1 := st.(heap := st.heap + [Shell(st.heap[id])], memo := st.memo[id := y]);
      var order := SortByRank(st1.heap, Children(st.heap[id]));
      var (done, st2) := Fill(fuel, y, order, 0, st1, callee);
      (if done.Ok? then Ok(Ptr(y)) else Err(done.exc), st2)
  }

  /** The loop `for k, v in sorted(...): y[k] = eval(v, ...)` from child `i` on. */
  function Fill(fuel: nat, y: nat, kids: seq<(Key, Value)>, i: nat, st: St, callee: Callee)
    : (Result<()>, St)
    requires fuel >= 1 && i <= |kids|
    decreases fuel, 1, |kids| - i
  {
    if i == |kids| then (Ok(()), st)
    else
      var (r, st1) := Eval(fuel - 1, kids[i].1, st, callee);
      if r.Err? then (Err(r.exc), st1)
      else Fill(fuel, y, kids, i + 1, st1.(heap := Put(st1.heap, y, kids[i].0, r.value)), callee)
  }

  /** An invocation dict. With a false 'evaluate' entry it becomes a new dict without
      that key and nothing is evaluated or called. */
  function Invoke(fuel: nat, es: seq<(Key, Value)>, st: St, callee: Callee): (Result<Value>, St)
    requires fuel >= 1
    decreases fuel, 2
  {
    if !Truthy(st.heap, Get(es, EVALUATE, Bool(true))) then
      (Ok(Ptr(|st.heap|)), st.(heap := st.heap + [Dict(Without(es, EVALUATE))]))
    else InvokeNow(fuel, es, st, callee)
  }

  /** `data.get('args', [])`, ready to iterate. */
  function ArgsSource(h: Heap, es: seq<(Key, Value)>): Result<seq<Value>>
  {
    match Find(es, ARGS) case None => Ok([]) case Some(a) => Iterate(h, a)
  }

  /** `data.get('kwargs', {}).items()`. A SharedValue answers `.items` through
      `__getattr__` with another SharedValue, which cannot be called. */
  function KwargsSource(h: Heap, es: seq<(Key, Value)>): Result<seq<(Key, Value)>>
  {
    match Find(es, KWARGS)
    case None => Ok([])
    case Some(Shared(_)) => Err(TypeError)
    case Some(Ptr(id)) =>
      (match Deref(h, id) case Some(Dict(kw)) => Ok(kw) case _ => Err(AttributeError))
    case Some(_) => Err(AttributeError)
  }

  /** Evaluate on a copy: args in order, then kwargs, then func; then call. */
  function InvokeNow(fuel: nat, es: seq<(Key, Value)>, st: St, callee: Callee)
    : (Result<Value>, St)
    requires fuel >= 1
    decreases fuel, 1, 3
  {
    match ArgsSource(st.heap, es)
    case Err(e) => (Err(e), st)
    case Ok(rawArgs) =>
      var (args, st1) := EvalArgs(fuel, rawArgs, 0, [], st, callee);
      if args.Err? then (Err(args.exc), st1)
      else InvokeWith(fuel, es, args.value, st1, callee)
  }

  /** The rest of the invocation once the positional arguments are evaluated: kwargs,
      then func, then the call. */
  function InvokeWith(fuel: nat, es: seq<(Key, Value)>, args: seq<Value>, st: St, callee: Callee)
    : (Result<Value>, St)
    requires fuel >= 1
    decreases fuel, 1, 2
  {
    match KwargsSource(st.heap, es)
    case Err(e) => (Err(e), st)
    case Ok(rawKw) =>
      var (kw, st1) := EvalKwargs(fuel, rawKw, 0, [], st, callee);
      if kw.Err? then (Err(kw.exc), st1)
      else
        var (f, st2) := Eval(fuel - 1, Get(es, FUNC, NoneValue), st1, callee);
        if f.Err? then (Err(f.exc), st2)
        else Apply(f.value, args, FromPairs(kw.value), es, st2, callee)
  }

  /** `[eval(v, ...) for v in args]` from element `i` on, `acc` holding the results so far. */
  function EvalArgs(fuel: nat, raw: seq<Value>, i: nat, acc: seq<Value>, st: St, callee: Callee)
    : (Result<seq<Value>>, St)
    requires fuel >= 1 && i <= |raw|
    decreases fuel, 1, 1, |raw| - i
  {
    if i == |raw| then (Ok(acc), st)
    else
      var (r, st1) := Eval(fuel - 1, raw[i], st, callee);
      if r.Err? then (Err(r.exc), st1)
      else EvalArgs(fuel, raw, i + 1, acc + [r.value], st1, callee)
  }

  /** `dict([(k, eval(v, ...)) for k, v in kwargs.items()])` from entry `i` on. */
  function EvalKwargs(fuel: nat, raw: seq<(Key, Value)>, i: nat, acc: seq<(Key, Value)>,
                      st: St, callee: Callee): (Result<seq<(Key, Value)>>, St)
    requires fuel >= 1 && i <= |raw|
    decreases fuel, 1, 1, |raw| - i
  {
    if i == |raw| then (Ok(acc), st)
    else
      var (r, st1) := Eval(fuel - 1, raw[i].1, st, callee);
      if r.Err? then (Err(r.exc), st1)
      else EvalKwargs(fuel, raw, i + 1, acc + [(raw[i].0, r.value)], st1, callee)
  }

  /** The function behind an evaluated 'func' entry; anything else is not callable. */
  function FuncId(h: Heap, f: Value): Result<nat>
  {
    match f
    case Ptr(id) => (match Deref(h, id) case Some(Func(fid)) => Ok(fid) case _ => Err(TypeError))
    case _ => Err(TypeError)
  }

  /** `**kwargs` accepts string keys only. */
  function KeywordNames(kw: seq<(Key, Value)>): (r: Result<seq<(string, Value)>>)
    ensures r.Ok? ==> |r.value| == |kw| &&
                      forall i :: 0 <= i < |kw| ==> kw[i] == (KStr(r.value[i].0), r.value[i].1)
    ensures r.Err? ==> r.exc == TypeError && exists i :: 0 <= i < |kw| && !kw[i].0.KStr?
  {
    if kw == [] then Ok([])
    else if !kw[0].0.KStr? then Err(TypeError)
    else
      match KeywordNames(kw[1..])
      case Err(e) => Err(e)
      case Ok(rest) => Ok([(kw[0].0.s, kw[0].1)] + rest)
  }

  /** `if isinstance(r, SharedValue): r = shared_data[r.name]` (a flat key, no path walk;
      a missing name is a KeyError that propagates). */
  function Unwrap(shared: map<Key, Value>, r: Value): (u: Result<Value>)
    ensures !r.Shared? ==> u == Ok(r)
    ensures r.Shared? ==> (u.Ok? <==> NameKey(r.name) in shared)
    ensures r.Shared? && NameKey(r.name) in shared ==> u == Ok(shared[NameKey(r.name)])
    ensures r.Shared? && NameKey(r.name) !in shared ==> u == Err(KeyError)
  {
    if !r.Shared? then Ok(r)
    else if NameKey(r.name) in shared then Ok(shared[NameKey(r.name)])
    else Err(KeyError)
  }

  /** The targets of 'returns': the items of a list, or the single value. */
  function Targets(h: Heap, v: Value): seq<Value>
  {
    if v.Ptr? && v.id < |h| && h[v.id].List? then h[v.id].items else [v]
  }

  /** `v.name if isinstance(v, SharedValue) else v`, as a key of the shared data. */
  function TargetKey(h: Heap, t: Value): Result<Key>
  {
    if t.Shared? then Ok(NameKey(t.name)) else KeyOf(h, t)
  }

  /** Call the function, then bind the result under every 'returns' target. */
  function Apply(f: Value, args: seq<Value>, kw: seq<(Key, Value)>, es: seq<(Key, Value)>,
                 st: St, callee: Callee): (Result<Value>, St)
  {
    match FuncId(st.heap, f)
    case Err(e) => (Err(e), st)
    case Ok(fid) =>
      match KeywordNames(kw)
      case Err(e) => (Err(e), st)
      case Ok(names) =>
        var c := Invocation(fid, args, names);
        var o := callee(st.heap, c);
        var st1 := st.(heap := st.heap + o.made, calls := st.calls + [c]);
        match o.result
        case Err(e) => (Err(e), st1)
        case Ok(r0) =>
          match Unwrap(st1.shared, r0)
          case Err(e) => (Err(e), st1)
          case Ok(r) =>
            if FindReturns(es).Some? then Bind(Targets(st1.heap, FindReturns(es).value), 0, r, st1)
            else (Ok(r), st1)
  }

  function FindReturns(es: seq<(Key, Value)>): Option<Value>
  {
    Find(es, RETURNS)
  }

  /** The loop `for v in targets: shared_data[key(v)] = r` from target `i` on; an
      unhashable target raises TypeError and leaves the earlier bindings in place. */
  function Bind(ts: seq<Value>, i: nat, r: Value, st: St): (Result<Value>, St)
    requires i <= |ts|
    decreases |ts| - i
  {
    if i == |ts| then (Ok(r), st)
    else
      match TargetKey(st.heap, ts[i])
      case Err(e) => (Err(e), st)
      case Ok(k) => Bind(ts, i + 1, r, st.(shared := st.shared[k := r]))
  }
}
