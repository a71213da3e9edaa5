/** The legacy `call(data, sharedData)` as the program runs it: a caller object that owns
    the arena, the shared data (updated in place through the 'return' bindings) and the
    log of invocations. Every method is proved to compute exactly what the function of
    the same name in `LegacyCallSpec` describes, result and new state alike. */
module LegacyCall {
  import opened PyValues
  import opened SharedValues
  import C = CallDictSpec
  import Spec = LegacyCallSpec

  class Caller {
    var heap: Heap
    var shared: map<Key, Value>
    var calls: seq<Invocation>
    const callee: Callee

    function State(): Spec.St
      reads this
    {
      Spec.St(heap, shared, calls)
    }

    /** `sharedData` is an explicit argument here rather than a shared default dict. */
    constructor (h: Heap, sharedData: map<Key, Value>, callee: Callee)
      ensures State() == Spec.St(h, sharedData, []) && this.callee == callee
    {
      heap, shared, calls := h, sharedData, [];
      this.callee := callee;
    }

    /** One recursive `call(data, sharedData)`. */
    method Call(fuel: nat, v: Value) returns (r: Result<Value>)
      modifies this
      decreases fuel, 2
      ensures (r, State()) == Spec.Call(fuel, v, old(State()), callee)
    {
      if fuel == 0 {
        r := Err(RuntimeError);
      } else if C.IsCallable(heap, v) {
        r := Invoke(fuel, heap[v.id].entries);
      } else if v.Ptr? && v.id < |heap| && heap[v.id].Dict? {
        var pairs := CallEntries(fuel, heap[v.id].entries);
        if pairs.Err? {
          return Err(pairs.exc);
        }
        r := Ok(Ptr(|heap|));
        heap := heap + [Dict(FromPairs(pairs.value))];
      } else if v.Ptr? && v.id < |heap| && heap[v.id].List? {
        var items := CallItems(fuel, heap[v.id].items);
        if items.Err? {
          return Err(items.exc);
        }
        r := Ok(Ptr(|heap|));
        heap := heap + [List(items.value)];
      } else if v.Shared? {
        r := Spec.ResolveName(heap, shared, v.name);
      } else {
        r := Ok(v);
      }
    }

    method CallItems(fuel: nat, xs: seq<Value>) returns (r: Result<seq<Value>>)
      requires fuel >= 1
      modifies this
      decreases fuel, 0
      ensures (r, State()) == Spec.CallItems(fuel, xs, 0, [], old(State()), callee)
    {
      ghost var goal := Spec.CallItems(fuel, xs, 0, [], State(), callee);
      var acc := [];
      var i := 0;
      while i < |xs|
        invariant i <= |xs|
        invariant goal == Spec.CallItems(fuel, xs, i, acc, State(), callee)
      {
        var c := Call(fuel - 1, xs[i]);
        if c.Err? {
          return Err(c.exc);
        }
        acc := acc + [c.value];
        i := i + 1;
      }
      r := Ok(acc);
    }

    method CallEntries(fuel: nat, es: seq<(Key, Value)>) returns (r: Result<seq<(Key, Value)>>)
      requires fuel >= 1
      modifies this
      decreases fuel, 0
      ensures (r, State()) == Spec.CallEntries(fuel, es, 0, [], old(State()), callee)
    {
      ghost var goal := Spec.CallEntries(fuel, es, 0, [], State(), callee);
      var acc := [];
      var i := 0;
      while i < |es|
        invariant i <= |es|
        invariant goal == Spec.CallEntries(fuel, es, i, acc, State(), callee)
      {
        var c := Call(fuel - 1, es[i].1);
        if c.Err? {
          return Err(c.exc);
        }
        acc := acc + [(es[i].0, c.value)];
        i := i + 1;
      }
      r := Ok(acc);
    }

    /** An invocation dict: its args, kwargs and func evaluated on a copy, or taken raw. */
    method Invoke(fuel: nat, es: seq<(Key, Value)>) returns (r: Result<Value>)
      requires fuel >= 1
      modifies this
      decreases fuel, 1, 1
      ensures (r, State()) == Spec.Invoke(fuel, es, old(State()), callee)
    {
      if !Truthy(heap, C.Get(es, C.EVALUATE, Bool(true))) {
        var raw := Spec.RawArguments(heap, es);
        if raw.Err? {
          return Err(raw.exc);
        }
        r := Apply(C.Get(es, C.FUNC, NoneValue), raw.value.0, raw.value.1, es);
      } else {
        r := InvokeEvaluated(fuel, es);
      }
    }

    /** The branch with a true 'evaluate': args, kwargs and func are evaluated first. */
    method InvokeEvaluated(fuel: nat, es: seq<(Key, Value)>) returns (r: Result<Value>)
      requires fuel >= 1 && Truthy(heap, C.Get(es, C.EVALUATE, Bool(true)))
      modifies this
      decreases fuel, 1, 0
      ensures (r, State()) == Spec.Invoke(fuel, es, old(State()), callee)
    {
      var rawArgs := C.ArgsSource(heap, es);
      if rawArgs.Err? {
        return Err(rawArgs.exc);
      }
      var args := CallItems(fuel, rawArgs.value);
      if args.Err? {
        return Err(args.exc);
      }
      var rawKw := C.KwargsSource(heap, es);
      if rawKw.Err? {
        return Err(rawKw.exc);
      }
      var kw := CallEntries(fuel, rawKw.value);
      if kw.Err? {
        return Err(kw.exc);
      }
      var f := Call(fuel - 1, C.Get(es, C.FUNC, NoneValue));
      if f.Err? {
        return Err(f.exc);
      }
      r := Apply(f.value, args.value, FromPairs(kw.value), es);
    }

    /** `data['func'](*args, **kwargs)`, then the 'return' binding. */
    method Apply(f: Value, args: seq<Value>, kw: seq<(Key, Value)>, es: seq<(Key, Value)>)
      returns (r: Result<Value>)
      modifies this
      ensures (r, State()) == Spec.Apply(f, args, kw, es, old(State()), callee)
    {
      var fid := C.FuncId(heap, f);
      if fid.Err? {
        return Err(fid.exc);
      }
      var names := C.KeywordNames(kw);
      if names.Err? {
        return Err(names.exc);
      }
      var c := Invocation(fid.value, args, names.value);
      var o := callee(heap, c);
      heap := heap + o.made;
      calls := calls + [c];
      r := o.result;
      if r.Err? {
        return;
      }
      var target := Find(es, Spec.RETURN);
      if target.Some? {
        var k := C.TargetKey(heap, target.value);
        if k.Err? {
          return Err(k.exc);
        }
        shared := shared[k.value := r.value];
      }
    }
  }
}
