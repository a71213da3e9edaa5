/** `calldict.eval` as the program runs it: an evaluator object that owns the arena, the
    shared data, the identity memo and the log of invocations, and updates them in place.
    Every method is proved to compute exactly what the function of the same name in
    `CallDictSpec` describes, result and new state alike. */
module CallDict {
  import opened PyValues
  import opened SharedValues
  import opened VisitOrder
  import Spec = CallDictSpec
  import Cn = Containment
  import CallDictContainment

  class Evaluator {
    var heap: Heap
    var shared: map<Key, Value>
    var memo: map<nat, nat>
    var calls: seq<Invocation>
    const callee: Callee

    function State(): Spec.St
      reads this
    {
      Spec.St(heap, shared, memo, calls)
    }

    constructor (h: Heap, data: map<Key, Value>, callee: Callee)
      ensures State() == Spec.St(h, data, map[], []) && this.callee == callee
    {
      heap, shared, memo, calls := h, data, map[], [];
      this.callee := callee;
    }

    /** `eval(data, shared_data)`: a top-level call starts with an empty memo. On a closed
        arena, with functions that return only objects of it or objects they made, the
        arena stays closed and the result is one of its values. */
    method Run(depth: nat, data: Value) returns (r: Result<Value>)
      modifies this
      ensures (r, State()) == Spec.Eval(depth, data, old(State()).(memo := map[]), callee)
      ensures Cn.ContainedCallee(callee) && Cn.SelfContained(old(heap)) &&
              Cn.SharedBelow(old(shared), |old(heap)|) && Cn.ValueBelow(data, |old(heap)|) ==>
                Cn.SelfContained(heap) && Cn.SharedBelow(shared, |heap|) &&
                (r.Ok? ==> Cn.ValueBelow(r.value, |heap|))
    {
      memo := map[];
      r := Eval(depth, data);
      if Cn.ContainedCallee(callee) && Cn.SelfContained(old(heap)) &&
         Cn.SharedBelow(old(shared), |old(heap)|) && Cn.ValueBelow(data, |old(heap)|) {
        CallDictContainment.EvalKeepsArenaClosed(depth, data, old(heap), old(shared), old(calls), callee);
      }
    }

    /** One recursive `eval(data, shared_data, memo)`. */
    method Eval(fuel: nat, v: Value) returns (r: Result<Value>)
      modifies this
      decreases fuel, 3
      ensures (r, State()) == Spec.Eval(fuel, v, old(State()), callee)
    {
      if fuel == 0 {
        r := Err(RecursionError);
      } else if Spec.IsCallable(heap, v) {
        r := Invoke(fuel, heap[v.id].entries);
      } else if Spec.IsPlain(heap, v) {
        r := EvalContainer(fuel, v.id);
      } else if v.Shared? {
        r := Resolve(heap, shared, v.name);
      } else {
        r := Ok(v);
      }
    }

    /** A plain dict or list: registered in the memo before its children are visited. */
    method EvalContainer(fuel: nat, id: nat) returns (r: Result<Value>)
      requires fuel >= 1 && Spec.IsPlain(heap, Ptr(id))
      modifies this
      decreases fuel, 2
      ensures (r, State()) == Spec.EvalContainer(fuel, id, old(State()), callee)
    {
      if id in memo {
        return Ok(Ptr(memo[id]));
      }
      var src := heap[id];
      var y := |heap|;
      heap := heap + [Spec.Shell(src)];
      memo := memo[id := y];
      var order := SortByRank(heap, Spec.Children(src));
      var done := Fill(fuel, y, order);
      r := if done.Ok? then Ok(Ptr(y)) else Err(done.exc);
    }

    /** The loop over the children in visiting order, storing each result in `y`. */
    method Fill(fuel: nat, y: nat, kids: seq<(Key, Value)>) returns (r: Result<()>)
      requires fuel >= 1
      modifies this
      decreases fuel, 1
      ensures (r, State()) == Spec.Fill(fuel, y, kids, 0, old(State()), callee)
    {
      ghost var goal := Spec.Fill(fuel, y, kids, 0, State(), callee);
      var i := 0;
      while i < |kids|
        invariant i <= |kids|
        invariant goal == Spec.Fill(fuel, y, kids, i, State(), callee)
      {
        ghost var before := State();
        var c := Eval(fuel - 1, kids[i].1);
        if c.Err? {
          return Err(c.exc);
        }
        ghost var next := State().(heap := Put(heap, y, kids[i].0, c.value));
        assert Spec.Fill(fuel, y, kids, i, before, callee) == Spec.Fill(fuel, y, kids, i + 1, next, callee);
        heap := Put(heap, y, kids[i].0, c.value);
        i := i + 1;
      }
      r := Ok(());
    }

    /** An invocation dict: deferred, or evaluated and called. */
    method Invoke(fuel: nat, es: seq<(Key, Value)>) returns (r: Result<Value>)
      requires fuel >= 1
      modifies this
      decreases fuel, 2
      ensures (r, State()) == Spec.Invoke(fuel, es, old(State()), callee)
    {
      if !Truthy(heap, Spec.Get(es, Spec.EVALUATE, Bool(true))) {
        r := Ok(Ptr(|heap|));
        heap := heap + [Dict(Without(es, Spec.EVALUATE))];
      } else {
        r := InvokeNow(fuel, es);
      }
    }

    /** Evaluate on a copy: args in order, then kwargs, then func; then call. */
    method InvokeNow(fuel: nat, es: seq<(Key, Value)>) returns (r: Result<Value>)
      requires fuel >= 1
      modifies this
      decreases fuel, 1, 3
      ensures (r, State()) == Spec.InvokeNow(fuel, es, old(State()), callee)
    {
      var rawArgs := Spec.ArgsSource(heap, es);
      if rawArgs.Err? {
        return Err(rawArgs.exc);
      }
      var args := EvalArgs(fuel, rawArgs.value);
      if args.Err? {
        return Err(args.exc);
      }
      r := InvokeWith(fuel, es, args.value);
    }

    method InvokeWith(fuel: nat, es: seq<(Key, Value)>, args: seq<Value>) returns (r: Result<Value>)
      requires fuel >= 1
      modifies this
      decreases fuel, 1, 2
      ensures (r, State()) == Spec.InvokeWith(fuel, es, args, old(State()), callee)
    {
      var rawKw := Spec.KwargsSource(heap, es);
      if rawKw.Err? {
        return Err(rawKw.exc);
      }
      var kw := EvalKwargs(fuel, rawKw.value);
      if kw.Err? {
        return Err(kw.exc);
      }
      var f := Eval(fuel - 1, Spec.Get(es, Spec.FUNC, NoneValue));
      if f.Err? {
        return Err(f.exc);
      }
      r := Apply(f.value, args, FromPairs(kw.value), es);
    }

    method EvalArgs(fuel: nat, raw: seq<Value>) returns (r: Result<seq<Value>>)
      requires fuel >= 1
      modifies this
      decreases fuel, 1, 1
      ensures (r, State()) == Spec.EvalArgs(fuel, raw, 0, [], old(State()), callee)
    {
      ghost var goal := Spec.EvalArgs(fuel, raw, 0, [], State(), callee);
      var acc := [];
      var i := 0;
      while i < |raw|
        invariant i <= |raw|
        invariant goal == Spec.EvalArgs(fuel, raw, i, acc, State(), callee)
      {
        var c := Eval(fuel - 1, raw[i]);
        if c.Err? {
          return Err(c.exc);
        }
        acc := acc + [c.value];
        i := i + 1;
      }
      r := Ok(acc);
    }

    method EvalKwargs(fuel: nat, raw: seq<(Key, Value)>) returns (r: Result<seq<(Key, Value)>>)
      requires fuel >= 1
      modifies this
      decreases fuel, 1, 1
      ensures (r, State()) == Spec.EvalKwargs(fuel, raw, 0, [], old(State()), callee)
    {
      ghost var goal := Spec.EvalKwargs(fuel, raw, 0, [], State(), callee);
      var acc := [];
      var i := 0;
      while i < |raw|
        invariant i <= |raw|
        invariant goal == Spec.EvalKwargs(fuel, raw, i, acc, State(), callee)
      {
        var c := Eval(fuel - 1, raw[i].1);
        if c.Err? {
          return Err(c.exc);
        }
        acc := acc + [(raw[i].0, c.value)];
        i := i + 1;
      }
      r := Ok(acc);
    }

    /** `func(*args, **kwargs)`, then the SharedValue result lookup and the 'returns'
        bindings. */
    method Apply(f: Value, args: seq<Value>, kw: seq<(Key, Value)>, es: seq<(Key, Value)>)
      returns (r: Result<Value>)
      modifies this
      ensures (r, State()) == Spec.Apply(f, args, kw, es, old(State()), callee)
    {
      var fid := Spec.FuncId(heap, f);
      if fid.Err? {
        return Err(fid.exc);
      }
      var names := Spec.KeywordNames(kw);
      if names.Err? {
        return Err(names.exc);
      }
      var c := Invocation(fid.value, args, names.value);
      var o := callee(heap, c);
      heap := heap + o.made;
      calls := calls + [c];
      if o.result.Err? {
        return Err(o.result.exc);
      }
      var u := Spec.Unwrap(shared, o.result.value);
      if u.Err? {
        return u;
      }
      var ret := Spec.FindReturns(es);
      if ret.None? {
        return u;
      }
      r := Bind(Spec.Targets(heap, ret.value), u.value);
    }

    /** `shared_data[key] = r` for every target, in order. */
    method Bind(ts: seq<Value>, v: Value) returns (r: Result<Value>)
      modifies this
      ensures (r, State()) == Spec.Bind(ts, 0, v, old(State()))
    {
      ghost var goal := Spec.Bind(ts, 0, v, State());
      var i := 0;
      while i < |ts|
        invariant i <= |ts|
        invariant goal == Spec.Bind(ts, i, v, State())
      {
        var k := Spec.TargetKey(heap, ts[i]);
        if k.Err? {
          return Err(k.exc);
        }
        shared := shared[k.value := v];
        i := i + 1;
      }
      r := Ok(v);
    }
  }
}
