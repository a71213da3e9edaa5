/** Properties of `eval`: it never changes the input structure, it builds the output
    graph with the input's shape, aliases and cycles, it evaluates each plain container
    once per top-level call, and it finishes on any cyclic input of plain containers. */
module CallDictProps {
  import opened PyValues
  import opened SharedValues
  import opened VisitOrder
  import opened CallDictSpec

  /** `b` comes after `a`: objects are only appended, except that slot `y` may be
      rewritten; memo entries are only added; calls are only appended. */
  predicate Grows(a: St, b: St, y: nat)
  {
    && |a.heap| <= |b.heap|
    && (forall j :: 0 <= j < |a.heap| && j != y ==> b.heap[j] == a.heap[j])
    && (forall k :: k in a.memo ==> k in b.memo && b.memo[k] == a.memo[k])
    && a.calls <= b.calls
  }

  /** `b` comes after `a` and every object of `a` is untouched. */
  predicate Extends(a: St, b: St)
  {
    Grows(a, b, |a.heap|)
  }

  // ---------------------------------------------------------------------------------
  // Evaluation only adds to the state.

  lemma {:induction false} EvalExtends(fuel: nat, v: Value, st: St, callee: Callee)
    ensures Extends(st, Eval(fuel, v, st, callee).1)
    decreases fuel, 3
  {
    if fuel == 0 {
    } else if IsCallable(st.heap, v) {
      InvokeExtends(fuel, st.heap[v.id].entries, st, callee);
    } else if IsPlain(st.heap, v) {
      ContainerExtends(fuel, v.id, st, callee);
    }
  }

  lemma {:induction false} ContainerExtends(fuel: nat, id: nat, st: St, callee: Callee)
    requires fuel >= 1 && IsPlain(st.heap, Ptr(id))
    ensures Extends(st, EvalContainer(fuel, id, st, callee).1)
    decreases fuel, 2
  {
    if id !in st.memo {
      var y := |st.heap|;
      var st1 := st.(heap := st.heap + [Shell(st.heap[id])], memo := st.memo[id := y]);
      var order := SortByRank(st1.heap, Children(st.heap[id]));
      FillGrows(fuel, y, order, 0, st1, callee);
    }
  }

  lemma {:induction false} FillGrows(fuel: nat, y: nat, kids: seq<(Key, Value)>, i: nat,
                                     st: St, callee: Callee)
    requires fuel >= 1 && i <= |kids|
    ensures Grows(st, Fill(fuel, y, kids, i, st, callee).1, y)
    decreases fuel, 1, |kids| - i
  {
    if i < |kids| {
      var (r, st1) := Eval(fuel - 1, kids[i].1, st, callee);
      EvalExtends(fuel - 1, kids[i].1, st, callee);
      if r.Ok? {
        var st2 := st1.(heap := Put(st1.heap, y, kids[i].0, r.value));
        FillGrows(fuel, y, kids, i + 1, st2, callee);
      }
    }
  }

  lemma {:induction false} InvokeExtends(fuel: nat, es: seq<(Key, Value)>, st: St, callee: Callee)
    requires fuel >= 1
    ensures Extends(st, Invoke(fuel, es, st, callee).1)
    decreases fuel, 2
  {
    if Truthy(st.heap, Get(es, EVALUATE, Bool(true))) {
      InvokeNowExtends(fuel, es, st, callee);
    }
  }

  lemma {:induction false} InvokeNowExtends(fuel: nat, es: seq<(Key, Value)>, st: St,
                                            callee: Callee)
    requires fuel >= 1
    ensures Extends(st, InvokeNow(fuel, es, st, callee).1)
    decreases fuel, 1, 3
  {
    match ArgsSource(st.heap, es)
    case Err(_) =>
    case Ok(rawArgs) =>
      var (args, st1) := EvalArgs(fuel, rawArgs, 0, [], st, callee);
      ArgsExtends(fuel, rawArgs, 0, [], st, callee);
      if args.Ok? {
        InvokeWithExtends(fuel, es, args.value, st1, callee);
      }
  }

  lemma {:induction false} InvokeWithExtends(fuel: nat, es: seq<(Key, Value)>, args: seq<Value>,
                                             st: St, callee: Callee)
    requires fuel >= 1
    ensures Extends(st, InvokeWith(fuel, es, args, st, callee).1)
    decreases fuel, 1, 2
  {
    match KwargsSource(st.heap, es)
    case Err(_) =>
    case Ok(rawKw) =>
      var (kw, st1) := EvalKwargs(fuel, rawKw, 0, [], st, callee);
      KwargsExtends(fuel, rawKw, 0, [], st, callee);
      if kw.Ok? {
        var (f, st2) := Eval(fuel - 1, Get(es, FUNC, NoneValue), st1, callee);
        EvalExtends(fuel - 1, Get(es, FUNC, NoneValue), st1, callee);
        if f.Ok? {
          ApplyExtends(f.value, args, FromPairs(kw.value), es, st2, callee);
        }
      }
  }

  lemma {:induction false} ArgsExtends(fuel: nat, raw: seq<Value>, i: nat, acc: seq<Value>,
                                       st: St, callee: Callee)
    requires fuel >= 1 && i <= |raw|
    ensures Extends(st, EvalArgs(fuel, raw, i, acc, st, callee).1)
    decreases fuel, 1, 1, |raw| - i
  {
    if i < |raw| {
      var (r, st1) := Eval(fuel - 1, raw[i], st, callee);
      EvalExtends(fuel - 1, raw[i], st, callee);
      if r.Ok? {
        ArgsExtends(fuel, raw, i + 1, acc + [r.value], st1, callee);
      }
    }
  }

  lemma {:induction false} KwargsExtends(fuel: nat, raw: seq<(Key, Value)>, i: nat,
                                         acc: seq<(Key, Value)>, st: St, callee: Callee)
    requires fuel >= 1 && i <= |raw|
    ensures Extends(st, EvalKwargs(fuel, raw, i, acc, st, callee).1)
    decreases fuel, 1, 1, |raw| - i
  {
    if i < |raw| {
      var (r, st1) := Eval(fuel - 1, raw[i].1, st, callee);
      EvalExtends(fuel - 1, raw[i].1, st, callee);
      if r.Ok? {
        KwargsExtends(fuel, raw, i + 1, acc + [(raw[i].0, r.value)], st1, callee);
      }
    }
  }

  lemma ApplyExtends(f: Value, args: seq<Value>, kw: seq<(Key, Value)>, es: seq<(Key, Value)>,
                     st: St, callee: Callee)
    ensures Extends(st, Apply(f, args, kw, es, st, callee).1)
  {
    match FuncId(st.heap, f)
    case Err(_) =>
    case Ok(fid) =>
      match KeywordNames(kw)
      case Err(_) =>
      case Ok(names) =>
        var c := Invocation(fid, args, names);
        var o := callee(st.heap, c);
        var st1 := st.(heap := st.heap + o.made, calls := st.calls + [c]);
        match o.result
        case Err(_) =>
        case Ok(r0) =>
          match Unwrap(st1.shared, r0)
          case Err(_) =>
          case Ok(r) =>
            if FindReturns(es).Some? {
              BindOnlyShared(Targets(st1.heap, FindReturns(es).value), 0, r, st1);
            }
  }

  /** Binding the result touches the shared data and nothing else. */
  lemma {:induction false} BindOnlyShared(ts: seq<Value>, i: nat, r: Value, st: St)
    requires i <= |ts|
    ensures Bind(ts, i, r, st).1 == st.(shared := Bind(ts, i, r, st).1.shared)
    decreases |ts| - i
  {
    if i < |ts| {
      match TargetKey(st.heap, ts[i])
      case Err(_) =>
      case Ok(k) => BindOnlyShared(ts, i + 1, r, st.(shared := st.shared[k := r]));
    }
  }

  /** `eval` leaves every object it was given as it was: the output is built beside it. */
  lemma InputUnchanged(fuel: nat, v: Value, st: St, callee: Callee)
    ensures var st' := Eval(fuel, v, st, callee).1;
            |st.heap| <= |st'.heap| && st'.heap[..|st.heap|] == st.heap
  {
    EvalExtends(fuel, v, st, callee);
  }

  // ---------------------------------------------------------------------------------
  // The output container, entry by entry.

  /** The entry of a dict or list under key `k`: `o[k]` when it exists. */
  function Slot(o: Obj, k: Key): Option<Value>
  {
    match o
    case Dict(es) => Find(es, k)
    case List(xs) => if k.KInt? && 0 <= k.i < |xs| then Some(xs[k.i]) else None
    case _ => None
  }

  /** `y[k] = v` stores under `k`: any key of a dict, an in-range index of a list. */
  predicate Writable(o: Obj, k: Key)
  {
    o.Dict? || (o.List? && k.KInt? && 0 <= k.i < |o.items|)
  }

  lemma PutSlot(h: Heap, y: nat, k: Key, v: Value, k': Key)
    requires y < |h|
    ensures Slot(Put(h, y, k, v)[y], k') ==
              if k' == k && Writable(h[y], k) then Some(v) else Slot(h[y], k')
    ensures Writable(Put(h, y, k, v)[y], k') == Writable(h[y], k')
  {
    if h[y].Dict? {
      StoreFind(h[y].entries, k, v);
    }
  }

  /** A value that `eval` hands back as it is: not a SharedValue and not a dict or list
      (an object must already be in the arena). */
  predicate Inert(h: Heap, v: Value)
  {
    !v.Shared? && (v.Ptr? ==> v.id < |h| && !h[v.id].Dict? && !h[v.id].List?)
  }

  /** What evaluating `v` yields at once, without touching the state, when that is known:
      an inert value itself, or the output already registered for a visited container. */
  function Settled(st: St, v: Value): Option<Value>
  {
    if IsPlain(st.heap, v) && v.id in st.memo then Some(Ptr(st.memo[v.id]))
    else if Inert(st.heap, v) then Some(v)
    else None
  }

  lemma EvalSettled(fuel: nat, v: Value, st: St, callee: Callee)
    requires fuel >= 1 && Settled(st, v).Some?
    ensures Eval(fuel, v, st, callee) == (Ok(Settled(st, v).value), st)
  {
  }

  lemma SettledStays(a: St, b: St, y: nat, v: Value)
    requires Grows(a, b, y) && Settled(a, v).Some?
    requires v.Ptr? ==> v.id != y
    ensures Settled(b, v) == Settled(a, v)
  {
  }

  /** One step of the fill loop: visit child `i`, store its output, go on with `i + 1`. */
  lemma FillStep(fuel: nat, y: nat, kids: seq<(Key, Value)>, i: nat, st: St, callee: Callee)
    returns (r: Result<Value>, st1: St, st2: St)
    requires fuel >= 1 && i < |kids|
    ensures (r, st1) == Eval(fuel - 1, kids[i].1, st, callee)
    ensures Extends(st, st1)
    ensures r.Ok? ==> st2 == st1.(heap := Put(st1.heap, y, kids[i].0, r.value))
    ensures Fill(fuel, y, kids, i, st, callee) ==
              if r.Err? then (Err(r.exc), st1) else Fill(fuel, y, kids, i + 1, st2, callee)
  {
    r, st1 := Eval(fuel - 1, kids[i].1, st, callee).0, Eval(fuel - 1, kids[i].1, st, callee).1;
    EvalExtends(fuel - 1, kids[i].1, st, callee);
    st2 := if r.Ok? then st1.(heap := Put(st1.heap, y, kids[i].0, r.value)) else st1;
  }

  /** Children under other keys never touch the entry for `k`. */
  lemma {:induction false} FillKeeps(fuel: nat, y: nat, kids: seq<(Key, Value)>, i: nat,
                                     st: St, callee: Callee, k: Key)
    requires fuel >= 1 && i <= |kids| && y < |st.heap|
    requires forall m :: i <= m < |kids| ==> kids[m].0 != k
    ensures var st' := Fill(fuel, y, kids, i, st, callee).1;
            y < |st'.heap| && Slot(st'.heap[y], k) == Slot(st.heap[y], k)
    decreases |kids| - i
  {
    if i < |kids| {
      var r, st1, st2 := FillStep(fuel, y, kids, i, st, callee);
      if r.Ok? {
        PutSlot(st1.heap, y, kids[i].0, r.value, k);
        FillKeeps(fuel, y, kids, i + 1, st2, callee, k);
      }
    }
  }

  /** Dicts stay dicts and lists keep their length while they are filled. */
  lemma {:induction false} FillKeepsShape(fuel: nat, y: nat, kids: seq<(Key, Value)>, i: nat,
                                          st: St, callee: Callee)
    requires fuel >= 1 && i <= |kids| && y < |st.heap|
    ensures var st' := Fill(fuel, y, kids, i, st, callee).1;
            y < |st'.heap| && (st'.heap[y].Dict? <==> st.heap[y].Dict?) &&
            (st'.heap[y].List? <==> st.heap[y].List?) &&
            (st.heap[y].List? ==> |st'.heap[y].items| == |st.heap[y].items|)
    decreases |kids| - i
  {
    if i < |kids| {
      var r, st1, st2 := FillStep(fuel, y, kids, i, st, callee);
      if r.Ok? {
        FillKeepsShape(fuel, y, kids, i + 1, st2, callee);
      }
    }
  }

  /** After a complete fill, a dict holds its earlier keys and the keys of the children. */
  lemma {:induction false} FillKeys(fuel: nat, y: nat, kids: seq<(Key, Value)>, i: nat,
                                    st: St, callee: Callee)
    requires fuel >= 1 && i <= |kids| && y < |st.heap| && st.heap[y].Dict?
    ensures var (r, st') := Fill(fuel, y, kids, i, st, callee);
            r.Ok? ==> y < |st'.heap| && st'.heap[y].Dict? &&
                      forall k :: k in Keys(st'.heap[y].entries) <==>
                                  k in Keys(st.heap[y].entries) || k in Keys(kids[i..])
    decreases |kids| - i
  {
    if i < |kids| {
      var r, st1, st2 := FillStep(fuel, y, kids, i, st, callee);
      if r.Ok? {
        FillKeys(fuel, y, kids, i + 1, st2, callee);
        assert Keys(kids[i..]) == [kids[i].0] + Keys(kids[i + 1..]);
        var e1, e2 := st1.heap[y].entries, st2.heap[y].entries;
        assert e1 == st.heap[y].entries;
        assert e2 == Store(e1, kids[i].0, r.value);
        StoreKeys(e1, kids[i].0, r.value);
      }
    } else {
      assert kids[i..] == [];
    }
  }

  /** A child whose evaluation is already settled ends up in the output under its key,
      provided no later child has the same key. */
  lemma {:induction false} FillSettled(fuel: nat, y: nat, kids: seq<(Key, Value)>, i: nat,
                                       st: St, callee: Callee, j: nat)
    requires fuel >= 2 && i <= j < |kids| && y < |st.heap|
    requires Settled(st, kids[j].1).Some?
    requires kids[j].1.Ptr? ==> kids[j].1.id != y
    requires Writable(st.heap[y], kids[j].0)
    requires forall m :: j < m < |kids| ==> kids[m].0 != kids[j].0
    ensures var (r, st') := Fill(fuel, y, kids, i, st, callee);
            r.Ok? ==> y < |st'.heap| && Slot(st'.heap[y], kids[j].0) == Settled(st, kids[j].1)
    decreases |kids| - i
  {
    var r, st1, st2 := FillStep(fuel, y, kids, i, st, callee);
    if r.Ok? {
      PutSlot(st1.heap, y, kids[i].0, r.value, kids[j].0);
      if i < j {
        assert Grows(st, st2, y);
        SettledStays(st, st2, y, kids[j].1);
        FillSettled(fuel, y, kids, i + 1, st2, callee, j);
      } else {
        EvalSettled(fuel - 1, kids[j].1, st, callee);
        FillKeeps(fuel, y, kids, i + 1, st2, callee, kids[j].0);
      }
    }
  }

  /** The state the fill loop is in when it reaches child `j`, having started at child
      `i` in `st`. */
  function VisitState(fuel: nat, y: nat, kids: seq<(Key, Value)>, i: nat, st: St,
                      callee: Callee, j: nat): St
    requires fuel >= 1 && i <= j <= |kids|
    decreases j - i
  {
    if i == j then st
    else
      var (r, st1) := Eval(fuel - 1, kids[i].1, st, callee);
      if r.Err? then st1
      else VisitState(fuel, y, kids, i + 1, st1.(heap := Put(st1.heap, y, kids[i].0, r.value)),
                      callee, j)
  }

  /** After a complete fill, the entry under the key of child `j` (no later child having
      that key) is what evaluating that child gave in the state the loop reached it in. */
  lemma {:induction false} FillEntry(fuel: nat, y: nat, kids: seq<(Key, Value)>, i: nat,
                                     st: St, callee: Callee, j: nat)
    requires fuel >= 1 && i <= j < |kids| && y < |st.heap|
    requires Writable(st.heap[y], kids[j].0)
    requires forall m :: j < m < |kids| ==> kids[m].0 != kids[j].0
    ensures var (r, st') := Fill(fuel, y, kids, i, st, callee);
            r.Ok? ==> y < |st'.heap| && Slot(st'.heap[y], kids[j].0).Some? &&
                      Eval(fuel - 1, kids[j].1, VisitState(fuel, y, kids, i, st, callee, j), callee).0
                        == Ok(Slot(st'.heap[y], kids[j].0).value)
    decreases |kids| - i
  {
    var r, st1, st2 := FillStep(fuel, y, kids, i, st, callee);
    if r.Ok? {
      PutSlot(st1.heap, y, kids[i].0, r.value, kids[j].0);
      if i < j {
        FillEntry(fuel, y, kids, i + 1, st2, callee, j);
      } else {
        FillKeeps(fuel, y, kids, i + 1, st2, callee, kids[j].0);
      }
    }
  }

  /** The last child with key `k`. */
  lemma {:induction false} LastWithKey(kids: seq<(Key, Value)>, k: Key) returns (j: nat)
    requires k in Keys(kids)
    ensures j < |kids| && kids[j].0 == k
    ensures forall m :: j < m < |kids| ==> kids[m].0 != k
    decreases |kids|
  {
    var last := |kids| - 1;
    if kids[last].0 == k {
      j := last;
    } else {
      var init := kids[..last];
      assert k in Keys(init) by {
        var m :| 0 <= m < |kids| && Keys(kids)[m] == k;
        assert m != last && Keys(init)[m] == k;
      }
      j := LastWithKey(init, k);
    }
  }

  // ---------------------------------------------------------------------------------
  // The output of one plain container.

  /** A plain dict or list visited for the first time yields a fresh object, registered
      in the memo, of the same kind: a dict with exactly the input's keys, or a list of
      the same length. */
  lemma ContainerOutput(fuel: nat, id: nat, st: St, callee: Callee)
    requires fuel >= 1 && IsPlain(st.heap, Ptr(id)) && id !in st.memo
    ensures var (r, st') := EvalContainer(fuel, id, st, callee);
            var y := |st.heap|;
            r.Ok? ==>
              && r.value == Ptr(y) && y < |st'.heap| && id in st'.memo && st'.memo[id] == y
              && (st.heap[id].Dict? ==>
                    st'.heap[y].Dict? &&
                    forall k :: k in Keys(st'.heap[y].entries) <==> k in Keys(st.heap[id].entries))
              && (st.heap[id].List? ==>
                    st'.heap[y].List? && |st'.heap[y].items| == |st.heap[id].items|)
  {
    var y := |st.heap|;
    var st1 := st.(heap := st.heap + [Shell(st.heap[id])], memo := st.memo[id := y]);
    var order := SortByRank(st1.heap, Children(st.heap[id]));
    FillGrows(fuel, y, order, 0, st1, callee);
    FillKeepsShape(fuel, y, order, 0, st1, callee);
    if st.heap[id].Dict? {
      FillKeys(fuel, y, order, 0, st1, callee);
      VisitOrderKeys(st1.heap, Children(st.heap[id]));
      assert order[0..] == order;
      assert Keys(st1.heap[y].entries) == [];
    }
  }

  /** The first steps of `EvalContainer` on an unvisited container with the child
      `(k, v)`: the shell appended at `y`, the memo entry, the visiting order, and the last
      position `j` of the child in that order. */
  lemma ContainerStart(fuel: nat, id: nat, st: St, callee: Callee, k: Key, v: Value)
    returns (st1: St, order: seq<(Key, Value)>, j: nat)
    requires fuel >= 1 && IsPlain(st.heap, Ptr(id)) && id !in st.memo
    requires UniqueKeys(Children(st.heap[id])) && (k, v) in Children(st.heap[id])
    ensures st1 == st.(heap := st.heap + [Shell(st.heap[id])], memo := st.memo[id := |st.heap|])
    ensures st1.heap[..|st.heap|] == st.heap && Writable(st1.heap[|st.heap|], k)
    ensures order == SortByRank(st1.heap, Children(st.heap[id]))
    ensures j < |order| && order[j] == (k, v)
    ensures forall m :: j < m < |order| ==> order[m].0 != k
    ensures var (done, st2) := Fill(fuel, |st.heap|, order, 0, st1, callee);
            EvalContainer(fuel, id, st, callee) ==
              (if done.Ok? then Ok(Ptr(|st.heap|)) else Err(done.exc), st2)
  {
    var src := st.heap[id];
    var y := |st.heap|;
    st1 := st.(heap := st.heap + [Shell(src)], memo := st.memo[id := y]);
    order := SortByRank(st1.heap, Children(src));
    j := LastVisitOf(st1.heap, Children(src), k, v);
    assert Writable(st1.heap[y], k) by {
      if src.List? {
        var a :| 0 <= a < |src.items| && Enumerate(src.items)[a] == (k, v);
      }
    }
    assert st1.heap[..y] == st.heap;
  }

  /** A child that needs no work (a scalar, a record-like object or function, the container
      itself, or a container already visited) appears in the output under its own key as
      the value it stands for: itself, the new output, or the earlier output. */
  lemma ContainerChild(fuel: nat, id: nat, st: St, callee: Callee, k: Key, v: Value)
    requires fuel >= 2 && IsPlain(st.heap, Ptr(id)) && id !in st.memo
    requires UniqueKeys(Children(st.heap[id])) && (k, v) in Children(st.heap[id])
    requires Inert(st.heap, v) || v == Ptr(id) || (IsPlain(st.heap, v) && v.id in st.memo)
    ensures var (r, st') := EvalContainer(fuel, id, st, callee);
            r.Ok? ==>
              |st.heap| < |st'.heap| &&
              Slot(st'.heap[|st.heap|], k) ==
                Some(if v == Ptr(id) then Ptr(|st.heap|)
                     else if Inert(st.heap, v) then v
                     else Ptr(st.memo[v.id]))
  {
    var y := |st.heap|;
    var st1, order, j := ContainerStart(fuel, id, st, callee, k, v);
    assert Settled(st1, v) ==
             Some(if v == Ptr(id) then Ptr(y) else if Inert(st.heap, v) then v else Ptr(st.memo[v.id]));
    FillSettled(fuel, y, order, 0, st1, callee, j);
    FillGrows(fuel, y, order, 0, st1, callee);
  }

  lemma {:induction false} VisitStateGrows(fuel: nat, y: nat, kids: seq<(Key, Value)>, i: nat,
                                           st: St, callee: Callee, j: nat)
    requires fuel >= 1 && i <= j <= |kids|
    ensures Grows(st, VisitState(fuel, y, kids, i, st, callee, j), y)
    decreases j - i
  {
    if i < j {
      var r, st1, st2 := FillStep(fuel, y, kids, i, st, callee);
      if r.Ok? {
        VisitStateGrows(fuel, y, kids, i + 1, st2, callee, j);
      }
    }
  }

  /** Every child of a plain dict or list (keys unique) appears in the output under its
      key as the evaluation of that child in the state the fill loop reached it in: the
      shell appended at `y` and registered in the memo, then the children before it in
      visiting order evaluated and stored. Its position `j` is the last one in that order
      holding its key, so it is determined. That state leaves the input unchanged. */
  lemma ContainerEntry(fuel: nat, id: nat, st: St, callee: Callee, k: Key, v: Value)
    requires fuel >= 1 && IsPlain(st.heap, Ptr(id)) && id !in st.memo
    requires UniqueKeys(Children(st.heap[id])) && (k, v) in Children(st.heap[id])
    ensures var (r, st') := EvalContainer(fuel, id, st, callee);
            var y := |st.heap|;
            var st1 := st.(heap := st.heap + [Shell(st.heap[id])], memo := st.memo[id := y]);
            var order := SortByRank(st1.heap, Children(st.heap[id]));
            r.Ok? ==>
              y < |st'.heap| && Slot(st'.heap[y], k).Some? &&
              exists j :: && 0 <= j < |order| && order[j] == (k, v)
                          && (forall m :: j < m < |order| ==> order[m].0 != k)
                          && var s := VisitState(fuel, y, order, 0, st1, callee, j);
                             && |st.heap| <= |s.heap| && s.heap[..|st.heap|] == st.heap
                             && id in s.memo && s.memo[id] == y
                             && Eval(fuel - 1, v, s, callee).0 == Ok(Slot(st'.heap[y], k).value)
  {
    var y := |st.heap|;
    var st1, order, j := ContainerStart(fuel, id, st, callee, k, v);
    var (done, st2) := Fill(fuel, y, order, 0, st1, callee);
    if done.Ok? {
      FillEntry(fuel, y, order, 0, st1, callee, j);
      var s := VisitState(fuel, y, order, 0, st1, callee, j);
      VisitStateGrows(fuel, y, order, 0, st1, callee, j);
      assert s.heap[..|st.heap|] == st.heap by {
        forall m | 0 <= m < |st.heap| ensures s.heap[m] == st.heap[m] {
          assert st1.heap[m] == st.heap[m];
        }
      }
      assert id in s.memo && s.memo[id] == y;
      assert Eval(fuel - 1, v, s, callee).0 == Ok(Slot(st2.heap[y], k).value);
    }
  }

  /** In the visiting order, the child `(k, v)` of a dict or list with unique keys is the
      last one with key `k`. */
  lemma LastVisitOf(h: Heap, kids: seq<(Key, Value)>, k: Key, v: Value) returns (j: nat)
    requires UniqueKeys(kids) && (k, v) in kids
    ensures j < |SortByRank(h, kids)| && SortByRank(h, kids)[j] == (k, v)
    ensures forall m :: j < m < |SortByRank(h, kids)| ==> SortByRank(h, kids)[m].0 != k
  {
    var order := SortByRank(h, kids);
    var a :| 0 <= a < |kids| && kids[a] == (k, v);
    assert Keys(kids)[a] == k;
    VisitOrderKeys(h, kids);
    j := LastWithKey(order, k);
    VisitedAreChildren(h, kids, order[j]);
    var b :| 0 <= b < |kids| && kids[b] == order[j];
    assert a == b;
  }

  /** A list or dict that holds itself: the output holds the output, so `eval` copies a
      cycle into a cycle. */
  lemma SelfReferencePreserved(fuel: nat, id: nat, st: St, callee: Callee, k: Key)
    requires fuel >= 2 && IsPlain(st.heap, Ptr(id)) && id !in st.memo
    requires UniqueKeys(Children(st.heap[id])) && (k, Ptr(id)) in Children(st.heap[id])
    ensures var (r, st') := Eval(fuel, Ptr(id), st, callee);
            r.Ok? ==> r.value.Ptr? && r.value.id < |st'.heap| &&
                      Slot(st'.heap[r.value.id], k) == Some(r.value)
  {
    ContainerChild(fuel, id, st, callee, k, Ptr(id));
    ContainerOutput(fuel, id, st, callee);
  }

  /** A plain container reached twice in one call tree is evaluated once: the second
      visit returns the same output object and changes nothing. */
  lemma VisitedOnce(fuel: nat, fuel': nat, v: Value, st: St, callee: Callee)
    requires fuel' >= 1 && IsPlain(st.heap, v)
    ensures var (r, st') := Eval(fuel, v, st, callee);
            r.Ok? ==> Eval(fuel', v, st', callee) == (r, st')
  {
    var (r, st') := Eval(fuel, v, st, callee);
    if r.Ok? && v.id !in st.memo {
      ContainerOutput(fuel, v.id, st, callee);
      EvalExtends(fuel, v, st, callee);
    }
  }

  // ---------------------------------------------------------------------------------
  // Cycles of plain containers do not exhaust the recursion limit.

  /** The children of the first `n` objects are among them. */
  predicate Closed(h: Heap, n: nat)
  {
    n <= |h| && forall i, c :: 0 <= i < n && c in Children(h[i]) && c.1.Ptr? ==> c.1.id < n
  }

  predicate NoInvocations(h: Heap, n: nat)
  {
    forall i :: 0 <= i < n ==> !IsCallable(h, Ptr(i))
  }

  /** The plain containers among the first `n` objects not yet visited. */
  function Unvisited(st: St, n: nat): set<nat>
  {
    set i | 0 <= i < n && IsPlain(st.heap, Ptr(i)) && i !in st.memo
  }

  lemma UnvisitedShrinks(a: St, b: St, n: nat)
    requires n <= |a.heap| <= |b.heap|
    requires forall j :: 0 <= j < n ==> b.heap[j] == a.heap[j]
    requires forall k :: k in a.memo ==> k in b.memo
    ensures Unvisited(b, n) <= Unvisited(a, n)
    ensures |Unvisited(b, n)| <= |Unvisited(a, n)|
  {
    var ua, ub := Unvisited(a, n), Unvisited(b, n);
    forall i | i in ub ensures i in ua {
      assert b.heap[i] == a.heap[i];
    }
    assert ua == ub + (ua - ub);
  }

  /** On plain dicts and lists, however they alias or cycle, `eval` needs no more depth
      than the number of containers: with that much it never raises RecursionError. */
  lemma {:induction false} NoRecursionError(fuel: nat, v: Value, st: St, callee: Callee, n: nat)
    requires Closed(st.heap, n) && NoInvocations(st.heap, n)
    requires v.Ptr? ==> v.id < n
    requires fuel > |Unvisited(st, n)|
    ensures Eval(fuel, v, st, callee).0 != Err(RecursionError)
    decreases fuel, 1
  {
    if v.Ptr? {
      assert !IsCallable(st.heap, Ptr(v.id));
    }
    if IsPlain(st.heap, v) && v.id !in st.memo {
      var id := v.id;
      var y := |st.heap|;
      var st1 := st.(heap := st.heap + [Shell(st.heap[id])], memo := st.memo[id := y]);
      var kids := Children(st.heap[id]);
      var order := SortByRank(st1.heap, kids);
      forall j | 0 <= j < n ensures st1.heap[j] == st.heap[j] { }
      UnvisitedShrinks(st, st1, n);
      assert Unvisited(st1, n) == Unvisited(st, n) - {id} by {
        forall i ensures i in Unvisited(st1, n) <==> i in Unvisited(st, n) - {id} {
          if 0 <= i < n { assert st1.heap[i] == st.heap[i]; }
        }
      }
      forall j | 0 <= j < |order| && order[j].1.Ptr? ensures order[j].1.id < n {
        VisitedAreChildren(st1.heap, kids, order[j]);
      }
      FillNoRecursionError(fuel, y, order, 0, st1, callee, n);
    }
  }

  lemma {:induction false} FillNoRecursionError(fuel: nat, y: nat, kids: seq<(Key, Value)>,
                                                i: nat, st: St, callee: Callee, n: nat)
    requires fuel >= 1 && i <= |kids|
    requires Closed(st.heap, n) && NoInvocations(st.heap, n) && n <= y
    requires forall j :: i <= j < |kids| && kids[j].1.Ptr? ==> kids[j].1.id < n
    requires fuel - 1 > |Unvisited(st, n)|
    ensures Fill(fuel, y, kids, i, st, callee).0 != Err(RecursionError)
    decreases fuel, 0, |kids| - i
  {
    if i < |kids| {
      var r, st1, st2 := FillStep(fuel, y, kids, i, st, callee);
      NoRecursionError(fuel - 1, kids[i].1, st, callee, n);
      if r.Ok? {
        forall j | 0 <= j < n ensures st2.heap[j] == st.heap[j] {
          assert st1.heap[j] == st.heap[j];
        }
        UnvisitedShrinks(st, st2, n);
        FillNoRecursionError(fuel, y, kids, i + 1, st2, callee, n);
      }
    }
  }
}
