/** Python has no dangling references: every object a value can name exists. In the arena
    model that is a closure property, stated here: every index held by an object, by the
    shared data or by a called function's result names an object of the arena. An object
    from outside the evaluator (a record-like object, a function) is an arena object like
    any other; an index at or past the end of the arena names nothing. */
module Containment {
  import opened PyValues
  import opened FieldNames
  import opened SharedValues

  predicate KeyBelow(k: Key, n: nat)
  {
    k.KObj? ==> k.id < n
  }

  predicate ValueBelow(v: Value, n: nat)
  {
    v.Ptr? ==> v.id < n
  }

  predicate ValuesBelow(xs: seq<Value>, n: nat)
  {
    forall i :: 0 <= i < |xs| ==> ValueBelow(xs[i], n)
  }

  predicate EntriesBelow(es: seq<(Key, Value)>, n: nat)
  {
    forall i :: 0 <= i < |es| ==> KeyBelow(es[i].0, n) && ValueBelow(es[i].1, n)
  }

  predicate NamedBelow(kw: seq<(string, Value)>, n: nat)
  {
    forall i :: 0 <= i < |kw| ==> ValueBelow(kw[i].1, n)
  }

  /** Every index the object holds is below `n`. */
  predicate ObjBelow(o: Obj, n: nat)
  {
    match o
    case Dict(es) => EntriesBelow(es, n)
    case List(xs) => ValuesBelow(xs, n)
    case Record(attrs) => forall a :: a in attrs ==> ValueBelow(attrs[a], n)
    case Func(_) => true
  }

  predicate HeapBelow(h: seq<Obj>, n: nat)
  {
    forall i :: 0 <= i < |h| ==> ObjBelow(h[i], n)
  }

  /** Every object of the arena refers only to objects of the arena. */
  predicate SelfContained(h: Heap)
  {
    HeapBelow(h, |h|)
  }

  /** Every key and every value of the shared data is below `n`. */
  predicate SharedBelow(ctx: map<Key, Value>, n: nat)
  {
    forall k :: k in ctx ==> KeyBelow(k, n) && ValueBelow(ctx[k], n)
  }

  /** What a call made refers only to the arena it was given and the objects it made. */
  predicate OutcomeBelow(o: Outcome, n: nat)
  {
    HeapBelow(o.made, n + |o.made|) && (o.result.Ok? ==> ValueBelow(o.result.value, n + |o.made|))
  }

  /** A called function, given a self-contained arena and arguments from it, hands back
      only objects of that arena or objects it made. */
  ghost predicate ContainedCallee(callee: Callee)
  {
    forall h: Heap, c: Invocation ::
      SelfContained(h) && ValuesBelow(c.args, |h|) && NamedBelow(c.kwargs, |h|) ==>
        OutcomeBelow(callee(h, c), |h|)
  }

  // ---------------------------------------------------------------------------------
  // Growing the arena.

  lemma ObjBelowMono(o: Obj, n: nat, m: nat)
    requires ObjBelow(o, n) && n <= m
    ensures ObjBelow(o, m)
  {
  }

  lemma HeapBelowMono(h: seq<Obj>, n: nat, m: nat)
    requires HeapBelow(h, n) && n <= m
    ensures HeapBelow(h, m)
  {
    forall i | 0 <= i < |h| ensures ObjBelow(h[i], m) {
      ObjBelowMono(h[i], n, m);
    }
  }

  /** Appending objects that refer only to the larger arena keeps it self-contained. */
  lemma AppendContained(h: Heap, made: seq<Obj>)
    requires SelfContained(h) && HeapBelow(made, |h| + |made|)
    ensures SelfContained(h + made)
  {
    HeapBelowMono(h, |h|, |h| + |made|);
    forall i | 0 <= i < |h + made| ensures ObjBelow((h + made)[i], |h + made|) {
      if i < |h| {
        assert (h + made)[i] == h[i];
      } else {
        assert (h + made)[i] == made[i - |h|];
      }
    }
  }

  /** The arena after a call of a contained function. */
  lemma CallContained(callee: Callee, h: Heap, c: Invocation)
    requires ContainedCallee(callee)
    requires SelfContained(h) && ValuesBelow(c.args, |h|) && NamedBelow(c.kwargs, |h|)
    ensures var o := callee(h, c);
            SelfContained(h + o.made) &&
            (o.result.Ok? ==> ValueBelow(o.result.value, |h + o.made|))
  {
    var o := callee(h, c);
    assert OutcomeBelow(o, |h|);
    AppendContained(h, o.made);
  }

  // ---------------------------------------------------------------------------------
  // Entry lists.

  lemma {:induction false} FindBelow(es: seq<(Key, Value)>, k: Key, n: nat)
    requires EntriesBelow(es, n)
    ensures Find(es, k).Some? ==> ValueBelow(Find(es, k).value, n)
    decreases |es|
  {
    if es != [] && es[0].0 != k {
      FindBelow(es[1..], k, n);
    }
  }

  lemma {:induction false} StoreBelow(es: seq<(Key, Value)>, k: Key, v: Value, n: nat)
    requires EntriesBelow(es, n) && KeyBelow(k, n) && ValueBelow(v, n)
    ensures EntriesBelow(Store(es, k, v), n)
    decreases |es|
  {
    if es != [] && es[0].0 != k {
      StoreBelow(es[1..], k, v, n);
    }
  }

  lemma {:induction false} FromPairsBelow(ps: seq<(Key, Value)>, n: nat)
    requires EntriesBelow(ps, n)
    ensures EntriesBelow(FromPairs(ps), n)
    decreases |ps|
  {
    if ps != [] {
      var init := ps[..|ps| - 1];
      FromPairsBelow(init, n);
      StoreBelow(FromPairs(init), ps[|ps| - 1].0, ps[|ps| - 1].1, n);
    }
  }

  lemma {:induction false} WithoutBelow(es: seq<(Key, Value)>, k: Key, n: nat)
    requires EntriesBelow(es, n)
    ensures EntriesBelow(Without(es, k), n)
    decreases |es|
  {
    if es != [] {
      WithoutBelow(es[1..], k, n);
    }
  }

  /** Iterating an object of a self-contained arena yields values of the arena. */
  lemma IterateBelow(h: Heap, v: Value)
    requires SelfContained(h) && ValueBelow(v, |h|)
    ensures Iterate(h, v).Ok? ==> ValuesBelow(Iterate(h, v).value, |h|)
  {
    if v.Ptr? && h[v.id].Dict? {
      var es := h[v.id].entries;
      assert forall i :: 0 <= i < |es| ==> KeyBelow(es[i].0, |h|);
    }
  }

  /** Writing a value of the arena under a key of the arena keeps it self-contained. */
  lemma PutContained(h: Heap, y: nat, k: Key, v: Value)
    requires SelfContained(h) && KeyBelow(k, |h|) && ValueBelow(v, |h|)
    ensures SelfContained(Put(h, y, k, v))
  {
    if y < |h| && h[y].Dict? {
      StoreBelow(h[y].entries, k, v, |h|);
    }
  }

  // ---------------------------------------------------------------------------------
  // The field walk.

  lemma GetItemBelow(h: Heap, obj: Value, k: Key)
    requires SelfContained(h) && ValueBelow(obj, |h|)
    ensures GetItem(h, obj, k).Ok? ==> ValueBelow(GetItem(h, obj, k).value, |h|)
  {
    if obj.Ptr? && h[obj.id].Dict? {
      FindBelow(h[obj.id].entries, k, |h|);
    }
  }

  /** One step of the walk from a value of a self-contained arena stays in the arena. */
  lemma StepBelow(h: Heap, obj: Value, g: Segment)
    requires SelfContained(h) && ValueBelow(obj, |h|)
    ensures Step(h, obj, g).Ok? ==> ValueBelow(Step(h, obj, g).value, |h|)
  {
    match g
    case Attr(a) =>
      if obj.Ptr? && h[obj.id].Record? {
        assert ObjBelow(h[obj.id], |h|);
      }
    case Item(t) =>
      if IndexKey(t).Ok? {
        GetItemBelow(h, obj, IndexKey(t).value);
      }
  }

  lemma {:induction false} WalkBelow(h: Heap, obj: Value, segs: seq<Segment>)
    requires SelfContained(h) && ValueBelow(obj, |h|)
    ensures Walk(h, obj, segs).Ok? ==> ValueBelow(Walk(h, obj, segs).value, |h|)
    decreases |segs|
  {
    if segs != [] {
      StepBelow(h, obj, segs[0]);
      if Step(h, obj, segs[0]).Ok? {
        WalkBelow(h, Step(h, obj, segs[0]).value, segs[1..]);
      }
    }
  }

  /** Resolving a SharedValue against shared data of the arena yields a value of it. */
  lemma ResolveBelow(h: Heap, ctx: map<Key, Value>, name: Option<string>)
    requires SelfContained(h) && SharedBelow(ctx, |h|)
    ensures Resolve(h, ctx, name).Ok? ==> ValueBelow(Resolve(h, ctx, name).value, |h|)
  {
    if name.Some? {
      var f := Parse(name.value);
      if f.first.Ok? && !f.first.value.KInt? && f.first.value in ctx {
        WalkBelow(h, ctx[f.first.value], f.segs);
      }
    }
  }
}
