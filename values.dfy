/** The fragment of Python's object model that the call-dictionary evaluator touches.
    Immutable values (None, bool, int, str and SharedValue descriptors) are plain values;
    objects with identity (dict, list, record-like objects, functions) live in an arena
    and are referred to by their index, so aliasing and cycles are explicit. */
module PyValues {

  datatype Option<T> = None | Some(value: T)

  /** Python exceptions the evaluator raises or lets through. An exhausted recursion
      limit is RecursionError in Python 3 and RuntimeError in Python 2. `Raised` stands for
      any other exception a called function throws. */
  datatype Exc =
    | KeyError | IndexError | TypeError | AttributeError | ValueError
    | RecursionError | RuntimeError | Raised(code: nat)

  datatype Result<T> = Ok(value: T) | Err(exc: Exc)

  /** A hashable dictionary key. `True`/`False` hash and compare like 1/0, so they are
      keyed as integers; objects hashed by identity are keyed by their arena index. */
  datatype Key = KNone | KInt(i: int) | KStr(s: string) | KObj(id: nat)

  datatype Value =
    | NoneValue
    | Bool(b: bool)
    | Int(i: int)
    | Str(s: string)
    | Shared(name: Option<string>)   // a SharedValue; name None is the root `shared`
    | Ptr(id: nat)                   // an object in the arena

  datatype Obj =
    | Dict(entries: seq<(Key, Value)>)   // insertion-ordered, keys unique
    | List(items: seq<Value>)
    | Record(attrs: map<string, Value>)  // an object whose attributes can be read
    | Func(fid: nat)                     // a bound callable, opaque to the evaluator

  type Heap = seq<Obj>

  /** One invocation of a callable: which function, positional and keyword arguments. */
  datatype Invocation = Invocation(fid: nat, args: seq<Value>, kwargs: seq<(string, Value)>)

  /** What a called function produces: its result (or exception) and the objects it
      allocated, which are appended to the arena in order. */
  datatype Outcome = Outcome(result: Result<Value>, made: seq<Obj>)

  /** Callables are opaque: they see the arena and their arguments, nothing else. */
  type Callee = (Heap, Invocation) -> Outcome

  /** The object behind an arena index; an index outside the arena names no object. */
  function Deref(h: Heap, id: nat): (o: Option<Obj>)
    ensures o.Some? <==> id < |h|
    ensures o.Some? ==> o.value == h[id]
  {
    if id < |h| then Some(h[id]) else None
  }

  function Keys(es: seq<(Key, Value)>): (ks: seq<Key>)
    ensures |ks| == |es|
    ensures forall i :: 0 <= i < |es| ==> ks[i] == es[i].0
  {
    if es == [] then [] else [es[0].0] + Keys(es[1..])
  }

  predicate UniqueKeys(es: seq<(Key, Value)>)
  {
    forall i, j :: 0 <= i < j < |es| ==> es[i].0 != es[j].0
  }

  lemma KeysAppend(es: seq<(Key, Value)>, e: (Key, Value))
    ensures Keys(es + [e]) == Keys(es) + [e.0]
  {
    assert forall i :: 0 <= i < |es| ==> (es + [e])[i] == es[i];
  }

  /** Removing the last entry of a list with unique keys leaves unique keys, none of them
      the last entry's. */
  lemma UniqueKeysInit(es: seq<(Key, Value)>)
    requires UniqueKeys(es) && es != []
    ensures UniqueKeys(es[..|es| - 1])
    ensures es[|es| - 1].0 !in Keys(es[..|es| - 1])
  {
    var init := es[..|es| - 1];
    forall j | 0 <= j < |init| ensures Keys(init)[j] != es[|es| - 1].0 {
      assert init[j] == es[j];
    }
  }

  /** Storing under `k` adds `k` to the keys and nothing else. */
  lemma StoreKeys(es: seq<(Key, Value)>, k: Key, v: Value)
    ensures forall k' :: k' in Keys(Store(es, k, v)) <==> k' in Keys(es) || k' == k
  {
    StoreFind(es, k, v);
    forall k' ensures k' in Keys(Store(es, k, v)) <==> k' in Keys(es) || k' == k {
      assert Find(Store(es, k, v), k').Some? <==> k' in Keys(Store(es, k, v));
      assert Find(es, k').Some? <==> k' in Keys(es);
    }
  }

  /** `d.get(k)` on an entry list. */
  function Find(es: seq<(Key, Value)>, k: Key): (r: Option<Value>)
    ensures r.Some? <==> k in Keys(es)
  {
    if es == [] then None
    else if es[0].0 == k then Some(es[0].1)
    else Find(es[1..], k)
  }

  /** Looking a key up in a list of entries with a given first entry. */
  lemma FindCons(e: (Key, Value), t: seq<(Key, Value)>)
    ensures forall k :: Find([e] + t, k) == if e.0 == k then Some(e.1) else Find(t, k)
  {
    assert ([e] + t)[0] == e && ([e] + t)[1..] == t;
  }

  /** `d[k] = v` on an entry list: overwrite the entry for `k`, or append one. */
  function Store(es: seq<(Key, Value)>, k: Key, v: Value): seq<(Key, Value)>
  {
    if es == [] then [(k, v)]
    else if es[0].0 == k then [(k, v)] + es[1..]
    else [es[0]] + Store(es[1..], k, v)
  }

  /** After `d[k] = v`, `k` maps to `v`, every other key maps to what it did, and a new
      key goes at the end. */
  lemma StoreFind(es: seq<(Key, Value)>, k: Key, v: Value)
    ensures Find(Store(es, k, v), k) == Some(v)
    ensures forall k' :: k' != k ==> Find(Store(es, k, v), k') == Find(es, k')
    ensures k !in Keys(es) ==> Store(es, k, v) == es + [(k, v)]
  {
    StoreFindSame(es, k, v);
    forall k' | k' != k ensures Find(Store(es, k, v), k') == Find(es, k') {
      StoreFindOther(es, k, v, k');
    }
    StoreAppends(es, k, v);
  }

  lemma {:induction false} StoreFindSame(es: seq<(Key, Value)>, k: Key, v: Value)
    ensures Find(Store(es, k, v), k) == Some(v)
    decreases |es|
  {
    if es != [] && es[0].0 != k {
      StoreFindSame(es[1..], k, v);
      FindCons(es[0], Store(es[1..], k, v));
    } else if es != [] {
      FindCons((k, v), es[1..]);
    }
  }

  lemma {:induction false} StoreFindOther(es: seq<(Key, Value)>, k: Key, v: Value, k': Key)
    requires k' != k
    ensures Find(Store(es, k, v), k') == Find(es, k')
    decreases |es|
  {
    if es != [] {
      var e, rest := es[0], es[1..];
      assert es == [e] + rest;
      FindCons(e, rest);
      if e.0 == k {
        FindCons((k, v), rest);
      } else {
        StoreFindOther(rest, k, v, k');
        FindCons(e, Store(rest, k, v));
      }
    }
  }

  lemma {:induction false} StoreAppends(es: seq<(Key, Value)>, k: Key, v: Value)
    ensures k !in Keys(es) ==> Store(es, k, v) == es + [(k, v)]
    decreases |es|
  {
    if es != [] && k !in Keys(es) {
      var e, rest := es[0], es[1..];
      assert Keys(es) == [e.0] + Keys(rest);
      StoreAppends(rest, k, v);
      assert es == [e] + rest;
    }
  }

  /** `dict(pairs)`: a later pair overwrites an earlier one with the same key. */
  function FromPairs(ps: seq<(Key, Value)>): (r: seq<(Key, Value)>)
    ensures forall k :: k in Keys(r) <==> k in Keys(ps)
    ensures UniqueKeys(ps) ==> r == ps
    decreases |ps|
  {
    if ps == [] then []
    else
      var r0 := FromPairs(ps[..|ps| - 1]);
      FromPairsStep(ps, r0);
      Store(r0, ps[|ps| - 1].0, ps[|ps| - 1].1)
  }

  /** One pair more: what holds of `dict` of all pairs but the last carries over. */
  lemma FromPairsStep(ps: seq<(Key, Value)>, r0: seq<(Key, Value)>)
    requires ps != []
    requires forall k :: k in Keys(r0) <==> k in Keys(ps[..|ps| - 1])
    requires UniqueKeys(ps[..|ps| - 1]) ==> r0 == ps[..|ps| - 1]
    ensures var r := Store(r0, ps[|ps| - 1].0, ps[|ps| - 1].1);
            && (forall k :: k in Keys(r) <==> k in Keys(ps))
            && (UniqueKeys(ps) ==> r == ps)
  {
    var init, last := ps[..|ps| - 1], ps[|ps| - 1];
    assert ps == init + [last];
    KeysAppend(init, last);
    StoreKeys(r0, last.0, last.1);
    StoreFind(r0, last.0, last.1);
    if UniqueKeys(ps) {
      UniqueKeysInit(ps);
    }
  }

  /** The entries of `d` except the one for `k`, in order (`dict((x, y) for ... if x != k)`). */
  function Without(es: seq<(Key, Value)>, k: Key): (r: seq<(Key, Value)>)
    ensures k !in Keys(r)
    ensures forall k' :: k' != k ==> Find(r, k') == Find(es, k')
    ensures |r| <= |es|
  {
    if es == [] then []
    else if es[0].0 == k then Without(es[1..], k)
    else [es[0]] + Without(es[1..], k)
  }

  /** `enumerate(xs)`, with the index as key. */
  function Enumerate(xs: seq<Value>): (r: seq<(Key, Value)>)
    ensures |r| == |xs|
    ensures forall i :: 0 <= i < |xs| ==> r[i] == (KInt(i), xs[i])
  {
    seq(|xs|, i requires 0 <= i < |xs| => (KInt(i), xs[i]))
  }

  /** The value a key denotes when a dict is iterated. */
  function KeyValue(k: Key): Value
  {
    match k
    case KNone => NoneValue
    case KInt(i) => Int(i)
    case KStr(s) => Str(s)
    case KObj(id) => Ptr(id)
  }

  /** `iter(v)`: lists give their items, dicts their keys, strings their characters;
      everything else raises TypeError. */
  function Iterate(h: Heap, v: Value): (r: Result<seq<Value>>)
    ensures v.Ptr? && Deref(h, v.id).Some? && Deref(h, v.id).value.List? ==>
              r == Ok(h[v.id].items)
    ensures r.Ok? ==> v.Str? || (v.Ptr? && v.id < |h| && (h[v.id].List? || h[v.id].Dict?))
  {
    match v
    case Str(s) => Ok(seq(|s|, i requires 0 <= i < |s| => Str([s[i]])))
    case Ptr(id) =>
      (match Deref(h, id)
       case Some(List(xs)) => Ok(xs)
       case Some(Dict(es)) => Ok(seq(|es|, i requires 0 <= i < |es| => KeyValue(es[i].0)))
       case _ => Err(TypeError))
    case _ => Err(TypeError)
  }

  /** `bool(v)`: None, False, 0, '' and empty containers are false. A SharedValue defines
      neither `__bool__` nor `__len__` on its class, so it is true. */
  function Truthy(h: Heap, v: Value): (b: bool)
    ensures v == NoneValue || v == Bool(false) || v == Int(0) || v == Str("") ==> !b
    ensures v.Shared? ==> b
  {
    match v
    case NoneValue => false
    case Bool(b) => b
    case Int(i) => i != 0
    case Str(s) => s != ""
    case Shared(_) => true
    case Ptr(id) =>
      match Deref(h, id)
      case Some(Dict(es)) => es != []
      case Some(List(xs)) => xs != []
      case _ => true
  }

  /** The key a SharedValue's name stands for in the shared data (`shared_data[v.name]`). */
  function NameKey(name: Option<string>): Key
  {
    if name.None? then KNone else KStr(name.value)
  }

  /** `hash(v)` for a value used as a dict key: dicts and lists are unhashable. */
  function KeyOf(h: Heap, v: Value): (r: Result<Key>)
    requires !v.Shared?
    ensures r.Err? <==> v.Ptr? && v.id < |h| && (h[v.id].Dict? || h[v.id].List?)
    ensures r.Err? ==> r.exc == TypeError
    ensures v.Str? ==> r == Ok(KStr(v.s))
  {
    match v
    case NoneValue => Ok(KNone)
    case Bool(b) => Ok(KInt(if b then 1 else 0))
    case Int(i) => Ok(KInt(i))
    case Str(s) => Ok(KStr(s))
    case Ptr(id) =>
      (match Deref(h, id)
       case Some(Dict(_)) => Err(TypeError)
       case Some(List(_)) => Err(TypeError)
       case _ => Ok(KObj(id)))
  }

  /** `y[k] = v` on the container at arena index `y`. Only dicts and in-range list
      indexes are ever written by the evaluator; anything else is left alone. */
  function Put(h: Heap, y: nat, k: Key, v: Value): (r: Heap)
    ensures |r| == |h|
    ensures forall j :: 0 <= j < |h| && j != y ==> r[j] == h[j]
    ensures y < |h| && h[y].Dict? ==> r[y] == Dict(Store(h[y].entries, k, v))
    ensures y < |h| && h[y].List? && k.KInt? && 0 <= k.i < |h[y].items| ==>
              r[y] == List(h[y].items[k.i := v])
    ensures y < |h| ==> (r[y].Dict? <==> h[y].Dict?) && (r[y].List? <==> h[y].List?)
    ensures y < |h| && h[y].List? ==> |r[y].items| == |h[y].items|
  {
    if y >= |h| then h
    else
      match h[y]
      case Dict(es) => h[y := Dict(Store(es, k, v))]
      case List(xs) =>
        if k.KInt? && 0 <= k.i < |xs| then h[y := List(xs[k.i := v])] else h
      case _ => h
  }
}
