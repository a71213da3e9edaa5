# calldict in Dafny

`calldict` evaluates "call dictionaries". These are trees of dicts, lists, scalars and
`SharedValue` references. In such a tree, a dict with a `'func'` key is an invocation:
its `args`, `kwargs` and `func` are evaluated, the function is called, and the result can
be stored in a mutable `shared_data` dict for later references to find. A `SharedValue` is
a name or path, such as `shared.a`, `SharedValue("var[0][key]")` or `shared.file.write`.
It is resolved with the field-name walk of PEP 3101 ("Format String Syntax"), as
`string.Formatter().get_field` performs it. If that walk raises `KeyError`, the reference
stays as it is.

The repository holds two evaluators, and this project models both:

* `eval` in `calldict/__init__.py`, the current one. It keeps an identity memo, so shared
  sub-structures are rebuilt once and cycles terminate. It visits the children of a dict
  or list in a fixed order: dicts, then lists, then everything else. It replaces a
  `SharedValue` result with a lookup, and binds the result under each `'returns'` target.
* `call` in `__init__.py`, the legacy Python 2 version. It has no memo and no order. It
  binds the result under a single `'return'` target. When `'evaluate'` is false it still
  calls the function, on the raw `'args'` and `'kwargs'`.

## How the model is built

* `values.dfy` (`PyValues`) holds the fragment of Python's object model the evaluators
  touch.
  * Immutable values are datatype constructors: `None`, `bool`, `int`, `str` and a
    `SharedValue` descriptor.
  * Objects with identity live in an arena `seq<Obj>` and are referred to by index:
    dicts (entry lists in insertion order), lists, record-like objects and functions.
    This makes aliasing, identity and cycles explicit.
  * Objects that come from outside the evaluator (a record-like object, a function) are
    arena objects like any other. An index at or past the end of the arena names no
    object. The evaluators are stated for closed arenas, where every index held by an
    object, by the shared data or by a called function's result names an object of the
    arena; `containment.dfy` (`Containment`) defines that closure, and
    `calldict_containment.dfy` and `legacy_containment.dfy` prove that both evaluators
    keep it.
  * Called functions are an opaque `Callee` parameter. A callee sees the arena and its
    arguments, and returns a result and any new objects it allocated.
  * A log of invocations makes statements like "called once" and "not called" expressible.
* `field_names.dfy` (`FieldNames`) is the PEP 3101 field-name grammar. `shared_values.dfy`
  (`SharedValues`) holds attribute extension and the `get_field` walk.
* `visit_order.dfy` (`VisitOrder`) is the stable sort of children by rank.
* `calldict_spec.dfy` (`CallDictSpec`) describes `eval` as state-passing functions. The
  state is the arena, the shared data, the memo and the invocation log.
  `calldict.dfy` (`CallDict`) is the evaluator as it runs: a class whose fields are
  updated in place, with the child loops as `while` loops. Each method is proved equal to
  its specification function.
* `calldict_props.dfy` and `invocation_props.dfy` prove what `eval` promises.
* `legacy_spec.dfy`, `legacy.dfy` and `legacy_props.dfy` do the same for the legacy `call`.
* `scenarios.dfy` works through the repository's tests on concrete data.

Python's recursion limit is a depth budget `fuel`. Running out of it is `RecursionError` under `eval`
(Python 3) and `RuntimeError` under the legacy `call` (Python 2).

Where the documented intent and the code differ, the model follows the code:

* A reference whose walk reaches `None` and then asks it for an attribute, as in
  `a[b].test` over `{'a': {'b': None}}`, raises `AttributeError`. Only `KeyError` makes a
  reference come back unresolved.
* Sibling keys of an invocation are not passed as keyword arguments.
* `'returns'` targets are written as flat keys (`shared.a.b` writes the key `"a.b"`), not
  as paths.
* Invocation dicts are not memoized, so a shared invocation runs on every visit.
* A `SharedValue` is truthy: its class defines neither `__bool__` nor `__len__`.

## Model

| member | source | states |
|---|---|---|
| PyValues.StoreFind | calldict/__init__.py:127 | after `d[k] = v`, `k` maps to `v`, every other key maps to what it did, and a new key is appended at the end |
| PyValues.FromPairs | calldict/__init__.py:146-147 | `dict(pairs)` has exactly the pairs' keys, and is the pair list itself when the keys are unique |
| SharedValues.ParseExtend | calldict/__init__.py:20-23 | extending a named reference by attribute `a` gives `name + '.' + a`, whose parsed path is the old path plus one attribute segment |
| SharedValues.ResolveRootAttribute | calldict/__init__.py:20-22 | the root reference extended by `a` is named exactly `a`; it resolves to the shared-data entry `a`, or to itself when there is none, and raises ValueError when `a` starts with a digit run beyond the 64-bit size |
| SharedValues.ResolveExtended | calldict/__init__.py:20-23 | resolving `name.a` is resolving `name`, then reading attribute `a` of the result |
| FieldNames.IndexKey | calldict/__init__.py:132 | ValueError exactly when the digit run at the start of the text is beyond a signed 64-bit size, whatever follows it; otherwise an integer key (of the text's value) exactly when the text is all digits, and a string key of the text in every other case |
| FieldNames.LeadingDigits | calldict/__init__.py:132 | the digit run at the start of a name is the longest prefix of decimal digits: the next character, if any, is not a digit, and an all-digit name is its own run |
| FieldNames.IndexKeyOverflow | calldict/__init__.py:132 | a digit run beyond the 64-bit size raises ValueError whatever text follows it |
| FieldNames.Parse | calldict/__init__.py:132 | the leading name is the text up to the first `.` or `[`, read as `IndexKey` reads it (so ValueError exactly when the leading name starts with a digit run beyond the 64-bit size); every parsed segment is well formed, a bracketed key kept as its text |
| SharedValues.ParseIndexed | calldict/__init__.py:132 | appending `[k]` to a well-formed name appends exactly one item segment holding `k` |
| SharedValues.GetAttr | calldict/__init__.py:20-23 | a reference gives its name for `name` and the extended reference for any other attribute; a record-like object gives the value of an attribute it has and AttributeError exactly when it lacks it; everything else raises AttributeError |
| SharedValues.Walk | calldict/__init__.py:132 | the walk over the parsed segments raises only KeyError, IndexError, TypeError, AttributeError or ValueError |
| SharedValues.GetField | calldict/__init__.py:132 | a name of None raises TypeError; a leading digit run beyond the 64-bit size raises ValueError; an integer leading name raises IndexError (there are no positional arguments); a missing leading name raises KeyError; the only errors are KeyError, IndexError, TypeError, AttributeError and ValueError |
| SharedValues.ResolveIndexed | calldict/__init__.py:132 | looking up `name[k]` is looking up `name`, then reading the key `k` (as an integer when it is digits) of the result, with that key's ValueError when it is too large |
| Containment.WalkBelow | calldict/__init__.py:132 | on a closed arena, a successful field walk yields a value of the arena |
| Containment.ResolveBelow | calldict/__init__.py:129-135 | on a closed arena with shared data of it, a resolved reference is a value of the arena |
| SharedValues.Resolve | calldict/__init__.py:129-135 | a KeyError anywhere in the walk gives the reference back unchanged; a successful walk gives its value; every other error propagates |
| CallDictSpec.IsCallable | calldict/__init__.py:40-41 | true exactly for a dict in the arena with a `'func'` key; a bare function is not callable |
| CallDictSpec.KeywordNames | calldict/__init__.py:151 | `**kwargs` succeeds exactly when every key is a string, and keeps every entry in order; otherwise TypeError |
| CallDictSpec.Unwrap | calldict/__init__.py:153-154 | a non-reference result is kept; a reference result is the shared-data entry under its name when there is one, and KeyError exactly when there is none |
| VisitOrder.Rank | calldict/__init__.py:124-125 | rank 0 exactly for dicts, 1 exactly for lists, 2 for everything else |
| VisitOrder.VisitOrderIsStableByRank | calldict/__init__.py:123-127 | the visiting order is sorted by rank, is a permutation of the children, and keeps the original order within each rank |
| VisitOrder.StableSortUnique | calldict/__init__.py:123-127 | any order that is sorted by rank and stable within each rank is the visiting order |
| VisitOrder.VisitOrderKeys | calldict/__init__.py:123-127 | the keys visited are exactly the container's keys |
| CallDict.Evaluator.constructor | calldict/__init__.py:98-105 | evaluation starts with the given arena and shared data, an empty memo and no calls |
| CallDict.Evaluator.Run | calldict/__init__.py:98-99 | a top-level `eval` starts from an empty memo and computes `Eval`; on a closed arena, with functions that return only objects of it or objects they made, the arena and shared data stay closed and the result is a value of the arena |
| CallDict.Evaluator.Eval | calldict/__init__.py:106-137 | result and new state are those of `Eval`: invocation, plain container, reference or value as is |
| CallDict.Evaluator.Fill | calldict/__init__.py:123-127 | the loop over the sorted children computes `Fill`, one child at a time |
| CallDict.Evaluator.EvalContainer | calldict/__init__.py:108-128 | the memo is checked, the output is registered before any child, and the children are filled in visiting order, as `EvalContainer` says |
| CallDict.Evaluator.Invoke | calldict/__init__.py:139-148 | a deferred invocation becomes a copy without `'evaluate'`; otherwise the args, then the kwargs, then func are evaluated, as `Invoke` says |
| CallDict.Evaluator.InvokeNow | calldict/__init__.py:143-145 | the args are taken from `'args'` (none when absent) and evaluated in order before anything else, as `InvokeNow` says |
| CallDict.Evaluator.InvokeWith | calldict/__init__.py:146-151 | the kwargs, then func, are evaluated, and the function is called with them, as `InvokeWith` says |
| CallDict.Evaluator.EvalArgs | calldict/__init__.py:145 | the loop over `args` computes `EvalArgs` |
| CallDict.Evaluator.EvalKwargs | calldict/__init__.py:146-147 | the loop over `kwargs` computes `EvalKwargs` |
| CallDict.Evaluator.Apply | calldict/__init__.py:150-160 | the call, the reference lookup of its result and the `'returns'` binding compute `Apply` |
| CallDict.Evaluator.Bind | calldict/__init__.py:156-159 | the loop over targets computes `Bind` |
| CallDictProps.EvalExtends | calldict/__init__.py:106-160 | evaluation only appends objects, memo entries and calls: no existing object changes |
| CallDictProps.InputUnchanged | calldict/__init__.py:114-128 | the input structure is left exactly as it was; the output is built beside it |
| CallDictProps.EvalSettled | calldict/__init__.py:112-113 | a scalar, a record-like object or function of the arena, or an already-visited container evaluates to itself or to its memoized output, and the state does not change |
| CallDictProps.ContainerOutput | calldict/__init__.py:111-128 | a first visit yields a fresh object registered in the memo: a dict with exactly the input's keys, or a list of the input's length |
| CallDictProps.FillEntry | calldict/__init__.py:123-127 | after the loop, the entry under a child's key is that child's evaluation, in the state the loop reached it in |
| CallDictProps.ContainerEntry | calldict/__init__.py:111-127 | every child appears in the output under its key as its evaluation in the very state the loop reaches it in: the output shell appended and memoized for the container, then the children before its last visit in rank order evaluated and stored; that state leaves the input unchanged |
| CallDictProps.ContainerChild | calldict/__init__.py:111-127 | a child needing no work appears as itself; the container itself appears as the new output; a visited container appears as its earlier output |
| CallDictProps.SelfReferencePreserved | calldict/__init__.py:111-120 | a container that holds itself yields an output that holds the output: a cycle is copied into a cycle |
| CallDictProps.VisitedOnce | calldict/__init__.py:111-113 | evaluating a plain container a second time returns the same output and changes nothing |
| CallDictProps.NoRecursionError | calldict/__init__.py:108-128 | on plain dicts and lists, however they alias or cycle, a depth greater than the number of containers not yet visited never raises RecursionError |
| CallDictProps.BindOnlyShared | calldict/__init__.py:156-159 | binding results changes the shared data and nothing else |
| CallDictContainment.EvalContained | calldict/__init__.py:106-160 | from a closed state, with functions that return only objects of the arena or objects they made, evaluation reaches a closed state (arena, shared data and memo) over a larger arena and returns a value of it |
| CallDictContainment.ContainerContained | calldict/__init__.py:108-128 | the output container and everything stored in it name only objects of the arena |
| CallDictContainment.FillContained | calldict/__init__.py:123-127 | each `y[k] = eval(v)` stores a key and a value of the arena |
| CallDictContainment.InvokeContained | calldict/__init__.py:139-160 | the deferred copy, the evaluated arguments, the call and the `'returns'` bindings keep the state closed |
| CallDictContainment.ApplyContained | calldict/__init__.py:150-160 | the objects a call made, its result, the looked-up reference and the bindings stay in the arena |
| CallDictContainment.BindContained | calldict/__init__.py:156-159 | binding stores keys and a result of the arena and leaves the arena as it is |
| CallDictContainment.EvalKeepsArenaClosed | calldict/__init__.py:98-160 | a top-level `eval` on a closed arena keeps it closed and returns a value of it |
| InvocationProps.DeferredInvocation | calldict/__init__.py:140-141 | with a false `'evaluate'`, nothing is evaluated or called; the result is a new dict with every other entry and no `'evaluate'`, still an invocation |
| InvocationProps.DeferredRunsLater | calldict/__init__.py:140-148 | the deferred copy, evaluated later, is invoked with its remaining entries |
| InvocationProps.CallsOnce | calldict/__init__.py:143-159 | an invocation with ready arguments calls its function once, with exactly those arguments; the result, with a reference looked up, is the invocation's value, and with a `'returns'` entry it is then bound under the targets |
| InvocationProps.CallsOnceLogged | calldict/__init__.py:150-159 | such an invocation adds exactly one call to the log, whether or not it has `'returns'` targets |
| InvocationProps.InvokedOnEveryVisit | calldict/__init__.py:106-107 | invocations are not memoized: visiting one twice calls its function twice |
| InvocationProps.BindTargets | calldict/__init__.py:156-159 | either every target is hashable, each target's key maps to the result and no other key changes, or TypeError is raised |
| InvocationProps.ReturnsWriteFlatNames | calldict/__init__.py:159 | reference targets are written under their full names as flat keys |
| InvocationProps.SharedAttributeEvaluates | calldict/__init__.py:129-135 | `shared.a` evaluates to the entry `'a'` when there is one and to itself otherwise, changing nothing; a name `a` that starts with a digit run beyond the 64-bit size raises ValueError |
| LegacyCallSpec.CallItems | __init__.py:33-34 | a completed list comprehension has one result per item, after the results already gathered |
| LegacyCallSpec.CallEntries | __init__.py:31-32 | a completed dict comprehension has one pair per entry, after the pairs already gathered |
| LegacyCallSpec.RawArguments | __init__.py:55 | on an unevaluated node, KeyError exactly when `'args'` or `'kwargs'` is missing; otherwise only TypeError |
| LegacyCall.Caller.constructor | __init__.py:28 | a call starts with the given arena and shared data and no calls |
| LegacyCall.Caller.Call | __init__.py:28-43 | result and new state are those of `Call`: invocation, dict, list, reference or value as is |
| LegacyCall.Caller.CallItems | __init__.py:33-34 | the loop over the items computes `CallItems` |
| LegacyCall.Caller.CallEntries | __init__.py:31-32 | the loop over the entries computes `CallEntries` |
| LegacyCall.Caller.Invoke | __init__.py:46-55 | evaluated or raw arguments, then the call, as `Invoke` says |
| LegacyCall.Caller.InvokeEvaluated | __init__.py:46-55 | with a true `'evaluate'`, args, kwargs and func are evaluated in that order before the call, as `Invoke` says |
| LegacyCall.Caller.Apply | __init__.py:55-63 | the call and the `'return'` binding compute `Apply` |
| LegacyContainment.CallContained | __init__.py:28-63 | from a closed state, with functions that return only objects of the arena or objects they made, `call` reaches a closed state over a larger arena and returns a value of it |
| LegacyContainment.EvaluatedContained | __init__.py:46-63 | the evaluated arguments, the call and the `'return'` binding keep the state closed |
| LegacyContainment.ApplyContained | __init__.py:55-63 | the objects a call made, its result and the binding stay in the arena |
| LegacyContainment.CallKeepsArenaClosed | __init__.py:28-63 | a top-level `call` on a closed arena keeps it closed and returns a value of it |
| LegacyCallProps.CallExtends | __init__.py:46-52 | `call` only appends objects and calls: the caller's structure is never modified |
| LegacyCallProps.ItemsThreaded | __init__.py:33-34 | the list comprehension succeeds with results `rs` exactly when each `rs[i]` is the call of item `i`, made in turn |
| LegacyCallProps.EntriesThreaded | __init__.py:31-32 | the dict comprehension succeeds with pairs `out` exactly when `out` has the input's keys and each value is the call of the input's value, made in turn |
| LegacyCallProps.ListResult | __init__.py:33-34 | a list maps to a new list exactly when its element `i` is the call of input element `i`, in order |
| LegacyCallProps.DictResult | __init__.py:31-32 | a plain dict maps to a new dict exactly when it has the same keys in order and each value is the call of the input's value |
| LegacyCallProps.SelfContainingList | __init__.py:33-34 | without a memo, a list whose first item is itself raises RuntimeError, Python 2's recursion error, at any depth, before anything else happens |
| LegacyCallProps.DeferredCallsRaw | __init__.py:46-55 | with a false `'evaluate'`, the function is still called once, on the raw `'args'` items and the raw `'kwargs'` dict |
| LegacyCallProps.DeferredNeedsBothKeys | __init__.py:55 | with a false `'evaluate'`, a missing `'args'` or `'kwargs'` raises KeyError before any call |
| LegacyCallProps.ReturnBinding | __init__.py:55-63 | one call; its result is returned as it is; a `'return'` target gets it under one key and no other key changes; an unhashable target raises TypeError |
| LegacyCallProps.ScalarsUnchanged | __init__.py:42-43 | a value that is not a dict, list or reference comes back unchanged, and nothing else happens |
| LegacyCallProps.LeavesAgree | __init__.py:35-43 | on leaves, `call` and `eval` agree, except that the root reference raises AttributeError in Python 2 and TypeError in Python 3 |
| LegacyCallProps.AttributeReference | __init__.py:14-17 | `shared.a` resolves to the entry `'a'` or to itself, or raises ValueError when `a` starts with a digit run beyond the 64-bit size; one more attribute walks one attribute further |
| Scenarios.TestSharedValue | test_base.py:3-8 | `{'func': dict.__getitem__, 'args': [shared.a, 'b']}` over `{'a': {'b': 1}}` evaluates to 1, with exactly one call |
| Scenarios.TestSharedValueLegacy | __init__.py:46-55 | the same node under the legacy `call` also gives 1, with exactly one call |
| Scenarios.TestCallable | test_base.py:11-13 | a dict with `'func'` is callable; a function is not |
| Scenarios.AttributeOfNoneRaises | calldict/__init__.py:130-135 | `a[b].test` over `{'a': {'b': None}}` raises AttributeError |
| Scenarios.OversizedLeadingDigits | calldict/__init__.py:129-135 | `SharedValue('9999999999999999999x')` raises ValueError when resolved, whatever the shared data, though the name is not a number |
| Scenarios.ParseItemThenAttr | calldict/__init__.py:131-132 | `a[b].test` parses to the leading name `a`, the item `b` and the attribute `test` |
| Scenarios.ForeignObjectShared | calldict/__init__.py:111-128 | a dict holding an outside object at index 1 is copied to index 2, and the copy holds that same object |
| Scenarios.ForeignObjectSharedLegacy | __init__.py:31-34 | the legacy copy of `[obj, [1]]` copies the inner list to 3 and the outer list to 4, and shares `obj` |
| Scenarios.MissingKeyKeepsReference | calldict/__init__.py:130-135 | `a[b].test` with no key `'b'` comes back as the same reference |

## Left out

- The `__main__` YAML demos in both files. They are I/O, a YAML loader and module lookup by `__import__`.
- What the called functions do. A callee is an opaque parameter. It can allocate new objects but cannot change existing ones or the shared data.
- The deprecation warnings and the `sharedData` alias of `eval`. They only emit warnings. The deprecated `callable(data)` that `eval` uses is modelled as `is_callable`.
- `SharedValue.__repr__` in both files, which is string formatting of `object.__repr__`.
- The `sys.path` change in the legacy file.
- The legacy mutable default `sharedData={}`. The shared data is always passed explicitly.
- `SharedValue.__deepcopy__`. A `SharedValue` is an immutable value in this model, so its deep copy is the value itself.
- `getattr` on arbitrary objects. Attributes come only from `SharedValue` and record-like objects. Functions, dicts and lists have none here.
- SharedValues.GetAttr: a reference answers only `name` itself. Python's normal attribute lookup runs before `__getattr__`, so `shared.__class__`, `shared.__dict__`, `shared.__init__` and the other attributes `object` defines give the class, the instance dict or a bound method, which have no counterpart among the model's values; the model extends the reference for them instead.
- Arenas that are not closed. Every lemma about where an index points, and the entry points' closure promise, are stated for closed arenas and called functions that return only objects of the arena or objects they made, as Python guarantees; an index past the end of the arena stands for no Python object.
- Records that answer `items`, `iteritems` or `keys`. Records are never mappings here.
- Subclasses of `dict` and `list`. `type(data)()` is always a plain dict.
- Python's recursion limit as a number. It is a depth budget `fuel`, passed in.
- Python 2 dict iteration order. `iteritems` follows the order of the entry list.
- Unicode details. Strings are `seq<char>`.
- Bool/int key collisions. `True`/`False` are keyed as 1/0 when hashed, but dict entries are compared by key constructor.
- CallDictProps.ContainerEntry: states where each entry came from only for containers whose keys are unique, as a real dict's or a list's are.
- CallDictProps.ContainerChild: stated only for containers whose keys are unique.
- CallDictProps.SelfReferencePreserved: stated only for containers whose keys are unique.
- LegacyCallProps.DictResult: requires the input dict's keys to be unique and no `'func'` key.
- InvocationProps.CallsOnce: stated only for invocations whose `func` is a function and whose arguments are already values, so they need no evaluation of their own.
- InvocationProps.InvokedOnEveryVisit: stated only for invocations like those of `CallsOnce`.
- CallDictProps.NoRecursionError: stated only for structures made of plain dicts and lists. An invocation inside a cycle recurses without end, because invocations are not memoized.
- LegacyCallProps.SelfContainingList: shown only for a list whose first item is itself. Any cycle recurses without end in the same way.
