/** `SharedValue`: a name/path descriptor into the shared data. Attribute access on a
    SharedValue extends its name; resolving it runs `string.Formatter().get_field(name,
    [], shared_data)`, i.e. the PEP 3101 field walk with no positional arguments and the
    shared data as keyword arguments. */
module SharedValues {
  import opened PyValues
  import opened FieldNames

  /** `SharedValue.__getattr__(name)`: the root (name None) gives `attr` itself,
      a named value gives `name + '.' + attr`. The receiver is an immutable value, so it
      is left unchanged. */
  function Extend(name: Option<string>, attr: string): Option<string>
  {
    if name.None? then Some(attr) else Some(name.value + "." + attr)
  }

  /** An attribute name that `Extend` can append as a single field segment. */
  predicate PlainAttr(a: string)
  {
    a != [] && forall k :: 0 <= k < |a| ==> !IsSep(a[k])
  }

  /** `getattr(obj, a)`. On a SharedValue, `name` is its real attribute and every other
      name goes through `__getattr__`; a record answers from its attributes. */
  function GetAttr(h: Heap, obj: Value, a: string): (r: Result<Value>)
    ensures r.Err? ==> r.exc == AttributeError
    ensures obj.Shared? && a != "name" ==> r == Ok(Shared(Extend(obj.name, a)))
    ensures obj.Ptr? && obj.id < |h| && h[obj.id].Record? ==>
              (r.Ok? <==> a in h[obj.id].attrs)
    ensures obj.Ptr? && obj.id < |h| && h[obj.id].Record? && a in h[obj.id].attrs ==>
              r == Ok(h[obj.id].attrs[a])
    ensures !obj.Shared? && !(obj.Ptr? && obj.id < |h| && h[obj.id].Record?) ==>
              r == Err(AttributeError)
  {
    match obj
    case Shared(n) =>
      if a == "name" then Ok(if n.None? then NoneValue else Str(n.value))
      else Ok(Shared(Extend(n, a)))
    case Ptr(id) =>
      (match Deref(h, id)
       case Some(Record(attrs)) => if a in attrs then Ok(attrs[a]) else Err(AttributeError)
       case _ => Err(AttributeError))
    case _ => Err(AttributeError)
  }

  /** Python's sequence indexing, negative indexes counting from the end. */
  function IndexIn<T>(xs: seq<T>, k: Key): (r: Result<T>)
    ensures r.Ok? ==> r.value in xs
    ensures k.KInt? && 0 <= k.i < |xs| ==> r == Ok(xs[k.i])
    ensures k.KInt? && (k.i >= |xs| || k.i < -|xs|) ==> r == Err(IndexError)
    ensures !k.KInt? ==> r == Err(TypeError)
  {
    if !k.KInt? then Err(TypeError)
    else if 0 <= k.i < |xs| then Ok(xs[k.i])
    else if -|xs| <= k.i < 0 then Ok(xs[|xs| + k.i])
    else Err(IndexError)
  }

  /** `obj[k]`: dicts look the key up (KeyError when absent), lists and strings index
      (IndexError when out of range, TypeError for a non-integer key), anything else is
      not subscriptable (TypeError). */
  function GetItem(h: Heap, obj: Value, k: Key): (r: Result<Value>)
    ensures r == Err(KeyError) <==> obj.Ptr? && obj.id < |h| && h[obj.id].Dict? &&
                                    k !in Keys(h[obj.id].entries)
    ensures obj.Ptr? && obj.id < |h| && h[obj.id].Dict? && k in Keys(h[obj.id].entries) ==>
              r == Ok(Find(h[obj.id].entries, k).value)
    ensures r.Err? ==> r.exc in {KeyError, IndexError, TypeError}
  {
    match obj
    case Str(s) =>
      (match IndexIn(s, k) case Ok(c) => Ok(Str([c])) case Err(e) => Err(e))
    case Ptr(id) =>
      (match Deref(h, id)
       case Some(Dict(es)) => (match Find(es, k) case Some(v) => Ok(v) case None => Err(KeyError))
       case Some(List(xs)) => IndexIn(xs, k)
       case _ => Err(TypeError))
    case _ => Err(TypeError)
  }

  /** One segment of the walk; an item's key text is read as a key only here, so a key of
      too many digits raises ValueError when the walk reaches it. */
  function Step(h: Heap, obj: Value, g: Segment): Result<Value>
  {
    match g
    case Attr(a) => GetAttr(h, obj, a)
    case Item(t) => (match IndexKey(t) case Err(e) => Err(e) case Ok(k) => GetItem(h, obj, k))
  }

  /** The `for is_attr, i in rest` loop of `get_field`: stops at the first exception. */
  function Walk(h: Heap, obj: Value, segs: seq<Segment>): (r: Result<Value>)
    ensures r.Err? ==> r.exc in {KeyError, IndexError, TypeError, AttributeError, ValueError}
    decreases |segs|
  {
    if segs == [] then Ok(obj)
    else
      match Step(h, obj, segs[0])
      case Err(e) => Err(e)
      case Ok(o) => Walk(h, o, segs[1..])
  }

  /** `string.Formatter().get_field(name, [], shared_data)[0]`. A name of None is not a
      string (TypeError); a leading digit run too large for an index is a ValueError; an
      all-digit leading name indexes the empty positional list (IndexError); a missing
      leading name is a KeyError; a malformed segment is a ValueError raised once the walk
      reaches it. */
  function GetField(h: Heap, ctx: map<Key, Value>, name: Option<string>): (r: Result<Value>)
    ensures name.None? ==> r == Err(TypeError)
    ensures name.Some? && Parse(name.value).first.Err? ==> r == Err(ValueError)
    ensures name.Some? && Parse(name.value).first.Ok? && Parse(name.value).first.value.KInt? ==>
              r == Err(IndexError)
    ensures (name.Some? && Parse(name.value).first.Ok? && Parse(name.value).first.value.KStr? &&
             Parse(name.value).first.value !in ctx) ==> r == Err(KeyError)
    ensures r.Err? ==> r.exc in {KeyError, IndexError, TypeError, AttributeError, ValueError}
  {
    if name.None? then Err(TypeError)
    else
      var f := Parse(name.value);
      match f.first
      case Err(e) => Err(e)
      case Ok(first) =>
        if first.KInt? then Err(IndexError)
        else if first !in ctx then Err(KeyError)
        else
          match Walk(h, ctx[first], f.segs)
          case Err(e) => Err(e)
          case Ok(o) => if f.malformed then Err(ValueError) else Ok(o)
  }

  /** The SharedValue branch of `eval`/`call`: a KeyError anywhere in the walk gives the
      SharedValue back unresolved; every other exception propagates. */
  function Resolve(h: Heap, ctx: map<Key, Value>, name: Option<string>): (r: Result<Value>)
    ensures GetField(h, ctx, name) == Err(KeyError) ==> r == Ok(Shared(name))
    ensures GetField(h, ctx, name).Ok? ==> r == GetField(h, ctx, name)
    ensures r.Err? <==> GetField(h, ctx, name).Err? && GetField(h, ctx, name).exc != KeyError
    ensures r.Err? ==> r.exc in {IndexError, TypeError, AttributeError, ValueError}
  {
    match GetField(h, ctx, name)
    case Err(KeyError) => Ok(Shared(name))
    case r => r
  }

  // ---------------------------------------------------------------------------------
  // Attribute extension appends exactly one attribute segment to the field path.

  lemma {:induction false} AttrEndAppend(s: string, u: string, i: nat)
    requires i <= |s|
    requires u != [] && IsSep(u[0])
    ensures AttrEnd(s + u, i) == AttrEnd(s, i)
    decreases |s| - i
  {
    if i < |s| && !IsSep(s[i]) {
      AttrEndAppend(s, u, i + 1);
    }
  }

  lemma {:induction false} CloseAtAppend(s: string, u: string, i: nat)
    requires i <= |s|
    requires CloseAt(s, i).Some?
    ensures CloseAt(s + u, i) == CloseAt(s, i)
    decreases |s| - i
  {
    if s[i] != ']' {
      CloseAtAppend(s, u, i + 1);
    }
  }

  /** A segment keeps its meaning when the field name goes on after it. */
  lemma HeadAppend(s: string, u: string)
    requires s != [] && Head(s).Some?
    requires u == [] || IsSep(u[0])
    ensures Head(s + u) == Head(s)
  {
    if u == [] {
      assert s + u == s;
    } else if s[0] == '.' {
      AttrEndAppend(s, u, 1);
      var j := AttrEnd(s, 1);
      assert (s + u)[1..j] == s[1..j];
    } else {
      CloseAtAppend(s, u, 1);
      var j := CloseAt(s, 1).value;
      assert (s + u)[1..j] == s[1..j];
    }
  }

  lemma ParseRestLastAttr(a: string)
    requires PlainAttr(a)
    ensures ParseRest("." + a) == ([Attr(a)], false)
  {
    var u := "." + a;
    assert AttrEnd(u, 1) == |u|;
    assert u[1..|u|] == a;
    assert Head(u) == Some((Attr(a), |u|));
    assert u[|u|..] == [];
    assert [Attr(a)] + [] == [Attr(a)];
  }

  /** `[k]` opens with '[' and closes at its last character. */
  lemma BracketCloses(k: string)
    requires k != [] && forall i :: 0 <= i < |k| ==> k[i] != ']'
    ensures var u := "[" + k + "]";
            u[0] == '[' && CloseAt(u, 1) == Some(|k| + 1) && u[1..|k| + 1] == k
  {
    var u := "[" + k + "]";
    assert forall m :: 1 <= m < |k| + 1 ==> u[m] == k[m - 1];
    CloseAtFrom(u, 1, |k| + 1);
  }

  /** `[k]` on its own: one item segment. */
  lemma ParseRestLastItem(k: string)
    requires k != [] && forall i :: 0 <= i < |k| ==> k[i] != ']'
    ensures ParseRest("[" + k + "]") == ([Item(k)], false)
  {
    var u := "[" + k + "]";
    BracketCloses(k);
    assert Head(u) == Some((Item(k), |u|));
    ParseRestStep(u);
    assert u[|u|..] == [];
    assert [Item(k)] + [] == [Item(k)];
  }

  lemma {:induction false} CloseAtFrom(s: string, i: nat, j: nat)
    requires i <= j < |s| && s[j] == ']' && forall m :: i <= m < j ==> s[m] != ']'
    ensures CloseAt(s, i) == Some(j)
    decreases j - i
  {
    if i < j {
      CloseAtFrom(s, i + 1, j);
    }
  }

  /** The segments of two pieces of a field name: a well-formed first piece followed by a
      piece that starts a new segment parse to the segments of both. */
  lemma {:induction false} ParseRestConcat(s: string, u: string)
    requires !ParseRest(s).1
    requires u == [] || IsSep(u[0])
    ensures ParseRest(s + u) == (ParseRest(s).0 + ParseRest(u).0, ParseRest(u).1)
    decreases |s|, 1
  {
    if u == [] {
      assert s + u == s;
      assert ParseRest(s).0 + [] == ParseRest(s).0;
    } else if s == [] {
      assert s + u == u;
      assert [] + ParseRest(u).0 == ParseRest(u).0;
    } else {
      ParseRestConcatStep(s, u);
    }
  }

  lemma SegmentsAssoc(a: seq<Segment>, b: seq<Segment>, c: seq<Segment>)
    ensures a + (b + c) == (a + b) + c
  {
  }

  lemma DropAppend(s: string, u: string, n: nat)
    requires n <= |s|
    ensures (s + u)[n..] == s[n..] + u
  {
  }

  lemma TakeAppend(s: string, u: string, n: nat)
    requires n <= |s|
    ensures (s + u)[..n] == s[..n]
  {
  }

  /** One step of the segment parse: the head segment, then the parse of what follows. */
  lemma ParseRestStep(s: string)
    requires s != [] && Head(s).Some?
    ensures var n := Head(s).value.1;
            ParseRest(s) == ([Head(s).value.0] + ParseRest(s[n..]).0, ParseRest(s[n..]).1)
  {
  }

  /** The head segment of a well-formed rest, and the parses before and after appending
      `u` in terms of what follows it. */
  lemma ParseRestHeadAppend(s: string, u: string) returns (g: Segment, n: nat)
    requires s != [] && !ParseRest(s).1
    requires u != [] && IsSep(u[0])
    ensures 0 < n <= |s| && !ParseRest(s[n..]).1
    ensures ParseRest(s) == ([g] + ParseRest(s[n..]).0, ParseRest(s[n..]).1)
    ensures ParseRest(s + u) == ([g] + ParseRest(s[n..] + u).0, ParseRest(s[n..] + u).1)
  {
    assert Head(s).Some?;
    g, n := Head(s).value.0, Head(s).value.1;
    HeadAppend(s, u);
    ParseRestStep(s);
    ParseRestStep(s + u);
    DropAppend(s, u, n);
  }

  lemma {:induction false} ParseRestConcatStep(s: string, u: string)
    requires s != [] && !ParseRest(s).1
    requires u != [] && IsSep(u[0])
    ensures ParseRest(s + u) == (ParseRest(s).0 + ParseRest(u).0, ParseRest(u).1)
    decreases |s|, 0
  {
    var g, n := ParseRestHeadAppend(s, u);
    ParseRestConcat(s[n..], u);
    SegmentsAssoc([g], ParseRest(s[n..]).0, ParseRest(u).0);
  }

  /** The field name split at the end of its leading name. */
  lemma ParseSplit(s: string)
    ensures var k := AttrEnd(s, 0);
            Parse(s) == Field(IndexKey(s[..k]), ParseRest(s[k..]).0, ParseRest(s[k..]).1)
  {
  }

  /** A well-formed field name followed by a piece that starts a new segment: the same
      leading name, then the segments of both pieces. */
  lemma ParseConcat(n: string, u: string)
    requires !Parse(n).malformed
    requires u != [] && IsSep(u[0])
    ensures Parse(n + u) == Field(Parse(n).first, Parse(n).segs + ParseRest(u).0, ParseRest(u).1)
  {
    var s := n + u;
    var k := AttrEnd(n, 0);
    AttrEndAppend(n, u, 0);
    ParseSplit(n);
    ParseSplit(s);
    TakeAppend(n, u, k);
    DropAppend(n, u, k);
    ParseRestConcat(n[k..], u);
  }

  /** A well-formed field name extended by a plain attribute parses to the same leading
      name followed by the old segments and one new attribute segment. */
  lemma ParseExtend(n: string, a: string)
    requires !Parse(n).malformed
    requires PlainAttr(a)
    ensures Extend(Some(n), a).Some?
    ensures Parse(Extend(Some(n), a).value) ==
              Field(Parse(n).first, Parse(n).segs + [Attr(a)], false)
  {
    assert Extend(Some(n), a).value == n + ("." + a);
    ParseConcat(n, "." + a);
    ParseRestLastAttr(a);
  }

  /** A well-formed field name followed by `[k]` parses to the same leading name, the old
      segments and one item segment. */
  lemma ParseIndexed(n: string, k: string)
    requires !Parse(n).malformed
    requires k != [] && forall i :: 0 <= i < |k| ==> k[i] != ']'
    ensures Parse(n + "[" + k + "]") == Field(Parse(n).first, Parse(n).segs + [Item(k)], false)
  {
    assert n + "[" + k + "]" == n + ("[" + k + "]");
    ParseConcat(n, "[" + k + "]");
    ParseRestLastItem(k);
  }

  lemma {:induction false} WalkAppend(h: Heap, obj: Value, segs: seq<Segment>, g: Segment)
    ensures Walk(h, obj, segs + [g]) ==
              match Walk(h, obj, segs) case Err(e) => Err(e) case Ok(o) => Step(h, o, g)
    decreases |segs|
  {
    if segs == [] {
      assert [g][1..] == [];
    } else {
      assert (segs + [g])[0] == segs[0];
      assert (segs + [g])[1..] == segs[1..] + [g];
      match Step(h, obj, segs[0])
      case Err(e) =>
      case Ok(o) => WalkAppend(h, o, segs[1..], g);
    }
  }

  /** Resolving `v.a` (a named SharedValue extended by attribute access) is resolving `v`
      and then reading attribute `a` of the result. */
  lemma ResolveExtended(h: Heap, ctx: map<Key, Value>, n: string, a: string)
    requires !Parse(n).malformed
    requires PlainAttr(a)
    ensures GetField(h, ctx, Extend(Some(n), a)) ==
              match GetField(h, ctx, Some(n))
              case Err(e) => Err(e)
              case Ok(o) => GetAttr(h, o, a)
  {
    ParseExtend(n, a);
    var f := Parse(n);
    if f.first.Ok? && !f.first.value.KInt? && f.first.value in ctx {
      WalkAppend(h, ctx[f.first.value], f.segs, Attr(a));
    }
  }

  /** Resolving `v[k]` is resolving `v` and then subscripting the result with the key `k`
      spells; a `k` of too many digits raises ValueError once `v` has been resolved. */
  lemma ResolveIndexed(h: Heap, ctx: map<Key, Value>, n: string, k: string)
    requires !Parse(n).malformed
    requires k != [] && forall i :: 0 <= i < |k| ==> k[i] != ']'
    ensures GetField(h, ctx, Some(n + "[" + k + "]")) ==
              match GetField(h, ctx, Some(n))
              case Err(e) => Err(e)
              case Ok(o) =>
                match IndexKey(k)
                case Err(e) => Err(e)
                case Ok(key) => GetItem(h, o, key)
  {
    ParseIndexed(n, k);
    var f := Parse(n);
    if f.first.Ok? && !f.first.value.KInt? && f.first.value in ctx {
      WalkAppend(h, ctx[f.first.value], f.segs, Item(k));
    }
  }

  /** `shared.a` for a plain, non-numeric `a` resolves to the shared-data entry `a`,
      or gives itself back when that entry is missing; a name that starts with a digit
      run beyond `SSIZE_MAX` raises ValueError instead. */
  lemma ResolveRootAttribute(h: Heap, ctx: map<Key, Value>, a: string)
    requires PlainAttr(a) && !IsDigits(a)
    ensures Extend(None, a) == Some(a)
    ensures Resolve(h, ctx, Some(a)) ==
              if DecimalValue(LeadingDigits(a)) > SSIZE_MAX then Err(ValueError)
              else if KStr(a) in ctx then Ok(ctx[KStr(a)]) else Ok(Shared(Some(a)))
  {
    assert AttrEnd(a, 0) == |a|;
    assert a[..|a|] == a;
    assert a[|a|..] == [];
    assert Parse(a) == Field(IndexKey(a), [], false);
  }
}
