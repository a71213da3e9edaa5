/** The field-name grammar of PEP 3101 ("Format String Syntax") as `string.Formatter`
    splits it: a leading name up to the first '.' or '[', then a run of `.attr` and
    `[key]` segments. A key made only of decimal digits becomes an integer index.
    A run of digits too large for `Py_ssize_t` is refused with ValueError ("Too many
    decimal digits in format string"), even when other characters follow it. The leading
    name is split eagerly, so a leading name that starts with a digit run that is too
    large raises at once. The split of the segments is lazy: a malformed segment, or a
    key that starts with too many digits, raises ValueError only when the walk reaches
    it, so a parse records the well-formed segments with each key still as text, and
    whether a malformed rest follows them. */
module FieldNames {
  import opened PyValues

  /** An `.attr` segment, or a `[key]` segment holding the key's text: the text becomes a
      key (`IndexKey`) only when the walk reaches the segment. */
  datatype Segment = Attr(name: string) | Item(text: string)

  /** `first` (the leading key, or the ValueError its digits raise), the well-formed
      segments that follow it, and whether a malformed segment (ValueError) comes after
      them. */
  datatype Field = Field(first: Result<Key>, segs: seq<Segment>, malformed: bool)

  /** `PY_SSIZE_T_MAX` on a 64-bit build: the largest index a field name may spell. */
  const SSIZE_MAX: int := 0x7fff_ffff_ffff_ffff

  predicate IsSep(c: char) { c == '.' || c == '[' }

  predicate IsDigits(s: string)
  {
    |s| > 0 && forall k :: 0 <= k < |s| ==> '0' <= s[k] <= '9'
  }

  /** A segment as the parser can produce it. */
  predicate WellFormed(g: Segment)
  {
    match g
    case Attr(n) => n != [] && forall k :: 0 <= k < |n| ==> !IsSep(n[k])
    case Item(t) => t != [] && forall k :: 0 <= k < |t| ==> t[k] != ']'
  }

  /** The first index at or after `i` holding '.' or '[', or the end of `s`. */
  function AttrEnd(s: string, i: nat): (j: nat)
    requires i <= |s|
    ensures i <= j <= |s|
    ensures forall k :: i <= k < j ==> !IsSep(s[k])
    ensures j < |s| ==> IsSep(s[j])
    decreases |s| - i
  {
    if i == |s| || IsSep(s[i]) then i else AttrEnd(s, i + 1)
  }

  /** The first index at or after `i` holding ']', if any. */
  function CloseAt(s: string, i: nat): (r: Option<nat>)
    requires i <= |s|
    ensures r.Some? ==> i <= r.value < |s| && s[r.value] == ']'
    ensures forall k :: i <= k < (if r.Some? then r.value else |s|) ==> s[k] != ']'
    decreases |s| - i
  {
    if i == |s| then None else if s[i] == ']' then Some(i) else CloseAt(s, i + 1)
  }

  function DecimalValue(s: string): nat
    requires forall k :: 0 <= k < |s| ==> '0' <= s[k] <= '9'
  {
    if s == [] then 0
    else DecimalValue(s[..|s| - 1]) * 10 + (s[|s| - 1] as int - '0' as int)
  }

  /** The longest prefix of `s` made of decimal digits. */
  function LeadingDigits(s: string): (d: string)
    ensures |d| <= |s| && d == s[..|d|]
    ensures forall k :: 0 <= k < |d| ==> '0' <= d[k] <= '9'
    ensures |d| < |s| ==> !('0' <= s[|d|] <= '9')
    ensures IsDigits(s) ==> d == s
  {
    if s == [] || !('0' <= s[0] <= '9') then []
    else
      var t := LeadingDigits(s[1..]);
      assert IsDigits(s) && |s| > 1 ==> IsDigits(s[1..]);
      [s[0]] + t
  }

  /** A name or key as `get_integer` reads it. The digits at its start are accumulated one
      by one, and a value above `SSIZE_MAX` raises ValueError before anything after them
      is looked at; otherwise text that is all digits is an integer key and any other text
      is a string key. */
  function IndexKey(s: string): (k: Result<Key>)
    ensures k.Err? <==> DecimalValue(LeadingDigits(s)) > SSIZE_MAX
    ensures k.Err? ==> k.exc == ValueError
    ensures k.Ok? && k.value.KInt? <==> IsDigits(s) && DecimalValue(s) <= SSIZE_MAX
    ensures k.Ok? && k.value.KInt? ==> k.value.i == DecimalValue(s)
    ensures !IsDigits(s) && DecimalValue(LeadingDigits(s)) <= SSIZE_MAX ==> k == Ok(KStr(s))
  {
    if DecimalValue(LeadingDigits(s)) > SSIZE_MAX then Err(ValueError)
    else if IsDigits(s) then Ok(KInt(DecimalValue(s)))
    else Ok(KStr(s))
  }

  /** Appending digits never lowers the value of a digit run. */
  lemma {:induction false} DecimalValueGrows(d: string, e: string)
    requires forall k :: 0 <= k < |d| ==> '0' <= d[k] <= '9'
    requires forall k :: 0 <= k < |e| ==> '0' <= e[k] <= '9'
    ensures DecimalValue(d) <= DecimalValue(d + e)
    decreases |e|
  {
    if e != [] {
      var e' := e[..|e| - 1];
      assert (d + e)[..|d + e| - 1] == d + e';
      DecimalValueGrows(d, e');
      calc {
        DecimalValue(d + e);
        DecimalValue(d + e') * 10 + ((d + e)[|d + e| - 1] as int - '0' as int);
      >=
        DecimalValue(d + e');
      }
    } else {
      assert d + e == d;
    }
  }

  /** A digit run above `SSIZE_MAX` is refused whatever follows it: `get_integer` raises
      on the digit that overflows, before it reaches the rest of the text. */
  lemma IndexKeyOverflow(d: string, t: string)
    requires IsDigits(d) && DecimalValue(d) > SSIZE_MAX
    ensures IndexKey(d + t) == Err(ValueError)
  {
    var s := d + t;
    var lead := LeadingDigits(s);
    assert |d| <= |lead|;
    assert lead == d + lead[|d|..] by {
      assert lead[..|d|] == s[..|d|] == d;
    }
    DecimalValueGrows(d, lead[|d|..]);
  }

  /** The segment at the start of `s` and the length it spans, or None when `s` does not
      start with a well-formed segment: an empty attribute, an unclosed or empty `[]`,
      or anything but '.' or '[' after a segment. */
  function Head(s: string): (r: Option<(Segment, nat)>)
    requires s != []
    ensures r.Some? ==> 0 < r.value.1 <= |s| && WellFormed(r.value.0)
  {
    if s[0] == '.' then
      var j := AttrEnd(s, 1);
      if j == 1 then None else Some((Attr(s[1..j]), j))
    else if s[0] == '[' then
      match CloseAt(s, 1)
      case None => None
      case Some(j) =>
        if j == 1 then None
        else
          assert forall i :: 0 <= i < |s[1..j]| ==> s[1..j][i] != ']';
          Some((Item(s[1..j]), j + 1))
    else None
  }

  /** The segments of `s`, which starts where the leading name ended. */
  function ParseRest(s: string): (r: (seq<Segment>, bool))
    ensures forall g :: g in r.0 ==> WellFormed(g)
    ensures s == [] ==> r == ([], false)
    decreases |s|
  {
    if s == [] then ([], false)
    else
      match Head(s)
      case None => ([], true)
      case Some((g, n)) =>
        var t := ParseRest(s[n..]);
        ([g] + t.0, t.1)
  }

  /** `_string.formatter_field_name_split(s)`. */
  function Parse(s: string): (f: Field)
    ensures forall g :: g in f.segs ==> WellFormed(g)
    ensures f.first == IndexKey(s[..AttrEnd(s, 0)])
    ensures var lead := s[..AttrEnd(s, 0)];
            f.first == Err(ValueError) <==> DecimalValue(LeadingDigits(lead)) > SSIZE_MAX
  {
    var n := AttrEnd(s, 0);
    var t := ParseRest(s[n..]);
    Field(IndexKey(s[..n]), t.0, t.1)
  }
}
