/** The metadata normaliser `clean_metadata_for_json`: values as the image,
    video and audio decoders hand them over, and the recursive conversion of
    such a value into one the JSON encoder accepts. */
module MetadataCleaning {
  import opened Wrappers

  /** A dictionary key: a metadata field name, or an EXIF tag number. */
  datatype Key = StrKey(s: string) | IntKey(n: int)

  /** One key/value pair of a dictionary. */
  datatype Entry = Entry(key: Key, val: Value)

  /** A value reaching the normaliser, tagged by the type or capability that
      the normaliser tests for. */
  datatype Value =
    | Dict(entries: seq<Entry>)    // a dict, in insertion order
    | List(items: seq<Value>)
    | Tuple(items: seq<Value>)
    | Rational(num: int, den: int) // any other object with numerator and denominator (IFDRational, Fraction)
    | ExifCarrier(exif: Value)     // an object with `_getexif`; `exif` is what that call returns
    | Int(i: int)
    | Bool(b: bool)
    | Float(f: real)
    | Str(s: string)
    | Null
    | Opaque(repr: string)         // anything else; `repr` is what `str` makes of it

  /** The message of the ZeroDivisionError that `float(n) / float(0)` raises. */
  const ZeroDivision: string := "float division by zero"

  function Keys(es: seq<Entry>): seq<Key> {
    seq(|es|, i requires 0 <= i < |es| => es[i].key)
  }

  /** No key occurs twice, as in every Python dict. */
  predicate UniqueKeys(es: seq<Entry>) {
    forall i, j :: 0 <= i < j < |es| ==> es[i].key != es[j].key
  }

  /** Every dictionary inside `v` has unique keys. */
  predicate WellFormed(v: Value) {
    match v
    case Dict(es) => UniqueKeys(es) && forall i :: 0 <= i < |es| ==> WellFormed(es[i].val)
    case List(xs) => forall i :: 0 <= i < |xs| ==> WellFormed(xs[i])
    case Tuple(xs) => forall i :: 0 <= i < |xs| ==> WellFormed(xs[i])
    case ExifCarrier(x) => WellFormed(x)
    case _ => true
  }

  /** Built only from dicts, lists, floats, strings and None. */
  predicate JsonSafe(v: Value) {
    match v
    case Dict(es) => forall i :: 0 <= i < |es| ==> JsonSafe(es[i].val)
    case List(xs) => forall i :: 0 <= i < |xs| ==> JsonSafe(xs[i])
    case Float(_) => true
    case Str(_) => true
    case Null => true
    case _ => false
  }

  /** Somewhere inside `v`, reachable by the normaliser, is a rational with
      denominator zero. */
  predicate HasZeroDenominator(v: Value) {
    match v
    case Dict(es) => exists i :: 0 <= i < |es| && HasZeroDenominator(es[i].val)
    case List(xs) => exists i :: 0 <= i < |xs| && HasZeroDenominator(xs[i])
    case Tuple(xs) => exists i :: 0 <= i < |xs| && HasZeroDenominator(xs[i])
    case Rational(_, d) => d == 0
    case ExifCarrier(x) => HasZeroDenominator(x)
    case _ => false
  }

  /** `float(numerator) / float(denominator)`, with real division standing for
      the floating-point one. */
  function Divide(num: int, den: int): (r: Result<Value>)
    ensures r.Err? <==> den == 0
    ensures r.Err? ==> r.msg == ZeroDivision
    ensures r.Ok? ==> r.value.Float? && r.value.f * den as real == num as real
  {
    if den == 0 then Err(ZeroDivision) else Ok(Float(num as real / den as real))
  }

  /** `clean_metadata_for_json`. The branches are tried in the source's order:
      dict, list or tuple, numerator and denominator, `_getexif`, primitive,
      anything else. Python's int and bool have a numerator and a denominator
      (bool's are those of 0 and 1), so they take the third branch. */
  function Clean(v: Value): (r: Result<Value>)
    ensures r.Ok? ==> JsonSafe(r.value)
    ensures r.Err? ==> r.msg == ZeroDivision
    decreases v
  {
    match v
    case Dict(es) =>
      (match CleanEntries(es)
       case Ok(cs) => Ok(Dict(cs))
       case Err(m) => Err(m))
    case List(xs) =>
      (match CleanItems(xs)
       case Ok(cs) => Ok(List(cs))
       case Err(m) => Err(m))
    case Tuple(xs) =>
      (match CleanItems(xs)
       case Ok(cs) => Ok(List(cs))
       case Err(m) => Err(m))
    case Rational(n, d) => Divide(n, d)
    case Int(i) => Divide(i, 1)
    case Bool(b) => Divide(if b then 1 else 0, 1)
    case ExifCarrier(x) => Clean(x)
    case Float(_) => Ok(v)
    case Str(_) => Ok(v)
    case Null => Ok(v)
    case Opaque(repr) => Ok(Str(repr))
  }

  /** The dict comprehension: values are cleaned in insertion order and the
      first exception ends it. */
  function CleanEntries(es: seq<Entry>): (r: Result<seq<Entry>>)
    ensures r.Ok? ==> Keys(r.value) == Keys(es)
    ensures r.Ok? ==> forall i :: 0 <= i < |r.value| ==> JsonSafe(r.value[i].val)
    ensures r.Err? ==> r.msg == ZeroDivision
    decreases es
  {
    if es == [] then Ok([])
    else
      var e := es[0];
      assert e.val < e;
      match Clean(e.val)
      case Err(m) => Err(m)
      case Ok(c) =>
        match CleanEntries(es[1..])
        case Err(m) => Err(m)
        case Ok(cs) =>
          assert Keys([Entry(e.key, c)] + cs) == [e.key] + Keys(cs);
          assert Keys(es) == [e.key] + Keys(es[1..]);
          Ok([Entry(e.key, c)] + cs)
  }

  /** The list comprehension over a list or a tuple. */
  function CleanItems(xs: seq<Value>): (r: Result<seq<Value>>)
    ensures r.Ok? ==> |r.value| == |xs|
    ensures r.Ok? ==> forall i :: 0 <= i < |r.value| ==> JsonSafe(r.value[i])
    ensures r.Err? ==> r.msg == ZeroDivision
    decreases xs
  {
    if xs == [] then Ok([])
    else
      match Clean(xs[0])
      case Err(m) => Err(m)
      case Ok(c) =>
        match CleanItems(xs[1..])
        case Err(m) => Err(m)
        case Ok(cs) => Ok([c] + cs)
  }

  /** The dict comprehension succeeds exactly when every value cleans, and
      then replaces each value by its cleaned form under the same key. */
  lemma {:induction false} CleanEntriesPointwise(es: seq<Entry>)
    ensures CleanEntries(es).Ok? <==> forall i :: 0 <= i < |es| ==> Clean(es[i].val).Ok?
    ensures CleanEntries(es).Ok? ==>
      forall i :: 0 <= i < |es| ==> Clean(es[i].val) == Ok(CleanEntries(es).value[i].val)
  {
    if es != [] {
      CleanEntriesPointwise(es[1..]);
      assert forall i :: 1 <= i < |es| ==> es[i] == es[1..][i - 1];
    }
  }

  /** The list comprehension succeeds exactly when every element cleans, and
      then holds the cleaned elements in order. */
  lemma {:induction false} CleanItemsPointwise(xs: seq<Value>)
    ensures CleanItems(xs).Ok? <==> forall i :: 0 <= i < |xs| ==> Clean(xs[i]).Ok?
    ensures CleanItems(xs).Ok? ==>
      forall i :: 0 <= i < |xs| ==> Clean(xs[i]) == Ok(CleanItems(xs).value[i])
  {
    if xs != [] {
      CleanItemsPointwise(xs[1..]);
      assert forall i :: 1 <= i < |xs| ==> xs[i] == xs[1..][i - 1];
    }
  }

  /** A dict cleans to a dict with the same keys in the same order, each value
      replaced by its cleaned form; it fails exactly when one of its values does. */
  lemma CleanDict(es: seq<Entry>)
    ensures Clean(Dict(es)).Ok? <==> forall i :: 0 <= i < |es| ==> Clean(es[i].val).Ok?
    ensures Clean(Dict(es)).Ok? ==>
      && Clean(Dict(es)).value.Dict?
      && Keys(Clean(Dict(es)).value.entries) == Keys(es)
      && forall i :: 0 <= i < |es| ==> Clean(es[i].val) == Ok(Clean(Dict(es)).value.entries[i].val)
  {
    CleanEntriesPointwise(es);
  }

  /** A list or a tuple cleans to a list of the same length whose element i is
      the cleaned element i; it fails exactly when one of its elements does. */
  lemma CleanSequence(v: Value)
    requires v.List? || v.Tuple?
    ensures Clean(v).Ok? <==> forall i :: 0 <= i < |v.items| ==> Clean(v.items[i]).Ok?
    ensures Clean(v).Ok? ==>
      && Clean(v).value.List?
      && |Clean(v).value.items| == |v.items|
      && forall i :: 0 <= i < |v.items| ==> Clean(v.items[i]) == Ok(Clean(v).value.items[i])
  {
    CleanItemsPointwise(v.items);
  }

  /** Ints and bools are never returned unchanged: they take the rational
      branch and come out as floats. Floats, strings and None are returned
      unchanged, an EXIF carrier is replaced by its cleaned EXIF data, and
      anything else by its string form. */
  lemma CleanLeaves(v: Value)
    ensures v.Int? ==> Clean(v) == Clean(Rational(v.i, 1)) == Ok(Float(v.i as real))
    ensures v.Bool? ==> Clean(v) == Ok(Float(if v.b then 1.0 else 0.0))
    ensures v.Int? || v.Bool? ==> Clean(v) != Ok(v)
    ensures v.ExifCarrier? ==> Clean(v) == Clean(v.exif)
    ensures v.Float? || v.Str? || v.Null? ==> Clean(v) == Ok(v)
    ensures v.Opaque? ==> Clean(v) == Ok(Str(v.repr))
    ensures v.Rational? ==> Clean(v) == Divide(v.num, v.den)
  {
  }

  /** Cleaning raises exactly when a rational with denominator zero is
      reachable in the value. */
  lemma {:induction false} CleanFailsIff(v: Value)
    ensures Clean(v).Err? <==> HasZeroDenominator(v)
    decreases v
  {
    match v
    case Dict(es) =>
      CleanEntriesPointwise(es);
      forall i | 0 <= i < |es| ensures Clean(es[i].val).Err? <==> HasZeroDenominator(es[i].val) {
        assert es[i].val < es[i];
        CleanFailsIff(es[i].val);
      }
    case List(xs) =>
      CleanItemsPointwise(xs);
      forall i | 0 <= i < |xs| ensures Clean(xs[i]).Err? <==> HasZeroDenominator(xs[i]) {
        CleanFailsIff(xs[i]);
      }
    case Tuple(xs) =>
      CleanItemsPointwise(xs);
      forall i | 0 <= i < |xs| ensures Clean(xs[i]).Err? <==> HasZeroDenominator(xs[i]) {
        CleanFailsIff(xs[i]);
      }
    case ExifCarrier(x) => CleanFailsIff(x);
    case _ =>
  }

  /** A value that is already JSON-safe is returned unchanged. */
  lemma {:induction false} CleanFixesJsonSafe(v: Value)
    requires JsonSafe(v)
    ensures Clean(v) == Ok(v)
    decreases v
  {
    match v
    case Dict(es) =>
      CleanEntriesPointwise(es);
      forall i | 0 <= i < |es| ensures Clean(es[i].val) == Ok(es[i].val) {
        assert es[i].val < es[i];
        CleanFixesJsonSafe(es[i].val);
      }
      var cs := CleanEntries(es).value;
      assert |cs| == |Keys(cs)| == |Keys(es)| == |es|;
      forall i | 0 <= i < |es| ensures cs[i] == es[i] {
        assert Keys(cs)[i] == Keys(es)[i];
      }
      assert cs == es;
    case List(xs) =>
      CleanItemsPointwise(xs);
      forall i | 0 <= i < |xs| ensures Clean(xs[i]) == Ok(xs[i]) {
        CleanFixesJsonSafe(xs[i]);
      }
      assert CleanItems(xs).value == xs;
    case _ =>
  }

  /** Cleaning twice gives what cleaning once gives. */
  lemma {:induction false} CleanIdempotent(v: Value)
    requires Clean(v).Ok?
    ensures Clean(Clean(v).value) == Clean(v)
  {
    CleanFixesJsonSafe(Clean(v).value);
  }

  /** Keys are not transformed, so a value whose dicts have unique keys cleans
      to one whose dicts have unique keys. */
  lemma {:induction false} CleanPreservesWellFormed(v: Value)
    requires WellFormed(v) && Clean(v).Ok?
    ensures WellFormed(Clean(v).value)
    decreases v
  {
    match v
    case Dict(es) =>
      CleanEntriesPointwise(es);
      var cs := CleanEntries(es).value;
      assert |cs| == |Keys(cs)| == |Keys(es)| == |es|;
      forall i | 0 <= i < |es| ensures cs[i].key == es[i].key && WellFormed(cs[i].val) {
        assert Keys(cs)[i] == Keys(es)[i];
        assert es[i].val < es[i];
        CleanPreservesWellFormed(es[i].val);
      }
    case List(xs) =>
      CleanItemsPointwise(xs);
      forall i | 0 <= i < |xs| ensures WellFormed(CleanItems(xs).value[i]) {
        CleanPreservesWellFormed(xs[i]);
      }
    case Tuple(xs) =>
      CleanItemsPointwise(xs);
      forall i | 0 <= i < |xs| ensures WellFormed(CleanItems(xs).value[i]) {
        CleanPreservesWellFormed(xs[i]);
      }
    case ExifCarrier(x) => CleanPreservesWellFormed(x);
    case _ =>
  }
}
