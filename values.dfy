/** PHP values as the projector sees them: scalars, ordered arrays (integer or
    string keys, in insertion order) and objects, whose `(array)` cast gives
    the same ordered entries. */
module Values {
  import opened Fields

  datatype Key = IntKey(i: int) | StrKey(s: string)

  datatype Value =
    | Null
    | Bool(b: bool)
    | Int(i: int)
    | Str(s: string)
    | Arr(entries: seq<(Key, Value)>)
    | Obj(props: seq<(Key, Value)>)

  /** `(array)` applied to an object; any other value is left alone. Only the
      outer object is converted: objects nested inside it stay objects. */
  function Normalize(v: Value): (r: Value)
    ensures !r.Obj?
    ensures v.Obj? ==> r == Arr(v.props)
    ensures !v.Obj? ==> r == v
  {
    if v.Obj? then Arr(v.props) else v
  }

  function Keys(es: seq<(Key, Value)>): (ks: seq<Key>)
    ensures |ks| == |es|
    ensures forall k | 0 <= k < |es| :: ks[k] == es[k].0
  {
    if es == [] then [] else [es[0].0] + Keys(es[1..])
  }

  predicate DistinctKeys(es: seq<(Key, Value)>) {
    forall i, j | 0 <= i < j < |es| :: es[i].0 != es[j].0
  }

  /** Position of the entry with key `k`, or `|es|` when there is none. */
  function IndexOf(es: seq<(Key, Value)>, k: Key): (n: nat)
    ensures n <= |es|
    ensures n < |es| ==> es[n].0 == k
    ensures forall j | 0 <= j < n :: es[j].0 != k
  {
    if es == [] then 0
    else if es[0].0 == k then 0
    else 1 + IndexOf(es[1..], k)
  }

  /** `$array[$k]` when the key exists. */
  function Lookup(es: seq<(Key, Value)>, k: Key): (r: Option<Value>)
    ensures r.Some? <==> k in Keys(es)
    ensures r.Some? ==> exists j | 0 <= j < |es| :: es[j] == (k, r.value)
  {
    var n := IndexOf(es, k);
    if n < |es| then Some(es[n].1) else None
  }

  /** `$array[$k] = $v`: an existing key keeps its position and gets the new
      value; a new key is appended at the end. */
  function Put(es: seq<(Key, Value)>, k: Key, v: Value): (r: seq<(Key, Value)>)
    ensures IndexOf(es, k) < |es| ==> r == es[IndexOf(es, k) := (k, v)]
    ensures IndexOf(es, k) == |es| ==> r == es + [(k, v)]
  {
    var n := IndexOf(es, k);
    if n < |es| then es[n := (k, v)] else es + [(k, v)]
  }

  lemma PutKeys(es: seq<(Key, Value)>, k: Key, v: Value)
    requires DistinctKeys(es)
    ensures DistinctKeys(Put(es, k, v))
    ensures k in Keys(Put(es, k, v))
    ensures forall x :: x in Keys(Put(es, k, v)) <==> x == k || x in Keys(es)
    ensures Lookup(Put(es, k, v), k) == Some(v)
    ensures forall x | x != k :: Lookup(Put(es, k, v), x) == Lookup(es, x)
  {
    var r := Put(es, k, v);
    var n := IndexOf(es, k);
    assert r[if n < |es| then n else |es|] == (k, v);
    forall x | x != k
      ensures Lookup(r, x) == Lookup(es, x)
    {
      if n < |es| {
        assert forall j | 0 <= j < |es| :: r[j].0 == es[j].0;
        IndexOfSameKeys(es, r, x);
      } else {
        IndexOfAppend(es, (k, v), x);
      }
    }
    forall x
      ensures x in Keys(r) <==> x == k || x in Keys(es)
    {
      if x != k {
        assert Lookup(r, x) == Lookup(es, x);
      }
    }
  }

  lemma {:induction false} IndexOfSameKeys(a: seq<(Key, Value)>, b: seq<(Key, Value)>, x: Key)
    requires |a| == |b| && forall j | 0 <= j < |a| :: a[j].0 == b[j].0
    requires IndexOf(a, x) < |a| ==> a[IndexOf(a, x)] == b[IndexOf(a, x)]
    ensures IndexOf(a, x) == IndexOf(b, x)
    ensures Lookup(a, x) == Lookup(b, x)
  {
    if a != [] && a[0].0 != x {
      IndexOfSameKeys(a[1..], b[1..], x);
    }
  }

  lemma {:induction false} IndexOfAppend(a: seq<(Key, Value)>, e: (Key, Value), x: Key)
    requires e.0 != x
    ensures IndexOf(a + [e], x) == (if IndexOf(a, x) < |a| then IndexOf(a, x) else |a| + 1)
    ensures Lookup(a + [e], x) == Lookup(a, x)
  {
    if a != [] && a[0].0 != x {
      assert (a + [e])[1..] == a[1..] + [e];
      IndexOfAppend(a[1..], e, x);
    } else if a == [] {
      assert [e][1..] == [];
    }
  }

  /** PHP's `range($low, $high)` on integers: counts up when `$low <= $high`
      and down otherwise, both ends included. */
  function PhpRange(low: int, high: int): (r: seq<int>)
    ensures |r| == (if low <= high then high - low + 1 else low - high + 1)
    ensures forall k | 0 <= k < |r| :: r[k] == (if low <= high then low + k else low - k)
    decreases if low <= high then high - low else low - high
  {
    if low == high then [low]
    else if low < high then [low] + PhpRange(low + 1, high)
    else [low] + PhpRange(low - 1, high)
  }

  function IntKeys(ns: seq<int>): (ks: seq<Key>)
    ensures |ks| == |ns|
    ensures forall k | 0 <= k < |ns| :: ks[k] == IntKey(ns[k])
  {
    if ns == [] then [] else [IntKey(ns[0])] + IntKeys(ns[1..])
  }

  /** `rest_api_fmf_is_numeric`: an array whose key list is identical to
      `range(0, count - 1)`, integers compared strictly. */
  predicate IsNumeric(v: Value) {
    v.Arr? && Keys(v.entries) == IntKeys(PhpRange(0, |v.entries| - 1))
  }

  /** The keys `0, 1, ..., n-1` in this order. */
  predicate Listed(es: seq<(Key, Value)>) {
    forall k | 0 <= k < |es| :: es[k].0 == IntKey(k)
  }

  /** A numeric array is exactly a non-empty array keyed `0, 1, ..., n-1` in
      order. The empty array is not numeric, because `range(0, -1)` is the
      two-element list `[0, -1]`; nor is any value that is not an array. */
  lemma IsNumericIff(v: Value)
    ensures IsNumeric(v) <==> v.Arr? && |v.entries| >= 1 && Listed(v.entries)
  {
    if v.Arr? {
      var es := v.entries;
      var want := IntKeys(PhpRange(0, |es| - 1));
      if |es| == 0 {
        assert |want| == 2;
      } else {
        if Listed(es) {
          assert Keys(es) == want;
        }
        if IsNumeric(v) {
          assert forall k | 0 <= k < |es| :: Keys(es)[k] == want[k];
        }
      }
    }
  }

  // ---------------------------------------------------------------------
  // Array keys from strings

  predicate IsDigit(c: char) {
    '0' <= c <= '9'
  }

  function DigitValue(c: char): (d: nat)
    requires IsDigit(c)
    ensures d <= 9
  {
    c as int - '0' as int
  }

  predicate AllDigits(s: string) {
    forall k | 0 <= k < |s| :: IsDigit(s[k])
  }

  /** The value of a string of decimal digits, most significant first. */
  function DecimalValue(s: string): (n: nat)
    requires AllDigits(s)
    decreases |s|
  {
    if s == [] then 0 else DecimalValue(s[..|s| - 1]) * 10 + DigitValue(s[|s| - 1])
  }

  /** A string PHP turns into an integer key: a decimal integer in canonical
      form, `0` or an optional `-` followed by digits without a leading zero
      (so neither `01`, `-0`, `+1` nor the empty string). */
  predicate CanonicalInt(s: string) {
    var digits := if s != [] && s[0] == '-' then s[1..] else s;
    digits != [] && AllDigits(digits) && (digits[0] == '0' ==> s == "0")
  }

  /** The key a string subscript denotes: `$a["5"]` is `$a[5]`, any other
      string stays a string key. */
  function KeyOf(name: string): (k: Key)
    ensures k.IntKey? <==> CanonicalInt(name)
    ensures k.StrKey? ==> k.s == name
  {
    if CanonicalInt(name) then
      if name[0] == '-' then IntKey(-(DecimalValue(name[1..]) as int)) else IntKey(DecimalValue(name))
    else StrKey(name)
  }

  lemma KeyOfSamples()
    ensures KeyOf("id") == StrKey("id")
    ensures KeyOf("07") == StrKey("07")
    ensures KeyOf("-0") == StrKey("-0")
    ensures KeyOf("0") == IntKey(0)
  {
    assert DecimalValue("0") == 0 by {
      assert "0"[..0] == [];
    }
  }

  // ---------------------------------------------------------------------
  // Decimal forms of integers

  function Digit(d: nat): (c: char)
    requires d <= 9
    ensures IsDigit(c) && DigitValue(c) == d
  {
    ('0' as int + d) as char
  }

  /** The decimal form of a natural number, without leading zeros. */
  function NatToString(n: nat): (s: string)
    ensures s != [] && AllDigits(s)
    ensures s[0] == '0' <==> n == 0
    ensures n == 0 ==> s == "0"
  {
    if n < 10 then [Digit(n)]
    else
      var p := NatToString(n / 10);
      assert forall k | 0 <= k < |p| :: (p + [Digit(n % 10)])[k] == p[k];
      p + [Digit(n % 10)]
  }

  /** The decimal form of an integer, `-` first when it is negative: how PHP
      writes an integer, and the form of the strings it turns into integer
      keys. */
  function IntToString(i: int): string {
    if i < 0 then "-" + NatToString(-i) else NatToString(i)
  }

  /** Reading the decimal form of `n` gives `n`. */
  lemma {:induction false} DecimalOfNat(n: nat)
    ensures DecimalValue(NatToString(n)) == n
    decreases n
  {
    var s := NatToString(n);
    if n < 10 {
      assert s[..|s| - 1] == [];
    } else {
      DecimalOfNat(n / 10);
      assert s[..|s| - 1] == NatToString(n / 10);
    }
  }

  /** Digits that do not start with `0` denote a positive number. */
  lemma {:induction false} DecimalPositive(s: string)
    requires s != [] && AllDigits(s) && s[0] != '0'
    ensures DecimalValue(s) >= 1
    decreases |s|
  {
    var p := s[..|s| - 1];
    if |s| == 1 {
      assert p == [];
    } else {
      assert p[0] == s[0];
      DecimalPositive(p);
    }
  }

  /** Writing the value of canonical digits gives the digits back. */
  lemma {:induction false} NatOfDecimal(s: string)
    requires s != [] && AllDigits(s) && (s[0] == '0' ==> s == "0")
    ensures NatToString(DecimalValue(s)) == s
    decreases |s|
  {
    var p := s[..|s| - 1];
    var last := s[|s| - 1];
    if |s| == 1 {
      assert p == [];
      assert Digit(DigitValue(last)) == last;
      assert s == [last];
    } else {
      assert p[0] == s[0];
      DecimalPositive(p);
      NatOfDecimal(p);
      var n := DecimalValue(s);
      assert n / 10 == DecimalValue(p) && n % 10 == DigitValue(last);
      assert Digit(DigitValue(last)) == last;
      assert s == p + [last];
    }
  }

  /** The decimal form of `i` denotes the integer key `i`. */
  lemma KeyOfIntToString(i: int)
    ensures KeyOf(IntToString(i)) == IntKey(i)
  {
    var name := IntToString(i);
    if i < 0 {
      assert name[1..] == NatToString(-i);
      DecimalOfNat(-i);
    } else {
      DecimalOfNat(i);
    }
  }

  /** A string that denotes an integer key is that integer's decimal form. */
  lemma IntToStringOfKey(name: string)
    requires CanonicalInt(name)
    ensures IntToString(KeyOf(name).i) == name
  {
    if name[0] == '-' {
      var d := name[1..];
      assert d[0] != '0';
      DecimalPositive(d);
      NatOfDecimal(d);
      assert name == "-" + d;
    } else {
      NatOfDecimal(name);
    }
  }

  /** A string subscript denotes the integer key `i` exactly when it is the
      decimal form of `i`: `$a["5"]` is `$a[5]`, `$a["-3"]` is `$a[-3]`. */
  lemma KeyOfDecimal(name: string, i: int)
    ensures KeyOf(name) == IntKey(i) <==> name == IntToString(i)
  {
    KeyOfIntToString(i);
    if CanonicalInt(name) {
      IntToStringOfKey(name);
    }
  }
}
