/** `rest_api_fmf_loop`: walks a value alongside a list of field nodes, keeps
    the requested keys, descends into child nodes and applies the `limit`
    modifier. `Project` and its companions are the recursive reference;
    `Loop` and `FilterField` are the plugin's loops, proved equal to them. */
module Projector {
  import opened Fields
  import opened Values

  // ---------------------------------------------------------------------
  // The `limit` modifier

  /** Length of the longest prefix of decimal digits. */
  function DigitRun(s: string): (n: nat)
    ensures n <= |s|
    ensures AllDigits(s[..n])
    ensures n < |s| ==> !IsDigit(s[n])
  {
    if s == [] || !IsDigit(s[0]) then 0
    else
      var n := 1 + DigitRun(s[1..]);
      assert forall k | 1 <= k < n :: s[..n][k] == s[1..][..n - 1][k - 1];
      n
  }

  /** PHP's `(int)` on a string, read as an optional sign followed by the
      longest run of decimal digits; a string that starts otherwise is 0. */
  function LeadingInt(s: string): int {
    var start := if s != [] && (s[0] == '-' || s[0] == '+') then 1 else 0;
    var digits := s[start..][..DigitRun(s[start..])];
    if start == 1 && s[0] == '-' then -(DecimalValue(digits) as int) else DecimalValue(digits)
  }

  /** The digit run of digits followed by something that is not a digit is
      those digits. */
  lemma {:induction false} DigitRunOf(a: string, t: string)
    requires AllDigits(a)
    requires t == [] || !IsDigit(t[0])
    ensures DigitRun(a + t) == |a|
  {
    if a == [] {
      assert a + t == t;
    } else {
      assert (a + t)[1..] == a[1..] + t;
      DigitRunOf(a[1..], t);
    }
  }

  /** `(int)` of digits followed by anything but a digit is their value. */
  lemma LeadingIntDigits(a: string, t: string)
    requires a != [] && AllDigits(a)
    requires t == [] || !IsDigit(t[0])
    ensures LeadingInt(a + t) == DecimalValue(a)
  {
    var s := a + t;
    assert s[0..] == s;
    assert s[..DigitRun(s)] == a by {
      DigitRunOf(a, t);
    }
  }

  /** The same after a `-`: the value is negated. */
  lemma LeadingIntMinus(a: string, t: string)
    requires a != [] && AllDigits(a)
    requires t == [] || !IsDigit(t[0])
    ensures LeadingInt("-" + a + t) == -(DecimalValue(a) as int)
  {
    var s := "-" + a + t;
    assert s[1..] == a + t;
    assert s[1..][..DigitRun(s[1..])] == a by {
      DigitRunOf(a, t);
      assert (a + t)[..|a|] == a;
    }
  }

  /** `(int)` of a string that starts with the decimal form of an integer
      (and goes on with anything but a digit) is that integer: what PHP
      prints, `(int)` reads back. */
  lemma LeadingIntDecimal(i: int, t: string)
    requires t == [] || !IsDigit(t[0])
    ensures LeadingInt(IntToString(i) + t) == i
  {
    if i < 0 {
      var a := NatToString(-i);
      calc {
        LeadingInt(IntToString(i) + t);
        { assert IntToString(i) + t == "-" + a + t; }
        LeadingInt("-" + a + t);
        { LeadingIntMinus(a, t); }
        -(DecimalValue(a) as int);
        { DecimalOfNat(-i); }
        i;
      }
    } else {
      var a := NatToString(i);
      calc {
        LeadingInt(IntToString(i) + t);
        LeadingInt(a + t);
        { LeadingIntDigits(a, t); }
        DecimalValue(a);
        { DecimalOfNat(i); }
        i;
      }
    }
  }

  /** The length `limit` asks for: `(int)` of the value, where the value
      `true` of a bare `limit` is 1. */
  function LimitOf(v: ModValue): int {
    match v
    case Flag => 1
    case Text(t) => LeadingInt(t)
  }

  /** How many elements `array_slice($a, 0, $len)` keeps from `n`: `len` of
      them when `len >= 0` (all when there are fewer), and all but the last
      `-len` when `len` is negative. */
  function SliceLength(n: nat, len: int): (m: nat)
    ensures m <= n
    ensures len >= 0 ==> m == (if len < n then len else n)
    ensures len < 0 ==> m == (if n + len > 0 then n + len else 0)
  {
    if len >= 0 then (if len < n then len else n)
    else if n + len > 0 then n + len else 0
  }

  /** `array_slice` without `preserve_keys` renumbers integer keys from 0 and
      keeps string keys. */
  function Renumber(es: seq<(Key, Value)>, next: int): (r: seq<(Key, Value)>)
    ensures |r| == |es|
  {
    if es == [] then []
    else if es[0].0.IntKey? then [(IntKey(next), es[0].1)] + Renumber(es[1..], next + 1)
    else [es[0]] + Renumber(es[1..], next)
  }

  /** `array_slice($a, 0, $len)`. */
  function ArraySlice(es: seq<(Key, Value)>, len: int): seq<(Key, Value)> {
    Renumber(es[..SliceLength(|es|, len)], 0)
  }

  /** One modifier of a field, applied to the field's value. Only `limit`
      has an effect, and only on a numeric array. (The value of a modifier is
      never null, so the `isset` on it always holds.) */
  function ApplyModifier(v: Value, m: Modifier): Value {
    if m.name == Some("limit") && IsNumeric(v) then Arr(ArraySlice(v.entries, LimitOf(m.value)))
    else v
  }

  /** The modifiers of a field, applied in order. */
  function ApplyModifiers(v: Value, mods: seq<Modifier>): Value
    decreases |mods|
  {
    if mods == [] then v
    else ApplyModifier(ApplyModifiers(v, mods[..|mods| - 1]), mods[|mods| - 1])
  }

  // ---------------------------------------------------------------------
  // The projection

  /** `isset($data[$name])`: the key exists and its value is not null. */
  predicate IsSet(d: Value, name: string) {
    IsSetKey(d, KeyOf(name))
  }

  predicate IsSetKey(d: Value, x: Key) {
    d.Arr? && Lookup(d.entries, x).Some? && Lookup(d.entries, x).value != Null
  }

  function Get(d: Value, name: string): Value
    requires IsSet(d, name)
  {
    Lookup(d.entries, KeyOf(name)).value
  }

  /** `rest_api_fmf_loop($data, $fields)`: the requested entries of the
      (normalised) data, or the data itself when none of them is set. */
  function Project(data: Value, fields: seq<Field>): Value
    decreases fields, 1
  {
    var d := Normalize(data);
    var r := Collect(d, fields);
    if r == [] then d else Arr(r)
  }

  /** `$data_filtered` after the loop has seen `fields`, in order: each field
      that is set stores its value under its name, a later field with the same
      name overwriting an earlier one in place. */
  function Collect(d: Value, fields: seq<Field>): seq<(Key, Value)>
    decreases fields, 0
  {
    if fields == [] then []
    else
      var acc := Collect(d, fields[..|fields| - 1]);
      var f := fields[|fields| - 1];
      if IsSet(d, f.name) then Put(acc, KeyOf(f.name), FieldValue(Get(d, f.name), f)) else acc
  }

  /** The value stored for one field: normalised, then projected onto the
      field's children if it has any and the value is an array (element by
      element for a numeric array), then passed through the modifiers. */
  function FieldValue(raw: Value, f: Field): Value
    decreases f, 2
  {
    var v := Normalize(raw);
    var descended :=
      if f.fields.Children? && v.Arr? then
        if IsNumeric(v) then Arr(ProjectEach(v.entries, f.fields.nodes)) else Project(v, f.fields.nodes)
      else v;
    if f.modifiers.Some? then ApplyModifiers(descended, f.modifiers.value) else descended
  }

  /** The elements of a numeric array, each array or object among them
      projected onto `nodes`, every other element left as it is. */
  function ProjectEach(es: seq<(Key, Value)>, nodes: seq<Field>): seq<(Key, Value)>
    decreases nodes, 2, |es|
  {
    if es == [] then []
    else
      var e := es[|es| - 1];
      var x := if e.1.Arr? || e.1.Obj? then Project(e.1, nodes) else e.1;
      ProjectEach(es[..|es| - 1], nodes) + [(e.0, x)]
  }

  // ---------------------------------------------------------------------
  // The plugin's loops

  /** `rest_api_fmf_loop` as the plugin writes it: a loop over the fields
      filling `$data_filtered`. */
  method Loop(data: Value, fields: seq<Field>) returns (result: Value)
    ensures result == Project(data, fields)
    decreases fields, 1
  {
    var d := Normalize(data);
    var filtered: seq<(Key, Value)> := [];
    for i := 0 to |fields|
      invariant filtered == Collect(d, fields[..i])
    {
      var f := fields[i];
      assert fields[..i + 1][..i] == fields[..i];
      if IsSet(d, f.name) {
        var v := FilterField(Get(d, f.name), f);
        filtered := Put(filtered, KeyOf(f.name), v);
      }
    }
    assert fields[..|fields|] == fields;
    if |filtered| == 0 {
      result := d;
    } else {
      result := Arr(filtered);
    }
  }

  /** The body of the plugin's loop for one field that is set: normalise,
      descend, then apply each modifier in turn. */
  method FilterField(raw: Value, f: Field) returns (v: Value)
    ensures v == FieldValue(raw, f)
    decreases f, 2
  {
    v := Normalize(raw);
    if f.fields.Children? && v.Arr? {
      if IsNumeric(v) {
        var es := ProjectElements(v.entries, f.fields.nodes);
        v := Arr(es);
      } else {
        v := Loop(v, f.fields.nodes);
      }
    }
    if f.modifiers.Some? {
      v := ApplyAll(v, f.modifiers.value);
    }
  }

  /** The `foreach ($data_field as &$sub)` loop: each array or object element
      of a numeric array is replaced, in place, by its projection. */
  method ProjectElements(entries: seq<(Key, Value)>, nodes: seq<Field>) returns (es: seq<(Key, Value)>)
    ensures es == ProjectEach(entries, nodes)
    decreases nodes, 3
  {
    es := entries;
    for j := 0 to |es|
      invariant |es| == |entries|
      invariant es[..j] == ProjectEach(entries[..j], nodes)
      invariant forall k | j <= k < |es| :: es[k] == entries[k]
    {
      var e := es[j];
      assert e == entries[j];
      if e.1.Arr? || e.1.Obj? {
        var sub := Loop(e.1, nodes);
        es := es[j := (e.0, sub)];
      }
      assert entries[..j + 1][..j] == entries[..j];
      assert es[..j + 1] == es[..j] + [es[j]];
    }
    assert es == es[..|es|] && entries[..|es|] == entries;
  }

  /** The loop over a field's modifiers. */
  method ApplyAll(value: Value, mods: seq<Modifier>) returns (v: Value)
    ensures v == ApplyModifiers(value, mods)
  {
    v := value;
    for k := 0 to |mods|
      invariant v == ApplyModifiers(value, mods[..k])
    {
      assert mods[..k + 1][..k] == mods[..k];
      var m := mods[k];
      if m.name == Some("limit") && IsNumeric(v) {
        v := Arr(ArraySlice(v.entries, LimitOf(m.value)));
      }
    }
    assert mods[..|mods|] == mods;
  }

  // ---------------------------------------------------------------------
  // What the projection keeps

  /** The keys the fields name, in order. */
  function FieldKeys(fields: seq<Field>): (ks: seq<Key>)
    ensures |ks| == |fields|
    ensures forall k | 0 <= k < |fields| :: ks[k] == KeyOf(fields[k].name)
  {
    if fields == [] then [] else FieldKeys(fields[..|fields| - 1]) + [KeyOf(fields[|fields| - 1].name)]
  }

  /** Some field of `fields` names the key `x`, and `x` is set in `d`. */
  predicate Requested(d: Value, fields: seq<Field>, x: Key) {
    x in FieldKeys(fields) && IsSetKey(d, x)
  }

  /** The field `f` is set in `d` and stores its value under `x`. */
  predicate Stores(d: Value, f: Field, x: Key) {
    IsSet(d, f.name) && KeyOf(f.name) == x
  }

  /** The filtered array has no repeated key, and its keys are exactly those
      of the fields that are set. */
  lemma {:induction false} CollectKeys(d: Value, fields: seq<Field>)
    ensures DistinctKeys(Collect(d, fields))
    ensures forall x :: x in Keys(Collect(d, fields)) <==> Requested(d, fields, x)
  {
    if fields != [] {
      var p := fields[..|fields| - 1];
      var f := fields[|fields| - 1];
      var acc := Collect(d, p);
      CollectKeys(d, p);
      assert FieldKeys(fields) == FieldKeys(p) + [KeyOf(f.name)];
      if IsSet(d, f.name) {
        var v := FieldValue(Get(d, f.name), f);
        assert Collect(d, fields) == Put(acc, KeyOf(f.name), v);
        PutKeys(acc, KeyOf(f.name), v);
      } else {
        assert Collect(d, fields) == acc;
      }
    }
  }

  /** Nothing is collected exactly when none of the fields is set. */
  lemma CollectEmpty(d: Value, fields: seq<Field>)
    ensures Collect(d, fields) == [] <==> forall i | 0 <= i < |fields| :: !IsSet(d, fields[i].name)
  {
    CollectKeys(d, fields);
    var r := Collect(d, fields);
    if r != [] {
      assert Keys(r)[0] in Keys(r);
    }
    forall i | 0 <= i < |fields| && IsSet(d, fields[i].name)
      ensures r != []
    {
      assert FieldKeys(fields)[i] in FieldKeys(fields);
      assert Requested(d, fields, KeyOf(fields[i].name));
    }
  }

  /** The loop fails open: when no field is set (in particular when the data
      is not an array or an object) the data comes back as it is, objects cast
      to arrays. Otherwise the result is the filtered array. */
  lemma ProjectFailsOpen(data: Value, fields: seq<Field>)
    ensures (forall i | 0 <= i < |fields| :: !IsSet(Normalize(data), fields[i].name)) ==> Project(data, fields) == Normalize(data)
    ensures (exists i | 0 <= i < |fields| :: IsSet(Normalize(data), fields[i].name)) ==> Project(data, fields) == Arr(Collect(Normalize(data), fields))
    ensures !Normalize(data).Arr? ==> Project(data, fields) == data
  {
    CollectEmpty(Normalize(data), fields);
  }

  /** `fields[i]` is the last field that is set and stores under `x`. */
  predicate LastFor(d: Value, fields: seq<Field>, i: int, x: Key) {
    && 0 <= i < |fields| && Stores(d, fields[i], x)
    && forall j | i < j < |fields| :: !Stores(d, fields[j], x)
  }

  /** The value stored under a key is the one computed for the last field
      that is set and has that key: a later duplicate overwrites an earlier
      one. */
  lemma {:induction false} CollectLast(d: Value, fields: seq<Field>, i: int, x: Key)
    requires LastFor(d, fields, i, x)
    ensures Lookup(Collect(d, fields), x) == Some(FieldValue(Get(d, fields[i].name), fields[i]))
  {
    var p := fields[..|fields| - 1];
    var f := fields[|fields| - 1];
    CollectKeys(d, p);
    if i == |fields| - 1 {
      PutKeys(Collect(d, p), x, FieldValue(Get(d, f.name), f));
    } else {
      assert p[i] == fields[i];
      assert LastFor(d, p, i, x) by {
        forall j | i < j < |p| ensures !Stores(d, p[j], x) {
          assert p[j] == fields[j];
        }
      }
      CollectLast(d, p, i, x);
      if IsSet(d, f.name) {
        PutKeys(Collect(d, p), KeyOf(f.name), FieldValue(Get(d, f.name), f));
      }
    }
  }

  /** Keys are kept in the order in which they are first stored: the keys
      collected from a prefix of the fields are a prefix of the keys collected
      from all of them. */
  lemma {:induction false} CollectGrows(d: Value, fields: seq<Field>, n: nat)
    requires n <= |fields|
    ensures Keys(Collect(d, fields[..n])) <= Keys(Collect(d, fields))
  {
    if n < |fields| {
      var p := fields[..|fields| - 1];
      var f := fields[|fields| - 1];
      assert p[..n] == fields[..n];
      CollectGrows(d, p, n);
      var acc := Collect(d, p);
      var r := Collect(d, fields);
      assert Keys(acc) <= Keys(r) by {
        if IsSet(d, f.name) {
          assert forall k | 0 <= k < |acc| :: r[k].0 == acc[k].0;
        }
      }
    } else {
      assert fields[..n] == fields;
    }
  }

  // ---------------------------------------------------------------------
  // Descent and modifiers

  /** The element-wise descent keeps every element under its key, projecting
      the arrays and objects among them and leaving other values alone. */
  lemma {:induction false} ProjectEachSpec(es: seq<(Key, Value)>, nodes: seq<Field>)
    ensures |ProjectEach(es, nodes)| == |es|
    ensures forall k | 0 <= k < |es| ::
              ProjectEach(es, nodes)[k] == (es[k].0, if es[k].1.Arr? || es[k].1.Obj? then Project(es[k].1, nodes) else es[k].1)
  {
    if es != [] {
      ProjectEachSpec(es[..|es| - 1], nodes);
    }
  }

  /** A numeric array stays numeric when its elements are projected, so a
      `limit` on the same field still applies. */
  lemma ProjectEachNumeric(es: seq<(Key, Value)>, nodes: seq<Field>)
    requires IsNumeric(Arr(es))
    ensures IsNumeric(Arr(ProjectEach(es, nodes)))
  {
    ProjectEachSpec(es, nodes);
    IsNumericIff(Arr(es));
    IsNumericIff(Arr(ProjectEach(es, nodes)));
  }

  /** `array_slice` leaves keys that already count up from `next` as they are. */
  lemma {:induction false} RenumberCounted(es: seq<(Key, Value)>, next: int)
    requires forall k | 0 <= k < |es| :: es[k].0 == IntKey(next + k)
    ensures Renumber(es, next) == es
  {
    if es != [] {
      assert es[0].0 == IntKey(next + 0);
      RenumberCounted(es[1..], next + 1);
    }
  }

  /** `limit(n)` on a numeric array keeps its first elements: `n` of them for
      `n >= 0` (all when there are fewer), all but the last `-n` for `n < 0`. */
  lemma LimitKeepsPrefix(v: Value, value: ModValue)
    requires IsNumeric(v)
    ensures ApplyModifier(v, Modifier(Some("limit"), value))
         == Arr(v.entries[..SliceLength(|v.entries|, LimitOf(value))])
  {
    IsNumericIff(v);
    RenumberCounted(v.entries[..SliceLength(|v.entries|, LimitOf(value))], 0);
  }

  /** A bare `limit` keeps the first element. */
  lemma BareLimit(v: Value)
    requires IsNumeric(v)
    ensures ApplyModifier(v, Modifier(Some("limit"), Flag)) == Arr([v.entries[0]])
  {
    IsNumericIff(v);
    LimitKeepsPrefix(v, Flag);
    assert v.entries[..1] == [v.entries[0]];
  }

  /** Modifiers other than `limit`, and any modifier on a value that is not a
      numeric array, change nothing. */
  lemma {:induction false} ModifiersInert(v: Value, mods: seq<Modifier>)
    requires !IsNumeric(v) || forall k | 0 <= k < |mods| :: mods[k].name != Some("limit")
    ensures ApplyModifiers(v, mods) == v
    decreases |mods|
  {
    if mods != [] {
      ModifiersInert(v, mods[..|mods| - 1]);
    }
  }

  /** Whatever its modifiers, a numeric array is cut down to one of its
      prefixes. */
  lemma {:induction false} ModifiersKeepPrefix(v: Value, mods: seq<Modifier>)
    requires IsNumeric(v)
    ensures ApplyModifiers(v, mods).Arr?
    ensures |ApplyModifiers(v, mods).entries| <= |v.entries|
    ensures ApplyModifiers(v, mods).entries == v.entries[..|ApplyModifiers(v, mods).entries|]
    decreases |mods|
  {
    if mods != [] {
      var w := ApplyModifiers(v, mods[..|mods| - 1]);
      ModifiersKeepPrefix(v, mods[..|mods| - 1]);
      var m := mods[|mods| - 1];
      if m.name == Some("limit") && IsNumeric(w) {
        LimitKeepsPrefix(w, m.value);
      }
    }
  }

  function Min(a: int, b: int): int {
    if a <= b then a else b
  }

  /** Two non-negative limits on one field keep as many elements as the
      smaller of them. */
  lemma LimitsCompose(v: Value, a: ModValue, b: ModValue)
    requires IsNumeric(v) && LimitOf(a) >= 0 && LimitOf(b) >= 0
    ensures ApplyModifiers(v, [Modifier(Some("limit"), a), Modifier(Some("limit"), b)])
         == Arr(v.entries[..Min(Min(LimitOf(a), LimitOf(b)), |v.entries|)])
  {
    var ma, mb := Modifier(Some("limit"), a), Modifier(Some("limit"), b);
    assert ApplyModifiers(v, [ma]) == ApplyModifier(v, ma) by {
      assert [ma][..0] == [];
    }
    assert ApplyModifiers(v, [ma, mb]) == ApplyModifier(ApplyModifiers(v, [ma]), mb) by {
      assert [ma, mb][..1] == [ma];
    }
    LimitTwice(v, a, b);
  }

  lemma LimitTwice(v: Value, a: ModValue, b: ModValue)
    requires IsNumeric(v) && LimitOf(a) >= 0 && LimitOf(b) >= 0
    ensures ApplyModifier(ApplyModifier(v, Modifier(Some("limit"), a)), Modifier(Some("limit"), b))
         == Arr(v.entries[..Min(Min(LimitOf(a), LimitOf(b)), |v.entries|)])
  {
    var w := ApplyModifier(v, Modifier(Some("limit"), a));
    var m1 := Min(LimitOf(a), |v.entries|);
    LimitKeepsPrefix(v, a);
    assert w == Arr(v.entries[..m1]);
    IsNumericIff(v);
    IsNumericIff(w);
    if IsNumeric(w) {
      LimitKeepsPrefix(w, b);
      var m2 := Min(LimitOf(b), m1);
      assert v.entries[..m1][..m2] == v.entries[..m2];
    }
  }

  /** A value that is not an array, once objects are cast, is stored as it
      is: there is nothing to descend into and no modifier applies. */
  lemma FieldValueScalar(raw: Value, f: Field)
    requires !Normalize(raw).Arr?
    ensures FieldValue(raw, f) == Normalize(raw)
  {
    if f.modifiers.Some? {
      ModifiersInert(Normalize(raw), f.modifiers.value);
    }
  }

  /** A field without children and without a `limit` modifier stores its
      value unchanged, objects cast to arrays. */
  lemma FieldValuePlain(raw: Value, f: Field)
    requires f.fields == NoChildren
    requires f.modifiers.Some? ==> forall k | 0 <= k < |f.modifiers.value| :: f.modifiers.value[k].name != Some("limit")
    ensures FieldValue(raw, f) == Normalize(raw)
  {
    if f.modifiers.Some? {
      ModifiersInert(Normalize(raw), f.modifiers.value);
    }
  }

  /** A numeric list under a field with children becomes a prefix of the list
      of its projected elements: each element keeps its key, and modifiers only
      cut the list short. */
  lemma FieldValueList(raw: Value, f: Field)
    requires IsNumeric(Normalize(raw)) && f.fields.Children?
    ensures var all := ProjectEach(Normalize(raw).entries, f.fields.nodes);
      var r := FieldValue(raw, f);
      r.Arr? && |r.entries| <= |all| && r.entries == all[..|r.entries|]
  {
    var all := ProjectEach(Normalize(raw).entries, f.fields.nodes);
    ProjectEachNumeric(Normalize(raw).entries, f.fields.nodes);
    if f.modifiers.Some? {
      ModifiersKeepPrefix(Arr(all), f.modifiers.value);
    } else {
      assert all[..|all|] == all;
    }
  }

  /** `(int)` of some modifier values. */
  lemma LeadingIntSamples()
    ensures LeadingInt("2") == 2
    ensures LeadingInt("-1") == -1
    ensures LeadingInt("3abc") == 3
    ensures LeadingInt("abc") == 0
  {
    assert DigitRun("abc") == 0 && DigitRun("") == 0;
    assert DigitRun("2") == 1 && "2"[..1] == "2" && "2"[..0] == [];
    assert "-1"[1..] == "1" && DigitRun("1") == 1 && "1"[..1] == "1" && "1"[..0] == [];
    assert "3abc"[..1] == "3" && "3"[..0] == [];
    assert "abc"[..0] == [];
  }
}
