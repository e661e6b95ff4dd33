/** Reading one field path such as `acf.limit(10)`: PHP's `explode(".", ...)`
    into segments, the name from the first segment, and one modifier per
    further segment, read with the pattern `([^(]+)(?:\(([^)]+)\))?`. */
module Paths {
  import opened Fields

  /** `explode(".", s)`: the pieces between dots; there is always at least one. */
  function Split(s: string): (parts: seq<string>)
    ensures |parts| >= 1
  {
    if s == [] then [[]]
    else
      var r := Split(s[1..]);
      if s[0] == '.' then [[]] + r else [[s[0]] + r[0]] + r[1..]
  }

  /** `implode(".", parts)`. */
  function Join(parts: seq<string>): string
    requires |parts| >= 1
  {
    if |parts| == 1 then parts[0] else parts[0] + "." + Join(parts[1..])
  }

  predicate NoDot(s: string) {
    '.' !in s
  }

  /** No piece of `explode` contains the separator. */
  lemma {:induction false} SplitNoDots(s: string)
    ensures forall k | 0 <= k < |Split(s)| :: NoDot(Split(s)[k])
  {
    if s != [] {
      SplitNoDots(s[1..]);
      var r := Split(s[1..]);
      if s[0] != '.' {
        assert NoDot(r[0]);
        assert NoDot([s[0]] + r[0]);
      }
    }
  }

  /** Joining the pieces gives the path back. */
  lemma {:induction false} JoinSplit(s: string)
    ensures Join(Split(s)) == s
  {
    if s != [] {
      JoinSplit(s[1..]);
      var r := Split(s[1..]);
      if s[0] == '.' {
        assert Split(s)[1..] == r;
        assert s == [] + "." + s[1..];
      } else if |r| == 1 {
        assert s == [s[0]] + s[1..];
      } else {
        var p := [[s[0]] + r[0]] + r[1..];
        assert p[1..] == r[1..];
        assert Join(r) == r[0] + "." + Join(r[1..]);
        assert s == [s[0]] + s[1..];
        assert Join(p) == ([s[0]] + r[0]) + "." + Join(r[1..]);
      }
    }
  }

  lemma {:induction false} SplitPrefix(a: string, rest: string)
    requires NoDot(a)
    ensures Split(a + "." + rest) == [a] + Split(rest)
  {
    if a == [] {
      assert a + "." + rest == ['.'] + rest;
      assert (['.'] + rest)[1..] == rest;
    } else {
      assert (a + "." + rest)[1..] == a[1..] + "." + rest;
      assert a[0] != '.' by { assert a[0] in a; }
      SplitPrefix(a[1..], rest);
      assert [a[0]] + a[1..] == a;
    }
  }

  lemma {:induction false} SplitNoDot(a: string)
    requires NoDot(a)
    ensures Split(a) == [a]
  {
    if a != [] {
      assert a[0] != '.' by { assert a[0] in a; }
      assert NoDot(a[1..]) by {
        forall c | c in a[1..] ensures c in a { }
      }
      SplitNoDot(a[1..]);
      assert [a[0]] + a[1..] == a;
    }
  }

  /** Pieces without dots come back from `explode` unchanged. */
  lemma {:induction false} SplitJoin(parts: seq<string>)
    requires |parts| >= 1
    requires forall k | 0 <= k < |parts| :: NoDot(parts[k])
    ensures Split(Join(parts)) == parts
  {
    if |parts| == 1 {
      SplitNoDot(parts[0]);
    } else {
      assert NoDot(parts[0]);
      SplitPrefix(parts[0], Join(parts[1..]));
      SplitJoin(parts[1..]);
      assert [parts[0]] + parts[1..] == parts;
    }
  }

  /** Number of leading `(` characters: where the pattern's first group can start. */
  function LeadingParens(s: string): (n: nat)
    ensures n <= |s|
    ensures n < |s| ==> s[n] != '('
    ensures forall k | 0 <= k < n :: s[k] == '('
  {
    if s != [] && s[0] == '(' then 1 + LeadingParens(s[1..]) else 0
  }

  /** Length of the longest prefix without the character `c`. */
  function Upto(s: string, c: char): (n: nat)
    ensures n <= |s|
    ensures n < |s| ==> s[n] == c
    ensures forall k | 0 <= k < n :: s[k] != c
  {
    if s == [] || s[0] == c then 0 else 1 + Upto(s[1..], c)
  }

  /** One modifier segment, as `preg_match` reads it. Leading `(` are skipped;
      a segment with nothing else has no match, so its name is missing and its
      value is `true`. Otherwise the name runs up to the next `(`, and the value
      is the text between that `(` and the first `)` after it, when that text
      is not empty; else the value is `true`. */
  function ParseModifier(seg: string): (m: Modifier)
    ensures m.name.Some? ==> m.name.value != [] && '(' !in m.name.value
    ensures m.value.Text? ==> m.name.Some? && m.value.text != [] && ')' !in m.value.text
    ensures m.name.None? <==> (forall k | 0 <= k < |seg| :: seg[k] == '(')
  {
    var p := LeadingParens(seg);
    var rest := seg[p..];
    if rest == [] then Modifier(None, Flag)
    else
      var n := Upto(rest, '(');
      var inner := if n < |rest| then rest[n + 1..] else [];
      var q := Upto(inner, ')');
      var value := if 0 < q < |inner| then Text(inner[..q]) else Flag;
      Modifier(Some(rest[..n]), value)
  }

  /** `preg_match` on each modifier segment, in order. */
  function ParseModifiers(segs: seq<string>): (ms: seq<Modifier>)
    ensures |ms| == |segs|
    ensures forall k | 0 <= k < |segs| :: ms[k] == ParseModifier(segs[k])
  {
    if segs == [] then [] else [ParseModifier(segs[0])] + ParseModifiers(segs[1..])
  }

  /** Number of dots in a path. */
  function Dots(s: string): nat {
    if s == [] then 0 else (if s[0] == '.' then 1 else 0) + Dots(s[1..])
  }

  lemma {:induction false} SplitLength(s: string)
    ensures |Split(s)| == 1 + Dots(s)
  {
    if s != [] {
      SplitLength(s[1..]);
    }
  }

  /** The field node one match creates, before any child is attached: the name
      is the first piece of the path, and every further piece is a modifier.
      A path without a dot gets no modifiers at all. */
  function NodeOf(run: string): (f: Field)
    ensures f.fields == NoChildren
    ensures f.modifiers.None? <==> NoDot(run)
    ensures f.modifiers.Some? ==> |f.modifiers.value| == Dots(run)
  {
    var parts := Split(run);
    SplitLength(run);
    DotsZero(run);
    Field(parts[0], if |parts| == 1 then None else Some(ParseModifiers(parts[1..])), NoChildren)
  }

  lemma {:induction false} DotsZero(s: string)
    ensures Dots(s) == 0 <==> NoDot(s)
  {
    if s != [] {
      DotsZero(s[1..]);
      assert s == [s[0]] + s[1..];
    }
  }

  /** The name of a node is the text of its path before the first dot. */
  lemma NodeName(run: string)
    ensures NoDot(NodeOf(run).name)
    ensures NodeOf(run).name == run
         || (|NodeOf(run).name| < |run| && run[..|NodeOf(run).name| + 1] == NodeOf(run).name + ".")
  {
    var parts := Split(run);
    SplitNoDots(run);
    JoinSplit(run);
    if |parts| > 1 {
      assert run == parts[0] + "." + Join(parts[1..]);
      assert run[..|parts[0]| + 1] == parts[0] + ".";
    }
  }

  /** Characters a path may hold once the request is cut into matches and
      spaces are removed. */
  predicate PathChar(c: char) {
    c != '{' && c != '}' && c != ',' && c != ' ' && c != '.'
  }

  predicate PathText(s: string) {
    forall k | 0 <= k < |s| :: PathChar(s[k])
  }

  /** A modifier that reads back as itself: either the empty segment, or a
      name without `(`, optionally followed by a non-empty value without `)`
      in parentheses. */
  predicate WellFormedModifier(m: Modifier) {
    match m.name
    case None => m.value.Flag?
    case Some(n) =>
      n != [] && PathText(n) && '(' !in n
      && (m.value.Text? ==> m.value.text != [] && PathText(m.value.text) && ')' !in m.value.text)
  }

  function PrintModifier(m: Modifier): string {
    match m.name
    case None => []
    case Some(n) => n + (if m.value.Text? then "(" + m.value.text + ")" else [])
  }

  /** Writing a well-formed modifier and reading it back gives it unchanged. */
  lemma ParsePrintModifier(m: Modifier)
    requires WellFormedModifier(m)
    ensures ParseModifier(PrintModifier(m)) == m
  {
    if m.name.Some? {
      var n := m.name.value;
      var seg := PrintModifier(m);
      assert seg[0] == n[0];
      assert n[0] != '(' by { assert n[0] in n; }
      assert LeadingParens(seg) == 0;
      assert seg[0..] == seg;
      var tail := if m.value.Text? then "(" + m.value.text + ")" else [];
      assert seg == n + tail;
      assert forall k | 0 <= k < |n| :: seg[k] == n[k];
      forall k | 0 <= k < |n| ensures seg[k] != '(' {
        assert n[k] in n;
      }
      UptoIs(seg, '(', |n|);
      assert seg[..|n|] == n;
      if m.value.Text? {
        var v := m.value.text;
        var inner := seg[|n| + 1..];
        assert inner == v + ")";
        forall k | 0 <= k < |v| ensures inner[k] != ')' {
          assert v[k] in v;
        }
        UptoIs(inner, ')', |v|);
        assert inner[..|v|] == v;
      }
    }
  }

  lemma {:induction false} UptoIs(s: string, c: char, n: nat)
    requires n <= |s|
    requires forall k | 0 <= k < n :: s[k] != c
    requires n < |s| ==> s[n] == c
    ensures Upto(s, c) == n
  {
    if n > 0 {
      assert s[0] != c;
      UptoIs(s[1..], c, n - 1);
    }
  }

  function PrintModifiers(ms: seq<Modifier>): (segs: seq<string>)
    ensures |segs| == |ms|
    ensures forall k | 0 <= k < |ms| :: segs[k] == PrintModifier(ms[k])
  {
    if ms == [] then [] else [PrintModifier(ms[0])] + PrintModifiers(ms[1..])
  }

  /** The path text of a node head: its name, then `.` and each modifier. */
  function PrintPath(name: string, mods: Option<seq<Modifier>>): string {
    match mods
    case None => name
    case Some(ms) => Join([name] + PrintModifiers(ms))
  }

  /** A head that reads back as itself: a non-empty name, and either no
      modifiers or a non-empty list of well-formed ones. */
  predicate WellFormedHead(name: string, mods: Option<seq<Modifier>>) {
    name != [] && PathText(name)
    && (mods.Some? ==> mods.value != [] && forall k | 0 <= k < |mods.value| :: WellFormedModifier(mods.value[k]))
  }

  lemma PrintedModifierNoDot(m: Modifier)
    requires WellFormedModifier(m)
    ensures NoDot(PrintModifier(m))
  {
    if m.name.Some? {
      var n := m.name.value;
      assert forall k | 0 <= k < |n| :: n[k] != '.' by {
        assert forall k | 0 <= k < |n| :: PathChar(n[k]);
      }
      if m.value.Text? {
        var v := m.value.text;
        assert forall k | 0 <= k < |v| :: PathChar(v[k]);
        var seg := n + ("(" + v + ")");
        assert PrintModifier(m) == seg;
        forall k | 0 <= k < |seg| ensures seg[k] != '.' {
          if k < |n| { assert seg[k] == n[k]; }
          else if k == |n| { }
          else if k < |n| + 1 + |v| { assert seg[k] == v[k - |n| - 1]; }
        }
        assert '.' !in seg;
      } else {
        assert '.' !in n;
      }
    }
  }

  /** Reading the path of a well-formed head gives back its name and modifiers. */
  lemma NodeOfPrint(name: string, mods: Option<seq<Modifier>>)
    requires WellFormedHead(name, mods)
    ensures NodeOf(PrintPath(name, mods)) == Field(name, mods, NoChildren)
  {
    assert NoDot(name) by {
      assert forall k | 0 <= k < |name| :: PathChar(name[k]);
    }
    if mods.None? {
      SplitNoDot(name);
    } else {
      var ms := mods.value;
      var parts := [name] + PrintModifiers(ms);
      forall k | 0 <= k < |parts| ensures NoDot(parts[k]) {
        if k > 0 {
          assert parts[k] == PrintModifier(ms[k - 1]);
          PrintedModifierNoDot(ms[k - 1]);
        }
      }
      SplitJoin(parts);
      assert parts[1..] == PrintModifiers(ms);
      forall k | 0 <= k < |ms| ensures ParseModifier(PrintModifiers(ms)[k]) == ms[k] {
        ParsePrintModifier(ms[k]);
      }
      assert ParseModifiers(PrintModifiers(ms)) == ms;
    }
  }
}
