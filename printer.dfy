/** Writing a selection tree back out as a request, and reading it again.
    Every tree the parser builds is shaped (`Parser.SelectorShaped`); on shaped
    trees whose names and modifiers can be written down, the printer is a right
    inverse of the parser, so every such tree is the reading of some request. */
module Printer {
  import opened Fields
  import opened Tokenizer
  import opened Paths
  import opened Parser

  /** The brace run that ends a node which closes `close` levels. */
  function CloseEffect(close: nat): (e: Effect)
    ensures close == 0 <==> e == Stay
    ensures e != Push
    ensures e.Pop? ==> e.count == close
  {
    if close == 0 then Stay else Pop(close)
  }

  /** The matches that write out a forest, in pre-order, where the last one
      also closes `close` levels. */
  function ForestMatches(fs: seq<Field>, close: nat): seq<Match>
    decreases fs, 1
  {
    if fs == [] then []
    else if |fs| == 1 then FieldMatches(fs[0], close)
    else FieldMatches(fs[0], 0) + ForestMatches(fs[1..], close)
  }

  /** The matches of one node: a leaf is one match; a node with children opens
      a level, and its last descendant closes that level too. */
  function FieldMatches(f: Field, close: nat): seq<Match>
    decreases f, 0
  {
    match f.fields
    case NoChildren => [Match(HeadOf(f), CloseEffect(close))]
    case Children(kids) =>
      if kids == [] then [Match(HeadOf(f), CloseEffect(close))]
      else [Match(HeadOf(f), Push)] + ForestMatches(kids, close + 1)
  }

  /** What reading goes on to produce after the nodes `fs`: when no level is
      closed, reading continues at the same level with `tail`. */
  function Then(fs: seq<Field>, close: nat, tail: seq<Match>): Parsed {
    if close == 0 then
      var p := ParseLevel(tail);
      Parsed(fs + p.items, p.rest, p.pops)
    else Parsed(fs, tail, close)
  }

  lemma {:induction false} ParseField(f: Field, close: nat, tail: seq<Match>)
    requires Shaped(f)
    ensures ParseLevel(FieldMatches(f, close) + tail) == Then([f], close, tail)
    decreases f, 0
  {
    var h := HeadOf(f);
    var ms := FieldMatches(f, close) + tail;
    if f.fields.NoChildren? {
      assert ms[0] == Match(h, CloseEffect(close)) && ms[1..] == tail;
      assert Leaf(h) == f;
      if close == 0 {
        ParseStay(ms);
      } else {
        ParsePop(ms);
      }
    } else {
      var kids := f.fields.nodes;
      assert ms[0] == Match(h, Push);
      assert ms[1..] == ForestMatches(kids, close + 1) + tail;
      ParseForest(kids, close + 1, tail);
      assert WithChildren(h, kids) == f;
      if close == 0 {
        ParsePushOne(ms);
      } else {
        ParsePushMore(ms);
      }
    }
  }

  lemma {:induction false} ParseForest(fs: seq<Field>, close: nat, tail: seq<Match>)
    requires fs != [] && AllShaped(fs)
    ensures ParseLevel(ForestMatches(fs, close) + tail) == Then(fs, close, tail)
    decreases fs, 2
  {
    if |fs| == 1 {
      ParseField(fs[0], close, tail);
      assert [fs[0]] == fs;
    } else {
      ParseSiblings(fs, close, tail);
    }
  }

  /** The case of `ParseForest` where a first node has later siblings. */
  lemma {:induction false} ParseSiblings(fs: seq<Field>, close: nat, tail: seq<Match>)
    requires |fs| >= 2 && AllShaped(fs)
    ensures ParseLevel(ForestMatches(fs, close) + tail) == Then(fs, close, tail)
    decreases fs, 1
  {
    var rest := ForestMatches(fs[1..], close) + tail;
    var p1 := ParseLevel(rest);
    assert ParseLevel(ForestMatches(fs, close) + tail) == Parsed([fs[0]] + p1.items, p1.rest, p1.pops) by {
      var first := FieldMatches(fs[0], 0);
      assert ForestMatches(fs, close) + tail == first + rest by {
        Assoc(first, ForestMatches(fs[1..], close), tail);
      }
      ParseField(fs[0], 0, rest);
    }
    assert p1 == Then(fs[1..], close, tail) by {
      assert AllShaped(fs[1..]) by {
        assert forall k | 0 <= k < |fs[1..]| :: fs[1..][k] == fs[k + 1];
      }
      ParseForest(fs[1..], close, tail);
    }
    if close == 0 {
      var p := ParseLevel(tail);
      assert [fs[0]] + (fs[1..] + p.items) == fs + p.items;
    } else {
      assert [fs[0]] + fs[1..] == fs;
    }
  }

  /** Reading the matches of a shaped forest gives the forest back. */
  lemma PrintParse(fs: seq<Field>)
    requires AllShaped(fs)
    ensures ParseLevel(ForestMatches(fs, 0)).items == fs
  {
    if fs != [] {
      ParseForest(fs, 0, []);
      assert ForestMatches(fs, 0) + [] == ForestMatches(fs, 0);
    }
  }

  // ---------------------------------------------------------------------
  // One head per match

  lemma {:induction false} HeadsOfAppend(a: seq<Match>, b: seq<Match>)
    ensures HeadsOf(a + b) == HeadsOf(a) + HeadsOf(b)
  {
    if a != [] {
      assert (a + b)[1..] == a[1..] + b;
      HeadsOfAppend(a[1..], b);
    } else {
      assert a + b == b;
    }
  }

  lemma {:induction false} HeadsOfAt(ms: seq<Match>, k: nat)
    requires k < |ms|
    ensures HeadsOf(ms)[k] == ms[k].head
  {
    if k > 0 {
      HeadsOfAt(ms[1..], k - 1);
    }
  }

  /** The matches of a forest carry its heads in pre-order. */
  lemma {:induction false} ForestHeads(fs: seq<Field>, close: nat)
    ensures HeadsOf(ForestMatches(fs, close)) == Heads(fs)
    decreases fs, 1
  {
    if |fs| == 1 {
      FieldHeads(fs[0], close);
      assert Heads(fs) == SubtreeHeads(fs[0]) + Heads([]);
    } else if |fs| > 1 {
      FieldHeads(fs[0], 0);
      ForestHeads(fs[1..], close);
      HeadsOfAppend(FieldMatches(fs[0], 0), ForestMatches(fs[1..], close));
    }
  }

  lemma {:induction false} FieldHeads(f: Field, close: nat)
    ensures HeadsOf(FieldMatches(f, close)) == SubtreeHeads(f)
    decreases f, 0
  {
    if f.fields.Children? && f.fields.nodes != [] {
      ForestHeads(f.fields.nodes, close + 1);
      HeadsOfAppend([Match(HeadOf(f), Push)], ForestMatches(f.fields.nodes, close + 1));
    } else if f.fields.Children? {
      assert Heads(f.fields.nodes) == [];
    }
  }

  // ---------------------------------------------------------------------
  // Request text

  /** A run of `n` closing braces. */
  function Closing(n: nat): (s: string)
    ensures |s| == n
    ensures forall k | 0 <= k < n :: s[k] == '}'
  {
    if n == 0 then [] else "}" + Closing(n - 1)
  }

  function BracesOf(e: Effect): string {
    match e
    case Stay => []
    case Push => "{"
    case Pop(n) => Closing(n)
  }

  /** The request text of one match: its path and its brace run. */
  function TokenOf(m: Match): Token {
    Token(PrintPath(m.head.name, m.head.modifiers), BracesOf(m.effect))
  }

  function TokensOf(ms: seq<Match>): (ts: seq<Token>)
    ensures |ts| == |ms|
    ensures forall k | 0 <= k < |ms| :: ts[k] == TokenOf(ms[k])
  {
    if ms == [] then [] else [TokenOf(ms[0])] + TokensOf(ms[1..])
  }

  /** A request that selects the forest `fs`. */
  function Print(fs: seq<Field>): string {
    Render(TokensOf(ForestMatches(fs, 0)))
  }

  /** Every head of the forest can be written down and read back. */
  predicate Writable(fs: seq<Field>) {
    forall k | 0 <= k < |Heads(fs)| :: WellFormedHead(Heads(fs)[k].name, Heads(fs)[k].modifiers)
  }

  /** No `{`, `}`, `,` or space. */
  predicate Printable(s: string) {
    forall k | 0 <= k < |s| :: !IsSpecial(s[k]) && s[k] != ' '
  }

  lemma PrintableAppend(a: string, b: string)
    requires Printable(a) && Printable(b)
    ensures Printable(a + b)
  {
    assert forall k | |a| <= k < |a + b| :: (a + b)[k] == b[k - |a|];
  }

  lemma PrintModifierPrintable(m: Modifier)
    requires WellFormedModifier(m)
    ensures Printable(PrintModifier(m))
  {
    if m.name.Some? {
      var n := m.name.value;
      assert Printable(n) by {
        assert forall k | 0 <= k < |n| :: PathChar(n[k]);
      }
      if m.value.Text? {
        var v := m.value.text;
        assert Printable(v) by {
          assert forall k | 0 <= k < |v| :: PathChar(v[k]);
        }
        PrintableAppend("(", v);
        PrintableAppend("(" + v, ")");
        PrintableAppend(n, "(" + v + ")");
      } else {
        assert PrintModifier(m) == n + [];
      }
    }
  }

  lemma {:induction false} JoinPrintable(parts: seq<string>)
    requires |parts| >= 1
    requires forall k | 0 <= k < |parts| :: Printable(parts[k])
    ensures Printable(Join(parts))
  {
    if |parts| > 1 {
      JoinPrintable(parts[1..]);
      PrintableAppend(parts[0], ".");
      PrintableAppend(parts[0] + ".", Join(parts[1..]));
    }
  }

  /** The path of a well-formed head is a valid match run without spaces. */
  lemma PrintPathPrintable(name: string, mods: Option<seq<Modifier>>)
    requires WellFormedHead(name, mods)
    ensures PrintPath(name, mods) != [] && Printable(PrintPath(name, mods))
  {
    assert Printable(name) by {
      assert forall k | 0 <= k < |name| :: PathChar(name[k]);
    }
    if mods.Some? {
      var ms := mods.value;
      var parts := [name] + PrintModifiers(ms);
      forall k | 0 <= k < |parts| ensures Printable(parts[k]) {
        if k > 0 {
          PrintModifierPrintable(ms[k - 1]);
        }
      }
      JoinPrintable(parts);
    }
  }

  lemma {:induction false} RenderNoSpace(ts: seq<Token>)
    requires forall k | 0 <= k < |ts| :: ' ' !in ts[k].run && ' ' !in ts[k].braces
    ensures ' ' !in Render(ts)
  {
    if ts != [] {
      RenderNoSpace(ts[1..]);
      assert ' ' !in Separator(ts);
    }
  }

  /** Each written match reads back as the match it was written from. */
  lemma TokenRoundTrip(m: Match)
    requires WellFormedHead(m.head.name, m.head.modifiers)
    ensures ValidToken(TokenOf(m)) && ' ' !in TokenOf(m).run && ' ' !in TokenOf(m).braces
    ensures MatchOf(TokenOf(m)) == m
  {
    var t := TokenOf(m);
    PrintPathPrintable(m.head.name, m.head.modifiers);
    assert ' ' !in t.run by {
      assert forall k | 0 <= k < |t.run| :: t.run[k] != ' ';
    }
    NodeOfPrint(m.head.name, m.head.modifiers);
    match m.effect
    case Stay =>
    case Push =>
    case Pop(n) =>
      assert t.braces[0] == '}';
  }

  /** Reading the request `Print(fs)` gives back the forest `fs`, whenever
      its nodes carry `fields` only when they have children and all of its
      names and modifiers can be written down. */
  lemma PrintSelector(fs: seq<Field>)
    requires AllShaped(fs) && Writable(fs)
    ensures Selector(Print(fs)) == fs
  {
    var ms := ForestMatches(fs, 0);
    var ts := TokensOf(ms);
    ForestHeads(fs, 0);
    forall k | 0 <= k < |ms|
      ensures ValidToken(ts[k]) && ' ' !in ts[k].run && ' ' !in ts[k].braces
      ensures MatchOf(ts[k]) == ms[k]
    {
      HeadsOfAt(ms, k);
      TokenRoundTrip(ms[k]);
    }
    assert Matches(ts) == ms;
    TokensOfRender(ts);
    RenderNoSpace(ts);
    StripSpacesKeeps(Render(ts));
    PrintParse(fs);
  }
}
