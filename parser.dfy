/** Building the selection tree from the matches of a `fields` request.
    `ParseLevel` is a recursive-descent reading of the matches that serves as
    the reference; `Parse` is the scan the plugin performs, one match at a
    time, with an explicit stack of the levels that are still open. */
module Parser {
  import opened Fields
  import opened Tokenizer
  import opened Paths

  /** What the brace run of a match does to the stack of levels: nothing when
      absent, one push when it starts with `{` (whatever follows), and one pop
      per character when it starts with anything else (only `}` can occur). */
  datatype Effect = Stay | Push | Pop(count: Positive)

  type Positive = n: nat | n >= 1 witness 1

  function EffectOf(braces: string): (e: Effect)
    ensures e == Stay <==> braces == []
    ensures e == Push <==> braces != [] && braces[0] == '{'
    ensures e.Pop? ==> e.count == |braces|
  {
    if braces == [] then Stay
    else if braces[0] == '{' then Push
    else Pop(|braces|)
  }

  /** What one match contributes: the node it creates (name and modifiers)
      and what it does to the stack. */
  datatype Match = Match(head: Head, effect: Effect)

  function MatchOf(t: Token): Match {
    Match(HeadOf(NodeOf(t.run)), EffectOf(t.braces))
  }

  function Matches(ts: seq<Token>): (ms: seq<Match>)
    ensures |ms| == |ts|
    ensures forall k | 0 <= k < |ts| :: ms[k] == MatchOf(ts[k])
  {
    if ts == [] then [] else [MatchOf(ts[0])] + Matches(ts[1..])
  }

  /** A freshly created node: it has no `fields` until a child is attached. */
  function Leaf(h: Head): (f: Field)
    ensures HeadOf(f) == h && f.fields == NoChildren
  {
    Field(h.name, h.modifiers, NoChildren)
  }

  /** The node a match opens, once the nodes read inside it are known: it gets
      a `fields` list only if at least one node was attached to it. */
  function WithChildren(h: Head, kids: seq<Field>): (f: Field)
    ensures HeadOf(f) == h
    ensures f.fields == (if kids == [] then NoChildren else Children(kids))
  {
    if kids == [] then Leaf(h) else Field(h.name, h.modifiers, Children(kids))
  }

  /** The siblings read at one level, the matches left unread, and how many
      levels the match that ended this level closes (0 when the input ran out). */
  datatype Parsed = Parsed(items: seq<Field>, rest: seq<Match>, pops: nat)

  /** Reads the matches that belong to one level. A match without braces adds a
      sibling and reading goes on; a closing run ends the level after adding its
      node; an opening run adds a node whose content is read as the next level
      down, after which reading goes on at this level only if exactly one level
      was closed. */
  function ParseLevel(ms: seq<Match>): (r: Parsed)
    ensures ms != [] ==> r.items != [] && |r.rest| < |ms|
    ensures ms == [] ==> r.items == []
    ensures r.pops == 0 ==> r.rest == []
    decreases |ms|
  {
    if ms == [] then Parsed([], [], 0)
    else
      var h := ms[0].head;
      match ms[0].effect
      case Stay =>
        var p := ParseLevel(ms[1..]);
        Parsed([Leaf(h)] + p.items, p.rest, p.pops)
      case Pop(k) =>
        Parsed([Leaf(h)], ms[1..], k)
      case Push =>
        var inner := ParseLevel(ms[1..]);
        var m := WithChildren(h, inner.items);
        if inner.pops == 1 then
          var p := ParseLevel(inner.rest);
          Parsed([m] + p.items, p.rest, p.pops)
        else if inner.pops == 0 then Parsed([m], [], 0)
        else Parsed([m], inner.rest, inner.pops - 1)
  }

  /** The matches of a request: spaces are removed and the request is cut into
      maximal runs, each with the brace run that follows it. */
  function RequestMatches(request: string): seq<Match> {
    Matches(Tokens(StripSpaces(request)))
  }

  /** The top-level `fields` of the tree built from a request: the matches are
      read at the root level. Matches after a closing run that empties the
      whole stack never reach the tree. */
  function Selector(request: string): seq<Field> {
    ParseLevel(RequestMatches(request)).items
  }

  /** `ParseLevel` on a match without braces. */
  lemma ParseStay(ms: seq<Match>)
    requires ms != [] && ms[0].effect == Stay
    ensures ParseLevel(ms) == Parsed([Leaf(ms[0].head)] + ParseLevel(ms[1..]).items,
                                     ParseLevel(ms[1..]).rest, ParseLevel(ms[1..]).pops)
  {
  }

  /** `ParseLevel` on a match whose brace run starts with `}`. */
  lemma ParsePop(ms: seq<Match>)
    requires ms != [] && ms[0].effect.Pop?
    ensures ParseLevel(ms) == Parsed([Leaf(ms[0].head)], ms[1..], ms[0].effect.count)
  {
  }

  /** `ParseLevel` on a match whose brace run starts with `{`, when the nested
      level ends by closing only itself. */
  lemma ParsePushOne(ms: seq<Match>)
    requires ms != [] && ms[0].effect == Push
    requires ParseLevel(ms[1..]).pops == 1
    ensures var inner := ParseLevel(ms[1..]);
            var p := ParseLevel(inner.rest);
            ParseLevel(ms) == Parsed([WithChildren(ms[0].head, inner.items)] + p.items, p.rest, p.pops)
  {
  }

  /** ... when the input ends inside the nested level. */
  lemma ParsePushNone(ms: seq<Match>)
    requires ms != [] && ms[0].effect == Push
    requires ParseLevel(ms[1..]).pops == 0
    ensures ParseLevel(ms) == Parsed([WithChildren(ms[0].head, ParseLevel(ms[1..]).items)], [], 0)
  {
  }

  /** ... when the nested level closes more than itself. */
  lemma ParsePushMore(ms: seq<Match>)
    requires ms != [] && ms[0].effect == Push
    requires ParseLevel(ms[1..]).pops >= 2
    ensures var inner := ParseLevel(ms[1..]);
            ParseLevel(ms) == Parsed([WithChildren(ms[0].head, inner.items)], inner.rest, inner.pops - 1)
  {
  }

  lemma Assoc<T>(a: seq<T>, b: seq<T>, c: seq<T>)
    ensures a + b + c == a + (b + c)
  {
  }

  // ---------------------------------------------------------------------
  // One node per match, in pre-order

  function HeadsOf(ms: seq<Match>): (hs: seq<Head>)
    ensures |hs| == |ms|
  {
    if ms == [] then [] else [ms[0].head] + HeadsOf(ms[1..])
  }

  lemma HeadsCons(f: Field, fs: seq<Field>)
    ensures Heads([f] + fs) == SubtreeHeads(f) + Heads(fs)
  {
    assert ([f] + fs)[1..] == fs;
  }

  lemma SubtreeOfWithChildren(h: Head, kids: seq<Field>)
    ensures SubtreeHeads(WithChildren(h, kids)) == [h] + Heads(kids)
  {
  }

  /** Every match read produces exactly one node, in pre-order: the heads of
      the nodes read, followed by the heads of the unread matches, are the heads
      of all matches. */
  lemma {:induction false} ParseLevelHeads(ms: seq<Match>)
    ensures Heads(ParseLevel(ms).items) + HeadsOf(ParseLevel(ms).rest) == HeadsOf(ms)
    decreases |ms|, 1
  {
    if ms != [] {
      match ms[0].effect
      case Stay => StayHeads(ms);
      case Push => PushHeads(ms);
      case Pop(_) =>
        var n := Leaf(ms[0].head);
        ParsePop(ms);
        calc {
          Heads(ParseLevel(ms).items) + HeadsOf(ParseLevel(ms).rest);
          Heads([n]) + HeadsOf(ms[1..]);
          { HeadsCons(n, []); }
          [ms[0].head] + HeadsOf(ms[1..]);
          HeadsOf(ms);
        }
    }
  }

  lemma {:induction false} StayHeads(ms: seq<Match>)
    requires ms != [] && ms[0].effect == Stay
    ensures Heads(ParseLevel(ms).items) + HeadsOf(ParseLevel(ms).rest) == HeadsOf(ms)
    decreases |ms|, 0
  {
    var n := Leaf(ms[0].head);
    var h := [ms[0].head];
    var p := ParseLevel(ms[1..]);
    ParseStay(ms);
    ParseLevelHeads(ms[1..]);
    calc {
      Heads(ParseLevel(ms).items) + HeadsOf(ParseLevel(ms).rest);
      Heads([n] + p.items) + HeadsOf(p.rest);
      { HeadsCons(n, p.items); }
      h + Heads(p.items) + HeadsOf(p.rest);
      { Assoc(h, Heads(p.items), HeadsOf(p.rest)); }
      h + (Heads(p.items) + HeadsOf(p.rest));
      h + HeadsOf(ms[1..]);
      HeadsOf(ms);
    }
  }

  lemma {:induction false} PushHeads(ms: seq<Match>)
    requires ms != [] && ms[0].effect == Push
    ensures Heads(ParseLevel(ms).items) + HeadsOf(ParseLevel(ms).rest) == HeadsOf(ms)
    decreases |ms|, 0
  {
    var h := [ms[0].head];
    var inner := ParseLevel(ms[1..]);
    var m := WithChildren(ms[0].head, inner.items);
    ParseLevelHeads(ms[1..]);
    SubtreeOfWithChildren(ms[0].head, inner.items);
    if inner.pops == 1 {
      var p := ParseLevel(inner.rest);
      ParsePushOne(ms);
      ParseLevelHeads(inner.rest);
      calc {
        Heads(ParseLevel(ms).items) + HeadsOf(ParseLevel(ms).rest);
        Heads([m] + p.items) + HeadsOf(p.rest);
        { HeadsCons(m, p.items); }
        (h + Heads(inner.items)) + Heads(p.items) + HeadsOf(p.rest);
        { Assoc(h + Heads(inner.items), Heads(p.items), HeadsOf(p.rest)); }
        (h + Heads(inner.items)) + (Heads(p.items) + HeadsOf(p.rest));
        (h + Heads(inner.items)) + HeadsOf(inner.rest);
        { Assoc(h, Heads(inner.items), HeadsOf(inner.rest)); }
        h + (Heads(inner.items) + HeadsOf(inner.rest));
        h + HeadsOf(ms[1..]);
        HeadsOf(ms);
      }
    } else {
      var rest := if inner.pops == 0 then [] else inner.rest;
      assert ParseLevel(ms) == Parsed([m], rest, ParseLevel(ms).pops) by {
        if inner.pops == 0 { ParsePushNone(ms); } else { ParsePushMore(ms); }
      }
      assert inner.rest == rest;
      calc {
        Heads(ParseLevel(ms).items) + HeadsOf(ParseLevel(ms).rest);
        Heads([m]) + HeadsOf(inner.rest);
        { HeadsCons(m, []); assert Heads([]) == []; assert SubtreeHeads(m) + [] == SubtreeHeads(m); }
        h + Heads(inner.items) + HeadsOf(inner.rest);
        { Assoc(h, Heads(inner.items), HeadsOf(inner.rest)); }
        h + (Heads(inner.items) + HeadsOf(inner.rest));
        h + HeadsOf(ms[1..]);
        HeadsOf(ms);
      }
    }
  }

  // ---------------------------------------------------------------------
  // Stack depth: when does a closing run remove the root?

  /** Whether some closing run in `ms` removes more levels than are open above
      the root, when `depth` levels are open to begin with, so that the root
      itself leaves the stack. */
  function ClosesRoot(ms: seq<Match>, depth: nat): bool {
    if ms == [] then false
    else
      match ms[0].effect
      case Stay => ClosesRoot(ms[1..], depth)
      case Push => ClosesRoot(ms[1..], depth + 1)
      case Pop(k) => k > depth || ClosesRoot(ms[1..], depth - k)
  }

  /** When no closing run goes past the root, a level read with `depth`
      levels open above the root closes at most `depth` of them, and what
      remains still does not go past the root. */
  lemma {:induction false} ParseLevelDepth(ms: seq<Match>, depth: nat)
    requires !ClosesRoot(ms, depth)
    ensures ParseLevel(ms).pops <= depth
    ensures !ClosesRoot(ParseLevel(ms).rest, depth - ParseLevel(ms).pops)
    decreases |ms|, 1
  {
    if ms != [] {
      match ms[0].effect
      case Stay =>
        var sub := ParseLevel(ms[1..]);
        assert ParseLevel(ms).rest == sub.rest && ParseLevel(ms).pops == sub.pops by { ParseStay(ms); }
        ParseLevelDepth(ms[1..], depth);
      case Pop(k) =>
        assert ParseLevel(ms).rest == ms[1..] && ParseLevel(ms).pops == k by { ParsePop(ms); }
      case Push =>
        PushDepth(ms, depth);
    }
  }

  lemma {:induction false} PushDepth(ms: seq<Match>, depth: nat)
    requires ms != [] && ms[0].effect == Push
    requires !ClosesRoot(ms, depth)
    ensures ParseLevel(ms).pops <= depth
    ensures !ClosesRoot(ParseLevel(ms).rest, depth - ParseLevel(ms).pops)
    decreases |ms|, 0
  {
    var inner := ParseLevel(ms[1..]);
    ParseLevelDepth(ms[1..], depth + 1);
    if inner.pops == 1 {
      var after := ParseLevel(inner.rest);
      assert ParseLevel(ms).rest == after.rest && ParseLevel(ms).pops == after.pops by { ParsePushOne(ms); }
      ParseLevelDepth(inner.rest, depth);
    } else if inner.pops == 0 {
      assert ParseLevel(ms).rest == [] && ParseLevel(ms).pops == 0 by { ParsePushNone(ms); }
    } else {
      assert ParseLevel(ms).rest == inner.rest && ParseLevel(ms).pops == inner.pops - 1 by { ParsePushMore(ms); }
      assert depth - ParseLevel(ms).pops == depth + 1 - inner.pops;
    }
  }

  // ---------------------------------------------------------------------
  // Properties of the selector

  /** The node heads of a list of paths, one per path, as `NodeOf` reads them. */
  function PathHeads(runs: seq<string>): (hs: seq<Head>)
    ensures |hs| == |runs|
    ensures forall k | 0 <= k < |runs| :: hs[k] == HeadOf(NodeOf(runs[k]))
  {
    if runs == [] then [] else [HeadOf(NodeOf(runs[0]))] + PathHeads(runs[1..])
  }

  lemma {:induction false} HeadsOfMatches(ts: seq<Token>)
    ensures HeadsOf(Matches(ts)) == PathHeads(RunsOf(ts))
  {
    if ts != [] {
      HeadsOfMatches(ts[1..]);
      assert Matches(ts)[1..] == Matches(ts[1..]);
      assert RunsOf(ts)[1..] == RunsOf(ts[1..]);
    }
  }

  /** The top-level list is empty exactly when the request, with spaces
      removed, has no character other than `{`, `}` and `,`: the first match
      always goes to the root. */
  lemma SelectorEmpty(request: string)
    ensures Selector(request) == [] <==> Runs(StripSpaces(request)) == []
  {
    TokensMatchRuns(StripSpaces(request));
  }

  /** Unless a closing run removes the root from the stack, every maximal run
      of the request (spaces removed) becomes exactly one node of the tree, in
      order: the tree read in pre-order lists the name and modifiers that
      `NodeOf` reads from each run. */
  lemma SelectorNodes(request: string)
    requires !ClosesRoot(RequestMatches(request), 0)
    ensures Heads(Selector(request)) == PathHeads(Runs(StripSpaces(request)))
  {
    var ms := RequestMatches(request);
    ParseLevelDepth(ms, 0);
    ParseLevelHeads(ms);
    assert Heads(Selector(request)) + [] == Heads(Selector(request));
    HeadsOfMatches(Tokens(StripSpaces(request)));
    TokensMatchRuns(StripSpaces(request));
  }

  /** In every case the nodes of the tree are those of the first runs of the
      request, in order: a closing run that removes the root only cuts the
      list short. */
  lemma SelectorPrefix(request: string)
    ensures var hs := Heads(Selector(request));
            var all := PathHeads(Runs(StripSpaces(request)));
            |hs| <= |all| && hs == all[..|hs|]
  {
    var ms := RequestMatches(request);
    ParseLevelHeads(ms);
    HeadsOfMatches(Tokens(StripSpaces(request)));
    TokensMatchRuns(StripSpaces(request));
    var hs := Heads(Selector(request));
    var all := PathHeads(Runs(StripSpaces(request)));
    assert all == hs + HeadsOf(ParseLevel(ms).rest);
    assert all[..|hs|] == hs;
  }

  // ---------------------------------------------------------------------
  // Shape of the tree

  /** A node carries `fields` only when at least one child was attached to it,
      and the same holds below it. */
  predicate Shaped(f: Field)
    decreases f
  {
    match f.fields
    case NoChildren => true
    case Children(kids) => kids != [] && forall k | 0 <= k < |kids| :: Shaped(kids[k])
  }

  predicate AllShaped(fs: seq<Field>) {
    forall k | 0 <= k < |fs| :: Shaped(fs[k])
  }

  lemma AllShapedCons(f: Field, fs: seq<Field>)
    requires Shaped(f) && AllShaped(fs)
    ensures AllShaped([f] + fs)
  {
    assert forall k | 1 <= k < |[f] + fs| :: ([f] + fs)[k] == fs[k - 1];
  }

  /** Every node of the tree is shaped: no node ends up with an empty
      `fields` list. */
  lemma {:induction false} ParseLevelShaped(ms: seq<Match>)
    ensures AllShaped(ParseLevel(ms).items)
    decreases |ms|
  {
    if ms != [] {
      var h := ms[0].head;
      match ms[0].effect
      case Stay =>
        ParseStay(ms);
        ParseLevelShaped(ms[1..]);
        AllShapedCons(Leaf(h), ParseLevel(ms[1..]).items);
      case Pop(_) =>
        ParsePop(ms);
        AllShapedCons(Leaf(h), []);
      case Push =>
        var inner := ParseLevel(ms[1..]);
        var m := WithChildren(h, inner.items);
        ParseLevelShaped(ms[1..]);
        assert Shaped(m);
        if inner.pops == 1 {
          ParsePushOne(ms);
          ParseLevelShaped(inner.rest);
          AllShapedCons(m, ParseLevel(inner.rest).items);
        } else if inner.pops == 0 {
          ParsePushNone(ms);
          AllShapedCons(m, []);
        } else {
          ParsePushMore(ms);
          AllShapedCons(m, []);
        }
    }
  }

  lemma SelectorShaped(request: string)
    ensures AllShaped(Selector(request))
  {
    ParseLevelShaped(RequestMatches(request));
  }
}
