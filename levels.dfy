/** The scan the plugin performs over the matches of a request, one match at
    a time, with the stack `$levels` of the nodes that are still open: the
    root first, the node that receives the next match last.

    The plugin keeps every node in its parent's `fields` as soon as it is
    created and shares it by handle with the stack. Here a node that is still
    open is held on the stack as a `Scope` (its head and the children attached
    so far) and is attached to its parent, as a value, when it is closed. No
    match is added to a parent while one of its children is open, so each node
    lands at the same position among its siblings. */
module Levels {
  import opened Fields
  import opened Tokenizer
  import opened Parser

  /** An open node: its name and modifiers and the children attached so far.
      The scope at the bottom of the stack is the root, whose head is unused. */
  datatype Scope = Scope(head: Head, kids: seq<Field>)

  const RootScope := Scope(Head("", None), [])

  /** The node an open scope becomes when it is closed. */
  function Close(s: Scope): Field {
    WithChildren(s.head, s.kids)
  }

  /** Attaches nodes to the current (topmost) scope. */
  function AppendAll(levels: seq<Scope>, fs: seq<Field>): (r: seq<Scope>)
    requires |levels| >= 1
    ensures |r| == |levels|
    ensures r[..|r| - 1] == levels[..|levels| - 1]
    ensures r[|r| - 1] == Scope(levels[|levels| - 1].head, levels[|levels| - 1].kids + fs)
  {
    var top := levels[|levels| - 1];
    levels[..|levels| - 1] + [Scope(top.head, top.kids + fs)]
  }

  /** Removes the current scope from the stack and attaches it, closed, to
      the scope below it. */
  function CloseTop(levels: seq<Scope>): (r: seq<Scope>)
    requires |levels| >= 2
    ensures |r| == |levels| - 1
  {
    AppendAll(levels[..|levels| - 1], [Close(levels[|levels| - 1])])
  }

  /** Closes the `k` topmost scopes, one after the other. */
  function PopN(levels: seq<Scope>, k: nat): (r: seq<Scope>)
    requires k < |levels|
    ensures |r| == |levels| - k
    decreases k
  {
    if k == 0 then levels else PopN(CloseTop(levels), k - 1)
  }

  /** Closes every scope down to the root and returns the root's list. */
  function CloseAll(levels: seq<Scope>): seq<Field>
    requires |levels| >= 1
    decreases |levels|
  {
    if |levels| == 1 then levels[0].kids else CloseAll(CloseTop(levels))
  }

  /** The scan as a step-by-step semantics: the root's list once the
      remaining matches `ms` have been fed, starting from `levels`. A closing
      run that removes at least as many levels as there are, root included,
      leaves the tree as it is then: later matches are stored on nodes that
      are no longer reachable from the root. */
  ghost function Run(levels: seq<Scope>, ms: seq<Match>): seq<Field>
    requires |levels| >= 1
    decreases |ms|
  {
    if ms == [] then CloseAll(levels)
    else
      var h := ms[0].head;
      match ms[0].effect
      case Stay => Run(AppendAll(levels, [Leaf(h)]), ms[1..])
      case Push => Run(levels + [Scope(h, [])], ms[1..])
      case Pop(k) =>
        var next := AppendAll(levels, [Leaf(h)]);
        if k >= |next| then CloseAll(next) else Run(PopN(next, k), ms[1..])
  }

  /** How the scan goes on once one level has been read by `ParseLevel`: its
      nodes are attached to the current scope, and then either the scan ends
      or, after closing `p.pops` levels, it goes on with the unread matches. */
  ghost function ResumeWith(levels: seq<Scope>, p: Parsed): seq<Field>
    requires |levels| >= 1
  {
    var next := AppendAll(levels, p.items);
    if p.pops == 0 || p.pops >= |next| then CloseAll(next) else Run(PopN(next, p.pops), p.rest)
  }

  lemma AppendAllTwice(levels: seq<Scope>, a: seq<Field>, b: seq<Field>)
    requires |levels| >= 1
    ensures AppendAll(AppendAll(levels, a), b) == AppendAll(levels, a + b)
  {
    var top := levels[|levels| - 1];
    assert top.kids + a + b == top.kids + (a + b);
  }

  lemma AppendAllNone(levels: seq<Scope>)
    requires |levels| >= 1
    ensures AppendAll(levels, []) == levels
  {
    assert levels[|levels| - 1].kids + [] == levels[|levels| - 1].kids;
  }

  /** A scope pushed for a node and given its children, then closed, is that
      node attached to the scope below. */
  lemma ClosePushed(levels: seq<Scope>, h: Head, kids: seq<Field>)
    requires |levels| >= 1
    ensures AppendAll(levels + [Scope(h, [])], kids) == levels + [Scope(h, kids)]
    ensures CloseTop(levels + [Scope(h, kids)]) == AppendAll(levels, [WithChildren(h, kids)])
  {
    assert (levels + [Scope(h, [])])[..|levels|] == levels;
    assert (levels + [Scope(h, kids)])[..|levels|] == levels;
    assert [] + kids == kids;
  }

  /** The scan agrees with the recursive reading, one level at a time. */
  lemma {:induction false} RunLevel(levels: seq<Scope>, ms: seq<Match>)
    requires |levels| >= 1
    ensures Run(levels, ms) == ResumeWith(levels, ParseLevel(ms))
    decreases |ms|, 1
  {
    if ms == [] {
      AppendAllNone(levels);
    } else {
      match ms[0].effect
      case Stay => RunStay(levels, ms);
      case Pop(_) => ParsePop(ms);
      case Push => RunPush(levels, ms);
    }
  }

  lemma {:induction false} RunStay(levels: seq<Scope>, ms: seq<Match>)
    requires |levels| >= 1
    requires ms != [] && ms[0].effect == Stay
    ensures Run(levels, ms) == ResumeWith(levels, ParseLevel(ms))
    decreases |ms|, 0
  {
    var leaf := Leaf(ms[0].head);
    var p := ParseLevel(ms[1..]);
    ParseStay(ms);
    RunLevel(AppendAll(levels, [leaf]), ms[1..]);
    AppendAllTwice(levels, [leaf], p.items);
  }

  lemma {:induction false} RunPush(levels: seq<Scope>, ms: seq<Match>)
    requires |levels| >= 1
    requires ms != [] && ms[0].effect == Push
    ensures Run(levels, ms) == ResumeWith(levels, ParseLevel(ms))
    decreases |ms|, 0
  {
    var h := ms[0].head;
    var inner := ParseLevel(ms[1..]);
    var m := WithChildren(h, inner.items);
    var pushed := levels + [Scope(h, [])];
    var filled := levels + [Scope(h, inner.items)];
    var closed := AppendAll(levels, [m]);
    assert Run(levels, ms) == Run(pushed, ms[1..]);
    RunLevel(pushed, ms[1..]);
    ClosePushed(levels, h, inner.items);
    assert Run(levels, ms) == ResumeWith(pushed, inner);
    if inner.pops == 1 {
      var p := ParseLevel(inner.rest);
      assert PopN(filled, 1) == closed;
      RunLevel(closed, inner.rest);
      AppendAllTwice(levels, [m], p.items);
      assert ParseLevel(ms) == Parsed([m] + p.items, p.rest, p.pops) by { ParsePushOne(ms); }
    } else if inner.pops == 0 {
      assert CloseAll(filled) == CloseAll(closed);
      assert ParseLevel(ms) == Parsed([m], [], 0) by { ParsePushNone(ms); }
    } else if inner.pops > |levels| {
      assert CloseAll(filled) == CloseAll(closed);
      assert ParseLevel(ms) == Parsed([m], inner.rest, inner.pops - 1) by { ParsePushMore(ms); }
    } else {
      assert PopN(filled, inner.pops) == PopN(closed, inner.pops - 1);
      assert ParseLevel(ms) == Parsed([m], inner.rest, inner.pops - 1) by { ParsePushMore(ms); }
    }
  }

  /** Started from the root alone, the scan builds exactly the recursive
      reading's top-level list. */
  lemma RunFromRoot(ms: seq<Match>)
    ensures Run([RootScope], ms) == ParseLevel(ms).items
  {
    RunLevel([RootScope], ms);
  }

  /** What the plugin's callback does with one match: the node is attached to
      the current level; a brace run starting with `{` then makes that node the
      current level (one push, however many `{` follow), and one starting with
      `}` closes as many levels as the run has characters. `detached` reports
      that the root itself was removed, so that nothing later reaches the
      tree; `next` then holds the final stack. */
  method Feed(levels: seq<Scope>, m: Match, ghost rest: seq<Match>) returns (next: seq<Scope>, detached: bool)
    requires |levels| >= 1
    ensures |next| >= 1
    ensures m.effect == Stay ==> !detached && |next| == |levels|
    ensures m.effect == Push ==> !detached && |next| == |levels| + 1 && next[..|levels|] == levels
    ensures m.effect.Pop? ==> (detached <==> m.effect.count >= |levels|)
    ensures m.effect.Pop? && !detached ==> |next| == |levels| - m.effect.count
    ensures Run(levels, [m] + rest) == if detached then CloseAll(next) else Run(next, rest)
  {
    assert ([m] + rest)[0] == m && ([m] + rest)[1..] == rest;
    match m.effect
    case Stay =>
      next := AppendAll(levels, [Leaf(m.head)]);
      detached := false;
    case Push =>
      next := levels + [Scope(m.head, [])];
      detached := false;
    case Pop(k) =>
      var attached := AppendAll(levels, [Leaf(m.head)]);
      if k >= |attached| {
        next, detached := attached, true;
      } else {
        next := attached;
        var j := 0;
        while j < k
          invariant 0 <= j <= k
          invariant |next| == |attached| - j
          invariant PopN(next, k - j) == PopN(attached, k)
        {
          next := CloseTop(next);
          j := j + 1;
        }
        detached := false;
      }
  }

  /** `rest_api_fmf_filter`: removes the spaces, scans the request for
      matches, feeds each to the level stack, and returns the root object. */
  method Parse(request: string) returns (filter: Filter)
    ensures filter == Filter(Selector(request))
  {
    var ts := Tokens(StripSpaces(request));
    ghost var ms := Matches(ts);
    var levels := [RootScope];
    RunFromRoot(ms);
    var i := 0;
    while i < |ts|
      invariant 0 <= i <= |ts|
      invariant |levels| >= 1
      invariant Run(levels, ms[i..]) == Selector(request)
    {
      assert ms[i..] == [MatchOf(ts[i])] + ms[i + 1..];
      var detached;
      levels, detached := Feed(levels, MatchOf(ts[i]), ms[i + 1..]);
      if detached {
        return Filter(CloseAll(levels));
      }
      i := i + 1;
    }
    assert ms[i..] == [];
    filter := Filter(CloseAll(levels));
  }
}
