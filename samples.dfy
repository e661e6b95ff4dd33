/** Worked requests: the matches each small selector is cut into, and the tree
    the parser builds from them. How a request is cut into matches is proved
    in general by `Tokenizer.TokensMatchRuns` and `Tokenizer.TokensOfRender`. */
module Samples {
  import opened Fields
  import opened Tokenizer
  import opened Paths
  import opened Parser

  function Plain(name: string): Field {
    Field(name, None, NoChildren)
  }

  function Named(name: string, effect: Effect): Match {
    Match(Head(name, None), effect)
  }

  // ---------------------------------------------------------------------
  // Cutting a request into matches

  /** One match of the pattern at `i`: the run `run`, then the brace run
      `braces`, after which the scan goes on at `m`. */
  lemma MatchAt(s: string, i: nat, run: string, braces: string, m: nat)
    requires i + |run| + |braces| <= |s|
    requires run != [] && NoSpecial(run) && AllBraces(braces)
    requires forall x | 0 <= x < |run| :: s[i + x] == run[x]
    requires forall x | 0 <= x < |braces| :: s[i + |run| + x] == braces[x]
    requires i + |run| < |s| ==> IsSpecial(s[i + |run|])
    requires i + |run| + |braces| < |s| ==> !IsBrace(s[i + |run| + |braces|])
    requires m == Resume(s, i + |run| + |braces|)
    ensures TokensFrom(s, i) == [Token(run, braces)] + TokensFrom(s, m)
  {
    assert s[i] == run[0];
    RunAt(s, i, run);
    BracesAt(s, i + |run|, braces);
    TokenAt(s, i, i + |run|, i + |run| + |braces|, m, Token(run, braces));
  }

  /** A one-letter path without a dot is a node with that name and no
      modifiers. */
  lemma NamedOnly(c: char, braces: string)
    requires c != '.'
    ensures MatchOf(Token([c], braces)) == Named([c], EffectOf(braces))
  {
    var r := Split([c][1..]);
    assert r == [[]] by {
      assert [c][1..] == [];
    }
    assert Split([c]) == [[c] + r[0]] + r[1..];
    assert [c] + r[0] == [c];
  }

  lemma MatchesCons(t: Token, ts: seq<Token>, m: Match, ms: seq<Match>)
    requires MatchOf(t) == m && Matches(ts) == ms
    ensures Matches([t] + ts) == [m] + ms
  {
    assert ([t] + ts)[1..] == ts;
  }

  /** The matches of a request without spaces are those of its tokens. */
  lemma RequestIs(request: string, ts: seq<Token>, ms: seq<Match>)
    requires ' ' !in request && Tokens(request) == ts && Matches(ts) == ms
    ensures RequestMatches(request) == ms
  {
    StripSpacesKeeps(request);
  }

  // ---------------------------------------------------------------------
  // Balanced braces: `a{b,c},d`

  lemma NestedTokens(s: string)
    requires s == "a{b,c},d"
    ensures Tokens(s) == [Token("a", "{"), Token("b", ""), Token("c", "}"), Token("d", "")]
  {
    assert TokensFrom(s, 7) == [Token("d", "")] by {
      MatchAt(s, 7, "d", "", 8);
    }
    assert TokensFrom(s, 4) == [Token("c", "}"), Token("d", "")] by {
      MatchAt(s, 4, "c", "}", 7);
    }
    MatchAt(s, 2, "b", "", 4);
    MatchAt(s, 0, "a", "{", 2);
  }

  lemma NestedText(request: string)
    requires request == "a{b,c},d"
    ensures RequestMatches(request) == [Named("a", Push), Named("b", Stay), Named("c", Pop(1)), Named("d", Stay)]
  {
    NestedTokens(request);
    NamedOnly('a', "{");
    NamedOnly('b', "");
    NamedOnly('c', "}");
    NamedOnly('d', "");
    MatchesCons(Token("d", ""), [], Named("d", Stay), []);
    MatchesCons(Token("c", "}"), [Token("d", "")], Named("c", Pop(1)), [Named("d", Stay)]);
    MatchesCons(Token("b", ""), [Token("c", "}"), Token("d", "")],
      Named("b", Stay), [Named("c", Pop(1)), Named("d", Stay)]);
    MatchesCons(Token("a", "{"), [Token("b", ""), Token("c", "}"), Token("d", "")],
      Named("a", Push), [Named("b", Stay), Named("c", Pop(1)), Named("d", Stay)]);
    RequestIs(request, [Token("a", "{"), Token("b", ""), Token("c", "}"), Token("d", "")],
      [Named("a", Push), Named("b", Stay), Named("c", Pop(1)), Named("d", Stay)]);
  }

  lemma NestedReading()
    ensures ParseLevel([Named("a", Push), Named("b", Stay), Named("c", Pop(1)), Named("d", Stay)]).items
         == [Field("a", None, Children([Plain("b"), Plain("c")])), Plain("d")]
  {
    var ms := [Named("a", Push), Named("b", Stay), Named("c", Pop(1)), Named("d", Stay)];
    assert ParseLevel(ms[2..]) == Parsed([Plain("c")], ms[3..], 1);
    assert ParseLevel(ms[1..]) == Parsed([Plain("b"), Plain("c")], ms[3..], 1);
    assert ParseLevel(ms[3..]) == Parsed([Plain("d")], [], 0);
  }

  /** `a{b,c},d` gives `a` with children `b` and `c`, followed by its sibling
      `d`. */
  lemma NestedSample(request: string)
    requires request == "a{b,c},d"
    ensures Selector(request) == [Field("a", None, Children([Plain("b"), Plain("c")])), Plain("d")]
  {
    NestedText(request);
    NestedReading();
  }

  // ---------------------------------------------------------------------
  // Several `}` close several levels: `a{b{c}},d`

  lemma DoubleCloseTokens(s: string)
    requires s == "a{b{c}},d"
    ensures Tokens(s) == [Token("a", "{"), Token("b", "{"), Token("c", "}}"), Token("d", "")]
  {
    assert TokensFrom(s, 8) == [Token("d", "")] by {
      MatchAt(s, 8, "d", "", 9);
    }
    assert TokensFrom(s, 4) == [Token("c", "}}"), Token("d", "")] by {
      MatchAt(s, 4, "c", "}}", 8);
    }
    MatchAt(s, 2, "b", "{", 4);
    MatchAt(s, 0, "a", "{", 2);
  }

  lemma DoubleCloseText(request: string)
    requires request == "a{b{c}},d"
    ensures RequestMatches(request) == [Named("a", Push), Named("b", Push), Named("c", Pop(2)), Named("d", Stay)]
  {
    DoubleCloseTokens(request);
    NamedOnly('a', "{");
    NamedOnly('b', "{");
    NamedOnly('c', "}}");
    NamedOnly('d', "");
    MatchesCons(Token("d", ""), [], Named("d", Stay), []);
    MatchesCons(Token("c", "}}"), [Token("d", "")], Named("c", Pop(2)), [Named("d", Stay)]);
    MatchesCons(Token("b", "{"), [Token("c", "}}"), Token("d", "")],
      Named("b", Push), [Named("c", Pop(2)), Named("d", Stay)]);
    MatchesCons(Token("a", "{"), [Token("b", "{"), Token("c", "}}"), Token("d", "")],
      Named("a", Push), [Named("b", Push), Named("c", Pop(2)), Named("d", Stay)]);
    RequestIs(request, [Token("a", "{"), Token("b", "{"), Token("c", "}}"), Token("d", "")],
      [Named("a", Push), Named("b", Push), Named("c", Pop(2)), Named("d", Stay)]);
  }

  lemma DoubleCloseReading()
    ensures ParseLevel([Named("a", Push), Named("b", Push), Named("c", Pop(2)), Named("d", Stay)]).items
         == [Field("a", None, Children([Field("b", None, Children([Plain("c")]))])), Plain("d")]
  {
    var ms := [Named("a", Push), Named("b", Push), Named("c", Pop(2)), Named("d", Stay)];
    assert ParseLevel(ms[2..]) == Parsed([Plain("c")], ms[3..], 2);
    assert ParseLevel(ms[1..]) == Parsed([Field("b", None, Children([Plain("c")]))], ms[3..], 1);
    assert ParseLevel(ms[3..]) == Parsed([Plain("d")], [], 0);
  }

  /** In `a{b{c}},d` the run `}}` closes `b` and `a`, so `d` is again at the
      top level. */
  lemma DoubleCloseSample(request: string)
    requires request == "a{b{c}},d"
    ensures Selector(request) == [Field("a", None, Children([Field("b", None, Children([Plain("c")]))])), Plain("d")]
  {
    DoubleCloseText(request);
    DoubleCloseReading();
  }

  // ---------------------------------------------------------------------
  // Removing the root: `a},b`

  lemma UnderflowTokens(s: string)
    requires s == "a},b"
    ensures Tokens(s) == [Token("a", "}"), Token("b", "")]
  {
    MatchAt(s, 0, "a", "}", 3);
    MatchAt(s, 3, "b", "", 4);
  }

  lemma UnderflowText(request: string)
    requires request == "a},b"
    ensures RequestMatches(request) == [Named("a", Pop(1)), Named("b", Stay)]
  {
    UnderflowTokens(request);
    NamedOnly('a', "}");
    NamedOnly('b', "");
    MatchesCons(Token("b", ""), [], Named("b", Stay), []);
    MatchesCons(Token("a", "}"), [Token("b", "")], Named("a", Pop(1)), [Named("b", Stay)]);
    RequestIs(request, [Token("a", "}"), Token("b", "")], [Named("a", Pop(1)), Named("b", Stay)]);
  }

  /** A closing run at least as long as the stack removes the root: in `a},b`
      the match `b` never reaches the tree. */
  lemma UnderflowSample(request: string)
    requires request == "a},b"
    ensures Selector(request) == [Plain("a")]
  {
    UnderflowText(request);
  }

  // ---------------------------------------------------------------------
  // An opening run with nothing inside: `a{}`

  lemma EmptyBracesText(request: string)
    requires request == "a{}"
    ensures RequestMatches(request) == [Named("a", Push)]
  {
    MatchAt(request, 0, "a", "{}", 3);
    NamedOnly('a', "{}");
    MatchesCons(Token("a", "{}"), [], Named("a", Push), []);
    RequestIs(request, [Token("a", "{}")], [Named("a", Push)]);
  }

  /** `a{}` gives `a` no `fields`: the run `{}` opens a level that receives
      nothing before the input ends. */
  lemma EmptyBracesSample(request: string)
    requires request == "a{}"
    ensures Selector(request) == [Plain("a")]
  {
    EmptyBracesText(request);
    assert ParseLevel([Named("a", Push)][1..]) == Parsed([], [], 0);
  }
}
