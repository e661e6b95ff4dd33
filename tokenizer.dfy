/** Splitting a `fields` request into matches of the pattern `([^{},]+)([{}]+)?,?`
    after spaces are removed. Each match is a Token: the path text and the brace
    run that follows it. The matches are defined directly as maximal runs; the
    lemmas relate them to the maximal runs of non-brace, non-comma characters. */
module Tokenizer {

  predicate IsSpecial(c: char) {
    c == '{' || c == '}' || c == ','
  }

  predicate IsBrace(c: char) {
    c == '{' || c == '}'
  }

  predicate NoSpecial(s: string) {
    forall k | 0 <= k < |s| :: !IsSpecial(s[k])
  }

  predicate AllBraces(s: string) {
    forall k | 0 <= k < |s| :: IsBrace(s[k])
  }

  /** Removes every space character (and no other whitespace) from the request. */
  function StripSpaces(s: string): (r: string)
    ensures ' ' !in r
    ensures multiset(r) == multiset(s)[' ' := 0]
  {
    if s == [] then []
    else
      assert s == [s[0]] + s[1..];
      (if s[0] == ' ' then [] else [s[0]]) + StripSpaces(s[1..])
  }

  lemma {:induction false} StripSpacesAppend(a: string, b: string)
    ensures StripSpaces(a + b) == StripSpaces(a) + StripSpaces(b)
  {
    if a == [] {
      assert a + b == b;
    } else {
      assert (a + b)[0] == a[0] && (a + b)[1..] == a[1..] + b;
      StripSpacesAppend(a[1..], b);
    }
  }

  lemma {:induction false} StripSpacesKeeps(s: string)
    requires ' ' !in s
    ensures StripSpaces(s) == s
  {
    if s != [] {
      assert s[0] != ' ';
      StripSpacesKeeps(s[1..]);
    }
  }

  /** End of the longest run without `{`, `}` or `,` that starts at `i`
      (group 1 of the pattern when a match starts at `i`). */
  function RunEnd(s: string, i: nat): (j: nat)
    requires i <= |s|
    decreases |s| - i
    ensures i <= j <= |s|
  {
    if i == |s| || IsSpecial(s[i]) then i else RunEnd(s, i + 1)
  }

  /** End of the longest run of braces that starts at `i` (group 2 of the pattern). */
  function BraceEnd(s: string, i: nat): (j: nat)
    requires i <= |s|
    decreases |s| - i
    ensures i <= j <= |s|
  {
    if i == |s| || !IsBrace(s[i]) then i else BraceEnd(s, i + 1)
  }

  /** `RunEnd` ends a maximal run: no special character before it, a special
      one (or the end) at it. */
  lemma {:induction false} RunEndSpec(s: string, i: nat)
    requires i <= |s|
    ensures forall k | i <= k < RunEnd(s, i) :: !IsSpecial(s[k])
    ensures RunEnd(s, i) < |s| ==> IsSpecial(s[RunEnd(s, i)])
    decreases |s| - i
  {
    if i < |s| && !IsSpecial(s[i]) {
      RunEndSpec(s, i + 1);
    }
  }

  lemma {:induction false} BraceEndSpec(s: string, i: nat)
    requires i <= |s|
    ensures forall k | i <= k < BraceEnd(s, i) :: IsBrace(s[k])
    ensures BraceEnd(s, i) < |s| ==> !IsBrace(s[BraceEnd(s, i)])
    decreases |s| - i
  {
    if i < |s| && IsBrace(s[i]) {
      BraceEndSpec(s, i + 1);
    }
  }

  /** A maximal run is exactly what `RunEnd` measures. */
  lemma {:induction false} RunEndIs(s: string, i: nat, j: nat)
    requires i <= j <= |s|
    requires forall k | i <= k < j :: !IsSpecial(s[k])
    requires j < |s| ==> IsSpecial(s[j])
    ensures RunEnd(s, i) == j
    decreases j - i
  {
    if i < j {
      assert !IsSpecial(s[i]);
      RunEndIs(s, i + 1, j);
    }
  }

  lemma {:induction false} BraceEndIs(s: string, i: nat, j: nat)
    requires i <= j <= |s|
    requires forall k | i <= k < j :: IsBrace(s[k])
    requires j < |s| ==> !IsBrace(s[j])
    ensures BraceEnd(s, i) == j
    decreases j - i
  {
    if i < j {
      assert IsBrace(s[i]);
      BraceEndIs(s, i + 1, j);
    }
  }

  /** One match: the path text (group 1) and the brace run (group 2, empty when absent). */
  datatype Token = Token(run: string, braces: string)

  predicate ValidToken(t: Token) {
    t.run != [] && NoSpecial(t.run) && AllBraces(t.braces)
  }

  /** Where the scan resumes after a match whose brace run ends at `k`: behind
      the optional comma. */
  function Resume(s: string, k: nat): (m: nat)
    requires k <= |s|
  {
    if k < |s| && s[k] == ',' then k + 1 else k
  }

  /** The successive matches of the pattern in `s[i..]`, scanning left to right.
      A `{`, `}` or `,` where no match can start is skipped; after a match the
      scan resumes behind its optional comma. */
  function TokensFrom(s: string, i: nat): (ts: seq<Token>)
    requires i <= |s|
    decreases |s| - i
  {
    if i == |s| then []
    else if IsSpecial(s[i]) then TokensFrom(s, i + 1)
    else
      var j := RunEnd(s, i);
      var k := BraceEnd(s, j);
      [Token(s[i..j], s[j..k])] + TokensFrom(s, Resume(s, k))
  }

  function Tokens(s: string): seq<Token> {
    TokensFrom(s, 0)
  }

  /** Every match has a non-empty run free of `{`, `}` and `,`, and a brace run
      made only of braces. */
  lemma {:induction false} TokensValid(s: string, i: nat)
    requires i <= |s|
    ensures forall k | 0 <= k < |TokensFrom(s, i)| :: ValidToken(TokensFrom(s, i)[k])
    decreases |s| - i
  {
    if i < |s| {
      if IsSpecial(s[i]) {
        TokensValid(s, i + 1);
      } else {
        var j := RunEnd(s, i);
        var k := BraceEnd(s, j);
        var t := Token(s[i..j], s[j..k]);
        RunEndSpec(s, i);
        BraceEndSpec(s, j);
        assert NoSpecial(t.run) by {
          forall x | 0 <= x < |t.run| ensures !IsSpecial(t.run[x]) {
            assert t.run[x] == s[i + x];
          }
        }
        assert AllBraces(t.braces) by {
          forall x | 0 <= x < |t.braces| ensures IsBrace(t.braces[x]) {
            assert t.braces[x] == s[j + x];
          }
        }
        TokensValid(s, Resume(s, k));
      }
    }
  }

  function RunsOf(ts: seq<Token>): (rs: seq<string>)
    ensures |rs| == |ts|
    ensures forall k | 0 <= k < |ts| :: rs[k] == ts[k].run
  {
    if ts == [] then [] else [ts[0].run] + RunsOf(ts[1..])
  }

  /** The maximal runs of characters other than `{`, `}` and `,` in `s[i..n]`,
      defined one character at a time from the end: an independent reference
      for the matches. */
  function RunsIn(s: string, i: nat, n: nat): (rs: seq<string>)
    requires i <= n <= |s|
    decreases n - i
    ensures n > i && !IsSpecial(s[n - 1]) ==> rs != []
  {
    if n == i then []
    else Snoc(RunsIn(s, i, n - 1), s[n - 1], n - 1 > i && !IsSpecial(s[n - 2]))
  }

  function Runs(s: string): seq<string> {
    RunsIn(s, 0, |s|)
  }

  /** Adds character `c` to the runs `p`: it is dropped if it is special, it
      extends the last run if `join` (the previous character is part of a run),
      and starts a new run otherwise. */
  function Snoc(p: seq<string>, c: char, join: bool): (r: seq<string>)
    ensures !IsSpecial(c) ==> r != []
  {
    if IsSpecial(c) then p
    else if join && p != [] then p[..|p| - 1] + [p[|p| - 1] + [c]]
    else p + [[c]]
  }

  lemma SnocAppend(p: seq<string>, q: seq<string>, c: char, join: bool)
    requires join && !IsSpecial(c) ==> q != []
    ensures Snoc(p + q, c, join) == p + Snoc(q, c, join)
  {
    if !IsSpecial(c) && join {
      assert (p + q)[..|p + q| - 1] == p + q[..|q| - 1];
    }
  }

  /** A cut at `m` where the character before or after it is special, or at
      an end, splits no run. */
  lemma {:induction false} RunsCut(s: string, i: nat, m: nat, n: nat)
    requires i <= m <= n <= |s|
    requires m == i || m == n || IsSpecial(s[m - 1]) || IsSpecial(s[m])
    ensures RunsIn(s, i, n) == RunsIn(s, i, m) + RunsIn(s, m, n)
    decreases n - m
  {
    if n == m {
    } else if m == i {
    } else {
      RunsCut(s, i, m, n - 1);
      if n - 1 > m {
        SnocAppend(RunsIn(s, i, m), RunsIn(s, m, n - 1), s[n - 1], !IsSpecial(s[n - 2]));
      }
    }
  }

  lemma {:induction false} RunsOfSpecials(s: string, i: nat, n: nat)
    requires i <= n <= |s|
    requires forall k | i <= k < n :: IsSpecial(s[k])
    ensures RunsIn(s, i, n) == []
    decreases n - i
  {
    if n > i {
      RunsOfSpecials(s, i, n - 1);
    }
  }

  lemma {:induction false} RunsOfRun(s: string, i: nat, n: nat)
    requires i < n <= |s|
    requires forall k | i <= k < n :: !IsSpecial(s[k])
    ensures RunsIn(s, i, n) == [s[i..n]]
    decreases n - i
  {
    if n - 1 > i {
      RunsOfRun(s, i, n - 1);
      assert s[i..n - 1] + [s[n - 1]] == s[i..n];
    } else {
      assert [s[n - 1]] == s[i..n];
    }
  }

  /** The matches of a whole request are its maximal runs. */
  lemma TokensMatchRuns(s: string)
    ensures RunsOf(Tokens(s)) == Runs(s)
  {
    TokensAreRuns(s, 0);
  }

  /** Each match of the pattern holds exactly one maximal run, in order: the
      matches correspond one to one to the maximal runs of the request. */
  lemma {:induction false} TokensAreRuns(s: string, i: nat)
    requires i <= |s|
    ensures RunsOf(TokensFrom(s, i)) == RunsIn(s, i, |s|)
    decreases |s| - i, 1
  {
    if i == |s| {
    } else if IsSpecial(s[i]) {
      RunsCut(s, i, i + 1, |s|);
      TokensAreRuns(s, i + 1);
    } else {
      MatchIsRun(s, i);
    }
  }

  /** The case of `TokensAreRuns` where a match starts at `i`. */
  lemma {:induction false} MatchIsRun(s: string, i: nat)
    requires i < |s| && !IsSpecial(s[i])
    ensures RunsOf(TokensFrom(s, i)) == RunsIn(s, i, |s|)
    decreases |s| - i, 0
  {
    var j := RunEnd(s, i);
    var k := BraceEnd(s, j);
    var m := Resume(s, k);
    RunEndSpec(s, i);
    BraceEndSpec(s, j);
    assert m == j ==> j == |s|;
    assert forall x | j <= x < m :: IsSpecial(s[x]);
    calc {
      RunsIn(s, i, |s|);
      { RunsCut(s, i, j, |s|); }
      RunsIn(s, i, j) + RunsIn(s, j, |s|);
      { RunsOfRun(s, i, j); RunsCut(s, j, m, |s|); }
      [s[i..j]] + (RunsIn(s, j, m) + RunsIn(s, m, |s|));
      { RunsOfSpecials(s, j, m); }
      [s[i..j]] + RunsIn(s, m, |s|);
      { TokensAreRuns(s, m); }
      [s[i..j]] + RunsOf(TokensFrom(s, m));
      { RunsOfCons(Token(s[i..j], s[j..k]), TokensFrom(s, m)); }
      RunsOf([Token(s[i..j], s[j..k])] + TokensFrom(s, m));
      { TokensUnfold(s, i); }
      RunsOf(TokensFrom(s, i));
    }
  }

  lemma RunsOfCons(t: Token, ts: seq<Token>)
    ensures RunsOf([t] + ts) == [t.run] + RunsOf(ts)
  {
    assert ([t] + ts)[1..] == ts;
  }

  /** The text from position `i` to the end of `s` is `w`, stated character by
      character. */
  predicate EndsWith(s: string, i: nat, w: string) {
    i + |w| == |s| && forall x | 0 <= x < |w| :: s[i + x] == w[x]
  }

  /** A run of non-special characters at `i` followed by a special character
      (or the end) is exactly what `RunEnd` measures. */
  lemma RunAt(s: string, i: nat, run: string)
    requires i + |run| <= |s|
    requires forall x | 0 <= x < |run| :: s[i + x] == run[x]
    requires NoSpecial(run)
    requires i + |run| < |s| ==> IsSpecial(s[i + |run|])
    ensures RunEnd(s, i) == i + |run| && s[i..i + |run|] == run
  {
    forall k | i <= k < i + |run| ensures !IsSpecial(s[k]) {
      assert s[k] == run[k - i];
    }
    RunEndIs(s, i, i + |run|);
  }

  lemma BracesAt(s: string, j: nat, braces: string)
    requires j + |braces| <= |s|
    requires forall x | 0 <= x < |braces| :: s[j + x] == braces[x]
    requires AllBraces(braces)
    requires j + |braces| < |s| ==> !IsBrace(s[j + |braces|])
    ensures BraceEnd(s, j) == j + |braces| && s[j..j + |braces|] == braces
  {
    forall k | j <= k < j + |braces| ensures IsBrace(s[k]) {
      assert s[k] == braces[k - j];
    }
    BraceEndIs(s, j, j + |braces|);
  }

  /** The first match when a path character stands at `i`. */
  lemma TokensUnfold(s: string, i: nat)
    requires i < |s| && !IsSpecial(s[i])
    ensures TokensFrom(s, i) ==
      [Token(s[i..RunEnd(s, i)], s[RunEnd(s, i)..BraceEnd(s, RunEnd(s, i))])]
      + TokensFrom(s, Resume(s, BraceEnd(s, RunEnd(s, i))))
  {
  }

  /** The first match when the run at `i` ends at `j`, its brace run at `k`,
      and the scan resumes at `m`. */
  lemma TokenAt(s: string, i: nat, j: nat, k: nat, m: nat, t: Token)
    requires i < |s| && !IsSpecial(s[i])
    requires j <= k <= |s|
    requires RunEnd(s, i) == j && BraceEnd(s, j) == k && Resume(s, k) == m
    requires s[i..j] == t.run && s[j..k] == t.braces
    ensures TokensFrom(s, i) == [t] + TokensFrom(s, m)
  {
    TokensUnfold(s, i);
  }

  /** Writes tokens back as request text: each run and brace run, and a comma
      after it unless it is the last or its brace run opens a scope. */
  function Render(ts: seq<Token>): (s: string)
    ensures ts != [] && ts[0].run != [] ==> s != [] && s[0] == ts[0].run[0]
  {
    if ts == [] then []
    else ts[0].run + (ts[0].braces + (Separator(ts) + Render(ts[1..])))
  }

  function Separator(ts: seq<Token>): string
    requires ts != []
  {
    if |ts| > 1 && (ts[0].braces == [] || ts[0].braces[0] == '}') then "," else ""
  }

  /** The characters of one rendered match, its separator and the rest. */
  lemma PiecesAt(s: string, i: nat, t: Token, sep: string, tail: string)
    requires EndsWith(s, i, t.run + (t.braces + (sep + tail)))
    ensures forall x | 0 <= x < |t.run| :: s[i + x] == t.run[x]
    ensures forall x | 0 <= x < |t.braces| :: s[i + |t.run| + x] == t.braces[x]
    ensures forall x | 0 <= x < |sep| :: s[i + |t.run| + |t.braces| + x] == sep[x]
    ensures EndsWith(s, i + |t.run| + |t.braces| + |sep|, tail)
  {
    var w := t.run + (t.braces + (sep + tail));
    var b := |t.run|;
    var c := b + |t.braces|;
    var d := c + |sep|;
    forall x | 0 <= x < |t.run| ensures s[i + x] == t.run[x] {
      assert w[x] == t.run[x];
    }
    forall x | 0 <= x < |t.braces| ensures s[i + b + x] == t.braces[x] {
      assert w[b + x] == t.braces[x];
    }
    forall x | 0 <= x < |sep| ensures s[i + c + x] == sep[x] {
      assert w[c + x] == sep[x];
    }
    forall x | 0 <= x < |tail| ensures s[i + d + x] == tail[x] {
      assert w[d + x] == tail[x];
    }
  }

  /** A rendered match followed by its separator and the rest of the text is
      read back as that match, and the scan resumes at the rest. */
  lemma TokenStep(s: string, i: nat, t: Token, sep: string, tail: string, m: nat)
    requires EndsWith(s, i, t.run + (t.braces + (sep + tail)))
    requires ValidToken(t)
    requires sep == [] || sep == ","
    requires tail == [] || !IsSpecial(tail[0])
    requires t.braces != [] || sep != [] || tail == []
    requires m == i + |t.run| + |t.braces| + |sep|
    ensures EndsWith(s, m, tail)
    ensures TokensFrom(s, i) == [t] + TokensFrom(s, m)
  {
    var j := i + |t.run|;
    var k := j + |t.braces|;
    PiecesAt(s, i, t, sep, tail);
    if t.braces != [] && j < |s| {
      assert s[j + 0] == t.braces[0];
    } else if sep != [] && j < |s| {
      assert s[k + 0] == sep[0];
    }
    RunAt(s, i, t.run);
    if sep != [] {
      assert s[k + 0] == sep[0];
    } else if k < |s| {
      assert s[m + 0] == tail[0];
    }
    BracesAt(s, j, t.braces);
    assert s[i + 0] == t.run[0];
    TokenAt(s, i, j, k, m, t);
  }

  /** Where the rendering of `ts[1..]` starts when that of `ts` starts at `i`. */
  function After(i: nat, ts: seq<Token>): nat
    requires ts != []
  {
    i + |ts[0].run| + |ts[0].braces| + |Separator(ts)|
  }

  /** Rendered valid tokens start with a path character, or are empty. */
  lemma RenderStart(ts: seq<Token>)
    requires ts != [] ==> ValidToken(ts[0])
    ensures Render(ts) == [] || !IsSpecial(Render(ts)[0])
  {
  }

  /** The first rendered token is read back, and the scan resumes where the
      rendering of the others starts. */
  lemma RenderStep(s: string, i: nat, ts: seq<Token>)
    requires ts != [] && EndsWith(s, i, Render(ts))
    requires ValidToken(ts[0])
    requires Render(ts[1..]) == [] || !IsSpecial(Render(ts[1..])[0])
    ensures EndsWith(s, After(i, ts), Render(ts[1..]))
    ensures TokensFrom(s, i) == [ts[0]] + TokensFrom(s, After(i, ts))
  {
    TokenStep(s, i, ts[0], Separator(ts), Render(ts[1..]), After(i, ts));
  }

  /** Scanning rendered tokens, from wherever they start, gives back the same tokens. */
  lemma {:induction false} TokensOfRenderAt(s: string, i: nat, ts: seq<Token>)
    requires EndsWith(s, i, Render(ts))
    requires forall k | 0 <= k < |ts| :: ValidToken(ts[k])
    ensures TokensFrom(s, i) == ts
    decreases ts
  {
    if ts != [] {
      assert ValidToken(ts[0]);
      assert ts[1..] != [] ==> ValidToken(ts[1..][0]);
      RenderStart(ts[1..]);
      RenderStep(s, i, ts);
      calc {
        TokensFrom(s, i);
        [ts[0]] + TokensFrom(s, After(i, ts));
        { TokensOfRenderAt(s, After(i, ts), ts[1..]); }
        [ts[0]] + ts[1..];
        ts;
      }
    }
  }

  /** Tokens written out with `Render` are read back unchanged. */
  lemma TokensOfRender(ts: seq<Token>)
    requires forall k | 0 <= k < |ts| :: ValidToken(ts[k])
    ensures Tokens(Render(ts)) == ts
  {
    var s := Render(ts);
    assert forall x | 0 <= x < |s| :: s[0 + x] == s[x];
    TokensOfRenderAt(s, 0, ts);
  }
}
