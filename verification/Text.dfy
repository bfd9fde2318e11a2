/** The string operations the parsers use, on sequences of characters. */
module Text {
  import opened Basics

  /** Python's str.isspace for one character. */
  predicate IsSpace(c: char) {
    var n := c as int;
    || 0x09 <= n <= 0x0d || 0x1c <= n <= 0x20 || n == 0x85 || n == 0xa0 || n == 0x1680
    || 0x2000 <= n <= 0x200a || n == 0x2028 || n == 0x2029 || n == 0x202f || n == 0x205f || n == 0x3000
  }

  /** ASCII digits. */
  predicate IsDigit(c: char) {
    '0' <= c <= '9'
  }

  predicate NoSpace(s: string) {
    forall i :: 0 <= i < |s| ==> !IsSpace(s[i])
  }

  /** A nonempty run of characters without whitespace. */
  predicate IsToken(s: string) {
    s != "" && NoSpace(s)
  }

  function LStrip(s: string): string {
    if s != "" && IsSpace(s[0]) then LStrip(s[1..]) else s
  }

  function RStrip(s: string): string {
    if s != "" && IsSpace(s[|s| - 1]) then RStrip(s[..|s| - 1]) else s
  }

  function Strip(s: string): string {
    RStrip(LStrip(s))
  }

  /** No whitespace at either end. */
  predicate IsStripped(s: string) {
    s == "" || (!IsSpace(s[0]) && !IsSpace(s[|s| - 1]))
  }

  lemma {:induction false} RStripKeepsHead(s: string)
    requires s != "" && !IsSpace(s[0])
    ensures RStrip(s) != "" && RStrip(s)[0] == s[0]
  {
    if IsSpace(s[|s| - 1]) {
      RStripKeepsHead(s[..|s| - 1]);
    }
  }

  lemma {:induction false} LStripHead(s: string)
    ensures LStrip(s) == "" || !IsSpace(LStrip(s)[0])
  {
    if s != "" && IsSpace(s[0]) {
      LStripHead(s[1..]);
    }
  }

  lemma {:induction false} RStripLast(s: string)
    ensures RStrip(s) == "" || !IsSpace(RStrip(s)[|RStrip(s)| - 1])
  {
    if s != "" && IsSpace(s[|s| - 1]) {
      RStripLast(s[..|s| - 1]);
    }
  }

  /** Stripping yields a stripped string, and changes nothing exactly on stripped ones. */
  lemma StripFixes(s: string)
    ensures IsStripped(Strip(s))
    ensures Strip(s) == s <==> IsStripped(s)
  {
    LStripHead(s);
    RStripLast(LStrip(s));
    if LStrip(s) != "" {
      RStripKeepsHead(LStrip(s));
    }
  }

  lemma {:induction false} VisibleEndSurvives(s: string)
    requires s != "" && !IsSpace(s[|s| - 1])
    ensures Strip(s) != ""
  {
    if IsSpace(s[0]) {
      VisibleEndSurvives(s[1..]);
    }
  }

  /** Length of the leading run without whitespace. */
  function TokenLength(s: string): (n: nat)
    ensures n <= |s| && NoSpace(s[..n])
    ensures n < |s| ==> IsSpace(s[n])
  {
    if s == "" || IsSpace(s[0]) then 0
    else
      assert forall i :: 1 <= i < 1 + TokenLength(s[1..]) ==> s[i] == s[1..][i - 1];
      1 + TokenLength(s[1..])
  }

  /** s.split(): the maximal runs without whitespace. */
  function Split(s: string): (tokens: seq<string>)
    decreases |s|
  {
    if s == "" then []
    else if IsSpace(s[0]) then Split(s[1..])
    else [s[..TokenLength(s)]] + Split(s[TokenLength(s)..])
  }

  /** " ".join(tokens) */
  function Join(tokens: seq<string>): string {
    if tokens == [] then ""
    else if |tokens| == 1 then tokens[0]
    else tokens[0] + " " + Join(tokens[1..])
  }

  predicate AllTokens(tokens: seq<string>) {
    forall i :: 0 <= i < |tokens| ==> IsToken(tokens[i])
  }

  lemma {:induction false} TokenLengthOf(t: string, rest: string)
    requires NoSpace(t) && (rest == "" || IsSpace(rest[0]))
    ensures TokenLength(t + rest) == |t|
  {
    if t != "" {
      assert (t + rest)[1..] == t[1..] + rest;
      TokenLengthOf(t[1..], rest);
    } else {
      assert t + rest == rest;
    }
  }

  lemma SplitHead(t: string, rest: string)
    requires IsToken(t) && (rest == "" || IsSpace(rest[0]))
    ensures Split(t + rest) == [t] + Split(rest)
  {
    TokenLengthOf(t, rest);
    assert (t + rest)[..|t|] == t && (t + rest)[|t|..] == rest;
  }

  /** Splitting undoes joining. */
  lemma {:induction false} SplitJoin(tokens: seq<string>)
    requires AllTokens(tokens)
    ensures Split(Join(tokens)) == tokens
  {
    if |tokens| == 1 {
      SplitHead(tokens[0], "");
      assert tokens[0] + "" == tokens[0];
    } else if |tokens| > 1 {
      var rest := Join(tokens[1..]);
      SplitJoin(tokens[1..]);
      assert tokens[0] + " " + rest == tokens[0] + (" " + rest);
      SplitHead(tokens[0], " " + rest);
      assert (" " + rest)[1..] == rest;
      assert Split(" " + rest) == Split(rest);
    }
  }

  predicate StartsWith(s: string, p: string) {
    p <= s
  }

  /** p itself, or p followed by a space: how a path prefix is recognised in text. */
  predicate TextPrefix(p: string, s: string) {
    s == p || StartsWith(s, p + " ")
  }

  lemma SplitTokenThen(t: string, rest: string)
    requires IsToken(t)
    ensures Split(t + " " + rest) == [t] + Split(rest)
  {
    SplitHead(t, " " + rest);
    assert t + " " + rest == t + (" " + rest);
    assert (" " + rest)[1..] == rest;
  }

  lemma {:induction false} SplitTokens(s: string)
    ensures AllTokens(Split(s))
    decreases |s|
  {
    if s != "" {
      SplitTokens(if IsSpace(s[0]) then s[1..] else s[TokenLength(s)..]);
    }
  }

  /** The first n tokens of s stand at its very start, a single space between them and nothing but a space behind. */
  predicate SingleSpaced(s: string, n: nat) {
    n > 0 ==>
      var k := TokenLength(s);
      && k > 0 && (k < |s| ==> s[k] == ' ')
      && (n > 1 ==> k < |s| && SingleSpaced(s[k + 1..], n - 1))
  }

  lemma FirstToken(s: string)
    requires TokenLength(s) > 0
    ensures var k := TokenLength(s);
      && Split(s) == [s[..k]] + Split(s[k..])
      && (k < |s| && s[k] == ' ' ==> Split(s) == [s[..k]] + Split(s[k + 1..]))
  {
    var k := TokenLength(s);
    if k < |s| {
      assert s[k..][1..] == s[k + 1..];
    }
  }

  lemma TextPrefixIs(p: string, s: string)
    ensures TextPrefix(p, s) <==> p <= s && (|p| < |s| ==> s[|p|] == ' ')
  {
    if p <= s && |p| < |s| && s[|p|] == ' ' {
      assert s[..|p| + 1] == p + " ";
    }
  }

  /** One token as a textual prefix: the first token, at the very start, with a space or nothing behind it. */
  lemma TokenPrefixIff(t: string, s: string)
    requires IsToken(t)
    ensures var k := TokenLength(s);
      TextPrefix(t, s) <==> k > 0 && t == s[..k] && (k < |s| ==> s[k] == ' ')
  {
    TextPrefixIs(t, s);
    if TextPrefix(t, s) {
      hide IsSpace;
      SpaceFacts();
      assert s == t + s[|t|..];
      TokenLengthOf(t, s[|t|..]);
    }
  }

  lemma ConsPrefix<T>(p: seq<T>, x: T, rest: seq<T>)
    requires p != []
    ensures p <= [x] + rest <==> p[0] == x && p[1..] <= rest
  {
    assert p == [p[0]] + p[1..];
    if p <= [x] + rest {
      assert p[1..] == ([x] + rest)[..|p|][1..] == rest[..|p| - 1];
    }
  }

  lemma SpaceFacts()
    ensures IsSpace(' ')
  {
  }

  lemma TextPrefixStep(t: string, a: string, s: string)
    ensures TextPrefix(t + " " + a, s) <==> TextPrefix(t, s) && |t| < |s| && TextPrefix(a, s[|t| + 1..])
  {
    var p := t + " " + a;
    TextPrefixIs(p, s);
    TextPrefixIs(t, s);
    if |t| < |s| {
      TextPrefixIs(a, s[|t| + 1..]);
      if t <= s && s[|t|] == ' ' && a <= s[|t| + 1..] {
        assert s[..|p|] == p;
      }
      if p <= s {
        assert s[|t| + 1..][..|a|] == a && s[..|t|] == t;
      }
    }
  }

  /** The text goes on, with one space, behind its first token t. */
  predicate FirstIs(t: string, s: string) {
    var k := TokenLength(s);
    0 < k < |s| && s[..k] == t && s[k] == ' '
  }

  lemma OneTokenIff(t: string, s: string)
    requires IsToken(t)
    ensures TextPrefix(t, s) <==> [t] <= Split(s) && SingleSpaced(s, 1)
  {
    TokenPrefixIff(t, s);
    hide TextPrefix, Split, TokenLength, IsToken;
    if TokenLength(s) > 0 {
      FirstToken(s);
      ConsPrefix([t], s[..TokenLength(s)], Split(s[TokenLength(s)..]));
      assert [t][1..] == [];
    }
  }

  lemma SpacedStep(s: string, n: nat)
    requires n > 1
    ensures var k := TokenLength(s);
      SingleSpaced(s, n) <==> 0 < k < |s| && s[k] == ' ' && SingleSpaced(s[k + 1..], n - 1)
  {
    hide TokenLength;
  }

  lemma TokensStep(p: seq<string>, s: string)
    requires p != []
    ensures var k := TokenLength(s);
      0 < k < |s| && s[k] == ' ' ==> (p <= Split(s) <==> p[0] == s[..k] && p[1..] <= Split(s[k + 1..]))
  {
    hide Split, TokenLength;
    var k := TokenLength(s);
    if 0 < k < |s| && s[k] == ' ' {
      FirstToken(s);
      ConsPrefix(p, s[..k], Split(s[k + 1..]));
    }
  }

  /** More than one token: the first, and the rest behind it. */
  lemma SpacedTokensStep(p: seq<string>, s: string)
    requires |p| > 1
    ensures p <= Split(s) && SingleSpaced(s, |p|) <==>
      FirstIs(p[0], s) && p[1..] <= Split(s[|p[0]| + 1..]) && SingleSpaced(s[|p[0]| + 1..], |p| - 1)
  {
    hide Split, TokenLength, SingleSpaced;
    SpacedStep(s, |p|);
    TokensStep(p, s);
    if FirstIs(p[0], s) {
      assert |p[0]| == TokenLength(s);
    }
  }

  lemma JoinedPrefixStep(p: seq<string>, s: string)
    requires |p| > 1 && AllTokens(p)
    ensures TextPrefix(Join(p), s) <==> FirstIs(p[0], s) && TextPrefix(Join(p[1..]), s[|p[0]| + 1..])
  {
    hide TextPrefix, TokenLength, IsToken;
    assert IsToken(p[0]);
    assert Join(p) == p[0] + " " + Join(p[1..]);
    TokenPrefixIff(p[0], s);
    TextPrefixStep(p[0], Join(p[1..]), s);
  }

  /** The textual prefix test against joined tokens: the same tokens, spaced singly. */
  lemma {:induction false} TextPrefixIff(p: seq<string>, s: string)
    requires p != [] && AllTokens(p)
    ensures TextPrefix(Join(p), s) <==> p <= Split(s) && SingleSpaced(s, |p|)
    decreases |p|
  {
    hide Split, IsToken, TextPrefix, TokenLength, SingleSpaced;
    if |p| == 1 {
      assert p == [p[0]] && IsToken(p[0]);
      OneTokenIff(p[0], s);
    } else {
      SpacedTokensStep(p, s);
      JoinedPrefixStep(p, s);
      hide Join;
      if FirstIs(p[0], s) {
        TextPrefixIff(p[1..], s[|p[0]| + 1..]);
      }
    }
  }

  lemma JoinHead(t: seq<string>)
    requires t != [] && AllTokens(t)
    ensures Join(t) != "" && !IsSpace(Join(t)[0]) && t[0] <= Join(t)
    ensures |t[0]| < |Join(t)| ==> |t| > 1 && Join(t)[|t[0]|] == ' ' && Join(t)[|t[0]| + 1..] == Join(t[1..])
  {
    assert IsToken(t[0]);
  }

  /** A stripped prefix that reaches beyond the first of two parts goes on in the second. */
  lemma PrefixBeyond(arg: string, first: string, rest: string)
    requires IsStripped(arg) && TextPrefix(arg, first + " " + rest) && |arg| > |first|
    requires rest != "" && !IsSpace(rest[0])
    ensures var more := arg[|first| + 1..];
      arg == first + " " + more && more != "" && IsStripped(more) && TextPrefix(more, rest)
  {
    var s, more := first + " " + rest, arg[|first| + 1..];
    TextPrefixIs(arg, s);
    SpaceFacts();
    hide IsSpace, TextPrefix;
    assert arg[|first|] == s[|first|] == ' ' && arg[..|first|] == s[..|first|] == first;
    assert arg == first + " " + more;
    TextPrefixStep(first, more, s);
    assert s[|first| + 1..] == rest;
    TextPrefixIs(more, rest);
  }

  /** A prefix that ends where a token ends and goes beyond the first one goes on behind a space. */
  lemma PrefixGoesOn(arg: string, t: seq<string>)
    requires IsStripped(arg) && t != [] && AllTokens(t) && TextPrefix(arg, Join(t)) && |arg| > |t[0]|
    ensures var more := arg[|t[0]| + 1..];
      |t| > 1 && arg == t[0] + " " + more && more != "" && IsStripped(more) && TextPrefix(more, Join(t[1..]))
  {
    TextPrefixIs(arg, Join(t));
    hide IsSpace, IsToken, IsStripped, TextPrefix;
    if |t| > 1 {
      JoinHead(t[1..]);
      PrefixBeyond(arg, t[0], Join(t[1..]));
    }
  }

  /** A stripped prefix of joined tokens, ending where a token ends, is itself tokens joined. */
  lemma {:induction false} PrefixIsJoined(arg: string, t: seq<string>)
    requires arg != "" && IsStripped(arg) && t != [] && AllTokens(t) && TextPrefix(arg, Join(t))
    ensures arg == Join(Split(arg))
    decreases |t|
  {
    assert IsToken(t[0]);
    if |arg| <= |t[0]| {
      JoinHead(t);
      TextPrefixIs(arg, Join(t));
      SpaceFacts();
      hide Join, Split, IsSpace, TextPrefix;
      assert arg == t[0];
      SplitToken(t[0]);
    } else {
      PrefixGoesOn(arg, t);
      var more := arg[|t[0]| + 1..];
      hide Join, Split, IsToken, TextPrefix;
      PrefixIsJoined(more, t[1..]);
      SplitTokenThen(t[0], more);
      JoinPrepend(t[0], Split(more));
    }
  }

  lemma SplitToken(t: string)
    requires IsToken(t)
    ensures Split(t) == [t] && Join(Split(t)) == t
  {
    SplitHead(t, "");
    assert t + "" == t;
  }

  lemma JoinPrepend(t: string, rest: seq<string>)
    requires Join(rest) != ""
    ensures Join([t] + rest) == t + " " + Join(rest)
  {
    assert ([t] + rest)[1..] == rest;
  }

  lemma {:induction false} JoinIsSingleSpaced(t: seq<string>, n: nat)
    requires AllTokens(t) && n <= |t|
    ensures SingleSpaced(Join(t), n)
    decreases n
  {
    if n > 0 {
      assert IsToken(t[0]);
      JoinHead(t);
      var rest := Join(t)[|t[0]|..];
      assert Join(t) == t[0] + rest;
      SpaceFacts();
      hide Join, IsSpace, IsToken;
      TokenLengthOf(t[0], rest);
      if n > 1 {
        JoinGoesOn(t);
        JoinIsSingleSpaced(t[1..], n - 1);
      }
    }
  }

  lemma JoinGoesOn(t: seq<string>)
    requires |t| > 1
    ensures |t[0]| < |Join(t)|
  {
  }

  /** For single-space-joined tokens, the textual prefix test is the prefix relation on tokens. */
  lemma TextPrefixIsTokenPrefix(p: seq<string>, s: seq<string>)
    requires p != [] && s != [] && AllTokens(p) && AllTokens(s)
    ensures TextPrefix(Join(p), Join(s)) <==> p <= s
  {
    hide TextPrefix, SingleSpaced, Split, Join;
    SplitJoin(s);
    TextPrefixIff(p, Join(s));
    if p <= s {
      JoinIsSingleSpaced(s, |p|);
    }
  }
}
