/**
 The configuration session of the Junos emulator: candidate, committed statements
 and the commit file, driven by the lines a user types.
 */
module ConfigSession {
  import opened Basics
  import opened Text
  import opened ConfigTree

  // ---- delete ----

  function DropMatching(lines: seq<string>, prefix: string): seq<string> {
    if lines == [] then []
    else DropMatching(lines[..|lines| - 1], prefix)
         + if TextPrefix(prefix, lines[|lines| - 1]) then [] else [lines[|lines| - 1]]
  }

  function KeepMatching(lines: seq<string>, prefix: string): seq<string> {
    if lines == [] then []
    else KeepMatching(lines[..|lines| - 1], prefix)
         + if TextPrefix(prefix, lines[|lines| - 1]) then [lines[|lines| - 1]] else []
  }

  /** The reference: drop the statements at or below path p, keep the order of the rest. */
  function PathsWithout(paths: seq<Path>, p: Path): seq<Path> {
    if paths == [] then []
    else PathsWithout(paths[..|paths| - 1], p) + if p <= paths[|paths| - 1] then [] else [paths[|paths| - 1]]
  }

  function PathsBelow(paths: seq<Path>, p: Path): seq<Path> {
    if paths == [] then []
    else PathsBelow(paths[..|paths| - 1], p) + if p <= paths[|paths| - 1] then [paths[|paths| - 1]] else []
  }

  /** A set line at or below p. */
  predicate IsBelow(line: string, p: Path) {
    StartsWith(line, "set ") && p <= TokensOf(line)
  }

  /** Every statement at or below p is spaced singly through p. */
  ghost predicate SpacedThrough(lines: seq<string>, p: Path) {
    forall l :: l in lines && IsBelow(l, p) ==> SingleSpaced(l[4..], |p|)
  }

  lemma SetPrefixIff(arg: string, line: string)
    ensures TextPrefix("set " + arg, line) <==> StartsWith(line, "set ") && TextPrefix(arg, line[4..])
  {
    TextPrefixIs("set " + arg, line);
    if StartsWith(line, "set ") {
      TextPrefixIs(arg, line[4..]);
      assert line == "set " + line[4..];
      assert "set " + arg <= line <==> arg <= line[4..] by {
        if "set " + arg <= line {
          assert line[..4 + |arg|][4..] == arg;
        }
      }
    }
  }

  lemma MatchIff(line: string, p: Path)
    requires p != [] && AllTokens(p)
    ensures TextPrefix(Statement(p), line) <==> IsBelow(line, p) && SingleSpaced(line[4..], |p|)
  {
    SetPrefixIff(Join(p), line);
    hide TextPrefix, SingleSpaced, Split;
    if StartsWith(line, "set ") {
      TextPrefixIff(p, line[4..]);
    }
  }

  lemma NormalIsSpaced(lines: seq<string>, p: Path)
    requires AllNormal(lines)
    ensures SpacedThrough(lines, p)
  {
    hide SingleSpaced, Split;
    forall l | l in lines && IsBelow(l, p)
      ensures SingleSpaced(l[4..], |p|)
    {
      assert IsNormal(l) && l[4..] == Join(TokensOf(l));
      JoinIsSingleSpaced(TokensOf(l), |p|);
    }
  }

  /** Spaced that way, the text test on the lines is the prefix test on their tokens. */
  lemma {:induction false} DropIsWithout(lines: seq<string>, p: Path)
    requires SpacedThrough(lines, p) && p != [] && AllTokens(p)
    ensures PathsOf(DropMatching(lines, Statement(p))) == PathsWithout(PathsOf(lines), p)
    ensures PathsOf(KeepMatching(lines, Statement(p))) == PathsBelow(PathsOf(lines), p)
  {
    hide TextPrefix, SingleSpaced, TokensOf, AllTokens, Statement;
    if lines != [] {
      var init, line := lines[..|lines| - 1], lines[|lines| - 1];
      DropIsWithout(init, p);
      MatchIff(line, p);
      assert line in lines;
      AppendPaths(init, line, p);
      OneMorePath(DropMatching(init, Statement(p)), line);
      OneMorePath(KeepMatching(init, Statement(p)), line);
      assert lines == init + [line];
    }
  }

  lemma OneMorePath(lines: seq<string>, line: string)
    ensures PathsOf(lines + [line]) == PathsOf(lines) + if StartsWith(line, "set ") then [TokensOf(line)] else []
    ensures lines + [] == lines
  {
    PathsOfAppend(lines, line);
  }

  /** What one more line does to the reference. */
  lemma AppendPaths(init: seq<string>, line: string, p: Path)
    ensures PathsWithout(PathsOf(init + [line]), p) == PathsWithout(PathsOf(init), p)
              + if StartsWith(line, "set ") && !(p <= TokensOf(line)) then [TokensOf(line)] else []
    ensures PathsBelow(PathsOf(init + [line]), p) == PathsBelow(PathsOf(init), p)
              + if IsBelow(line, p) then [TokensOf(line)] else []
  {
    hide TokensOf, PathsOf;
    var paths := PathsOf(init);
    PathsOfAppend(init, line);
    assert (paths + [TokensOf(line)])[..|paths|] == paths && paths + [] == paths;
  }

  lemma {:induction false} WithoutMembers(paths: seq<Path>, p: Path, q: Path)
    ensures q in PathsWithout(paths, p) <==> q in paths && !(p <= q)
    ensures q in PathsBelow(paths, p) <==> q in paths && p <= q
  {
    if paths != [] {
      WithoutMembers(paths[..|paths| - 1], p, q);
      assert paths == paths[..|paths| - 1] + [paths[|paths| - 1]];
    }
  }

  /**
   After `delete p` the path p is gone, a path q is left exactly if a statement
   outside p still needs it, and the remaining statements keep their order.
   */
  lemma DeleteRemovesPath(lines: seq<string>, p: Path, q: Path)
    requires SpacedThrough(lines, p) && p != [] && AllTokens(p)
    ensures var lines' := DropMatching(lines, Statement(p));
      && PathsOf(lines') == PathsWithout(PathsOf(lines), p)
      && !HasPath(SetToTree(lines'), p)
      && (HasPath(SetToTree(lines'), q) <==>
            q == [] || exists s :: s in PathsOf(lines) && q <= s && !(p <= s))
  {
    var after := PathsWithout(PathsOf(lines), p);
    DropIsWithout(lines, p);
    PathsArePrefixes(after, p);
    PathsArePrefixes(after, q);
    forall s: Path
      ensures s in after <==> s in PathsOf(lines) && !(p <= s)
    {
      WithoutMembers(PathsOf(lines), p, s);
    }
    assert forall k :: 0 <= k < |after| ==> after[k] in after;
    if s :| s in PathsOf(lines) && q <= s && !(p <= s) {
      var k :| 0 <= k < |after| && after[k] == s;
      assert q <= after[k];
    }
  }

  // ---- When delete does what it says ----

  lemma {:induction false} DropMembers(lines: seq<string>, prefix: string, l: string)
    ensures l in DropMatching(lines, prefix) <==> l in lines && !TextPrefix(prefix, l)
  {
    hide TextPrefix;
    if lines != [] {
      DropMembers(lines[..|lines| - 1], prefix, l);
      assert lines == lines[..|lines| - 1] + [lines[|lines| - 1]];
    }
  }

  lemma {:induction false} PathsMembers(lines: seq<string>, q: Path)
    ensures q in PathsOf(lines) <==> exists l :: l in lines && StartsWith(l, "set ") && TokensOf(l) == q
  {
    hide TokensOf;
    if lines != [] {
      var init, line := lines[..|lines| - 1], lines[|lines| - 1];
      PathsMembers(init, q);
      assert lines == init + [line];
      assert line in lines;
    }
  }

  lemma TreeHasPathIff(lines: seq<string>, p: Path)
    requires p != []
    ensures HasPath(SetToTree(lines), p) <==> exists l :: l in lines && IsBelow(l, p)
  {
    var paths := PathsOf(lines);
    PathsArePrefixes(paths, p);
    hide HasPath, TokensOf, PathsOf;
    if k :| 0 <= k < |paths| && p <= paths[k] {
      PathsMembers(lines, paths[k]);
    }
    if l :| l in lines && IsBelow(l, p) {
      PathsMembers(lines, TokensOf(l));
      var k :| 0 <= k < |paths| && paths[k] == TokensOf(l);
      assert p <= paths[k];
    }
  }

  /**
   Whatever was typed after `delete`: its path is gone exactly if every statement at or below it is
   spelled that way.
   */
  lemma DeleteGoneIff(lines: seq<string>, arg: string)
    requires Split(arg) != []
    ensures !HasPath(SetToTree(DropMatching(lines, "set " + arg)), Split(arg)) <==>
      forall l :: l in lines && IsBelow(l, Split(arg)) ==> TextPrefix(arg, l[4..])
  {
    var p, left := Split(arg), DropMatching(lines, "set " + arg);
    TreeHasPathIff(left, p);
    hide HasPath, SetToTree, Split, TextPrefix, DropMatching;
    forall l
      ensures l in left && IsBelow(l, p) <==> l in lines && IsBelow(l, p) && !TextPrefix(arg, l[4..])
    {
      DropMembers(lines, "set " + arg, l);
      SetPrefixIff(arg, l);
    }
  }

  /** For a plainly typed path: exactly if every statement at or below it is spaced singly through it. */
  lemma DeletePathGoneIff(lines: seq<string>, p: Path)
    requires p != [] && AllTokens(p)
    ensures !HasPath(SetToTree(DropMatching(lines, Statement(p))), p) <==> SpacedThrough(lines, p)
  {
    SplitJoin(p);
    DeleteGoneIff(lines, Join(p));
    hide HasPath, SetToTree, Split, TextPrefix, DropMatching, SingleSpaced;
    forall l | l in lines && IsBelow(l, p)
      ensures TextPrefix(Join(p), l[4..]) <==> SingleSpaced(l[4..], |p|)
    {
      TextPrefixIff(p, l[4..]);
    }
  }

  /** On normal statements: exactly if the path was typed with single spaces, or was not there. */
  lemma DeleteOnNormalGoneIff(lines: seq<string>, arg: string)
    requires AllNormal(lines) && arg != "" && IsStripped(arg)
    ensures !HasPath(SetToTree(DropMatching(lines, "set " + arg)), Split(arg)) <==>
      arg == Join(Split(arg)) || !HasPath(SetToTree(lines), Split(arg))
  {
    var p := Split(arg);
    DeleteGoneIff(lines, arg);
    TreeHasPathIff(lines, p);
    SplitTokens(arg);
    hide HasPath, SetToTree, Split, TextPrefix, DropMatching, IsStripped;
    forall l | l in lines && IsBelow(l, p)
      ensures TextPrefix(arg, l[4..]) <==> arg == Join(p)
    {
      var t := TokensOf(l);
      assert IsNormal(l) && l[4..] == Join(t);
      if arg == Join(p) {
        TextPrefixIsTokenPrefix(p, t);
      } else if TextPrefix(arg, Join(t)) {
        PrefixIsJoined(arg, t);
      }
    }
  }

  lemma SetLineTokens(arg: string)
    ensures StartsWith("set " + arg, "set ") && ("set " + arg)[4..] == arg && TokensOf("set " + arg) == Split(arg)
  {
    hide Split;
    assert ("set " + arg)[4..] == arg;
  }

  /** So a statement typed with two spaces escapes its delete. */
  lemma DeleteMissesDoubleSpace(a: string, b: string)
    requires IsToken(a) && IsToken(b)
    ensures var line := "set " + (a + "  " + b);
      TokensOf(line) == [a, b] && HasPath(SetToTree(DropMatching([line], Statement([a, b]))), [a, b])
  {
    var line := "set " + (a + "  " + b);
    TwoSpaces(a, b);
    SetLineTokens(a + "  " + b);
    hide SingleSpaced, Split, TokenLength, TokensOf, HasPath, SetToTree, DropMatching, Statement, IsToken;
    assert line in [line] && IsBelow(line, [a, b]);
    DeletePathGoneIff([line], [a, b]);
  }

  lemma TwoTokens(a: string, b: string)
    requires IsToken(a) && IsToken(b)
    ensures var arg := a + "  " + b;
      arg != "" && IsStripped(arg) && arg != Join([a, b])
  {
    var arg := a + "  " + b;
    assert arg[0] == a[0] && arg[|arg| - 1] == b[|b| - 1];
    assert [a, b][1..] == [b] && |Join([a, b])| == |a| + 1 + |b|;
  }

  /** And a delete typed with two spaces removes nothing. */
  lemma DoubleSpaceDeletesNothing(a: string, b: string)
    requires IsToken(a) && IsToken(b)
    ensures var lines := [Statement([a, b])];
      Split(a + "  " + b) == [a, b] && HasPath(SetToTree(DropMatching(lines, "set " + (a + "  " + b))), [a, b])
  {
    var lines, arg := [Statement([a, b])], a + "  " + b;
    TwoSpaces(a, b);
    TwoTokens(a, b);
    StatementIsNormal([a, b]);
    hide SingleSpaced, Split, TokenLength, HasPath, SetToTree, DropMatching, Join, IsNormal, IsStripped, IsToken;
    assert lines[0] in lines && StartsWith(lines[0], "set ") && IsBelow(lines[0], [a, b]);
    TreeHasPathIff(lines, [a, b]);
    DeleteOnNormalGoneIff(lines, arg);
  }

  lemma TwoSpaces(a: string, b: string)
    requires IsToken(a) && IsToken(b)
    ensures Split(a + "  " + b) == [a, b] && !SingleSpaced(a + "  " + b, 2)
  {
    var s := a + "  " + b;
    assert s == a + " " + (" " + b) && s == a + ("  " + b);
    SplitTokenThen(a, " " + b);
    assert (" " + b)[1..] == b;
    SplitToken(b);
    TokenLengthOf(a, "  " + b);
    assert s[|a| + 1..] == " " + b;
    assert TokenLength(" " + b) == 0;
  }

  // ---- The commit file ----

  predicate IsBlank(line: string) {
    Strip(line) == ""
  }

  function NonBlank(lines: seq<string>): seq<string> {
    if lines == [] then []
    else (if IsBlank(lines[0]) then [] else [lines[0]]) + NonBlank(lines[1..])
  }

  /** What write_committed puts in the file. */
  function FileText(lines: seq<string>): string {
    JoinLines(lines) + "\n"
  }

  /**
   Universal newlines, as text mode reads a file: a carriage return, with its line feed if it has
   one, is a line feed.
   */
  function Universal(text: string): string {
    if text == "" then ""
    else if text[0] != '\r' then [text[0]] + Universal(text[1..])
    else "\n" + Universal(if |text| > 1 && text[1] == '\n' then text[2..] else text[1..])
  }

  /** read_committed: an unreadable file or one without statements means the factory default. */
  function ReadCommitted(file: Option<string>, factory: seq<string>): seq<string> {
    if file.None? then factory
    else
      var lines := NonBlank(SplitLines(Universal(file.value)));
      if lines == [] then factory else lines
  }

  /** The lines a session holds: no line feed inside, something visible in each. */
  predicate Writable(lines: seq<string>) {
    forall i :: 0 <= i < |lines| ==> '\n' !in lines[i] && !IsBlank(lines[i])
  }

  /** No line holds a carriage return. */
  predicate NoReturns(lines: seq<string>) {
    forall i :: 0 <= i < |lines| ==> '\r' !in lines[i]
  }

  lemma SplitLineThen(line: string, rest: string)
    requires '\n' !in line
    ensures SplitLines(line + "\n" + rest) == [line] + if rest == "" then [""] else SplitLines(rest)
  {
    var text := line + "\n" + rest;
    assert text == line + ("\n" + rest);
    LineLengthOf(line, "\n" + rest);
    assert text[..|line|] == line && text[|line| + 1..] == rest;
  }

  lemma {:induction false} WrittenLines(lines: seq<string>)
    requires lines != [] && forall i :: 0 <= i < |lines| ==> '\n' !in lines[i]
    ensures SplitLines(FileText(lines)) == lines + [""]
  {
    hide SplitLines;
    if |lines| == 1 {
      SplitLineThen(lines[0], "");
      assert FileText(lines) == lines[0] + "\n" + "";
    } else {
      WrittenLines(lines[1..]);
      SplitLineThen(lines[0], FileText(lines[1..]));
      assert FileText(lines) == lines[0] + "\n" + FileText(lines[1..]);
      assert [lines[0]] + (lines[1..] + [""]) == lines + [""];
    }
  }

  lemma {:induction false} NonBlankThenBlank(lines: seq<string>)
    requires forall i :: 0 <= i < |lines| ==> !IsBlank(lines[i])
    ensures NonBlank(lines + [""]) == lines
  {
    assert IsBlank("");
    if lines == [] {
      assert [""][1..] == [];
    } else {
      hide IsBlank;
      NonBlankThenBlank(lines[1..]);
      assert (lines + [""])[1..] == lines[1..] + [""];
    }
  }

  lemma ReadWritten(lines: seq<string>)
    requires Writable(lines)
    ensures NonBlank(SplitLines(FileText(lines))) == lines
  {
    if lines == [] {
      SplitLineThen("", "");
      assert FileText(lines) == "" + "\n" + "";
      NonBlankThenBlank([]);
      assert ["", ""][1..] == [] + [""] && IsBlank("");
    } else {
      WrittenLines(lines);
      NonBlankThenBlank(lines);
    }
  }

  lemma {:induction false} UniversalKeeps(text: string)
    requires '\r' !in text
    ensures Universal(text) == text
  {
    if text != "" {
      assert text == [text[0]] + text[1..];
      UniversalKeeps(text[1..]);
    }
  }

  lemma {:induction false} UniversalHasNoReturn(text: string)
    ensures '\r' !in Universal(text)
  {
    if text != "" {
      if text[0] != '\r' {
        UniversalHasNoReturn(text[1..]);
      } else {
        UniversalHasNoReturn(if |text| > 1 && text[1] == '\n' then text[2..] else text[1..]);
      }
    }
  }

  lemma {:induction false} JoinedHasNoReturn(lines: seq<string>)
    requires NoReturns(lines)
    ensures '\r' !in JoinLines(lines)
  {
    if |lines| > 1 {
      JoinedHasNoReturn(lines[1..]);
    }
  }

  lemma {:induction false} SplitHasNoReturn(text: string)
    requires '\r' !in text
    ensures NoReturns(SplitLines(text))
    decreases |text|
  {
    if text != "" {
      var n := LineLength(text);
      assert '\r' !in text[..n];
      if n + 1 < |text| {
        SplitHasNoReturn(text[n + 1..]);
      }
    }
  }

  lemma {:induction false} NonBlankMembers(lines: seq<string>)
    ensures forall l :: l in NonBlank(lines) ==> l in lines
  {
    if lines != [] {
      hide IsBlank;
      NonBlankMembers(lines[1..]);
      assert lines == [lines[0]] + lines[1..];
    }
  }

  /** Whatever the file holds, no carriage return comes out of it. */
  lemma ReadHasNoReturns(text: string)
    ensures NoReturns(NonBlank(SplitLines(Universal(text))))
  {
    var lines := SplitLines(Universal(text));
    UniversalHasNoReturn(text);
    SplitHasNoReturn(Universal(text));
    NonBlankMembers(lines);
    hide NonBlank, SplitLines, Universal;
    forall i | 0 <= i < |NonBlank(lines)|
      ensures '\r' !in NonBlank(lines)[i]
    {
      assert NonBlank(lines)[i] in NonBlank(lines);
    }
  }

  lemma ReturnFreeReadsBack(lines: seq<string>)
    requires Writable(lines) && NoReturns(lines)
    ensures NonBlank(SplitLines(Universal(FileText(lines)))) == lines
  {
    JoinedHasNoReturn(lines);
    UniversalKeeps(FileText(lines));
    ReadWritten(lines);
  }

  /**
   A commit is read back as it was written exactly if no line holds a carriage return,
   except that an empty one turns into the default.
   */
  lemma CommitReadsBack(lines: seq<string>, factory: seq<string>)
    requires Writable(lines)
    ensures lines == [] ==> ReadCommitted(Some(FileText(lines)), factory) == factory
    ensures lines != [] ==> (ReadCommitted(Some(FileText(lines)), factory) == lines <==> NoReturns(lines))
  {
    hide IsBlank, FileText, SplitLines, Universal, NonBlank;
    var kept := NonBlank(SplitLines(Universal(FileText(lines))));
    ReadHasNoReturns(FileText(lines));
    if NoReturns(lines) {
      ReturnFreeReadsBack(lines);
    } else if lines != [] && kept == [] {
      BrokenLineIsRead(lines);
    }
  }

  lemma {:induction false} UniversalKeepsChar(text: string, c: char)
    requires c in text && c != '\r'
    ensures c in Universal(text)
  {
    if text[0] != '\r' {
      if c != text[0] {
        assert text == [text[0]] + text[1..];
        UniversalKeepsChar(text[1..], c);
      }
    } else {
      var more := if |text| > 1 && text[1] == '\n' then text[2..] else text[1..];
      assert text == text[..|text| - |more|] + more;
      if c in more {
        UniversalKeepsChar(more, c);
      } else {
        assert c == '\n' && Universal(text)[0] == c;
      }
    }
  }

  lemma {:induction false} SplitKeepsChar(text: string, c: char) returns (l: string)
    requires c in text && c != '\n'
    ensures l in SplitLines(text) && c in l
    decreases |text|
  {
    var n := LineLength(text);
    l := text[..n];
    if c in l {
      assert SplitLines(text)[0] == l;
    } else {
      assert text == l + [text[n]] + text[n + 1..];
      l := SplitKeepsChar(text[n + 1..], c);
    }
  }

  lemma {:induction false} VisibleCharSurvives(s: string, c: char)
    requires c in s && !IsSpace(c)
    ensures Strip(s) != ""
    decreases |s|
  {
    if IsSpace(s[0]) {
      assert s == [s[0]] + s[1..];
      VisibleCharSurvives(s[1..], c);
    } else {
      RStripKeepsHead(s);
    }
  }

  lemma {:induction false} VisibleLineIsKept(lines: seq<string>, l: string)
    requires l in lines && !IsBlank(l)
    ensures NonBlank(lines) != []
  {
    hide IsBlank;
    if l != lines[0] {
      assert lines == [lines[0]] + lines[1..];
      VisibleLineIsKept(lines[1..], l);
    }
  }

  lemma VisibleChar(line: string) returns (c: char)
    requires !IsBlank(line)
    ensures c in line && !IsSpace(c)
  {
    StripFixes(line);
    LStripIsSuffix(line);
    RStripIsPrefix(LStrip(line));
    StripFixes(Strip(line));
    c := Strip(line)[0];
  }

  /** A visible line survives in pieces: something is read back. */
  lemma BrokenLineIsRead(lines: seq<string>)
    requires Writable(lines) && lines != []
    ensures NonBlank(SplitLines(Universal(FileText(lines)))) != []
  {
    var c := VisibleChar(lines[0]);
    assert lines[0] <= JoinLines(lines) && c in FileText(lines);
    BreaksAreSpaces();
    hide IsSpace, Universal, FileText, SplitLines, NonBlank;
    UniversalKeepsChar(FileText(lines), c);
    var l := SplitKeepsChar(Universal(FileText(lines)), c);
    VisibleCharSurvives(l, c);
    VisibleLineIsKept(SplitLines(Universal(FileText(lines))), l);
  }

  lemma BreaksAreSpaces()
    ensures IsSpace('\r') && IsSpace('\n')
  {
  }

  lemma {:induction false} UniversalAtReturn(line: string, rest: string)
    requires '\r' !in line && (rest == "" || rest[0] != '\n')
    ensures Universal(line + "\r" + rest) == line + "\n" + Universal(rest)
  {
    var text := line + "\r" + rest;
    if line == "" {
      assert text[1..] == rest;
    } else {
      assert text[1..] == line[1..] + "\r" + rest;
      UniversalAtReturn(line[1..], rest);
      assert line == [line[0]] + line[1..];
      assert [line[0]] + (line[1..] + "\n" + Universal(rest)) == line + "\n" + Universal(rest);
    }
  }

  lemma TokenLineIsWritable(t: string)
    requires IsToken(t)
    ensures var line := "set " + t; Writable([line]) && NoReturns([line])
  {
    var line := "set " + t;
    BreaksAreSpaces();
    assert line[0] == 's' && 's' in line;
    VisibleCharSurvives(line, 's');
  }

  /** A statement typed around a carriage return comes back in two. */
  lemma ReturnSplitsStatement(a: string, b: string, factory: seq<string>)
    requires IsToken(a) && IsToken(b)
    ensures ReadCommitted(Some(FileText(["set " + a + "\rset " + b])), factory) == ["set " + a, "set " + b]
  {
    var x, y := "set " + a, "set " + b;
    TokenLineIsWritable(a);
    TokenLineIsWritable(b);
    assert '\r' !in [x][0] && '\r' !in [y][0];
    hide SplitLines, NonBlank, IsBlank, IsSpace;
    assert FileText(["set " + a + "\rset " + b]) == x + "\r" + (y + "\n");
    UniversalAtReturn(x, y + "\n");
    UniversalKeeps(y + "\n");
    assert [x, y][1..] == [y] && JoinLines([y]) == y;
    assert FileText([x, y]) == x + "\n" + y + "\n" == x + "\n" + (y + "\n");
    assert Writable([x, y]) by {
      assert !IsBlank([x][0]) && !IsBlank([y][0]);
    }
    ReadWritten([x, y]);
  }

  // ---- The session ----

  datatype Mode = Operational | Configuration | Ended

  datatype Session = Session(mode: Mode, candidate: Option<seq<string>>, committed: seq<string>, file: Option<string>)

  function Start(file: Option<string>, factory: seq<string>): Session {
    Session(Operational, None, ReadCommitted(file, factory), file)
  }

  /** t in s */
  predicate Contains(s: string, t: string) {
    t <= s || (s != "" && Contains(s[1..], t))
  }

  function AddLine(lines: seq<string>, line: string): seq<string> {
    if line in lines then lines else lines + [line]
  }

  function OperationalLine(s: Session, factory: seq<string>, line: string): Session {
    if line in ["exit", "quit", "logout"] then s.(mode := Ended)
    else if line in ["configure", "configure exclusive", "configure private", "edit"] then
      s.(mode := Configuration, candidate := Some(ReadCommitted(s.file, factory)))
    else s
  }

  function ConfigurationLine(s: Session, factory: seq<string>, line: string): Session
    requires s.candidate.Some?
  {
    var lines := s.candidate.value;
    if line in ["exit", "quit", "exit configuration-mode", "top"] then s.(mode := Operational)
    else if StartsWith(line, "run ") || line == "show" || StartsWith(line, "show ") then s
    else if StartsWith(line, "set ") then s.(candidate := Some(AddLine(lines, line)))
    else if StartsWith(line, "delete ") then
      s.(candidate := Some(DropMatching(lines, "set " + Strip(line[7..]))))
    else if StartsWith(line, "rollback") then s.(candidate := Some(ReadCommitted(s.file, factory)))
    else if StartsWith(line, "commit") then
      s.(file := Some(FileText(lines)), committed := lines,
         mode := if Contains(line, "and-quit") then Operational else Configuration)
    else s
  }

  predicate Ready(s: Session) {
    s.mode == Configuration ==> s.candidate.Some?
  }

  function Type(s: Session, factory: seq<string>, raw: string): Session
    requires Ready(s)
  {
    var line := Strip(raw);
    if line == "" then s
    else match s.mode
      case Operational => OperationalLine(s, factory, line)
      case Configuration => ConfigurationLine(s, factory, line)
      case Ended => s
  }

  function TypeAll(s: Session, factory: seq<string>, raws: seq<string>): (s': Session)
    requires Ready(s)
    ensures Ready(s')
  {
    if raws == [] then s else Type(TypeAll(s, factory, raws[..|raws| - 1]), factory, raws[|raws| - 1])
  }

  // ---- What every session keeps ----

  /** A list of distinct statements that can be written and read back. */
  predicate Sound(lines: seq<string>) {
    Writable(lines) && NoReturns(lines) && forall i, j :: 0 <= i < j < |lines| ==> lines[i] != lines[j]
  }

  ghost predicate SessionInv(s: Session, factory: seq<string>) {
    && Ready(s) && Sound(s.committed)
    && (s.candidate.Some? ==> Sound(s.candidate.value))
    && Sound(ReadCommitted(s.file, factory))
  }

  lemma {:induction false} DropIsSublist(lines: seq<string>, prefix: string)
    ensures forall l :: l in DropMatching(lines, prefix) ==> l in lines
  {
    hide TextPrefix;
    if lines != [] {
      DropIsSublist(lines[..|lines| - 1], prefix);
      assert lines == lines[..|lines| - 1] + [lines[|lines| - 1]];
    }
  }

  lemma {:induction false} DropKeepsSound(lines: seq<string>, prefix: string)
    requires Sound(lines)
    ensures Sound(DropMatching(lines, prefix))
  {
    hide TextPrefix, IsBlank;
    if lines != [] {
      var init, last := lines[..|lines| - 1], lines[|lines| - 1];
      DropKeepsSound(init, prefix);
      DropIsSublist(init, prefix);
      assert last !in init && '\n' !in last && '\r' !in last && !IsBlank(last);
      AppendSound(DropMatching(init, prefix), last);
    }
  }

  lemma AppendSound(lines: seq<string>, last: string)
    requires Sound(lines) && last !in lines && '\n' !in last && '\r' !in last && !IsBlank(last)
    ensures Sound(lines + [last]) && Sound(lines + [])
  {
    hide IsBlank;
    assert lines + [] == lines;
  }

  lemma AddKeepsSound(lines: seq<string>, line: string)
    requires Sound(lines) && '\n' !in line && '\r' !in line && !IsBlank(line)
    ensures Sound(AddLine(lines, line))
  {
  }

  lemma {:induction false} StripKeepsLine(s: string)
    requires '\n' !in s
    ensures '\n' !in Strip(s)
  {
    LStripIsSuffix(s);
    RStripIsPrefix(LStrip(s));
  }

  lemma {:induction false} LStripIsSuffix(s: string)
    ensures forall c :: c in LStrip(s) ==> c in s
  {
    if s != "" && IsSpace(s[0]) {
      LStripIsSuffix(s[1..]);
    }
  }

  lemma {:induction false} RStripIsPrefix(s: string)
    ensures forall c :: c in RStrip(s) ==> c in s
  {
    if s != "" && IsSpace(s[|s| - 1]) {
      RStripIsPrefix(s[..|s| - 1]);
    }
  }

  lemma StrippedNotBlank(raw: string)
    requires Strip(raw) != ""
    ensures !IsBlank(Strip(raw))
  {
    StripFixes(raw);
    StripFixes(Strip(raw));
  }

  lemma ConfigurationLineKeepsInv(s: Session, factory: seq<string>, line: string)
    requires SessionInv(s, factory) && s.mode == Configuration && '\n' !in line && !IsBlank(line)
    requires (StartsWith(line, "set ") ==> '\r' !in line) && Sound(factory)
    ensures SessionInv(ConfigurationLine(s, factory, line), factory)
  {
    hide DropMatching, ReadCommitted, AddLine, Contains, Sound, FileText;
    var lines := s.candidate.value;
    if StartsWith(line, "set ") {
      AddKeepsSound(lines, line);
    }
    if StartsWith(line, "delete ") {
      DropKeepsSound(lines, "set " + Strip(line[7..]));
    }
    SoundIsWritable(lines);
    CommitReadsBack(lines, factory);
  }

  lemma SoundIsWritable(lines: seq<string>)
    requires Sound(lines)
    ensures Writable(lines) && NoReturns(lines)
  {
  }

  /** A line from the terminal; a statement in it holds no carriage return. */
  predicate TypedWhole(raw: string) {
    '\n' !in raw && (StartsWith(Strip(raw), "set ") ==> '\r' !in Strip(raw))
  }

  lemma TypeKeepsInv(s: Session, factory: seq<string>, raw: string)
    requires SessionInv(s, factory) && TypedWhole(raw) && Sound(factory)
    ensures SessionInv(Type(s, factory, raw), factory)
  {
    hide ConfigurationLine, Sound, ReadCommitted, Strip;
    if Strip(raw) != "" {
      StripKeepsLine(raw);
      StrippedNotBlank(raw);
      if s.mode == Configuration {
        ConfigurationLineKeepsInv(s, factory, Strip(raw));
      }
    }
  }

  /** Whatever is typed: no duplicates in the candidate, and what is on disk reads back soundly. */
  lemma {:induction false} SessionKeepsInv(file: Option<string>, factory: seq<string>, raws: seq<string>)
    requires Sound(factory) && Sound(ReadCommitted(file, factory))
    requires forall i :: 0 <= i < |raws| ==> TypedWhole(raws[i])
    ensures SessionInv(TypeAll(Start(file, factory), factory, raws), factory)
  {
    hide SessionInv, Type, TypedWhole;
    if raws == [] {
      StartInv(file, factory);
    } else {
      SessionKeepsInv(file, factory, raws[..|raws| - 1]);
      TypeKeepsInv(TypeAll(Start(file, factory), factory, raws[..|raws| - 1]), factory, raws[|raws| - 1]);
    }
  }

  /** Without that it can fail: one statement, committed and rolled back, is there twice. */
  lemma TypedReturnDuplicates(s: Session, factory: seq<string>, a: string)
    requires s.mode == Configuration && s.candidate == Some([]) && IsToken(a)
    ensures TypeAll(s, factory, ["set " + a + "\rset " + a, "commit", "rollback"]).candidate
            == Some(["set " + a, "set " + a])
  {
    var line := "set " + a + "\rset " + a;
    var t := s.(candidate := Some([line]));
    var u := t.(file := Some(FileText([line])), committed := [line]);
    ReturnLineIsStripped(a);
    ReturnSplitsStatement(a, a, factory);
    hide Strip, FileText, ReadCommitted, ConfigurationLine, Contains, IsToken;
    assert AddLine([], line) == [line];
    SetDispatch(s, factory, line);
    CommitDispatch(t, factory);
    RollbackDispatch(u, factory, "rollback");
    TypeThree(s, factory, line, "commit", "rollback");
  }

  lemma ReturnLineIsStripped(a: string)
    requires IsToken(a)
    ensures var line := "set " + a + "\rset " + a;
      Strip(line) == line && line != "" && StartsWith(line, "set ")
    ensures Strip("commit") == "commit" && Strip("rollback") == "rollback"
  {
    var line := "set " + a + "\rset " + a;
    assert line[0] == 's' && line[|line| - 1] == a[|a| - 1] && line[..4] == "set ";
    StripFixes(line);
    StripFixes("commit");
    StripFixes("rollback");
  }

  lemma SetDispatch(s: Session, factory: seq<string>, line: string)
    requires s.candidate.Some? && StartsWith(line, "set ")
    ensures ConfigurationLine(s, factory, line) == s.(candidate := Some(AddLine(s.candidate.value, line)))
  {
    hide Strip, DropMatching, Contains, FileText, ReadCommitted, AddLine;
    assert line[0] == 's' && line[1] == 'e';
  }

  lemma CommitDispatch(s: Session, factory: seq<string>)
    requires s.mode == Configuration && s.candidate.Some?
    ensures ConfigurationLine(s, factory, "commit")
            == s.(file := Some(FileText(s.candidate.value)), committed := s.candidate.value)
  {
    ShortContainsNot("commit", "and-quit");
    hide Strip, DropMatching, Contains, FileText, ReadCommitted, AddLine;
    assert "commit"[0] == 'c';
  }

  lemma RollbackDispatch(s: Session, factory: seq<string>, line: string)
    requires s.candidate.Some? && StartsWith(line, "rollback")
    ensures ConfigurationLine(s, factory, line) == s.(candidate := Some(ReadCommitted(s.file, factory)))
  {
    hide Strip, DropMatching, Contains, FileText, ReadCommitted, AddLine;
    assert line[0] == 'r' && line[1] == 'o';
  }

  lemma TypeThree(s: Session, factory: seq<string>, a: string, b: string, c: string)
    requires Ready(s)
    ensures TypeAll(s, factory, [a, b, c]) == Type(Type(Type(s, factory, a), factory, b), factory, c)
  {
    hide Strip, ReadCommitted, OperationalLine, ConfigurationLine;
    assert [a, b, c][..2] == [a, b] && [a, b][..1] == [a] && [a][..0] == [];
    assert TypeAll(s, factory, [a]) == Type(s, factory, a);
    assert TypeAll(s, factory, [a, b]) == Type(Type(s, factory, a), factory, b);
  }

  lemma {:induction false} ShortContainsNot(s: string, t: string)
    requires |s| < |t|
    ensures !Contains(s, t)
  {
    if s != "" {
      ShortContainsNot(s[1..], t);
    }
  }

  lemma {:induction false} JoinedTokensHoldNoReturn(tokens: seq<string>)
    requires AllTokens(tokens)
    ensures '\r' !in Join(tokens)
  {
    BreaksAreSpaces();
    if tokens != [] {
      assert IsToken(tokens[0]);
      JoinedTokensHoldNoReturn(tokens[1..]);
    }
  }

  lemma NormalHoldsNoReturn(line: string)
    requires IsNormal(line)
    ensures '\r' !in line
  {
    hide Split, Join;
    JoinedTokensHoldNoReturn(TokensOf(line));
  }

  /** Statements are typed in normal form. */
  predicate TypedNormally(raw: string) {
    StartsWith(Strip(raw), "set ") ==> IsNormal(Strip(raw))
  }

  ghost predicate NormalInv(s: Session, factory: seq<string>) {
    SessionInv(s, factory) && StatementsNormal(s, factory)
  }

  ghost predicate StatementsNormal(s: Session, factory: seq<string>) {
    && AllNormal(s.committed)
    && (s.candidate.Some? ==> AllNormal(s.candidate.value))
    && AllNormal(ReadCommitted(s.file, factory))
  }

  lemma {:induction false} DropKeepsNormal(lines: seq<string>, prefix: string)
    requires AllNormal(lines)
    ensures AllNormal(DropMatching(lines, prefix))
  {
    if lines != [] {
      hide IsNormal;
      DropKeepsNormal(lines[..|lines| - 1], prefix);
      assert IsNormal(lines[|lines| - 1]);
    }
  }

  lemma AddKeepsNormal(lines: seq<string>, line: string)
    requires AllNormal(lines) && IsNormal(line)
    ensures AllNormal(AddLine(lines, line))
  {
    hide IsNormal;
  }

  lemma ConfigurationLineKeepsNormal(s: Session, factory: seq<string>, line: string)
    requires StatementsNormal(s, factory) && s.candidate.Some?
    requires Writable(s.candidate.value) && NoReturns(s.candidate.value)
    requires (StartsWith(line, "set ") ==> IsNormal(line)) && AllNormal(factory)
    ensures StatementsNormal(ConfigurationLine(s, factory, line), factory)
  {
    hide DropMatching, ReadCommitted, Contains, FileText, AllNormal, IsNormal, AddLine, Strip;
    var lines := s.candidate.value;
    if StartsWith(line, "set ") {
      AddKeepsNormal(lines, line);
    } else if StartsWith(line, "delete ") {
      DropKeepsNormal(lines, "set " + Strip(line[7..]));
    } else {
      CommitReadsBack(lines, factory);
    }
  }

  lemma TypeKeepsNormal(s: Session, factory: seq<string>, raw: string)
    requires NormalInv(s, factory) && '\n' !in raw && TypedNormally(raw)
    requires Sound(factory) && AllNormal(factory)
    ensures NormalInv(Type(s, factory, raw), factory)
  {
    hide ReadCommitted, Strip, IsNormal, ConfigurationLine, AllNormal, Writable, NoReturns, StatementsNormal;
    if StartsWith(Strip(raw), "set ") {
      NormalHoldsNoReturn(Strip(raw));
    }
    TypeKeepsInv(s, factory, raw);
    if Strip(raw) != "" && s.mode == Configuration {
      ConfigurationLineKeepsNormal(s, factory, Strip(raw));
    } else {
      OperationalKeepsNormal(s, factory, Strip(raw));
    }
  }

  lemma OperationalKeepsNormal(s: Session, factory: seq<string>, line: string)
    requires StatementsNormal(s, factory)
    ensures StatementsNormal(OperationalLine(s, factory, line), factory)
  {
    hide ReadCommitted, AllNormal;
  }

  /** Typed in normal form, statements stay in normal form through every set, delete, rollback and commit. */
  lemma {:induction false} SessionKeepsNormal(file: Option<string>, factory: seq<string>, raws: seq<string>)
    requires Sound(factory) && AllNormal(factory)
    requires Sound(ReadCommitted(file, factory)) && AllNormal(ReadCommitted(file, factory))
    requires forall i :: 0 <= i < |raws| ==> '\n' !in raws[i] && TypedNormally(raws[i])
    ensures NormalInv(TypeAll(Start(file, factory), factory, raws), factory)
  {
    hide Sound, AllNormal, ReadCommitted, TypedNormally, Type, NormalInv;
    if raws == [] {
      StartNormal(file, factory);
    } else {
      SessionKeepsNormal(file, factory, raws[..|raws| - 1]);
      TypeKeepsNormal(TypeAll(Start(file, factory), factory, raws[..|raws| - 1]), factory, raws[|raws| - 1]);
    }
  }

  lemma StartNormal(file: Option<string>, factory: seq<string>)
    requires Sound(ReadCommitted(file, factory)) && AllNormal(ReadCommitted(file, factory))
    ensures NormalInv(Start(file, factory), factory)
  {
    StartInv(file, factory);
  }

  lemma {:induction false} JoinIsStripped(tokens: seq<string>)
    requires tokens != [] && AllTokens(tokens)
    ensures Join(tokens) != "" && IsStripped(Join(tokens))
  {
    hide IsSpace;
    assert IsToken(tokens[0]);
    if |tokens| > 1 {
      JoinIsStripped(tokens[1..]);
    }
  }

  /**
   Typing `delete`, however it is spaced, changes the candidate only, and takes the
   path away exactly if every statement at or below it is spelled as it was typed.
   On normal statements: exactly if it was typed with single spaces, or was not there.
   */
  lemma TypingDelete(s: Session, factory: seq<string>, raw: string)
    requires s.mode == Configuration && s.candidate.Some? && StartsWith(Strip(raw), "delete ")
    ensures var arg, s', lines := Strip(Strip(raw)[7..]), Type(s, factory, raw), s.candidate.value;
      var p := Split(arg);
      && p != [] && s' == s.(candidate := s'.candidate) && s'.candidate.Some?
      && var gone := !HasPath(SetToTree(s'.candidate.value), p);
         && (gone <==> forall l :: l in lines && IsBelow(l, p) ==> TextPrefix(arg, l[4..]))
         && (AllNormal(lines) ==> (gone <==> arg == Join(p) || !HasPath(SetToTree(lines), p)))
  {
    var line, lines := Strip(raw), s.candidate.value;
    var arg := Strip(line[7..]);
    DeleteHasArgument(raw);
    hide Strip, Split, DropMatching, HasPath, SetToTree, Contains, IsNormal, IsStripped;
    DeleteLineDispatch(s, factory, line);
    DeleteGoneIff(lines, arg);
    if AllNormal(lines) {
      DeleteOnNormalGoneIff(lines, arg);
    }
  }

  /** Typing `delete p` plainly removes exactly the statements at or below p. */
  lemma TypingPlainDelete(s: Session, factory: seq<string>, p: Path)
    requires s.mode == Configuration && s.candidate.Some? && SpacedThrough(s.candidate.value, p)
    requires p != [] && AllTokens(p)
    ensures var s' := Type(s, factory, "delete " + Join(p));
      && s'.candidate.Some? && s' == s.(candidate := s'.candidate)
      && PathsOf(s'.candidate.value) == PathsWithout(PathsOf(s.candidate.value), p)
  {
    JoinIsStripped(p);
    DeleteLineAsTyped(Join(p));
    DropIsWithout(s.candidate.value, p);
    hide Strip, DropMatching, PathsOf, PathsWithout, Contains, SpacedThrough;
    DeleteLineDispatch(s, factory, "delete " + Join(p));
  }

  lemma StrippedHasTokens(arg: string)
    requires arg != "" && IsStripped(arg)
    ensures Split(arg) != []
  {
  }

  /** A stripped line that starts with "delete " goes on behind it. */
  lemma DeleteHasArgument(raw: string)
    requires StartsWith(Strip(raw), "delete ")
    ensures var arg := Strip(Strip(raw)[7..]);
      arg != "" && IsStripped(arg) && Split(arg) != []
  {
    var line := Strip(raw);
    StripFixes(raw);
    assert line[6] == ' ';
    SpaceFacts();
    assert |line| > 7 && line[7..][|line[7..]| - 1] == line[|line| - 1];
    VisibleEndSurvives(line[7..]);
    StripFixes(line[7..]);
    hide Strip;
    StrippedHasTokens(Strip(line[7..]));
  }

  /** A stripped delete line with a stripped argument is taken as it is. */
  lemma DeleteLineAsTyped(arg: string)
    requires arg != "" && IsStripped(arg)
    ensures Strip("delete " + arg) == "delete " + arg && Strip(("delete " + arg)[7..]) == arg
  {
    var line := "delete " + arg;
    StripFixes(line);
    StripFixes(arg);
    assert line[7..] == arg && line[0] == 'd';
    assert line[|line| - 1] == arg[|arg| - 1];
  }

  lemma DeleteLineDispatch(s: Session, factory: seq<string>, line: string)
    requires s.mode == Configuration && s.candidate.Some? && StartsWith(line, "delete ")
    ensures ConfigurationLine(s, factory, line)
            == s.(candidate := Some(DropMatching(s.candidate.value, "set " + Strip(line[7..]))))
  {
    hide Strip, DropMatching, Contains, FileText, ReadCommitted, AddLine;
    assert line[0] == 'd' && line[6] == ' ';
  }

  lemma StartInv(file: Option<string>, factory: seq<string>)
    requires Sound(ReadCommitted(file, factory))
    ensures SessionInv(Start(file, factory), factory)
  {
  }

  // ---- What configure loads ----

  predicate IsConfigure(line: string) {
    line == "configure" || line == "configure exclusive" || line == "configure private" || line == "edit"
  }

  lemma {:induction false} TypeAllConcat(s: Session, factory: seq<string>, xs: seq<string>, ys: seq<string>)
    requires Ready(s)
    ensures TypeAll(s, factory, xs + ys) == TypeAll(TypeAll(s, factory, xs), factory, ys)
    decreases |ys|
  {
    hide Type;
    if ys == [] {
      assert xs + [] == xs;
    } else {
      TypeAllConcat(s, factory, xs, ys[..|ys| - 1]);
      assert (xs + ys)[..|xs + ys| - 1] == xs + ys[..|ys| - 1];
    }
  }

  lemma TypeStripped(s: Session, factory: seq<string>, line: string)
    requires Ready(s) && line != "" && IsStripped(line)
    ensures s.mode == Operational ==> Type(s, factory, line) == OperationalLine(s, factory, line)
    ensures s.mode == Configuration ==> Type(s, factory, line) == ConfigurationLine(s, factory, line)
  {
    hide Strip, OperationalLine, ConfigurationLine;
    StripFixes(line);
  }

  /** Entering configuration mode loads what the file holds, and nothing else changes. */
  lemma ConfigureLoads(s: Session, factory: seq<string>, verb: string)
    requires s.mode == Operational && IsConfigure(verb)
    ensures Type(s, factory, verb) == s.(mode := Configuration, candidate := Some(ReadCommitted(s.file, factory)))
  {
    hide Strip, ReadCommitted, ConfigurationLine;
    TypeStripped(s, factory, verb);
    assert verb[0] == 'c' || (verb[0] == 'e' && verb[1] == 'd');
    assert "exit"[1] == 'x' && "quit"[0] == 'q' && "logout"[0] == 'l';
  }

  lemma ExitDispatch(s: Session, factory: seq<string>)
    requires s.mode == Configuration && s.candidate.Some?
    ensures Type(s, factory, "exit") == s.(mode := Operational)
  {
    hide Strip, DropMatching, Contains, FileText, ReadCommitted, AddLine;
    TypeStripped(s, factory, "exit");
  }

  lemma CommitTyped(s: Session, factory: seq<string>)
    requires s.mode == Configuration && s.candidate.Some?
    ensures Type(s, factory, "commit")
            == s.(file := Some(FileText(s.candidate.value)), committed := s.candidate.value)
  {
    hide Strip, ConfigurationLine, FileText;
    TypeStripped(s, factory, "commit");
    CommitDispatch(s, factory);
  }

  /** A nonempty commit without carriage returns, left and entered again, is the candidate it was. */
  lemma ReenteredCommit(s: Session, factory: seq<string>, verb: string)
    requires s.mode == Configuration && s.candidate.Some? && s.candidate.value != []
    requires Writable(s.candidate.value) && NoReturns(s.candidate.value) && IsConfigure(verb)
    ensures var lines := s.candidate.value;
      TypeAll(s, factory, ["commit", "exit", verb]) == Session(Configuration, Some(lines), lines, Some(FileText(lines)))
  {
    hide Type, FileText, ReadCommitted, Writable, NoReturns, IsConfigure;
    var lines := s.candidate.value;
    var t := s.(file := Some(FileText(lines)), committed := lines);
    CommitTyped(s, factory);
    ExitDispatch(t, factory);
    ConfigureLoads(t.(mode := Operational), factory, verb);
    CommitReadsBack(lines, factory);
    TypeThree(s, factory, "commit", "exit", verb);
  }

  lemma SetTyped(s: Session, factory: seq<string>, line: string)
    requires s.mode == Configuration && s.candidate.Some? && StartsWith(line, "set ") && IsStripped(line)
    ensures Type(s, factory, line) == s.(candidate := Some(
              if line in s.candidate.value then s.candidate.value else s.candidate.value + [line]))
  {
    hide Strip, ConfigurationLine, IsStripped;
    assert line != "";
    TypeStripped(s, factory, line);
    SetDispatch(s, factory, line);
  }

  lemma AddedIsWritable(lines: seq<string>, line: string)
    requires Writable(lines) && NoReturns(lines) && line != "" && IsStripped(line) && '\n' !in line && '\r' !in line
    ensures Writable(lines + [line]) && NoReturns(lines + [line])
  {
    hide Strip;
    StripFixes(line);
  }

  /**
   One more statement, from session to session: with these statements in the file, what
   `configure`, a set line, `commit`, `exit` and `configure` end with are the same
   statements in their order, and the new one behind them unless it was among them.
   */
  lemma StatementIsKept(s: Session, factory: seq<string>, verb: string, line: string, again: string)
    requires s.mode == Operational && ReadCommitted(s.file, factory) == s.committed != []
    requires Writable(s.committed) && NoReturns(s.committed) && IsConfigure(verb) && IsConfigure(again)
    requires StartsWith(line, "set ") && IsStripped(line) && '\n' !in line && '\r' !in line
    ensures var s' := TypeAll(s, factory, [verb, line] + ["commit", "exit", again]);
      && s'.mode == Configuration && s'.candidate == Some(s'.committed)
      && s'.committed == if line in s.committed then s.committed else s.committed + [line]
  {
    hide Type, FileText, ReadCommitted, Writable, NoReturns, IsConfigure, IsStripped;
    ConfigureLoads(s, factory, verb);
    var t := s.(mode := Configuration, candidate := Some(s.committed));
    SetTyped(t, factory, line);
    TypeTwo(s, factory, verb, line);
    if line !in s.committed {
      AddedIsWritable(s.committed, line);
    }
    ReenteredCommit(Type(t, factory, line), factory, again);
    TypeAllConcat(s, factory, [verb, line], ["commit", "exit", again]);
  }

  lemma TypeTwo(s: Session, factory: seq<string>, a: string, b: string)
    requires Ready(s)
    ensures TypeAll(s, factory, [a, b]) == Type(Type(s, factory, a), factory, b)
  {
    hide Type;
    assert [a, b][..1] == [a] && [a][..0] == [];
    assert TypeAll(s, factory, [a]) == Type(s, factory, a);
  }

  // ---- Which lines do what ----

  /** The words stand somewhere in the line. */
  predicate Mentions(line: string, words: string) {
    exists i :: 0 <= i <= |line| && words <= line[i..]
  }

  lemma {:induction false} ContainsIff(line: string, words: string)
    ensures Contains(line, words) <==> Mentions(line, words)
  {
    assert line[0..] == line;
    if line != "" {
      ContainsIff(line[1..], words);
      assert forall i :: 1 <= i <= |line| ==> line[1..][i - 1..] == line[i..];
      if Mentions(line, words) {
        var i :| 0 <= i <= |line| && words <= line[i..];
        assert i > 0 ==> words <= line[1..][i - 1..];
      }
      if j :| 0 <= j <= |line[1..]| && words <= line[1..][j..] {
        assert words <= line[j + 1..];
      }
    }
  }

  lemma OperationalModes(s: Session, factory: seq<string>, line: string)
    requires s.mode == Operational
    ensures var t := OperationalLine(s, factory, line);
      && (t.mode == Ended <==> line == "exit" || line == "quit" || line == "logout")
      && (t.mode == Configuration <==> IsConfigure(line))
      && t.committed == s.committed && t.file == s.file && (!IsConfigure(line) ==> t.candidate == s.candidate)
  {
    hide ReadCommitted;
    assert IsConfigure(line) ==> line[0] == 'c' || (line[0] == 'e' && line[1] == 'd');
    assert "exit"[1] == 'x' && "quit"[0] == 'q' && "logout"[0] == 'l';
  }

  predicate LeavesConfiguration(line: string) {
    || line == "exit" || line == "quit" || line == "exit configuration-mode" || line == "top"
    || (StartsWith(line, "commit") && Mentions(line, "and-quit"))
  }

  lemma ConfigurationModes(s: Session, factory: seq<string>, line: string)
    requires s.mode == Configuration && s.candidate.Some?
    ensures var t := ConfigurationLine(s, factory, line);
      && t.mode == (if LeavesConfiguration(line) then Operational else Configuration)
      && (if StartsWith(line, "commit") then t.committed == s.candidate.value && t.file == Some(FileText(t.committed))
          else t.committed == s.committed && t.file == s.file)
      && (StartsWith(line, "set ") || StartsWith(line, "delete ") || StartsWith(line, "rollback")
          || t.candidate == s.candidate)
  {
    hide Strip, DropMatching, Contains, FileText, ReadCommitted, AddLine, Mentions;
    ContainsIff(line, "and-quit");
    assert StartsWith(line, "commit") ==> line[0] == 'c';
    assert "exit"[0] == 'e' && "quit"[0] == 'q' && "exit configuration-mode"[0] == 'e' && "top"[0] == 't';
  }

  /**
   Which lines leave or enter a mode, and that only a commit changes what is committed
   and only set, delete, rollback and configure the candidate. Nothing follows the end.
   */
  lemma ModesFollow(s: Session, factory: seq<string>, line: string)
    requires Ready(s) && line != "" && IsStripped(line)
    ensures var t := Type(s, factory, line);
      match s.mode
      case Ended => t == s
      case Operational =>
        && (t.mode == Ended <==> line == "exit" || line == "quit" || line == "logout")
        && (t.mode == Configuration <==> IsConfigure(line))
        && t.committed == s.committed && t.file == s.file && (!IsConfigure(line) ==> t.candidate == s.candidate)
      case Configuration =>
        && t.mode == (if LeavesConfiguration(line) then Operational else Configuration)
        && (if StartsWith(line, "commit") then t.committed == s.candidate.value && t.file == Some(FileText(t.committed))
            else t.committed == s.committed && t.file == s.file)
        && (StartsWith(line, "set ") || StartsWith(line, "delete ") || StartsWith(line, "rollback")
            || t.candidate == s.candidate)
  {
    hide Strip, OperationalLine, ConfigurationLine, LeavesConfiguration, IsConfigure, FileText;
    StripFixes(line);
    match s.mode {
      case Ended =>
      case Operational => OperationalModes(s, factory, line);
      case Configuration => ConfigurationModes(s, factory, line);
    }
  }

  // ---- Over whole sessions ----

  /** The file holds the committed statements; an empty commit stands for the default. */
  ghost predicate InSync(s: Session, factory: seq<string>) {
    ReadCommitted(s.file, factory) == if s.committed == [] then factory else s.committed
  }

  lemma TypeKeepsSync(s: Session, factory: seq<string>, raw: string)
    requires SessionInv(s, factory) && InSync(s, factory)
    ensures InSync(Type(s, factory, raw), factory)
  {
    hide Strip, ReadCommitted, DropMatching, AddLine, Contains, FileText, Writable, NoReturns;
    if s.mode == Configuration {
      CommitReadsBack(s.candidate.value, factory);
    }
  }

  /**
   Over every session of whole lines: `configure`, however it is spelled, opens the
   statements of the last commit, in order, or the default if there are none.
   */
  lemma {:induction false} SessionStaysInSync(file: Option<string>, factory: seq<string>, raws: seq<string>)
    requires Sound(factory) && Sound(ReadCommitted(file, factory))
    requires forall i :: 0 <= i < |raws| ==> TypedWhole(raws[i])
    ensures InSync(TypeAll(Start(file, factory), factory, raws), factory)
  {
    hide SessionInv, InSync, Type, TypedWhole, Sound, ReadCommitted;
    if raws == [] {
      StartInSync(file, factory);
    } else {
      SessionStaysInSync(file, factory, raws[..|raws| - 1]);
      SessionKeepsInv(file, factory, raws[..|raws| - 1]);
      TypeKeepsSync(TypeAll(Start(file, factory), factory, raws[..|raws| - 1]), factory, raws[|raws| - 1]);
    }
  }

  lemma StartInSync(file: Option<string>, factory: seq<string>)
    ensures InSync(Start(file, factory), factory)
  {
  }

  lemma ConfigureGivesCommitted(file: Option<string>, factory: seq<string>, raws: seq<string>, verb: string)
    requires Sound(factory) && Sound(ReadCommitted(file, factory)) && IsConfigure(verb)
    requires forall i :: 0 <= i < |raws| ==> TypedWhole(raws[i])
    requires TypeAll(Start(file, factory), factory, raws).mode == Operational
    ensures var s := TypeAll(Start(file, factory), factory, raws);
      Type(s, factory, verb) == s.(mode := Configuration,
                                   candidate := Some(if s.committed == [] then factory else s.committed))
  {
    hide Type, TypeAll, TypedWhole, Sound, ReadCommitted, IsConfigure;
    SessionStaysInSync(file, factory, raws);
    ConfigureLoads(TypeAll(Start(file, factory), factory, raws), factory, verb);
  }

  // ---- show configuration ----

  function ShowConfiguration(args: seq<string>, lines: seq<string>): string {
    Show(SetToTree(if args == [] then lines else KeepMatching(lines, Statement(args))))
  }

  lemma {:induction false} InsertOneLine(t: Tree, path: Path)
    requires OneLineKeys(t.kids) && forall i :: 0 <= i < |path| ==> '\n' !in path[i]
    ensures OneLineKeys(Insert(t, path).kids)
    decreases |path|
  {
    if path != [] {
      var i := KeyIndex(t.kids, path[0]);
      InsertOneLine(if i < |t.kids| then t.kids[i].sub else LEAF, path[1..]);
    }
  }

  lemma {:induction false} BuildOneLine(paths: seq<Path>)
    requires forall k :: 0 <= k < |paths| ==> AllTokens(paths[k])
    ensures OneLineKeys(Build(paths).kids)
  {
    if paths != [] {
      BuildOneLine(paths[..|paths| - 1]);
      var last := paths[|paths| - 1];
      assert forall i :: 0 <= i < |last| ==> IsToken(last[i]);
      InsertOneLine(Build(paths[..|paths| - 1]), last);
    }
  }

  lemma {:induction false} PathsAreTokens(lines: seq<string>)
    ensures forall k :: 0 <= k < |PathsOf(lines)| ==> AllTokens(PathsOf(lines)[k])
  {
    hide Split, AllTokens;
    if lines != [] {
      PathsAreTokens(lines[..|lines| - 1]);
      var line := lines[|lines| - 1];
      if StartsWith(line, "set ") {
        SplitTokens(line[4..]);
      }
    }
  }

  lemma SetLinesShowBack(lines: seq<string>)
    ensures ReadBack(Show(SetToTree(lines))) == SetToTree(lines)
  {
    PathsAreTokens(lines);
    hide AllTokens, Show, ReadBack;
    BuildOneLine(PathsOf(lines));
    ShowReadsBack(SetToTree(lines));
  }

  /**
   What `show configuration args` prints determines the trie of the lines it kept:
   of exactly the statements at or below args, where those are spaced singly through it.
   */
  lemma ShownConfigurationReadsBack(args: seq<string>, lines: seq<string>)
    requires AllTokens(args)
    ensures var kept := if args == [] then lines else KeepMatching(lines, Statement(args));
      ReadBack(ShowConfiguration(args, lines)) == SetToTree(kept)
    ensures SpacedThrough(lines, args) ==>
      ReadBack(ShowConfiguration(args, lines)) == Build(PathsBelow(PathsOf(lines), args))
  {
    hide SpacedThrough, AllTokens, Show, ReadBack, Build, KeepMatching, PathsOf, PathsBelow;
    if args == [] {
      SetLinesShowBack(lines);
      AllBelowRoot(PathsOf(lines));
    } else {
      SetLinesShowBack(KeepMatching(lines, Statement(args)));
      if SpacedThrough(lines, args) {
        DropIsWithout(lines, args);
      }
    }
  }

  lemma {:induction false} AllBelowRoot(paths: seq<Path>)
    ensures PathsBelow(paths, []) == paths
  {
    if paths != [] {
      AllBelowRoot(paths[..|paths| - 1]);
    }
  }

  // ---- The running session ----

  class Cli {
    const factory: seq<string>
    var mode: Mode
    var candidate: Option<seq<string>>
    var committed: seq<string>
    var file: Option<string>

    constructor (file: Option<string>, factory: seq<string>)
      ensures this.factory == factory && Contents() == Start(file, factory)
    {
      this.factory, this.file := factory, file;
      mode, candidate, committed := Operational, None, ReadCommitted(file, factory);
    }

    function Contents(): Session
      reads this
    {
      Session(mode, candidate, committed, file)
    }

    /** One turn of the prompt loop. */
    method HandleLine(raw: string)
      requires Ready(Contents())
      modifies this
      ensures Ready(Contents()) && Contents() == Type(old(Contents()), factory, raw)
    {
      hide Strip, Split, ReadCommitted, DropMatching, FileText, Contains;
      var line := Strip(raw);
      if line == "" || mode == Ended {
        return;
      }
      if mode == Operational {
        if line in ["exit", "quit", "logout"] {
          mode := Ended;
        } else if line in ["configure", "configure exclusive", "configure private", "edit"] {
          candidate := Some(ReadCommitted(file, factory));
          mode := Configuration;
        }
        return;
      }
      if line in ["exit", "quit", "exit configuration-mode", "top"] {
        mode := Operational;
      } else if StartsWith(line, "run ") || line == "show" || StartsWith(line, "show ") {
      } else if StartsWith(line, "set ") {
        if line !in candidate.value {
          candidate := Some(candidate.value + [line]);
        }
      } else if StartsWith(line, "delete ") {
        var kept := DeleteBelow(candidate.value, "set " + Strip(line[7..]));
        candidate := Some(kept);
      } else if StartsWith(line, "rollback") {
        candidate := Some(ReadCommitted(file, factory));
      } else if StartsWith(line, "commit") {
        file := Some(FileText(candidate.value));
        committed := candidate.value;
        if Contains(line, "and-quit") {
          mode := Operational;
        }
      }
    }

    /** candidate[:] = [l for l in candidate if not ...] */
    static method DeleteBelow(lines: seq<string>, prefix: string) returns (kept: seq<string>)
      ensures kept == DropMatching(lines, prefix)
    {
      kept := [];
      for i := 0 to |lines|
        invariant kept == DropMatching(lines[..i], prefix)
      {
        assert lines[..i + 1][..i] == lines[..i];
        if !TextPrefix(prefix, lines[i]) {
          kept := kept + [lines[i]];
        }
      }
      assert lines[..|lines|] == lines;
    }
  }
}
