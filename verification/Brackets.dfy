/** The linter's bracket matchers. `CloseExpression` scans forward from an opening
    bracket, over as many lines as it takes, and `ReverseCloseExpression` scans
    backward from a closing one. Angle brackets are guessed at: a `<` may be a
    comparison, a shift or a template list, so both scanners carry heuristics for
    them, all of which are modelled. */
module Brackets {
  import opened BracketText

  // ---------------------------------------------------------------- characters

  predicate IsOpen(c: char) { c == '(' || c == '[' || c == '{' }

  predicate IsClose(c: char) { c == ')' || c == ']' || c == '}' }

  /** The kind of a bracket, on either side. */
  function Kind(c: char): Bracket
  {
    if c == '(' || c == ')' then Round else if c == '[' || c == ']' then Square
    else if c == '{' || c == '}' then Curly else Angle
  }

  /** `\s` and `\w` over ASCII. */
  predicate IsSpace(c: char) { c == ' ' || '\t' <= c <= '\r' }

  predicate IsWord(c: char)
  {
    'a' <= c <= 'z' || 'A' <= c <= 'Z' || '0' <= c <= '9' || c == '_'
  }

  predicate HasSuffix(s: string, word: string)
    ensures HasSuffix(s, word) ==> |word| <= |s|
    decreases |word|
  {
    word == [] ||
    (&& s != [] && s[|s| - 1] == word[|word| - 1]
     && HasSuffix(s[..|s| - 1], word[..|word| - 1]))
  }

  /** `Search(r'\boperator\s*$', s)`. */
  predicate EndsWithOperator(s: string)
    decreases |s|
  {
    if s != [] && IsSpace(s[|s| - 1]) then EndsWithOperator(s[..|s| - 1])
    else HasSuffix(s, "operator") && (|s| == 8 || !IsWord(s[|s| - 9]))
  }

  /** The word ends at `n`, starts a word, and only spaces follow. */
  ghost predicate OperatorEndsAt(s: string, n: nat)
    requires 8 <= n <= |s|
  {
    && s[n - 8..n] == "operator" && (n == 8 || !IsWord(s[n - 9]))
    && forall k :: n <= k < |s| ==> IsSpace(s[k])
  }

  lemma {:induction false} SuffixIs(s: string, word: string)
    ensures HasSuffix(s, word) <==> |word| <= |s| && s[|s| - |word|..] == word
    decreases |word|
  {
    if word != [] && s != [] {
      var s', word' := s[..|s| - 1], word[..|word| - 1];
      SuffixIs(s', word');
      assert word == word' + [word[|word| - 1]];
      if |word| <= |s| {
        var end := s[|s| - |word|..];
        assert end == s'[|s'| - |word'|..] + [s[|s| - 1]];
      }
    }
  }

  lemma SpaceIsSkipped(s: string, n: nat)
    requires 8 <= n <= |s| && IsSpace(s[|s| - 1])
    ensures OperatorEndsAt(s, n) <==> n < |s| && OperatorEndsAt(s[..|s| - 1], n)
  {
    if n < |s| {
      assert s[n - 8..n] == s[..|s| - 1][n - 8..n];
    } else {
      assert s[n - 8..n][7] == s[|s| - 1] && "operator"[7] == 'r';
    }
  }

  lemma WordIsLast(s: string, n: nat)
    requires 8 <= n <= |s| && !IsSpace(s[|s| - 1])
    ensures OperatorEndsAt(s, n) <==> n == |s| && HasSuffix(s, "operator") && (n == 8 || !IsWord(s[n - 9]))
  {
    SuffixIs(s, "operator");
    assert s[|s| - 8..] == s[|s| - 8..|s|];
  }

  /** The test is the search for the pattern. */
  lemma {:induction false} OperatorIsSearch(s: string)
    ensures EndsWithOperator(s) <==> exists n :: 8 <= n <= |s| && OperatorEndsAt(s, n)
    decreases |s|
  {
    if s != [] && IsSpace(s[|s| - 1]) {
      var s' := s[..|s| - 1];
      OperatorIsSearch(s');
      forall n | 8 <= n <= |s| ensures OperatorEndsAt(s, n) ==> n < |s| && OperatorEndsAt(s', n) {
        SpaceIsSkipped(s, n);
      }
      if EndsWithOperator(s) {
        var n :| 8 <= n <= |s'| && OperatorEndsAt(s', n);
        SpaceIsSkipped(s, n);
      }
    } else {
      forall n | 8 <= n <= |s| ensures OperatorEndsAt(s, n) <==> n == |s| && EndsWithOperator(s) {
        WordIsLast(s, n);
      }
      assert |s| >= 8 ==> (OperatorEndsAt(s, |s|) <==> EndsWithOperator(s));
    }
  }

  // ---------------------------------------------------------------- lines as tokens

  function ForwardToken(line: string, i: nat): Token
    requires i < |line|
  {
    var c := line[i];
    if IsOpen(c) then Open(Kind(c))
    else if IsClose(c) then Close(Kind(c))
    else if c == '<' then
      if i > 0 && line[i - 1] == '<' then Shift
      else if i > 0 && EndsWithOperator(line[..i]) then Skip
      else Open(Angle)
    else if c == '>' then
      if i > 0 && (line[i - 1] == '-' || EndsWithOperator(line[..i - 1])) then Skip else Close(Angle)
    else if c == ';' then Semicolon
    else Skip
  }

  function ForwardTokens(line: string): seq<Token>
  {
    seq(|line|, i requires 0 <= i < |line| => ForwardToken(line, i))
  }

  /** Whether the backward scan takes the `>` at `i` for part of an operator. */
  predicate OperatorGreater(line: string, i: nat)
    requires i < |line|
  {
    i > 0 &&
    (|| line[i - 1] == '-'
     || (IsSpace(line[i - 1]) && i + 2 < |line| && line[i + 1] == '=' && IsSpace(line[i + 2]))
     || EndsWithOperator(line[..i]))
  }

  /** A `>` or `<` taken for an operator makes the backward scan skip one more. */
  predicate SkipsOne(line: string, i: nat)
    requires i < |line|
    ensures SkipsOne(line, i) ==> i > 0
  {
    || (line[i] == '>' && OperatorGreater(line, i))
    || (line[i] == '<' && i > 0 && line[i - 1] == '<')
  }

  function BackwardToken(c: char): Token
  {
    if IsOpen(c) || c == '<' then Open(Kind(c))
    else if IsClose(c) || c == '>' then Close(Kind(c))
    else if c == ';' then Semicolon
    else Skip
  }

  /** The tokens of line[..n], read from its end: an operator takes two characters. */
  function BackwardTokens(line: string, n: nat): (toks: seq<Token>)
    requires n <= |line|
    ensures |toks| == n
  {
    if n == 0 then []
    else if SkipsOne(line, n - 1) then BackwardTokens(line, n - 2) + [Skip, Skip]
    else BackwardTokens(line, n - 1) + [BackwardToken(line[n - 1])]
  }

  // ---------------------------------------------------------------- one line

  /** The scan of line[i..]; `Ended` gives the place just past the closing bracket. */
  function ScanForward(line: string, i: nat, stack: seq<Bracket>): Outcome
    requires i <= |line|
  {
    Later(Scans(ForwardTokens(line)[i..], stack), i)
  }

  lemma ForwardReads(line: string, i: nat, stack: seq<Bracket>)
    requires i < |line|
    ensures ScanForward(line, i, stack) == match Read(ForwardToken(line, i), stack)
      case Push(rest) => ScanForward(line, i + 1, rest)
      case Done => Ended(i + 1)
      case Stuck => Dead
  {
    var toks := ForwardTokens(line);
    assert toks[i..] == [toks[i]] + toks[i + 1..];
    ScansCons(toks[i], toks[i + 1..], stack);
  }

  function Before(r: Outcome, n: nat): Outcome
  {
    if r.Ended? && r.n <= n then Ended(n - r.n) else r
  }

  /** The scan of line[..n] from its end; `Ended` gives the place of the opening bracket. */
  function ScanBackward(line: string, n: nat, stack: seq<Bracket>): Outcome
    requires n <= |line|
  {
    Before(Scans(Mirrored(BackwardTokens(line, n)), stack), n)
  }

  lemma BackwardSkips(line: string, n: nat, stack: seq<Bracket>)
    requires 0 < n <= |line| && SkipsOne(line, n - 1)
    ensures ScanBackward(line, n, stack) == ScanBackward(line, n - 2, stack)
  {
    var rest := BackwardTokens(line, n - 2);
    SkipsChangeNothing(rest, stack);
    EndedWithin(Mirrored(rest), stack);
  }

  lemma BackwardReads(line: string, n: nat, stack: seq<Bracket>)
    requires 0 < n <= |line| && !SkipsOne(line, n - 1)
    ensures ScanBackward(line, n, stack) == match Read(MirrorToken(BackwardToken(line[n - 1])), stack)
      case Push(rest) => ScanBackward(line, n - 1, rest)
      case Done => Ended(n - 1)
      case Stuck => Dead
  {
    BackwardAfter(BackwardTokens(line, n - 1), BackwardToken(line[n - 1]), stack);
  }

  lemma BackwardAfter(toks: seq<Token>, tok: Token, stack: seq<Bracket>)
    ensures Before(Scans(Mirrored(toks + [tok]), stack), |toks| + 1) == match Read(MirrorToken(tok), stack)
      case Push(rest) => Before(Scans(Mirrored(toks), rest), |toks|)
      case Done => Ended(|toks|)
      case Stuck => Dead
  {
    LastIsFirst(toks, tok, stack);
    match Read(MirrorToken(tok), stack)
    case Push(rest) => EndedWithin(Mirrored(toks), rest);
    case _ =>
  }

  /** The stack holds the kinds of the brackets that are open. */
  method FindEndOfExpressionInLine(line: string, startpos: nat, stack0: seq<Bracket>) returns (r: Outcome)
    requires startpos <= |line|
    ensures r == ScanForward(line, startpos, stack0)
  {
    var stack := stack0;
    for i := startpos to |line|
      invariant ScanForward(line, startpos, stack0) == ScanForward(line, i, stack)
    {
      var c := line[i];
      ForwardReads(line, i, stack);
      if c == '(' || c == '[' || c == '{' {
        stack := stack + [Kind(c)];
      } else if c == '<' {
        if i > 0 && line[i - 1] == '<' {
          if stack != [] && stack[|stack| - 1] == Angle {
            stack := stack[..|stack| - 1];
            if stack == [] {
              return Dead;
            }
          }
        } else if i > 0 && EndsWithOperator(line[..i]) {
        } else {
          stack := stack + [Angle];
        }
      } else if c == ')' || c == ']' || c == '}' {
        stack := PopAngles(stack);
        if stack == [] {
          return Dead;
        }
        var top := stack[|stack| - 1];
        if (top == Round && c == ')') || (top == Square && c == ']') || (top == Curly && c == '}') {
          stack := stack[..|stack| - 1];
          if stack == [] {
            return Ended(i + 1);
          }
        } else {
          return Dead;
        }
      } else if c == '>' {
        if i > 0 && (line[i - 1] == '-' || EndsWithOperator(line[..i - 1])) {
        } else if stack != [] && stack[|stack| - 1] == Angle {
          stack := stack[..|stack| - 1];
          if stack == [] {
            return Ended(i + 1);
          }
        }
      } else if c == ';' {
        stack := PopAngles(stack);
        if stack == [] {
          return Dead;
        }
      }
    }
    return Pending(stack);
  }

  /** Drop the pending angle brackets, which must have been operators. */
  method PopAngles(stack0: seq<Bracket>) returns (stack: seq<Bracket>)
    ensures stack == DropAngle(stack0)
  {
    stack := stack0;
    while stack != [] && stack[|stack| - 1] == Angle
      invariant DropAngle(stack0) == DropAngle(stack)
      decreases |stack|
    {
      stack := stack[..|stack| - 1];
    }
  }

  method FindStartOfExpressionInLine(line: string, endpos: int, stack0: seq<Bracket>) returns (r: Outcome)
    requires -1 <= endpos < |line|
    ensures r == ScanBackward(line, endpos + 1, stack0)
  {
    var stack := stack0;
    var i := endpos;
    while i >= 0
      invariant -1 <= i < |line|
      invariant ScanBackward(line, endpos + 1, stack0) == ScanBackward(line, i + 1, stack)
      decreases i
    {
      var c := line[i];
      if SkipsOne(line, i) {
        BackwardSkips(line, i + 1, stack);
      } else {
        BackwardReads(line, i + 1, stack);
      }
      if c == ')' || c == ']' || c == '}' {
        stack := stack + [Kind(c)];
      } else if c == '>' {
        if OperatorGreater(line, i) {
          i := i - 1;
        } else {
          stack := stack + [Angle];
        }
      } else if c == '<' {
        if i > 0 && line[i - 1] == '<' {
          i := i - 1;
        } else if stack != [] && stack[|stack| - 1] == Angle {
          stack := stack[..|stack| - 1];
          if stack == [] {
            return Ended(i);
          }
        }
      } else if c == '(' || c == '[' || c == '{' {
        stack := PopAngles(stack);
        if stack == [] {
          return Dead;
        }
        var top := stack[|stack| - 1];
        if (c == '(' && top == Round) || (c == '[' && top == Square) || (c == '{' && top == Curly) {
          stack := stack[..|stack| - 1];
          if stack == [] {
            return Ended(i);
          }
        } else {
          return Dead;
        }
      } else if c == ';' {
        stack := PopAngles(stack);
        if stack == [] {
          return Dead;
        }
      }
      i := i - 1;
    }
    return Pending(stack);
  }

  // ---------------------------------------------------------------- many lines

  /** A position in the file, or the answer that there is none. */
  datatype Place = At(line: nat, pos: nat) | NoPlace

  function CloseFrom(lines: seq<string>, l: nat, i: nat, stack: seq<Bracket>): (r: Place)
    requires l < |lines| && i <= |lines[l]|
    decreases |lines| - l
  {
    match ScanForward(lines[l], i, stack)
    case Ended(p) => At(l, p)
    case Dead => NoPlace
    case Pending(rest) => if rest != [] && l + 1 < |lines| then CloseFrom(lines, l + 1, 0, rest) else NoPlace
  }

  function OpenFrom(lines: seq<string>, l: nat, n: nat, stack: seq<Bracket>): (r: Place)
    requires l < |lines| && n <= |lines[l]|
    decreases l
  {
    match ScanBackward(lines[l], n, stack)
    case Ended(p) => At(l, p)
    case Dead => NoPlace
    case Pending(rest) => if rest != [] && l > 0 then OpenFrom(lines, l - 1, |lines[l - 1]|, rest) else NoPlace
  }

  predicate CanClose(line: string, pos: nat)
    requires pos < |line|
  {
    // not an opening bracket, or the start of `<<` or `<=`
    && (IsOpen(line[pos]) || line[pos] == '<')
    && !(line[pos] == '<' && pos + 1 < |line| && (line[pos + 1] == '<' || line[pos + 1] == '='))
  }

  function Closing(lines: seq<string>, l: nat, pos: nat): (r: Place)
    requires l < |lines| && pos < |lines[l]|
  {
    if CanClose(lines[l], pos) then CloseFrom(lines, l, pos, []) else NoPlace
  }

  function Opening(lines: seq<string>, l: nat, pos: nat): (r: Place)
    requires l < |lines| && pos < |lines[l]|
  {
    if IsClose(lines[l][pos]) || lines[l][pos] == '>' then OpenFrom(lines, l, pos + 1, []) else NoPlace
  }

  /** Returns the place just past the closing bracket; `NoPlace` stands for (line, NumLines, -1). */
  method CloseExpression(lines: seq<string>, linenum0: nat, pos: nat) returns (r: Place)
    requires linenum0 < |lines| && pos < |lines[linenum0]|
    ensures r == Closing(lines, linenum0, pos)
  {
    var linenum := linenum0;
    if !CanClose(lines[linenum], pos) {
      return NoPlace;
    }
    var scan := FindEndOfExpressionInLine(lines[linenum], pos, []);
    if scan.Ended? {
      return At(linenum, scan.n);
    }
    while scan.Pending? && scan.stack != [] && linenum < |lines| - 1
      invariant linenum < |lines| && !scan.Ended?
      invariant Closing(lines, linenum0, pos) ==
                if scan.Pending? && scan.stack != [] && linenum < |lines| - 1
                then CloseFrom(lines, linenum + 1, 0, scan.stack) else NoPlace
      decreases |lines| - linenum
    {
      linenum := linenum + 1;
      scan := FindEndOfExpressionInLine(lines[linenum], 0, scan.stack);
      if scan.Ended? {
        return At(linenum, scan.n);
      }
    }
    return NoPlace;
  }

  /** Returns the place of the opening bracket; `NoPlace` stands for (line, 0, -1). */
  method ReverseCloseExpression(lines: seq<string>, linenum0: nat, pos: nat) returns (r: Place)
    requires linenum0 < |lines| && pos < |lines[linenum0]|
    ensures r == Opening(lines, linenum0, pos)
  {
    var linenum := linenum0;
    if !(IsClose(lines[linenum][pos]) || lines[linenum][pos] == '>') {
      return NoPlace;
    }
    var scan := FindStartOfExpressionInLine(lines[linenum], pos, []);
    if scan.Ended? {
      return At(linenum, scan.n);
    }
    while scan.Pending? && scan.stack != [] && linenum > 0
      invariant linenum < |lines| && !scan.Ended?
      invariant Opening(lines, linenum0, pos) ==
                if scan.Pending? && scan.stack != [] && linenum > 0
                then OpenFrom(lines, linenum - 1, |lines[linenum - 1]|, scan.stack) else NoPlace
      decreases linenum
    {
      linenum := linenum - 1;
      scan := FindStartOfExpressionInLine(lines[linenum], |lines[linenum]| - 1, scan.stack);
      if scan.Ended? {
        return At(linenum, scan.n);
      }
    }
    return NoPlace;
  }

  // ---------------------------------------------------------------- many lines as one text

  /** The tokens from place (l, p) up to, not including, place (l', p'), read forward. */
  function ForwardText(lines: seq<string>, l: nat, p: nat, l': nat, p': nat): (toks: seq<Token>)
    requires l <= l' < |lines| && p <= |lines[l]| && p' <= |lines[l']| && (l == l' ==> p <= p')
    decreases l' - l
  {
    if l == l' then ForwardTokens(lines[l])[p..p']
    else ForwardTokens(lines[l])[p..] + ForwardText(lines, l + 1, 0, l', p')
  }

  /** The same tokens, read backward from (l', n). */
  function BackwardText(lines: seq<string>, l: nat, p: nat, l': nat, n: nat): (toks: seq<Token>)
    requires l <= l' < |lines| && p <= |lines[l]| && n <= |lines[l']| && (l == l' ==> p <= n)
    decreases l' - l
  {
    if l == l' then BackwardTokens(lines[l'], n)[p..]
    else BackwardText(lines, l, p, l' - 1, |lines[l' - 1]|) + BackwardTokens(lines[l'], n)
  }

  /** A text starts with the token of its first place and ends with that of its last. */
  lemma {:induction false} ForwardTextEnds(lines: seq<string>, l: nat, p: nat, l': nat, p': nat)
    requires l <= l' < |lines| && p <= |lines[l]| && 0 < p' <= |lines[l']| && (l == l' ==> p < p')
    ensures var toks := ForwardText(lines, l, p, l', p');
            && toks != [] && toks[|toks| - 1] == ForwardTokens(lines[l'])[p' - 1]
            && (p < |lines[l]| ==> toks[0] == ForwardTokens(lines[l])[p])
    decreases l' - l
  {
    if l < l' {
      ForwardTextEnds(lines, l + 1, 0, l', p');
    }
  }

  lemma {:induction false} BackwardTextEnds(lines: seq<string>, l: nat, p: nat, l': nat, n: nat)
    requires l <= l' < |lines| && p < |lines[l]| && n <= |lines[l']| && (l == l' ==> p < n)
    ensures var toks := BackwardText(lines, l, p, l', n);
            && toks != [] && (n > 0 ==> toks[|toks| - 1] == BackwardTokens(lines[l'], n)[n - 1])
            && toks[0] == BackwardTokens(lines[l], if l == l' then n else |lines[l]|)[p]
    decreases l' - l
  {
    if l < l' {
      BackwardTextEnds(lines, l, p, l' - 1, |lines[l' - 1]|);
    }
  }

  /** What is found lies after the place asked about. */
  lemma {:induction false} CloseFromStaysAfter(lines: seq<string>, l: nat, i: nat, stack: seq<Bracket>)
    requires l < |lines| && i <= |lines[l]|
    ensures match CloseFrom(lines, l, i, stack)
      case At(l', p') => l <= l' < |lines| && 0 < p' <= |lines[l']| && (l == l' ==> i < p')
      case NoPlace => true
    decreases |lines| - l
  {
    EndedWithin(ForwardTokens(lines[l])[i..], stack);
    match ScanForward(lines[l], i, stack)
    case Pending(rest) =>
      if rest != [] && l + 1 < |lines| {
        CloseFromStaysAfter(lines, l + 1, 0, rest);
      }
    case _ =>
  }

  lemma {:induction false} OpenFromStaysBefore(lines: seq<string>, l: nat, n: nat, stack: seq<Bracket>)
    requires l < |lines| && n <= |lines[l]|
    ensures match OpenFrom(lines, l, n, stack)
      case At(l', p') => l' <= l && p' < |lines[l']| && (l == l' ==> p' < n)
      case NoPlace => true
    decreases l
  {
    EndedWithin(Mirrored(BackwardTokens(lines[l], n)), stack);
    match ScanBackward(lines[l], n, stack)
    case Pending(rest) =>
      if rest != [] && l > 0 {
        OpenFromStaysBefore(lines, l - 1, |lines[l - 1]|, rest);
      }
    case _ =>
  }

  lemma CloseInLine(lines: seq<string>, l: nat, p: nat, stack: seq<Bracket>, p': nat)
    requires l < |lines| && p < p' <= |lines[l]|
    ensures CloseFrom(lines, l, p, stack) == At(l, p') <==> EndsExactly(ForwardTokens(lines[l])[p..p'], stack)
  {
    var first := ForwardTokens(lines[l])[p..];
    ScansPrefix(first, p' - p, stack);
    assert first[..p' - p] == ForwardTokens(lines[l])[p..p'];
    if Scans(first, stack).Pending? && l + 1 < |lines| {
      CloseFromStaysAfter(lines, l + 1, 0, Scans(first, stack).stack);
    }
  }

  /** The line-by-line scan ends at (l', p') just when the scan of the text ends there. */
  lemma {:induction false} CloseFromIsText(lines: seq<string>, l: nat, p: nat, stack: seq<Bracket>, l': nat, p': nat)
    requires l <= l' < |lines| && p <= |lines[l]| && 0 < p' <= |lines[l']| && (l == l' ==> p < p')
    requires stack != [] || (p < |lines[l]| && ForwardTokens(lines[l])[p].Open?)
    ensures CloseFrom(lines, l, p, stack) == At(l', p') <==> EndsExactly(ForwardText(lines, l, p, l', p'), stack)
    decreases l' - l
  {
    if l == l' {
      CloseInLine(lines, l, p, stack, p');
    } else {
      var first, rest := ForwardTokens(lines[l])[p..], ForwardText(lines, l + 1, 0, l', p');
      ScansStaysOpen(first, stack);
      ForwardTextEnds(lines, l + 1, 0, l', p');
      EndsInRest(first, rest, stack);
      if Scans(first, stack).Pending? {
        CloseFromIsText(lines, l + 1, 0, Scans(first, stack).stack, l', p');
      }
    }
  }

  lemma OpenInLine(lines: seq<string>, l: nat, p: nat, n: nat, stack: seq<Bracket>)
    requires l < |lines| && p < n <= |lines[l]|
    ensures OpenFrom(lines, l, n, stack) == At(l, p) <==> EndsExactly(Mirrored(BackwardTokens(lines[l], n)[p..]), stack)
  {
    var toks := BackwardTokens(lines[l], n);
    MirroredPrefix(toks, p, stack);
    EndedWithin(Mirrored(toks), stack);
    var r := Scans(Mirrored(toks), stack);
    if r.Pending? && l > 0 {
      OpenFromStaysBefore(lines, l - 1, |lines[l - 1]|, r.stack);
    }
  }

  lemma {:induction false} OpenFromIsText(lines: seq<string>, l: nat, p: nat, l': nat, n: nat, stack: seq<Bracket>)
    requires l <= l' < |lines| && p < |lines[l]| && n <= |lines[l']| && (l == l' ==> p < n)
    requires stack != [] || (n > 0 && BackwardTokens(lines[l'], n)[n - 1].Close?)
    ensures OpenFrom(lines, l', n, stack) == At(l, p) <==> EndsExactly(Mirrored(BackwardText(lines, l, p, l', n)), stack)
    decreases l' - l
  {
    if l == l' {
      OpenInLine(lines, l, p, n, stack);
    } else {
      var last, rest := BackwardTokens(lines[l'], n), BackwardText(lines, l, p, l' - 1, |lines[l' - 1]|);
      if n > 0 {
        MirroredFirst(last);
      }
      ScansStaysOpen(Mirrored(last), stack);
      EndedWithin(Mirrored(last), stack);
      BackwardTextEnds(lines, l, p, l' - 1, |lines[l' - 1]|);
      MirroredConcat(rest, last);
      EndsInRest(Mirrored(last), Mirrored(rest), stack);
      if Scans(Mirrored(last), stack).Pending? {
        OpenFromIsText(lines, l, p, l' - 1, |lines[l' - 1]|, Scans(Mirrored(last), stack).stack);
      }
    }
  }

  // ---------------------------------------------------------------- what is found closes one group

  /** Whether the forward scan takes the character for an opening bracket: a `<` only if it
      neither follows a `<` nor the word `operator`. */
  predicate Counts(line: string, i: nat)
    requires i < |line|
  {
    || IsOpen(line[i])
    || (line[i] == '<' && !(i > 0 && (line[i - 1] == '<' || EndsWithOperator(line[..i]))))
  }

  /** Whether the forward scan takes the character for a closing bracket: a `>` only if it
      follows neither a `-` nor the word `operator` and one character more. */
  predicate ClosesForward(line: string, i: nat)
    requires i < |line|
  {
    || IsClose(line[i])
    || (line[i] == '>' && !(i > 0 && (line[i - 1] == '-' || EndsWithOperator(line[..i - 1]))))
  }

  /** Whether the backward scan takes the character for a closing bracket. */
  predicate CountsBackward(line: string, i: nat)
    requires i < |line|
  {
    IsClose(line[i]) || (line[i] == '>' && !OperatorGreater(line, i))
  }

  /** For every file: a bracket that counts is closed at (l', p') if and only if it may be
      asked about and the text up to there is one group. */
  lemma ClosingIsBalanced(lines: seq<string>, l: nat, p: nat, l': nat, p': nat)
    requires l <= l' < |lines| && p < |lines[l]| && 0 < p' <= |lines[l']| && (l == l' ==> p < p')
    requires Counts(lines[l], p)
    ensures CloseFrom(lines, l, p, []) == At(l', p') <==> Balanced(ForwardText(lines, l, p, l', p'))
    ensures Closing(lines, l, p) == At(l', p') <==>
            CanClose(lines[l], p) && Balanced(ForwardText(lines, l, p, l', p'))
  {
    ForwardTextEnds(lines, l, p, l', p');
    CloseFromIsText(lines, l, p, [], l', p');
    ScansExactlyGroups(ForwardText(lines, l, p, l', p'));
  }

  lemma {:induction false} BackwardNoShift(line: string, n: nat)
    requires n <= |line|
    ensures NoShift(BackwardTokens(line, n))
  {
    if n > 0 {
      BackwardNoShift(line, if SkipsOne(line, n - 1) then n - 2 else n - 1);
    }
  }

  lemma {:induction false} BackwardTextNoShift(lines: seq<string>, l: nat, p: nat, l': nat, n: nat)
    requires l <= l' < |lines| && p <= |lines[l]| && n <= |lines[l']| && (l == l' ==> p <= n)
    ensures NoShift(BackwardText(lines, l, p, l', n))
    decreases l' - l
  {
    BackwardNoShift(lines[l'], n);
    if l < l' {
      BackwardTextNoShift(lines, l, p, l' - 1, |lines[l' - 1]|);
    }
  }

  lemma CountsIsClose(line: string, i: nat)
    requires i < |line| && CountsBackward(line, i)
    ensures BackwardTokens(line, i + 1)[i].Close?
  {
    assert !SkipsOne(line, i);
    assert BackwardTokens(line, i + 1)[i] == BackwardToken(line[i]);
  }

  /** For every file: a closing bracket that counts is opened at (l, p) if and only if the text
      from there is one group. */
  lemma OpeningIsBalanced(lines: seq<string>, l: nat, p: nat, l': nat, p': nat)
    requires l <= l' < |lines| && p < |lines[l]| && 0 < p' <= |lines[l']| && (l == l' ==> p < p')
    requires CountsBackward(lines[l'], p' - 1)
    ensures OpenFrom(lines, l', p', []) == At(l, p) <==> Balanced(BackwardText(lines, l, p, l', p'))
    ensures Opening(lines, l', p' - 1) == OpenFrom(lines, l', p', [])
  {
    var toks := BackwardText(lines, l, p, l', p');
    CountsIsClose(lines[l'], p' - 1);
    BackwardTextEnds(lines, l, p, l', p');
    BackwardTextNoShift(lines, l, p, l', p');
    OpenFromIsText(lines, l, p, l', p', []);
    GroupBackward(toks);
  }

  lemma GroupBackward(toks: seq<Token>)
    requires toks != [] && NoShift(toks) && toks[|toks| - 1].Close?
    ensures EndsExactly(Mirrored(toks), []) <==> Balanced(toks)
  {
    MirroredFirst(toks);
    ScansExactlyGroups(Mirrored(toks));
    MirrorIsBalanced(toks);
  }

  // ---------------------------------------------------------------- what is found pairs with what was given

  /** The bracket that ends an expression starting with `c`. */
  predicate Ends(c: char, d: char)
  {
    (c == '(' && d == ')') || (c == '[' && d == ']') || (c == '{' && d == '}') || (c == '<' && d == '>')
  }

  lemma TokensEnd(line: string, i: nat, line': string, i': nat)
    requires i < |line| && i' < |line'|
    requires ForwardToken(line, i).Open? && ForwardToken(line', i') == Close(ForwardToken(line, i).b)
    ensures Ends(line[i], line'[i'])
  {
  }

  /** With nothing open, the scan looks for the next bracket that counts. */
  lemma {:induction false} ScanFromNothing(line: string, i: nat) returns (q: nat)
    requires i <= |line| && !ScanForward(line, i, []).Dead? && ScanForward(line, i, []) != Pending([])
    ensures i <= q < |line| && Counts(line, q) && forall k :: i <= k < q ==> !Counts(line, k)
    ensures ScanForward(line, i, []) == ScanForward(line, q, [])
    decreases |line| - i
  {
    if i < |line| {
      ForwardReads(line, i, []);
    }
    if Counts(line, i) {
      q := i;
    } else {
      q := ScanFromNothing(line, i + 1);
    }
  }

  /** For every file, angle brackets included, and every bracket that is answered with a
      place: the place is just past the end of the first bracket from there on that counts,
      so of the bracket asked about exactly when that one counts. */
  lemma ClosingPairs(lines: seq<string>, l: nat, pos: nat) returns (q: nat)
    requires l < |lines| && pos < |lines[l]| && Closing(lines, l, pos).At?
    ensures pos <= q < |lines[l]| && Counts(lines[l], q) && forall k :: pos <= k < q ==> !Counts(lines[l], k)
    ensures Closing(lines, l, pos) == CloseFrom(lines, l, q, [])
    ensures var At(l', p') := Closing(lines, l, pos);
            l <= l' < |lines| && 0 < p' <= |lines[l']| && Ends(lines[l][q], lines[l'][p' - 1])
  {
    q := ScanFromNothing(lines[l], pos);
    var At(l', p') := CloseFrom(lines, l, q, []);
    CloseFromStaysAfter(lines, l, q, []);
    ClosingIsBalanced(lines, l, q, l', p');
    ForwardTextEnds(lines, l, q, l', p');
    GroupHasEnds(ForwardText(lines, l, q, l', p'));
    TokensEnd(lines[l], q, lines[l'], p' - 1);
  }

  /** The second half of a shift is answered with the end of the parenthesis after it. */
  lemma ShiftIsAnsweredLater()
    ensures !Counts("<<(a)", 1) && Closing(["<<(a)"], 0, 1) == At(0, 5) && !Ends('<', "<<(a)"[4])
  {
    var line := "<<(a)";
    assert ForwardTokens(line)[1..] == [Shift, Open(Round), Skip, Close(Round)];
    ShiftAndGroup();
    assert ScanForward(line, 1, []) == Ended(5);
    assert [line][0] == line;
  }

  lemma OperatorEnd(s: string)
    requires s != [] && EndsWithOperator(s)
    ensures IsSpace(s[|s| - 1]) || s[|s| - 1] == 'r'
  {
  }

  /** What the backward scan skips besides the operator is no bracket that counts. */
  lemma SkippedDoesNotCount(line: string, i: nat)
    requires i < |line| && SkipsOne(line, i)
    ensures !CountsBackward(line, i) && !CountsBackward(line, i - 1)
  {
    if line[i] == '>' && EndsWithOperator(line[..i]) {
      OperatorEnd(line[..i]);
      assert line[..i][i - 1] == line[i - 1];
    }
  }

  lemma {:induction false} ScanBackwardFromNothing(line: string, n: nat) returns (q: nat)
    requires n <= |line| && !ScanBackward(line, n, []).Dead? && ScanBackward(line, n, []) != Pending([])
    ensures q < n && CountsBackward(line, q) && forall k :: q < k < n ==> !CountsBackward(line, k)
    ensures ScanBackward(line, n, []) == ScanBackward(line, q + 1, [])
  {
    if CountsBackward(line, n - 1) {
      q := n - 1;
    } else {
      var m := NothingCounts(line, n);
      q := ScanBackwardFromNothing(line, m);
    }
  }

  lemma NothingCounts(line: string, n: nat) returns (m: nat)
    requires 0 < n <= |line| && !ScanBackward(line, n, []).Dead? && !CountsBackward(line, n - 1)
    ensures n - 2 <= m < n && (m < n - 1 ==> !CountsBackward(line, m))
    ensures ScanBackward(line, n, []) == ScanBackward(line, m, [])
  {
    if SkipsOne(line, n - 1) {
      BackwardSkips(line, n, []);
      SkippedDoesNotCount(line, n - 1);
      m := n - 2;
    } else {
      BackwardReads(line, n, []);
      m := n - 1;
    }
  }

  lemma {:induction false} BackwardTokenAt(line: string, n: nat, k: nat)
    requires k < n <= |line|
    ensures BackwardTokens(line, n)[k] == Skip || BackwardTokens(line, n)[k] == BackwardToken(line[k])
  {
    var m := if SkipsOne(line, n - 1) then n - 2 else n - 1;
    if k < m {
      BackwardTokenAt(line, m, k);
    }
  }

  lemma BackwardTokensEnd(c: char, d: char)
    requires BackwardToken(c).Open? && BackwardToken(d) == Close(BackwardToken(c).b)
    ensures Ends(c, d)
  {
  }

  /** For every file, angle brackets included, and every closing bracket that is answered with
      a place: the place opens the last bracket up to there that counts, so the bracket asked
      about exactly when that one counts. */
  lemma OpeningPairs(lines: seq<string>, l: nat, pos: nat) returns (q: nat)
    requires l < |lines| && pos < |lines[l]| && Opening(lines, l, pos).At?
    ensures q <= pos && CountsBackward(lines[l], q) && forall k :: q < k <= pos ==> !CountsBackward(lines[l], k)
    ensures Opening(lines, l, pos) == OpenFrom(lines, l, q + 1, [])
    ensures var At(l', p') := Opening(lines, l, pos);
            l' <= l && p' < |lines[l']| && Ends(lines[l'][p'], lines[l][q])
  {
    q := ScanBackwardFromNothing(lines[l], pos + 1);
    var At(l', p') := OpenFrom(lines, l, q + 1, []);
    OpenFromStaysBefore(lines, l, q + 1, []);
    OpeningIsBalanced(lines, l', p', l, q + 1);
    GroupPairs(lines, l', p', l, q);
  }

  lemma GroupPairs(lines: seq<string>, l: nat, p: nat, l': nat, q: nat)
    requires l <= l' < |lines| && p < |lines[l]| && q < |lines[l']| && (l == l' ==> p < q + 1)
    requires Balanced(BackwardText(lines, l, p, l', q + 1))
    ensures Ends(lines[l][p], lines[l'][q])
  {
    var n := if l == l' then q + 1 else |lines[l]|;
    BackwardTextEnds(lines, l, p, l', q + 1);
    GroupHasEnds(BackwardText(lines, l, p, l', q + 1));
    BackwardTokenAt(lines[l'], q + 1, q);
    BackwardTokenAt(lines[l], n, p);
    BackwardTokensEnd(lines[l][p], lines[l'][q]);
  }

  /** The head of an arrow is answered with the parenthesis before it. */
  lemma ArrowIsAnsweredEarlier()
    ensures !CountsBackward("(a)->", 4) && Opening(["(a)->"], 0, 4) == At(0, 0) && !Ends("(a)->"[0], '>')
  {
    ArrowTokens();
    GroupAndSkips();
    assert ScanBackward("(a)->", 5, []) == Ended(0);
    assert ["(a)->"][0] == "(a)->";
  }

  lemma ArrowTokens()
    ensures BackwardTokens("(a)->", 5) == [Open(Round), Skip, Close(Round), Skip, Skip]
  {
    var line := "(a)->";
    assert BackwardTokens(line, 1) == [Open(Round)];
    assert BackwardTokens(line, 2) == [Open(Round), Skip];
    assert BackwardTokens(line, 3) == [Open(Round), Skip, Close(Round)];
  }

  // ---------------------------------------------------------------- the matchers are inverse

  /** Both scans make the same of the line: every `<` counts, and every `>` in both directions
      or in neither, like that of an arrow. */
  ghost predicate ReadAlike(line: string)
  {
    forall i :: 0 <= i < |line| ==>
      && (line[i] == '<' ==> Counts(line, i))
      && (line[i] == '>' ==> (ClosesForward(line, i) <==> CountsBackward(line, i)))
  }

  ghost predicate AllReadAlike(lines: seq<string>, l: nat, l': nat)
    requires l' < |lines|
  {
    forall k :: l <= k <= l' ==> ReadAlike(lines[k])
  }

  lemma TokenAgrees(line: string, i: nat)
    requires i < |line| && ReadAlike(line)
    ensures Counts(line, i) <==> ForwardToken(line, i).Open?
    ensures CountsBackward(line, i) <==> ForwardToken(line, i).Close?
    ensures !SkipsOne(line, i) ==> BackwardToken(line[i]) == ForwardToken(line, i)
    ensures SkipsOne(line, i) ==> line[i] == '>' && ForwardToken(line, i) == Skip
  {
    assert line[i] == '<' ==> Counts(line, i);
    assert line[i] == '>' ==> (ClosesForward(line, i) <==> CountsBackward(line, i));
  }

  /** The character before the `>` of an operator is no bracket. */
  lemma BeforeOperator(line: string, i: nat)
    requires i < |line| && line[i] == '>' && SkipsOne(line, i)
    ensures ForwardToken(line, i - 1) == Skip
  {
    if EndsWithOperator(line[..i]) {
      OperatorEnd(line[..i]);
    }
    assert line[..i][i - 1] == line[i - 1];
  }

  lemma {:induction false} TokensAgree(line: string, n: nat)
    requires n <= |line| && ReadAlike(line)
    ensures BackwardTokens(line, n) == ForwardTokens(line)[..n]
  {
    if n > 0 {
      var toks := ForwardTokens(line);
      TokenAgrees(line, n - 1);
      if SkipsOne(line, n - 1) {
        BeforeOperator(line, n - 1);
        TokensAgree(line, n - 2);
        assert toks[..n] == toks[..n - 2] + [toks[n - 2], toks[n - 1]];
      } else {
        TokensAgree(line, n - 1);
        assert toks[..n] == toks[..n - 1] + [toks[n - 1]];
      }
    }
  }

  lemma {:induction false} ForwardTextLast(lines: seq<string>, l: nat, p: nat, l': nat, p': nat)
    requires l < l' < |lines| && p <= |lines[l]| && p' <= |lines[l']|
    ensures ForwardText(lines, l, p, l', p') ==
            ForwardText(lines, l, p, l' - 1, |lines[l' - 1]|) + ForwardTokens(lines[l'])[..p']
    decreases l' - l
  {
    var first := ForwardTokens(lines[l])[p..];
    if l + 1 < l' {
      ForwardTextLast(lines, l + 1, 0, l', p');
      var middle := ForwardText(lines, l + 1, 0, l' - 1, |lines[l' - 1]|);
      assert first + (middle + ForwardTokens(lines[l'])[..p']) == (first + middle) + ForwardTokens(lines[l'])[..p'];
    } else {
      assert ForwardTokens(lines[l])[p..|lines[l]|] == first;
    }
  }

  lemma {:induction false} TextsAgree(lines: seq<string>, l: nat, p: nat, l': nat, p': nat)
    requires l <= l' < |lines| && p <= |lines[l]| && p' <= |lines[l']| && (l == l' ==> p <= p')
    requires AllReadAlike(lines, l, l')
    ensures ForwardText(lines, l, p, l', p') == BackwardText(lines, l, p, l', p')
    decreases l' - l
  {
    TokensAgree(lines[l'], p');
    if l < l' {
      ForwardTextLast(lines, l, p, l', p');
      TextsAgree(lines, l, p, l' - 1, |lines[l' - 1]|);
    } else {
      assert ForwardTokens(lines[l])[..p'][p..] == ForwardTokens(lines[l])[p..p'];
    }
  }

  /** Where the scans read alike, and so on all lines without angles: the bracket at (l, p) is
      closed just before (l', p') if and only if it may be asked about, the one at (l', p' - 1)
      counts, and that one is opened at (l, p). */
  lemma MatchersAreInverse(lines: seq<string>, l: nat, p: nat, l': nat, p': nat)
    requires l <= l' < |lines| && p < |lines[l]| && 0 < p' <= |lines[l']| && (l == l' ==> p < p')
    requires AllReadAlike(lines, l, l')
    ensures Closing(lines, l, p) == At(l', p') <==>
            CanClose(lines[l], p) && CountsBackward(lines[l'], p' - 1) && Opening(lines, l', p' - 1) == At(l, p)
  {
    assert ReadAlike(lines[l]) && ReadAlike(lines[l']);
    TextsAgree(lines, l, p, l', p');
    ForwardTextEnds(lines, l, p, l', p');
    GroupHasEnds(ForwardText(lines, l, p, l', p'));
    TokenAgrees(lines[l], p);
    TokenAgrees(lines[l'], p' - 1);
    if Counts(lines[l], p) {
      ClosingIsBalanced(lines, l, p, l', p');
    }
    if CountsBackward(lines[l'], p' - 1) {
      OpeningIsBalanced(lines, l, p, l', p');
    }
  }

  /** A `>` that only the backward scan takes for a comparison: closed, but not opened. */
  lemma ComparisonIsReadApart()
    ensures Closing(["< >= "], 0, 0) == At(0, 3) && Opening(["< >= "], 0, 2) == NoPlace && !ReadAlike("< >= ")
  {
    ComparisonIsClosed();
    ComparisonIsNotOpened();
    assert ["< >= "][0] == "< >= ";
    assert !CountsBackward("< >= ", 2) && ClosesForward("< >= ", 2);
  }

  lemma ComparisonIsClosed()
    ensures ScanForward("< >= ", 0, []) == Ended(3)
  {
    AngleGroup();
    assert ForwardTokens("< >= ")[0..] == [Open(Angle), Skip, Close(Angle), Skip, Skip];
  }

  lemma ComparisonIsNotOpened()
    ensures ScanBackward("< >= ", 3, []) == Pending([])
  {
    LoneAngle();
    var line := "< >= ";
    assert BackwardTokens(line, 1) == [Open(Angle)];
    assert SkipsOne(line, 2);
    assert BackwardTokens(line, 3) == [Open(Angle), Skip, Skip];
  }

  // ---------------------------------------------------------------- text inside a pair of brackets

  datatype Text = Inside(text: string) | NoText

  /** Angle brackets and semicolons are plain characters. */
  function PlainToken(c: char): Token
  {
    if IsOpen(c) then Open(Kind(c)) else if IsClose(c) then Close(Kind(c)) else Skip
  }

  function PlainTokens(text: string): seq<Token>
  {
    seq(|text|, i requires 0 <= i < |text| => PlainToken(text[i]))
  }

  function ScanPlain(text: string, i: nat, stack: seq<Bracket>): Outcome
    requires i <= |text|
  {
    Later(Scans(PlainTokens(text)[i..], stack), i)
  }

  lemma PlainReads(text: string, i: nat, stack: seq<Bracket>)
    requires i < |text|
    ensures ScanPlain(text, i, stack) == match Read(PlainToken(text[i]), stack)
      case Push(rest) => ScanPlain(text, i + 1, rest)
      case Done => Ended(i + 1)
      case Stuck => Dead
  {
    var toks := PlainTokens(text);
    assert toks[i..] == [toks[i]] + toks[i + 1..];
    ScansCons(toks[i], toks[i + 1..], stack);
  }

  /** text[start..e], with the brackets around it, is one group. */
  ghost predicate Surrounded(text: string, start: nat, e: nat)
    requires 0 < start <= e < |text|
  {
    Balanced(PlainTokens(text)[start - 1..e + 1])
  }

  function CloseChar(b: Bracket): char
  {
    match b case Round => ')' case Square => ']' case Curly => '}' case Angle => '>'
  }

  /** `_GetTextInside` from the point where its pattern has matched: the character before
      `start` is the opening bracket. It returns what lies inside the group that bracket
      starts, if it starts one. The stack holds the kinds of the brackets expected. */
  method GetTextInside(text: string, start: nat) returns (r: Text)
    requires 0 < start <= |text| && IsOpen(text[start - 1])
    ensures forall e :: start <= e < |text| ==> (Surrounded(text, start, e) <==> r.Inside? && |r.text| == e - start)
    ensures r.Inside? ==> start + |r.text| < |text| && r.text == text[start..start + |r.text|]
  {
    var stack := [Kind(text[start - 1])];
    var position := start;
    PlainReads(text, start - 1, []);
    assert [] + stack == stack;
    while stack != [] && position < |text|
      invariant start <= position <= |text| && Angle !in stack && (stack == [] ==> position > start)
      invariant ScanPlain(text, start - 1, []) == if stack == [] then Ended(position) else ScanPlain(text, position, stack)
      decreases |text| - position
    {
      PlainReads(text, position, stack);
      PlainStack(text[position], stack);
      if text[position] == CloseChar(stack[|stack| - 1]) {
        stack := stack[..|stack| - 1];
      } else if IsClose(text[position]) {
        InsideIsGroup(text, start);
        return NoText;
      } else if IsOpen(text[position]) {
        stack := stack + [Kind(text[position])];
      }
      position := position + 1;
    }
    InsideIsGroup(text, start);
    if stack != [] {
      return NoText;
    }
    return Inside(text[start..position - 1]);
  }

  lemma PlainStack(c: char, stack: seq<Bracket>)
    requires stack != [] && Angle !in stack
    ensures Read(PlainToken(c), stack) ==
            if c == CloseChar(stack[|stack| - 1]) then Popped(stack)
            else if IsClose(c) then Stuck
            else if IsOpen(c) then Push(stack + [Kind(c)])
            else Push(stack)
  {
    assert stack[|stack| - 1] != Angle && DropAngle(stack) == stack;
  }

  lemma InsideIsGroup(text: string, start: nat)
    requires 0 < start <= |text| && IsOpen(text[start - 1])
    ensures forall e :: start <= e < |text| ==> (Surrounded(text, start, e) <==> ScanPlain(text, start - 1, []) == Ended(e + 1))
  {
    var whole := PlainTokens(text)[start - 1..];
    forall e | start <= e < |text|
      ensures Surrounded(text, start, e) <==> ScanPlain(text, start - 1, []) == Ended(e + 1)
    {
      var n := e + 2 - start;
      assert whole[..n] == PlainTokens(text)[start - 1..e + 1];
      ScansPrefix(whole, n, []);
      ScansExactlyGroups(whole[..n]);
    }
  }
}
