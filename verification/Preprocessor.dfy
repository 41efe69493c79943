/** The linter's nesting tracker across conditional compilation. `Update` first lets
    `UpdatePreprocessor` look at the line and then applies the line's own effect to the
    nesting stack; that effect is any function here, directive lines included. The
    stacks are saved and restored by copying, so they are values. */
module Preprocessor {

  datatype Directive = If | Else | Endif | NoDirective

  /** A source line: which directive it is (`#elif` counts as `Else`), and what the rest
      of `Update` does to the nesting stack on account of it. */
  datatype Line<!Block> = Line(directive: Directive, effect: seq<Block> -> seq<Block>)

  /** `_PreprocessorInfo`. */
  datatype Info<Block> = Info(stackBeforeIf: seq<Block>, stackBeforeElse: seq<Block>, seenElse: bool)

  /** The fields of `NestingState` that this code touches. */
  datatype Nesting<Block> = Nesting(stack: seq<Block>, ppStack: seq<Info<Block>>)

  function Top<T>(s: seq<T>): T
    requires s != []
  {
    s[|s| - 1]
  }

  /** The new nesting state after `UpdatePreprocessor` has seen a directive. */
  function AfterDirective<Block>(n: Nesting<Block>, d: Directive): Nesting<Block>
  {
    match d
    case If => n.(ppStack := n.ppStack + [Info(n.stack, [], false)])
    case Else =>
      if n.ppStack == [] then n
      else
        var top := Top(n.ppStack);
        var top' := if top.seenElse then top else Info(top.stackBeforeIf, n.stack, true);
        Nesting(top.stackBeforeIf, n.ppStack[|n.ppStack| - 1 := top'])
    case Endif =>
      if n.ppStack == [] then n
      else
        var top := Top(n.ppStack);
        Nesting(if top.seenElse then top.stackBeforeElse else n.stack, n.ppStack[..|n.ppStack| - 1])
    case NoDirective => n
  }

  function AfterLine<Block>(n: Nesting<Block>, line: Line<Block>): Nesting<Block>
  {
    var n' := AfterDirective(n, line.directive);
    n'.(stack := line.effect(n'.stack))
  }

  function AfterLines<Block>(n: Nesting<Block>, lines: seq<Line<Block>>): Nesting<Block>
    decreases |lines|
  {
    if lines == [] then n else AfterLines(AfterLine(n, lines[0]), lines[1..])
  }

  class NestingState<Block> {
    var stack: seq<Block>
    var ppStack: seq<Info<Block>>

    constructor ()
      ensures stack == [] && ppStack == []
    {
      stack, ppStack := [], [];
    }

    function State(): Nesting<Block>
      reads this
    {
      Nesting(stack, ppStack)
    }

    method UpdatePreprocessor(d: Directive)
      modifies this
      ensures State() == AfterDirective(old(State()), d)
    {
      if d == If {
        ppStack := ppStack + [Info(stack, [], false)];
      } else if d == Else {
        if ppStack != [] {
          var last := |ppStack| - 1;
          if !ppStack[last].seenElse {
            ppStack := ppStack[last := ppStack[last].(seenElse := true, stackBeforeElse := stack)];
          }
          stack := ppStack[last].stackBeforeIf;
        }
      } else if d == Endif {
        if ppStack != [] {
          var last := |ppStack| - 1;
          if ppStack[last].seenElse {
            stack := ppStack[last].stackBeforeElse;
          }
          ppStack := ppStack[..last];
        }
      }
    }

    method Update(line: Line<Block>)
      modifies this
      ensures State() == AfterLine(old(State()), line)
    {
      UpdatePreprocessor(line.directive);
      stack := line.effect(stack);
    }

    method UpdateAll(lines: seq<Line<Block>>)
      modifies this
      ensures State() == AfterLines(old(State()), lines)
    {
      for i := 0 to |lines|
        invariant AfterLines(old(State()), lines) == AfterLines(State(), lines[i..])
      {
        assert lines[i..] == [lines[i]] + lines[i + 1..];
        Update(lines[i]);
      }
    }
  }

  // ---------------------------------------------------------------- well-nested files

  /** A file as a tree: ordinary lines and conditionals, each conditional with its
      first branch and any number of `#else` / `#elif` branches. */
  datatype Item<!Block> =
    | Ordinary(effect: seq<Block> -> seq<Block>)
    | Conditional(ifEffect: seq<Block> -> seq<Block>, first: seq<Item<Block>>,
                  others: seq<Branch<Block>>, endifEffect: seq<Block> -> seq<Block>)

  datatype Branch<!Block> = Branch(elseEffect: seq<Block> -> seq<Block>, body: seq<Item<Block>>)

  /** The lines of the file, in order. */
  function Lines<Block>(items: seq<Item<Block>>): seq<Line<Block>>
  {
    if items == [] then [] else LinesOf(items[0]) + Lines(items[1..])
  }

  function LinesOf<Block>(item: Item<Block>): seq<Line<Block>>
  {
    match item
    case Ordinary(effect) => [Line(NoDirective, effect)]
    case Conditional(ifEffect, first, others, endifEffect) =>
      [Line(If, ifEffect)] + Lines(first) + BranchLines(others) + [Line(Endif, endifEffect)]
  }

  function BranchLines<Block>(branches: seq<Branch<Block>>): seq<Line<Block>>
  {
    if branches == [] then []
    else [Line(Else, branches[0].elseEffect)] + Lines(branches[0].body) + BranchLines(branches[1..])
  }

  /** What the lines do to the nesting stack when every branch but the first of each
      conditional is deleted, at every depth. */
  function FirstBranchesOnly<Block>(items: seq<Item<Block>>, stack: seq<Block>): seq<Block>
  {
    if items == [] then stack else FirstBranchesOnly(items[1..], FirstBranchOf(items[0], stack))
  }

  function FirstBranchOf<Block>(item: Item<Block>, stack: seq<Block>): seq<Block>
  {
    match item
    case Ordinary(effect) => effect(stack)
    case Conditional(ifEffect, first, _, endifEffect) => endifEffect(FirstBranchesOnly(first, ifEffect(stack)))
  }

  lemma {:induction false} AfterConcat<Block>(n: Nesting<Block>, a: seq<Line<Block>>, b: seq<Line<Block>>)
    ensures AfterLines(n, a + b) == AfterLines(AfterLines(n, a), b)
    decreases |a|
  {
    if a == [] {
      assert a + b == b;
    } else {
      assert (a + b)[1..] == a[1..] + b;
      AfterConcat(AfterLine(n, a[0]), a[1..], b);
    }
  }

  /** For every well-nested file and whatever its lines do to the stack: only first
      branches count, and the preprocessor stack is as it was. */
  lemma {:induction false} OnlyFirstBranchesCount<Block>(items: seq<Item<Block>>, n: Nesting<Block>)
    ensures AfterLines(n, Lines(items)) == Nesting(FirstBranchesOnly(items, n.stack), n.ppStack)
    decreases items
  {
    if items != [] {
      AfterConcat(n, LinesOf(items[0]), Lines(items[1..]));
      ItemCounts(items[0], n);
      OnlyFirstBranchesCount(items[1..], AfterLines(n, LinesOf(items[0])));
    }
  }

  lemma {:induction false} ItemCounts<Block>(item: Item<Block>, n: Nesting<Block>)
    ensures AfterLines(n, LinesOf(item)) == Nesting(FirstBranchOf(item, n.stack), n.ppStack)
    decreases item
  {
    match item
    case Ordinary(effect) =>
    case Conditional(ifEffect, first, others, endifEffect) =>
      var entered := Nesting(ifEffect(n.stack), n.ppStack + [Info(n.stack, [], false)]);
      var firstDone := Nesting(FirstBranchesOnly(first, entered.stack), entered.ppStack);
      AfterConcat(n, [Line(If, ifEffect)], Lines(first));
      OnlyFirstBranchesCount(first, entered);
      AfterConcat(n, [Line(If, ifEffect)] + Lines(first), BranchLines(others));
      BranchesRestore(others, firstDone);
      AfterConcat(n, [Line(If, ifEffect)] + Lines(first) + BranchLines(others), [Line(Endif, endifEffect)]);
  }

  /** What `#endif` will restore: the stack the first branch left. */
  function Kept<Block>(n: Nesting<Block>): seq<Block>
    requires n.ppStack != []
  {
    if Top(n.ppStack).seenElse then Top(n.ppStack).stackBeforeElse else n.stack
  }

  lemma {:induction false} BranchesRestore<Block>(branches: seq<Branch<Block>>, n: Nesting<Block>)
    requires n.ppStack != []
    ensures var n' := AfterLines(n, BranchLines(branches));
            && |n'.ppStack| == |n.ppStack|
            && n'.ppStack[..|n'.ppStack| - 1] == n.ppStack[..|n.ppStack| - 1]
            && Kept(n') == Kept(n)
            && Top(n'.ppStack).stackBeforeIf == Top(n.ppStack).stackBeforeIf
    decreases branches
  {
    if branches != [] {
      var b := branches[0];
      var n1 := AfterLine(n, Line(Else, b.elseEffect));
      AfterConcat(n, [Line(Else, b.elseEffect)], Lines(b.body));
      OnlyFirstBranchesCount(b.body, n1);
      AfterConcat(n, [Line(Else, b.elseEffect)] + Lines(b.body), BranchLines(branches[1..]));
      BranchesRestore(branches[1..], Nesting(FirstBranchesOnly(b.body, n1.stack), n1.ppStack));
    }
  }

  /** Every later branch of a conditional, at every depth, starts from the stack before the
      `#if`, whatever the branches before it have done. */
  lemma EachBranchStartsFromIf<Block>(ifEffect: seq<Block> -> seq<Block>, first: seq<Item<Block>>, others: seq<Branch<Block>>,
                                      branch: Branch<Block>, n: Nesting<Block>)
    ensures var lines := [Line(If, ifEffect)] + Lines(first) + BranchLines(others) + [Line(Else, branch.elseEffect)];
            && AfterLines(n, lines).stack == branch.elseEffect(n.stack)
            && AfterLines(n, lines + Lines(branch.body)).stack == FirstBranchesOnly(branch.body, branch.elseEffect(n.stack))
  {
    var before := [Line(If, ifEffect)] + Lines(first);
    var entered := AfterLine(n, Line(If, ifEffect));
    AfterConcat(n, [Line(If, ifEffect)], Lines(first));
    OnlyFirstBranchesCount(first, entered);
    AfterConcat(n, before, BranchLines(others));
    BranchesRestore(others, AfterLines(n, before));
    AfterConcat(n, before + BranchLines(others), [Line(Else, branch.elseEffect)]);
    var lines := before + BranchLines(others) + [Line(Else, branch.elseEffect)];
    AfterConcat(n, lines, Lines(branch.body));
    OnlyFirstBranchesCount(branch.body, AfterLines(n, lines));
  }

  // ---------------------------------------------------------------- which files are well-nested

  /** Directives match up, with `d` conditionals open before the first line. */
  predicate Nested<Block>(lines: seq<Line<Block>>, d: nat)
  {
    if lines == [] then d == 0
    else match lines[0].directive
      case If => Nested(lines[1..], d + 1)
      case Else => d > 0 && Nested(lines[1..], d)
      case Endif => d > 0 && Nested(lines[1..], d - 1)
      case NoDirective => Nested(lines[1..], d)
  }

  predicate EndsBranch<Block>(lines: seq<Line<Block>>)
  {
    lines != [] && (lines[0].directive == Else || lines[0].directive == Endif)
  }

  lemma {:induction false} ParseItems<Block>(lines: seq<Line<Block>>, d: nat)
    returns (items: seq<Item<Block>>, rest: seq<Line<Block>>)
    requires Nested(lines, d)
    ensures lines == Lines(items) + rest && Nested(rest, d)
    ensures if d == 0 then rest == [] else EndsBranch(rest)
    decreases |lines|, 1
  {
    if lines == [] || EndsBranch(lines) {
      items, rest := [], lines;
    } else {
      var item, after := ParseItem(lines, d);
      var more;
      more, rest := ParseItems(after, d);
      items := [item] + more;
      assert items[1..] == more;
      assert lines == LinesOf(item) + (Lines(more) + rest);
    }
  }

  lemma {:induction false} ParseItem<Block>(lines: seq<Line<Block>>, d: nat)
    returns (item: Item<Block>, rest: seq<Line<Block>>)
    requires Nested(lines, d) && lines != [] && !EndsBranch(lines)
    ensures lines == LinesOf(item) + rest && Nested(rest, d) && |rest| < |lines|
    decreases |lines|, 0
  {
    if lines[0].directive == NoDirective {
      item, rest := Ordinary(lines[0].effect), lines[1..];
      assert lines == [lines[0]] + rest;
    } else {
      var first, afterFirst := ParseItems(lines[1..], d + 1);
      var others, afterOthers := ParseBranches(afterFirst, d + 1);
      item := Conditional(lines[0].effect, first, others, afterOthers[0].effect);
      rest := afterOthers[1..];
      assert afterOthers == [afterOthers[0]] + rest;
      assert lines == [lines[0]] + lines[1..];
    }
  }

  lemma {:induction false} ParseBranches<Block>(lines: seq<Line<Block>>, d: nat)
    returns (branches: seq<Branch<Block>>, rest: seq<Line<Block>>)
    requires Nested(lines, d) && d > 0 && EndsBranch(lines)
    ensures lines == BranchLines(branches) + rest && Nested(rest, d)
    ensures rest != [] && rest[0].directive == Endif
    decreases |lines|, 2
  {
    if lines[0].directive == Endif {
      branches, rest := [], lines;
    } else {
      var body, afterBody := ParseItems(lines[1..], d);
      var more;
      more, rest := ParseBranches(afterBody, d);
      branches := [Branch(lines[0].effect, body)] + more;
      assert branches[1..] == more;
      assert lines == [lines[0]] + lines[1..];
    }
  }

  /** Every list of lines whose directives match up is a well-nested file, so the
      tracker leaves its preprocessor stack as it was and its nesting stack as the
      first branches alone would. */
  lemma MatchedDirectivesRestore<Block>(lines: seq<Line<Block>>, n: Nesting<Block>)
    returns (items: seq<Item<Block>>)
    requires Nested(lines, 0)
    ensures lines == Lines(items)
    ensures AfterLines(n, lines) == Nesting(FirstBranchesOnly(items, n.stack), n.ppStack)
  {
    var rest;
    items, rest := ParseItems(lines, 0);
    assert Lines(items) + [] == Lines(items);
    OnlyFirstBranchesCount(items, n);
  }

  // ---------------------------------------------------------------- every other file

  /** The file with its stray `#else` and `#endif` lines as ordinary ones, when `d` conditionals
      are open before it. */
  function Cleaned<Block>(lines: seq<Line<Block>>, d: nat): (r: seq<Line<Block>>)
    ensures |r| == |lines| && forall i :: 0 <= i < |lines| ==> r[i].effect == lines[i].effect
  {
    if lines == [] then []
    else match lines[0].directive
      case If => [lines[0]] + Cleaned(lines[1..], d + 1)
      case Else => [if d > 0 then lines[0] else Line(NoDirective, lines[0].effect)] + Cleaned(lines[1..], d)
      case Endif =>
        if d > 0 then [lines[0]] + Cleaned(lines[1..], d - 1)
        else [Line(NoDirective, lines[0].effect)] + Cleaned(lines[1..], d)
      case NoDirective => [lines[0]] + Cleaned(lines[1..], d)
  }

  /** Where each line of the file stands: how many conditionals are open after `lines`. */
  function Open<Block>(lines: seq<Line<Block>>, d: nat): nat
  {
    if lines == [] then d
    else match lines[0].directive
      case If => Open(lines[1..], d + 1)
      case Endif => Open(lines[1..], if d > 0 then d - 1 else 0)
      case _ => Open(lines[1..], d)
  }

  /** For every file: a stray `#else` or `#endif` is an ordinary line, and the preprocessor
      stack is as deep as the conditionals that are open. */
  lemma {:induction false} StrayDirectivesAreOrdinary<Block>(lines: seq<Line<Block>>, n: Nesting<Block>)
    ensures AfterLines(n, lines) == AfterLines(n, Cleaned(lines, |n.ppStack|))
    ensures |AfterLines(n, lines).ppStack| == Open(lines, |n.ppStack|)
    decreases |lines|
  {
    if lines != [] {
      var d, cleaned := |n.ppStack|, Cleaned(lines, |n.ppStack|);
      var n' := AfterLine(n, lines[0]);
      assert AfterLine(n, cleaned[0]) == n' && cleaned[1..] == Cleaned(lines[1..], |n'.ppStack|);
      StrayDirectivesAreOrdinary(lines[1..], n');
    }
  }

  /** Cleaned, a file that leaves no conditional open is well-nested. */
  lemma {:induction false} CleanedIsNested<Block>(lines: seq<Line<Block>>, d: nat)
    ensures Nested(Cleaned(lines, d), d) <==> Open(lines, d) == 0
    decreases |lines|
  {
    if lines != [] {
      var d' := match lines[0].directive
        case If => d + 1
        case Endif => if d > 0 then d - 1 else 0
        case _ => d;
      CleanedIsNested(lines[1..], d');
      assert Cleaned(lines, d)[1..] == Cleaned(lines[1..], d');
    }
  }

  /** For every file that leaves no conditional open, from a tracker with none open: the
      nesting stack is that of the first branches alone. */
  lemma ClosedFileRestores<Block>(lines: seq<Line<Block>>, n: Nesting<Block>) returns (items: seq<Item<Block>>)
    requires n.ppStack == [] && Open(lines, 0) == 0
    ensures Lines(items) == Cleaned(lines, 0)
    ensures AfterLines(n, lines) == Nesting(FirstBranchesOnly(items, n.stack), [])
  {
    StrayDirectivesAreOrdinary(lines, n);
    CleanedIsNested(lines, 0);
    items := MatchedDirectivesRestore(Cleaned(lines, 0), n);
  }
}
