/** Text as the bracket matchers see it: tokens, the scan of a text with its stack of open
    brackets, and the grammar of balanced text. A text that starts with an opening bracket is
    scanned exactly to its end just when it is one group of that grammar. */
module BracketText {
  import opened Common

  // ------------------------------------------- tokens

  /** What can be open: the three kinds of bracket, and the angle. */
  datatype Bracket = Round | Square | Curly | Angle

  /** What a scan makes of a character. `Shift` is a `<` after a `<`; `Skip` has no effect. */
  datatype Token = Open(b: Bracket) | Close(b: Bracket) | Shift | Semicolon | Skip

  function MirrorToken(tok: Token): Token
  {
    match tok case Open(b) => Close(b) case Close(b) => Open(b) case _ => tok
  }

  // ------------------------------------------- one token

  datatype Move = Push(stack: seq<Bracket>) | Done | Stuck

  function Front<T>(s: seq<T>): seq<T>
    requires s != []
  {
    s[..|s| - 1]
  }

  predicate Tops(stack: seq<Bracket>, b: Bracket)
  {
    stack != [] && stack[|stack| - 1] == b
  }

  function DropAngle(stack: seq<Bracket>): (r: seq<Bracket>)
    ensures !Tops(r, Angle) && r <= stack
  {
    if Tops(stack, Angle) then DropAngle(Front(stack)) else stack
  }

  function Popped(stack: seq<Bracket>): Move
    requires stack != []
  {
    if |stack| == 1 then Done else Push(Front(stack))
  }

  function Kept(stack: seq<Bracket>): Move
  {
    if stack == [] then Stuck else Push(stack)
  }

  /** A scan reads a token. */
  function Read(tok: Token, stack: seq<Bracket>): Move
  {
    match tok
    case Open(b) => Push(stack + [b])
    case Close(b) =>
      if b == Angle then (if Tops(stack, Angle) then Popped(stack) else Push(stack))
      else
        var rest := DropAngle(stack);
        if Tops(rest, b) then Popped(rest) else Stuck
    case Shift => if Tops(stack, Angle) then Kept(Front(stack)) else Push(stack)
    case Semicolon => Kept(DropAngle(stack))
    case Skip => Push(stack)
  }

  // ------------------------------------------- a text of tokens

  datatype Outcome = Ended(n: nat) | Dead | Pending(stack: seq<Bracket>)

  /** The scan of a whole text, by its last token. */
  function Scans(toks: seq<Token>, stack: seq<Bracket>): Outcome
  {
    if toks == [] then Pending(stack)
    else match Scans(Front(toks), stack)
      case Pending(rest) => AfterReading(|toks|, Read(toks[|toks| - 1], rest))
      case r => r
  }

  function AfterReading(n: nat, move: Move): Outcome
  {
    match move case Push(stack) => Pending(stack) case Done => Ended(n) case Stuck => Dead
  }

  function Later(r: Outcome, n: nat): Outcome
  {
    if r.Ended? then Ended(n + r.n) else r
  }

  lemma {:induction false} ScansConcat(a: seq<Token>, b: seq<Token>, stack: seq<Bracket>)
    ensures Scans(a + b, stack) == match Scans(a, stack)
      case Pending(rest) => Later(Scans(b, rest), |a|)
      case r => r
    decreases |b|
  {
    if b == [] {
      assert a + b == a;
    } else {
      assert Front(a + b) == a + Front(b);
      ScansConcat(a, Front(b), stack);
    }
  }

  lemma ScansOne(tok: Token, stack: seq<Bracket>)
    ensures Scans([tok], stack) == AfterReading(1, Read(tok, stack))
  {
    assert Front([tok]) == [];
  }

  lemma ScansCons(tok: Token, rest: seq<Token>, stack: seq<Bracket>)
    ensures Scans([tok] + rest, stack) == match Read(tok, stack)
      case Push(open) => Later(Scans(rest, open), 1)
      case Done => Ended(1)
      case Stuck => Dead
  {
    ScansConcat([tok], rest, stack);
    ScansOne(tok, stack);
  }

  lemma {:induction false} EndedWithin(toks: seq<Token>, stack: seq<Bracket>)
    ensures Scans(toks, stack).Ended? ==> 0 < Scans(toks, stack).n <= |toks|
  {
    if toks != [] {
      EndedWithin(Front(toks), stack);
    }
  }

  /** A scan that has found its end does not depend on what follows. */
  lemma ScansPrefix(toks: seq<Token>, n: nat, stack: seq<Bracket>)
    requires n <= |toks|
    ensures Scans(toks, stack) == Ended(n) <==> Scans(toks[..n], stack) == Ended(n)
  {
    assert toks == toks[..n] + toks[n..];
    ScansConcat(toks[..n], toks[n..], stack);
    EndedWithin(toks[n..], match Scans(toks[..n], stack) case Pending(rest) => rest case _ => []);
    EndedWithin(toks[..n], stack);
  }

  lemma {:induction false} ScansStaysOpen(toks: seq<Token>, stack: seq<Bracket>)
    requires stack != [] || (toks != [] && toks[0].Open?)
    ensures Scans(toks, stack).Pending? ==> Scans(toks, stack).stack != []
    decreases |toks|
  {
    if toks != [] {
      if stack != [] || Front(toks) != [] {
        ScansStaysOpen(Front(toks), stack);
      }
    }
  }

  /** The scan ends with the last token. */
  predicate EndsExactly(toks: seq<Token>, stack: seq<Bracket>)
  {
    Scans(toks, stack) == Ended(|toks|)
  }

  /** The scan ends with the last token of `b`, or in `a` already. */
  lemma EndsInRest(a: seq<Token>, b: seq<Token>, stack: seq<Bracket>)
    requires b != []
    ensures EndsExactly(a + b, stack) <==> Scans(a, stack).Pending? && EndsExactly(b, Scans(a, stack).stack)
  {
    ScansConcat(a, b, stack);
    EndedWithin(a, stack);
  }

  // ------------------------------------------- the text read the other way

  /** The text read the other way, every bracket turned round. */
  function Mirrored(toks: seq<Token>): (r: seq<Token>)
    ensures |r| == |toks|
  {
    if toks == [] then [] else Mirrored(toks[1..]) + [MirrorToken(toks[0])]
  }

  lemma {:induction false} MirroredConcat(a: seq<Token>, b: seq<Token>)
    ensures Mirrored(a + b) == Mirrored(b) + Mirrored(a)
  {
    if a == [] {
      assert a + b == b && Mirrored(b) + [] == Mirrored(b);
    } else {
      assert (a + b)[1..] == a[1..] + b;
      MirroredConcat(a[1..], b);
    }
  }

  lemma MirroredOne(tok: Token)
    ensures Mirrored([tok]) == [MirrorToken(tok)]
  {
    assert [tok][1..] == [];
  }

  lemma MirroredFirst(toks: seq<Token>)
    requires toks != []
    ensures Mirrored(toks)[0] == MirrorToken(toks[|toks| - 1])
  {
    assert toks == Front(toks) + [toks[|toks| - 1]];
    MirroredConcat(Front(toks), [toks[|toks| - 1]]);
    MirroredOne(toks[|toks| - 1]);
  }

  lemma {:induction false} MirroredTwice(toks: seq<Token>)
    ensures Mirrored(Mirrored(toks)) == toks
    ensures NoShift(toks) ==> NoShift(Mirrored(toks))
  {
    if toks != [] {
      MirroredTwice(toks[1..]);
      MirroredConcat(Mirrored(toks[1..]), [MirrorToken(toks[0])]);
      MirroredOne(MirrorToken(toks[0]));
      assert toks == [toks[0]] + toks[1..];
    }
  }

  lemma SkipsChangeNothing(toks: seq<Token>, stack: seq<Bracket>)
    ensures Mirrored(toks + [Skip, Skip]) == [Skip, Skip] + Mirrored(toks)
    ensures Scans([Skip, Skip] + Mirrored(toks), stack) == Later(Scans(Mirrored(toks), stack), 2)
  {
    MirroredConcat(toks, [Skip, Skip]);
    MirroredConcat([Skip], [Skip]);
    MirroredOne(Skip);
    assert [Skip] + [Skip] == [Skip, Skip];
    ScansOne(Skip, stack);
    ScansConcat([Skip], [Skip], stack);
    ScansConcat([Skip, Skip], Mirrored(toks), stack);
  }

  /** Read from its end, a text starts with its last token. */
  lemma LastIsFirst(toks: seq<Token>, tok: Token, stack: seq<Bracket>)
    ensures Scans(Mirrored(toks + [tok]), stack) == match Read(MirrorToken(tok), stack)
      case Push(rest) => Later(Scans(Mirrored(toks), rest), 1)
      case Done => Ended(1)
      case Stuck => Dead
  {
    MirroredConcat(toks, [tok]);
    MirroredOne(tok);
    ScansConcat([MirrorToken(tok)], Mirrored(toks), stack);
    ScansOne(MirrorToken(tok), stack);
  }

  /** A text read from its end, up to a place in it. */
  lemma MirroredPrefix(toks: seq<Token>, p: nat, stack: seq<Bracket>)
    requires p <= |toks|
    ensures Scans(Mirrored(toks), stack) == Ended(|toks| - p) <==> EndsExactly(Mirrored(toks[p..]), stack)
  {
    assert toks == toks[..p] + toks[p..];
    MirroredConcat(toks[..p], toks[p..]);
    assert Mirrored(toks)[..|toks| - p] == Mirrored(toks[p..]);
    ScansPrefix(Mirrored(toks), |toks| - p, stack);
  }

  ghost predicate NoShift(toks: seq<Token>)
  {
    forall i :: 0 <= i < |toks| ==> !toks[i].Shift?
  }

  lemma ShiftAndGroup()
    ensures Scans([Shift, Open(Round), Skip, Close(Round)], []) == Ended(4)
  {
    var one, two, three := [Close(Round)], [Skip, Close(Round)], [Open(Round), Skip, Close(Round)];
    ScansOne(Close(Round), [Round]);
    ScansCons(Skip, one, [Round]);
    assert [Skip] + one == two;
    ScansCons(Open(Round), two, []);
    assert [] + [Round] == [Round] && [Open(Round)] + two == three;
    ScansCons(Shift, three, []);
    assert [Shift] + three == [Shift, Open(Round), Skip, Close(Round)];
  }

  lemma GroupAndSkips()
    ensures Scans(Mirrored([Open(Round), Skip, Close(Round), Skip, Skip]), []) == Ended(5)
  {
    var three := [Open(Round), Skip, Close(Round)];
    MirroredThree(Open(Round), Skip, Close(Round));
    SkipsChangeNothing(three, []);
    assert three + [Skip, Skip] == [Open(Round), Skip, Close(Round), Skip, Skip];
    ShiftAndGroup();
    ScansCons(Shift, three, []);
    assert [Shift] + three == [Shift, Open(Round), Skip, Close(Round)];
  }

  lemma AngleGroup()
    ensures Scans([Open(Angle), Skip, Close(Angle), Skip, Skip], []) == Ended(3)
  {
    var two, three := [Skip, Close(Angle)], [Open(Angle), Skip, Close(Angle)];
    ScansOne(Close(Angle), [Angle]);
    ScansCons(Skip, [Close(Angle)], [Angle]);
    assert [Skip] + [Close(Angle)] == two;
    ScansCons(Open(Angle), two, []);
    assert [] + [Angle] == [Angle] && [Open(Angle)] + two == three;
    ScansConcat(three, [Skip, Skip], []);
    assert three + [Skip, Skip] == [Open(Angle), Skip, Close(Angle), Skip, Skip];
  }

  lemma LoneAngle()
    ensures Scans(Mirrored([Open(Angle), Skip, Skip]), []) == Pending([])
  {
    SkipsChangeNothing([Open(Angle)], []);
    MirroredOne(Open(Angle));
    ScansOne(Close(Angle), []);
    assert [Open(Angle)] + [Skip, Skip] == [Open(Angle), Skip, Skip];
  }

  lemma MirroredThree(a: Token, b: Token, c: Token)
    ensures Mirrored([a, b, c]) == [MirrorToken(c), MirrorToken(b), MirrorToken(a)]
  {
    MirroredConcat([a, b], [c]);
    MirroredConcat([a], [b]);
    MirroredOne(a);
    MirroredOne(b);
    MirroredOne(c);
    assert [a, b] + [c] == [a, b, c] && [a] + [b] == [a, b];
  }

  // ------------------------------------------- balanced text

  /** Balanced text as a grammar: single tokens and groups. An angle that is a single token
      was an operator. */
  datatype Item = Atom(tok: Token) | Group(b: Bracket, body: seq<Item>)

  function Render(item: Item): seq<Token>
  {
    match item
    case Atom(tok) => [tok]
    case Group(b, body) => [Open(b)] + RenderAll(body) + [Close(b)]
  }

  function RenderAll(items: seq<Item>): seq<Token>
  {
    if items == [] then [] else Render(items[0]) + RenderAll(items[1..])
  }

  /** How many `<` are unmatched after one item more, if it may stand there: a lone `>` only
      where no `<` waits for it; a shift takes back the `<` before it; a semicolon takes back
      all; in a template list neither may reach the list's own `<`. */
  function LooseAfter(item: Item, inAngle: bool, n: nat): Option<nat>
  {
    match item
    case Group(_, _) => Some(n)
    case Atom(tok) =>
      match tok
      case Open(b) => if b == Angle then Some(n + 1) else None
      case Close(b) => if b == Angle && !inAngle && n == 0 then Some(n) else None
      case Shift => if n > 0 then Some(n - 1) else if inAngle then None else Some(n)
      case Semicolon => if inAngle then None else Some(0)
      case Skip => Some(n)
  }

  function Loose(items: seq<Item>, inAngle: bool, n: nat): Option<nat>
    decreases items
  {
    if items == [] then Some(n)
    else match LooseAfter(items[0], inAngle, n)
      case None => None
      case Some(m) => Loose(items[1..], inAngle, m)
  }

  predicate Legal(item: Item)
    decreases item
  {
    match item
    case Atom(_) => true
    case Group(b, body) =>
      && (forall i :: 0 <= i < |body| ==> Legal(body[i]))
      && (if b == Angle then Loose(body, true, 0) == Some(0) else Loose(body, false, 0).Some?)
  }

  ghost predicate AllLegal(items: seq<Item>)
  {
    forall i :: 0 <= i < |items| ==> Legal(items[i])
  }

  ghost predicate IsGroup(g: Item, toks: seq<Token>)
  {
    g.Group? && Legal(g) && Render(g) == toks
  }

  ghost predicate Balanced(toks: seq<Token>)
  {
    exists g :: IsGroup(g, toks)
  }

  lemma GroupHasEnds(toks: seq<Token>)
    ensures Balanced(toks) ==> |toks| > 1 && toks[0].Open? && toks[|toks| - 1] == Close(toks[0].b)
  {
  }

  // ------------------------------------------- groups are scanned to their end

  function Angles(n: nat): (s: seq<Bracket>)
    ensures |s| == n
  {
    if n == 0 then [] else Angles(n - 1) + [Angle]
  }

  lemma {:induction false} DropAllAngles(base: seq<Bracket>, n: nat)
    requires !Tops(base, Angle)
    ensures DropAngle(base + Angles(n)) == base
  {
    if n == 0 {
      assert base + [] == base;
    } else {
      assert Front(base + Angles(n)) == base + Angles(n - 1);
      DropAllAngles(base, n - 1);
    }
  }

  lemma AtomScans(tok: Token, base: seq<Bracket>, n: nat)
    requires base != [] && LooseAfter(Atom(tok), Tops(base, Angle), n).Some?
    ensures Read(tok, base + Angles(n)) == Push(base + Angles(LooseAfter(Atom(tok), Tops(base, Angle), n).value))
  {
    var stack := base + Angles(n);
    if n > 0 {
      assert Front(stack) == base + Angles(n - 1);
    } else {
      assert stack == base;
    }
    match tok
    case Open(b) => assert stack + [Angle] == base + Angles(n + 1);
    case Semicolon =>
      DropAllAngles(base, n);
      assert base + Angles(0) == base;
    case _ =>
  }

  lemma {:induction false} BodyScans(items: seq<Item>, base: seq<Bracket>, n: nat)
    requires AllLegal(items) && base != [] && Loose(items, Tops(base, Angle), n).Some?
    ensures Scans(RenderAll(items), base + Angles(n)) ==
            Pending(base + Angles(Loose(items, Tops(base, Angle), n).value))
    decreases items
  {
    if items != [] {
      var first, stack := items[0], base + Angles(n);
      var m := LooseAfter(first, Tops(base, Angle), n).value;
      if first.Atom? {
        AtomScans(first.tok, base, n);
        ScansOne(first.tok, stack);
      } else {
        GroupScans(first, stack);
      }
      ScansConcat(Render(first), RenderAll(items[1..]), stack);
      BodyScans(items[1..], base, m);
    }
  }

  lemma {:induction false} GroupScans(g: Item, stack: seq<Bracket>)
    requires g.Group? && Legal(g)
    ensures Scans(Render(g), stack) == if stack == [] then Ended(|Render(g)|) else Pending(stack)
    decreases g
  {
    var base, inner := stack + [g.b], RenderAll(g.body);
    ScansOne(Open(g.b), stack);
    BodyScans(g.body, base, 0);
    assert base + Angles(0) == base;
    ScansConcat([Open(g.b)], inner, stack);
    var m := Loose(g.body, g.b == Angle, 0).value;
    ScansOne(Close(g.b), base + Angles(m));
    GroupCloses(g.b, stack, m);
    ScansConcat([Open(g.b)] + inner, [Close(g.b)], stack);
  }

  lemma GroupCloses(b: Bracket, stack: seq<Bracket>, m: nat)
    requires b == Angle ==> m == 0
    ensures Read(Close(b), (stack + [b]) + Angles(m)) == if stack == [] then Done else Push(stack)
  {
    var base := stack + [b];
    assert Front(base) == stack;
    if b == Angle {
      assert base + Angles(0) == base;
    } else {
      DropAllAngles(base, m);
    }
  }

  // ------------------------------------------- what is scanned to its end is a group

  lemma {:induction false} LooseConcat(a: seq<Item>, b: seq<Item>, inAngle: bool, n: nat)
    ensures Loose(a + b, inAngle, n) == match Loose(a, inAngle, n)
      case None => None
      case Some(m) => Loose(b, inAngle, m)
    decreases a
  {
    if a == [] {
      assert a + b == b;
    } else {
      assert (a + b)[1..] == a[1..] + b;
      match LooseAfter(a[0], inAngle, n)
      case None =>
      case Some(m) => LooseConcat(a[1..], b, inAngle, m);
    }
  }

  lemma LooseSnoc(items: seq<Item>, item: Item, inAngle: bool, n: nat)
    ensures Loose(items + [item], inAngle, n) == match Loose(items, inAngle, n)
      case None => None
      case Some(m) => LooseAfter(item, inAngle, m)
  {
    LooseConcat(items, [item], inAngle, n);
    assert [item][1..] == [];
  }

  /** What may stand in a template list may stand anywhere, over any `<` that wait. */
  lemma {:induction false} LooseAnywhere(items: seq<Item>, n: nat, k: nat, inAngle: bool)
    requires Loose(items, true, n).Some?
    ensures Loose(items, inAngle, n + k) == Some(Loose(items, true, n).value + k)
    decreases items
  {
    if items != [] {
      LooseAnywhere(items[1..], LooseAfter(items[0], true, n).value, k, inAngle);
    }
  }

  lemma {:induction false} RenderConcat(a: seq<Item>, b: seq<Item>)
    ensures RenderAll(a + b) == RenderAll(a) + RenderAll(b)
  {
    if a == [] {
      assert a + b == b;
    } else {
      assert (a + b)[1..] == a[1..] + b;
      RenderConcat(a[1..], b);
    }
  }

  lemma RenderSnoc(items: seq<Item>, item: Item)
    ensures RenderAll(items + [item]) == RenderAll(items) + Render(item)
  {
    RenderConcat(items, [item]);
    assert [item][1..] == [] && Render(item) + [] == Render(item);
  }

  /** The open brackets of a text, each with the complete items read since. */
  function RenderFrames(stack: seq<Bracket>, frames: seq<seq<Item>>): seq<Token>
    requires |stack| == |frames|
  {
    if stack == [] then []
    else RenderFrames(Front(stack), Front(frames)) + [Open(stack[|stack| - 1])] + RenderAll(frames[|frames| - 1])
  }

  /** Below the top no `<` is loose; at the top, as many as `loose` says. */
  ghost predicate LegalFrames(stack: seq<Bracket>, frames: seq<seq<Item>>, loose: nat)
  {
    && |stack| == |frames|
    && (forall k :: 0 <= k < |frames| ==> AllLegal(frames[k]))
    && (forall k :: 0 <= k < |frames| ==>
          Loose(frames[k], stack[k] == Angle, 0) == Some(if k == |frames| - 1 then loose else 0))
  }

  lemma AppendItem(stack: seq<Bracket>, frames: seq<seq<Item>>, loose: nat, item: Item) returns (frames': seq<seq<Item>>)
    requires stack != [] && LegalFrames(stack, frames, loose) && Legal(item)
    requires LooseAfter(item, Tops(stack, Angle), loose).Some?
    ensures LegalFrames(stack, frames', LooseAfter(item, Tops(stack, Angle), loose).value)
    ensures RenderFrames(stack, frames') == RenderFrames(stack, frames) + Render(item)
  {
    var top := frames[|frames| - 1];
    RenderSnoc(top, item);
    LooseSnoc(top, item, Tops(stack, Angle), 0);
    frames' := ReplaceTop(stack, frames, loose, top + [item], LooseAfter(item, Tops(stack, Angle), loose).value, Render(item));
  }

  /** A closed bracket becomes a group of the frame below. */
  lemma CloseFrame(stack: seq<Bracket>, frames: seq<seq<Item>>, loose: nat) returns (frames': seq<seq<Item>>)
    requires |stack| > 1 && LegalFrames(stack, frames, loose) && (Tops(stack, Angle) ==> loose == 0)
    ensures LegalFrames(Front(stack), frames', 0)
    ensures RenderFrames(Front(stack), frames') == RenderFrames(stack, frames) + [Close(stack[|stack| - 1])]
  {
    var last := |frames| - 1;
    var group := Group(stack[last], frames[last]);
    frames' := AppendItem(Front(stack), Front(frames), 0, group);
    assert Render(group) == [Open(stack[last])] + RenderAll(frames[last]) + [Close(stack[last])];
  }

  /** The items of a template list join the frame below. */
  lemma AppendAll(stack: seq<Bracket>, frames: seq<seq<Item>>, loose: nat, items: seq<Item>)
    returns (frames': seq<seq<Item>>)
    requires stack != [] && LegalFrames(stack, frames, loose) && AllLegal(items) && Loose(items, true, 0) == Some(0)
    ensures LegalFrames(stack, frames', loose)
    ensures RenderFrames(stack, frames') == RenderFrames(stack, frames) + RenderAll(items)
  {
    JoinItems(frames[|frames| - 1], items, Tops(stack, Angle), loose);
    frames' := ReplaceTop(stack, frames, loose, frames[|frames| - 1] + items, loose, RenderAll(items));
  }

  lemma JoinItems(a: seq<Item>, items: seq<Item>, inAngle: bool, loose: nat)
    requires AllLegal(a) && Loose(a, inAngle, 0) == Some(loose)
    requires AllLegal(items) && Loose(items, true, 0) == Some(0)
    ensures AllLegal(a + items) && Loose(a + items, inAngle, 0) == Some(loose)
    ensures RenderAll(a + items) == RenderAll(a) + RenderAll(items)
  {
    RenderConcat(a, items);
    LooseConcat(a, items, inAngle, 0);
    LooseAnywhere(items, 0, loose, inAngle);
  }

  lemma ReplaceTop(stack: seq<Bracket>, frames: seq<seq<Item>>, loose: nat, top: seq<Item>, loose': nat, more: seq<Token>)
    returns (frames': seq<seq<Item>>)
    requires stack != [] && LegalFrames(stack, frames, loose) && AllLegal(top)
    requires Loose(top, Tops(stack, Angle), 0) == Some(loose')
    requires RenderAll(top) == RenderAll(frames[|frames| - 1]) + more
    ensures LegalFrames(stack, frames', loose')
    ensures RenderFrames(stack, frames') == RenderFrames(stack, frames) + more
  {
    frames' := Front(frames) + [top];
    assert Front(frames') == Front(frames);
  }

  /** All the `<` at the top turn out to be operators. */
  lemma {:induction false} DropFrames(stack: seq<Bracket>, frames: seq<seq<Item>>)
    returns (frames': seq<seq<Item>>, loose: nat)
    requires LegalFrames(stack, frames, 0) && DropAngle(stack) != []
    ensures LegalFrames(DropAngle(stack), frames', loose)
    ensures RenderFrames(DropAngle(stack), frames') == RenderFrames(stack, frames)
    decreases |stack|
  {
    if Tops(stack, Angle) {
      var below;
      below, loose := DropFrames(Front(stack), Front(frames));
      frames' := DropOnto(stack, frames, below, loose);
      loose := loose + 1;
    } else {
      frames', loose := frames, 0;
    }
  }

  lemma DropOnto(stack: seq<Bracket>, frames: seq<seq<Item>>, below: seq<seq<Item>>, loose: nat)
    returns (frames': seq<seq<Item>>)
    requires Tops(stack, Angle) && DropAngle(Front(stack)) != [] && LegalFrames(stack, frames, 0)
    requires LegalFrames(DropAngle(Front(stack)), below, loose)
    requires RenderFrames(DropAngle(Front(stack)), below) == RenderFrames(Front(stack), Front(frames))
    ensures LegalFrames(DropAngle(stack), frames', loose + 1)
    ensures RenderFrames(DropAngle(stack), frames') == RenderFrames(stack, frames)
  {
    var rest := DropAngle(Front(stack));
    var lone := AppendItem(rest, below, loose, Atom(Open(Angle)));
    frames' := AppendAll(rest, lone, loose + 1, frames[|frames| - 1]);
  }

  lemma ReadInto(tok: Token, stack: seq<Bracket>, frames: seq<seq<Item>>) returns (frames': seq<seq<Item>>)
    requires stack != [] && LegalFrames(stack, frames, 0) && Read(tok, stack).Push?
    ensures LegalFrames(Read(tok, stack).stack, frames', 0)
    ensures RenderFrames(Read(tok, stack).stack, frames') == RenderFrames(stack, frames) + [tok]
  {
    match tok {
      case Open(b) =>
        frames' := frames + [[]];
        assert Front(stack + [b]) == stack && Front(frames') == frames;
      case Close(b) => frames' := ReadClose(b, stack, frames);
      case Shift => frames' := ReadShift(stack, frames);
      case Semicolon =>
        var dropped, loose := DropFrames(stack, frames);
        frames' := AppendItem(DropAngle(stack), dropped, loose, Atom(Semicolon));
      case Skip => frames' := AppendItem(stack, frames, 0, Atom(Skip));
    }
  }

  lemma ReadClose(b: Bracket, stack: seq<Bracket>, frames: seq<seq<Item>>) returns (frames': seq<seq<Item>>)
    requires stack != [] && LegalFrames(stack, frames, 0) && Read(Close(b), stack).Push?
    ensures LegalFrames(Read(Close(b), stack).stack, frames', 0)
    ensures RenderFrames(Read(Close(b), stack).stack, frames') == RenderFrames(stack, frames) + [Close(b)]
  {
    if b != Angle {
      var dropped, loose := DropFrames(stack, frames);
      frames' := CloseFrame(DropAngle(stack), dropped, loose);
    } else if Tops(stack, Angle) {
      frames' := CloseFrame(stack, frames, 0);
    } else {
      frames' := AppendItem(stack, frames, 0, Atom(Close(Angle)));
    }
  }

  lemma ReadShift(stack: seq<Bracket>, frames: seq<seq<Item>>) returns (frames': seq<seq<Item>>)
    requires stack != [] && LegalFrames(stack, frames, 0) && Read(Shift, stack).Push?
    ensures LegalFrames(Read(Shift, stack).stack, frames', 0)
    ensures RenderFrames(Read(Shift, stack).stack, frames') == RenderFrames(stack, frames) + [Shift]
  {
    if Tops(stack, Angle) {
      var below := AppendItem(Front(stack), Front(frames), 0, Atom(Open(Angle)));
      var joined := AppendAll(Front(stack), below, 1, frames[|frames| - 1]);
      frames' := AppendItem(Front(stack), joined, 1, Atom(Shift));
    } else {
      frames' := AppendItem(stack, frames, 0, Atom(Shift));
    }
  }

  lemma {:induction false} ParseFrames(toks: seq<Token>) returns (frames: seq<seq<Item>>)
    requires toks != [] && toks[0].Open? && Scans(toks, []).Pending?
    ensures LegalFrames(Scans(toks, []).stack, frames, 0) && RenderFrames(Scans(toks, []).stack, frames) == toks
    decreases |toks|
  {
    var front, tok := Front(toks), toks[|toks| - 1];
    assert toks == front + [tok];
    if front == [] {
      frames := FirstFrame(tok.b);
    } else {
      ScansStaysOpen(front, []);
      var before := ParseFrames(front);
      frames := ReadInto(tok, Scans(front, []).stack, before);
    }
  }

  lemma FirstFrame(b: Bracket) returns (frames: seq<seq<Item>>)
    ensures Scans([Open(b)], []) == Pending([b])
    ensures LegalFrames([b], frames, 0) && RenderFrames([b], frames) == [Open(b)]
  {
    ScansOne(Open(b), []);
    assert [] + [b] == [b];
    frames := [[]];
    EmptyFrame(b);
  }

  lemma EmptyFrame(b: Bracket)
    ensures LegalFrames([b], [[]], 0) && RenderFrames([b], [[]]) == [Open(b)]
  {
    var frames: seq<seq<Item>> := [[]];
    assert Front([b]) == [] && Front(frames) == [];
    assert RenderFrames([b], frames) == RenderFrames([], []) + [Open(b)] + RenderAll([]);
  }

  lemma ParseGroup(toks: seq<Token>) returns (g: Item)
    requires toks != [] && toks[0].Open? && EndsExactly(toks, [])
    ensures IsGroup(g, toks)
  {
    var front, tok := Front(toks), toks[|toks| - 1];
    assert toks == front + [tok];
    EndedWithin(front, []);
    var frames := ParseFrames(front);
    var stack := Scans(front, []).stack;
    g := LastClose(tok, stack, frames);
  }

  lemma LastClose(tok: Token, stack: seq<Bracket>, frames: seq<seq<Item>>) returns (g: Item)
    requires LegalFrames(stack, frames, 0) && Read(tok, stack).Done?
    ensures IsGroup(g, RenderFrames(stack, frames) + [tok])
  {
    var last, loose := frames, 0;
    var rest := stack;
    if tok.b != Angle {
      last, loose := DropFrames(stack, frames);
      rest := DropAngle(stack);
    }
    assert |rest| == 1 && rest[0] == tok.b;
    assert Front(rest) == [] && Front(last) == [];
    g := Group(tok.b, last[0]);
    assert RenderFrames(rest, last) == [] + [Open(tok.b)] + RenderAll(last[0]);
  }

  /** A text that starts with an opening is scanned exactly to its end just when it is one
      group of the grammar. */
  lemma ScansExactlyGroups(toks: seq<Token>)
    requires toks != [] && toks[0].Open?
    ensures EndsExactly(toks, []) <==> Balanced(toks)
  {
    if EndsExactly(toks, []) {
      var g := ParseGroup(toks);
    }
    forall g | IsGroup(g, toks) ensures EndsExactly(toks, []) {
      GroupScans(g, []);
    }
  }

  // ------------------------------------------- groups read the other way

  function MirrorItem(item: Item): Item
    decreases item
  {
    match item
    case Atom(tok) => Atom(MirrorToken(tok))
    case Group(b, body) => Group(b, MirrorItems(body))
  }

  function MirrorItems(items: seq<Item>): seq<Item>
    decreases items
  {
    if items == [] then [] else MirrorItems(items[1..]) + [MirrorItem(items[0])]
  }

  ghost predicate NoShiftItems(items: seq<Item>)
  {
    forall i :: 0 <= i < |items| ==> items[i] != Atom(Shift)
  }

  /** Turned round, a lone `>` still has no `<` waiting for it. */
  lemma {:induction false} MirrorLoose(items: seq<Item>, n: nat)
    requires NoShiftItems(items) && Loose(items, false, n).Some?
    ensures Loose(MirrorItems(items), false, 0).Some?
    ensures n > 0 ==> Loose(MirrorItems(items), false, 0) == Some(0)
    decreases items
  {
    if items != [] {
      MirrorLoose(items[1..], LooseAfter(items[0], false, n).value);
      LooseSnoc(MirrorItems(items[1..]), MirrorItem(items[0]), false, 0);
    }
  }

  lemma {:induction false} LooseGrows(items: seq<Item>, n: nat)
    requires NoShiftItems(items) && Loose(items, true, n).Some?
    ensures Loose(items, true, n).value >= n
    decreases items
  {
    if items != [] {
      LooseGrows(items[1..], LooseAfter(items[0], true, n).value);
    }
  }

  lemma {:induction false} MirrorLooseAngle(items: seq<Item>, n: nat)
    requires NoShiftItems(items) && Loose(items, true, n) == Some(n)
    ensures Loose(MirrorItems(items), true, 0) == Some(0)
    decreases items
  {
    if items != [] {
      LooseGrows(items[1..], LooseAfter(items[0], true, n).value);
      MirrorLooseAngle(items[1..], n);
      LooseSnoc(MirrorItems(items[1..]), MirrorItem(items[0]), true, 0);
    }
  }

  lemma {:induction false} MirrorIsLegal(item: Item)
    requires Legal(item) && NoShift(Render(item))
    ensures Legal(MirrorItem(item)) && Render(MirrorItem(item)) == Mirrored(Render(item))
    decreases item
  {
    match item
    case Atom(tok) => MirroredOne(tok);
    case Group(b, body) =>
      var inner := RenderAll(body);
      assert inner == Render(item)[1..|Render(item)| - 1];
      MirrorsAreLegal(body);
      NoShiftInside(body);
      if b == Angle {
        MirrorLooseAngle(body, 0);
      } else {
        MirrorLoose(body, 0);
      }
      MirroredOne(Open(b));
      MirroredOne(Close(b));
      MirroredConcat([Open(b)] + inner, [Close(b)]);
      MirroredConcat([Open(b)], inner);
  }

  lemma {:induction false} NoShiftInside(items: seq<Item>)
    requires NoShift(RenderAll(items))
    ensures NoShiftItems(items)
    decreases items
  {
    if items != [] {
      var first, rest := Render(items[0]), RenderAll(items[1..]);
      assert rest == RenderAll(items)[|first|..];
      NoShiftInside(items[1..]);
      assert items[0].Atom? ==> RenderAll(items)[0] == items[0].tok;
    }
  }

  lemma {:induction false} MirrorsAreLegal(items: seq<Item>)
    requires AllLegal(items) && NoShift(RenderAll(items))
    ensures AllLegal(MirrorItems(items)) && RenderAll(MirrorItems(items)) == Mirrored(RenderAll(items))
    decreases items
  {
    if items != [] {
      var first, rest := Render(items[0]), RenderAll(items[1..]);
      assert first == RenderAll(items)[..|first|] && rest == RenderAll(items)[|first|..];
      MirrorIsLegal(items[0]);
      MirrorsAreLegal(items[1..]);
      MirroredConcat(first, rest);
      RenderSnoc(MirrorItems(items[1..]), MirrorItem(items[0]));
    }
  }

  /** Without shifts, a text is a group just when it is one read the other way. */
  lemma MirrorIsBalanced(toks: seq<Token>)
    requires NoShift(toks)
    ensures Balanced(toks) <==> Balanced(Mirrored(toks))
  {
    MirroredTwice(toks);
    forall g | IsGroup(g, toks) ensures Balanced(Mirrored(toks)) {
      MirrorIsLegal(g);
      assert IsGroup(MirrorItem(g), Mirrored(toks));
    }
    forall g | IsGroup(g, Mirrored(toks)) ensures Balanced(toks) {
      MirrorIsLegal(g);
      assert IsGroup(MirrorItem(g), toks);
    }
  }
}
