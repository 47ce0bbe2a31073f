/**
 Conditional blocks in project templates: marker lines open and close blocks that
 are kept or dropped by the project's flags.
 */
module Conditionals {
  import opened Text

  type Flags = seq<(string, bool)>

  // --- Lines ---------------------------------------------------------------

  function StripCarriageReturn(line: string): string {
    if line != [] && line[|line| - 1] == '\r' then line[..|line| - 1] else line
  }

  /** The lines of a text, each without its line ending, as `str::lines`. */
  function Lines(text: string): seq<string>
    decreases |text|
  {
    if text == [] then []
    else
      match SplitOnce(text, '\n')
      case None => [text]
      case Some((line, rest)) => [StripCarriageReturn(line)] + Lines(rest)
  }

  /** Each line followed by a newline. */
  function Unlines(lines: seq<string>): string {
    if lines == [] then [] else lines[0] + "\n" + Unlines(lines[1..])
  }

  function StripPrefix(s: string, prefix: string): Option<string> {
    if IsPrefix(prefix, s) then Some(s[|prefix|..]) else None
  }

  function StripSuffix(s: string, suffix: string): Option<string> {
    if |suffix| <= |s| && s[|s| - |suffix|..] == suffix then Some(s[..|s| - |suffix|]) else None
  }

  /** The text between a marker's prefix and its closing underscores. */
  function Marker(line: string, prefix: string): Option<string> {
    match StripPrefix(Trim(line), prefix)
    case None => None
    case Some(rest) => StripSuffix(rest, "__")
  }

  datatype Kind = Opens(condition: string) | Closes | Plain

  function Classify(line: string): Kind {
    match Marker(line, "// __IF ")
    case Some(condition) => Opens(condition)
    case None => if Marker(line, "// __END ").Some? then Closes else Plain
  }

  /** The first entry for a name decides; an unknown flag is off. */
  function IsSet(flags: Flags, name: string): bool {
    flags != [] && if flags[0].0 == name then flags[0].1 else IsSet(flags[1..], name)
  }

  function Holds(flags: Flags, condition: string): bool {
    match StripPrefix(condition, "!")
    case Some(name) => !IsSet(flags, name)
    case None => IsSet(flags, condition)
  }

  /** A line and what it is. */
  datatype Item = Item(line: string, kind: Kind)

  function ItemOf(line: string): Item {
    Item(line, Classify(line))
  }

  function Items(lines: seq<string>): seq<Item> {
    if lines == [] then [] else [ItemOf(lines[0])] + Items(lines[1..])
  }

  // --- The stack machine ---------------------------------------------------

  predicate AllTrue(stack: seq<bool>) {
    forall i :: 0 <= i < |stack| ==> stack[i]
  }

  function Popped(stack: seq<bool>): seq<bool> {
    if stack == [] then [] else stack[..|stack| - 1]
  }

  /** The open blocks' conditions after a line. */
  function Pushed(stack: seq<bool>, kind: Kind, flags: Flags): seq<bool> {
    match kind
    case Opens(condition) => stack + [Holds(flags, condition)]
    case Closes => Popped(stack)
    case Plain => stack
  }

  /** What a line adds to the output. */
  function Output(item: Item, stack: seq<bool>): seq<string> {
    if item.kind.Plain? && AllTrue(stack) then [item.line] else []
  }

  /** The lines kept when the open blocks' conditions are `stack`. */
  function Kept(items: seq<Item>, stack: seq<bool>, flags: Flags): seq<string> {
    if items == [] then []
    else Output(items[0], stack) + Kept(items[1..], Pushed(stack, items[0].kind, flags), flags)
  }

  lemma KeptStep(item: Item, rest: seq<Item>, stack: seq<bool>, flags: Flags)
    ensures Kept([item] + rest, stack, flags) == Output(item, stack) + Kept(rest, Pushed(stack, item.kind, flags), flags)
  {
    assert ([item] + rest)[1..] == rest;
  }

  lemma {:induction false} UnlinesConcat(a: seq<string>, b: seq<string>)
    ensures Unlines(a + b) == Unlines(a) + Unlines(b)
  {
    if a == [] {
      assert a + b == b;
    } else {
      assert (a + b)[1..] == a[1..] + b;
      UnlinesConcat(a[1..], b);
    }
  }

  /** The output still to come. */
  ghost function Remaining(lines: seq<string>, stack: seq<bool>, flags: Flags): string {
    Unlines(Kept(Items(lines), stack, flags))
  }

  lemma RemainingStep(lines: seq<string>, stack: seq<bool>, flags: Flags)
    requires lines != []
    ensures var item := ItemOf(lines[0]);
      Remaining(lines, stack, flags)
      == Unlines(Output(item, stack)) + Remaining(lines[1..], Pushed(stack, item.kind, flags), flags)
  {
    var item := ItemOf(lines[0]);
    UnlinesConcat(Output(item, stack), Kept(Items(lines[1..]), Pushed(stack, item.kind, flags), flags));
    KeptStep(item, Items(lines[1..]), stack, flags);
  }

  method ApplyConditionals(template: string, flags: Flags) returns (out: string)
    ensures out == Unlines(Kept(Items(Lines(template)), [], flags))
  {
    var lines := Lines(template);
    out := "";
    var stack: seq<bool> := [];
    ghost var all := Remaining(lines, [], flags);
    while lines != []
      invariant out + Remaining(lines, stack, flags) == all
      decreases |lines|
    {
      RemainingStep(lines, stack, flags);
      ghost var was, piece := out, Unlines(Output(ItemOf(lines[0]), stack));
      out, stack := ReadLine(lines[0], stack, flags, out);
      lines := lines[1..];
      ConcatAssociative(was, piece, Remaining(lines, stack, flags));
    }
  }

  /** One turn of the machine: markers move the stack, other lines may be copied. */
  method ReadLine(line: string, stack: seq<bool>, flags: Flags, was: string)
    returns (out: string, stack': seq<bool>)
    ensures out == was + Unlines(Output(ItemOf(line), stack))
    ensures stack' == Pushed(stack, ItemOf(line).kind, flags)
  {
    out, stack' := was, stack;
    match Classify(line) {
      case Opens(condition) => stack' := stack' + [Holds(flags, condition)];
      case Closes => stack' := Popped(stack');
      case Plain =>
        if AllTrue(stack) {
          out := out + line;
          out := out + "\n";
        }
    }
  }

  // --- Nested templates ----------------------------------------------------

  /** A template as nested blocks, with the marker lines that delimit them. */
  datatype Tree =
    | End
    | Line(text: string, next: Tree)
    | Block(open: string, condition: string, body: Tree, close: string, after: Tree)

  function Written(t: Tree): seq<Item> {
    match t
    case End => []
    case Line(text, next) => [Item(text, Plain)] + Written(next)
    case Block(open, condition, body, close, after) =>
      [Item(open, Opens(condition))] + Written(body) + [Item(close, Closes)] + Written(after)
  }

  /** The lines a template stands for: blocks whose condition fails vanish whole. */
  function Evaluate(t: Tree, flags: Flags): seq<string> {
    match t
    case End => []
    case Line(text, next) => [text] + Evaluate(next, flags)
    case Block(_, condition, body, _, after) =>
      (if Holds(flags, condition) then Evaluate(body, flags) else []) + Evaluate(after, flags)
  }

  lemma AllTruePushed(stack: seq<bool>, top: bool)
    ensures AllTrue(stack + [top]) <==> AllTrue(stack) && top
    ensures Popped(stack + [top]) == stack
  {
    assert (stack + [top])[|stack|] == top;
    if AllTrue(stack + [top]) {
      forall i | 0 <= i < |stack| ensures stack[i] { assert (stack + [top])[i]; }
    }
  }

  ghost function Value(t: Tree, stack: seq<bool>, flags: Flags): seq<string> {
    if AllTrue(stack) then Evaluate(t, flags) else []
  }

  /** Inside kept blocks a nested template yields its structural value, inside a
      dropped one nothing; either way the stack is back where it was. */
  lemma {:induction false} MachineEvaluates(t: Tree, rest: seq<Item>, stack: seq<bool>, flags: Flags)
    ensures Kept(Written(t) + rest, stack, flags) == Value(t, stack, flags) + Kept(rest, stack, flags)
  {
    match t
    case End =>
      assert Written(t) + rest == rest;
    case Line(text, next) =>
      MachineEvaluates(next, rest, stack, flags);
      LineEvaluates(t, rest, stack, flags);
    case Block(open, condition, body, close, after) =>
      MachineEvaluates(body, [Item(close, Closes)] + (Written(after) + rest), stack + [Holds(flags, condition)], flags);
      MachineEvaluates(after, rest, stack, flags);
      var inner := stack + [Holds(flags, condition)];
      BlockSteps(t, Written(after) + rest, stack, flags);
      BlockValue(t, stack, flags);
      WrittenBlock(t, rest);
      Chained(Kept(Written(t) + rest, stack, flags), Value(body, inner, flags),
              Kept([Item(close, Closes)] + (Written(after) + rest), inner, flags),
              Value(after, stack, flags), Kept(rest, stack, flags), Value(t, stack, flags));
  }

  lemma LineEvaluates(t: Tree, rest: seq<Item>, stack: seq<bool>, flags: Flags)
    requires t.Line?
    requires Kept(Written(t.next) + rest, stack, flags) == Value(t.next, stack, flags) + Kept(rest, stack, flags)
    ensures Kept(Written(t) + rest, stack, flags) == Value(t, stack, flags) + Kept(rest, stack, flags)
  {
    var item := Item(t.text, Plain);
    WrittenLine(t, rest);
    KeptStep(item, Written(t.next) + rest, stack, flags);
    LineValue(t, stack, flags);
    ConcatAssociative(Output(item, stack), Value(t.next, stack, flags), Kept(rest, stack, flags));
  }

  lemma WrittenLine(t: Tree, rest: seq<Item>)
    requires t.Line?
    ensures Written(t) + rest == [Item(t.text, Plain)] + (Written(t.next) + rest)
  {
  }

  lemma LineValue(t: Tree, stack: seq<bool>, flags: Flags)
    requires t.Line?
    ensures Value(t, stack, flags) == Output(Item(t.text, Plain), stack) + Value(t.next, stack, flags)
  {
  }

  /** Putting a block's value together from its parts. */
  lemma Chained(whole: seq<string>, body: seq<string>, close: seq<string>, after: seq<string>, tail: seq<string>, v: seq<string>)
    requires whole == body + close && close == after + tail && v == body + after
    ensures whole == v + tail
  {
  }

  lemma ConcatAssociative<T>(a: seq<T>, b: seq<T>, c: seq<T>)
    ensures (a + b) + c == a + (b + c)
  {
  }

  lemma WrittenBlock(t: Tree, rest: seq<Item>)
    requires t.Block?
    ensures Written(t) + rest
      == [Item(t.open, Opens(t.condition))] + (Written(t.body) + ([Item(t.close, Closes)] + (Written(t.after) + rest)))
  {
  }

  lemma BlockValue(t: Tree, stack: seq<bool>, flags: Flags)
    requires t.Block?
    ensures Value(t, stack, flags)
      == Value(t.body, stack + [Holds(flags, t.condition)], flags) + Value(t.after, stack, flags)
  {
    AllTruePushed(stack, Holds(flags, t.condition));
  }

  /** The machine's turns at a block's two markers. */
  lemma BlockSteps(t: Tree, tail: seq<Item>, stack: seq<bool>, flags: Flags)
    requires t.Block?
    ensures var inner := stack + [Holds(flags, t.condition)];
      var close := [Item(t.close, Closes)] + tail;
      && Kept([Item(t.open, Opens(t.condition))] + (Written(t.body) + close), stack, flags)
        == Kept(Written(t.body) + close, inner, flags)
      && Kept(close, inner, flags) == Kept(tail, stack, flags)
  {
    var inner := stack + [Holds(flags, t.condition)];
    var close := [Item(t.close, Closes)] + tail;
    KeptStep(Item(t.open, Opens(t.condition)), Written(t.body) + close, stack, flags);
    KeptStep(Item(t.close, Closes), tail, inner, flags);
    AllTruePushed(stack, Holds(flags, t.condition));
  }

  /** On a well-nested template the machine computes the structural value. */
  lemma NestedTemplateEvaluates(t: Tree, flags: Flags)
    ensures Kept(Written(t), [], flags) == Evaluate(t, flags)
  {
    assert Written(t) + [] == Written(t);
    MachineEvaluates(t, [], [], flags);
  }

  // --- Any template --------------------------------------------------------

  function Delta(item: Item): int {
    match item.kind
    case Opens(_) => 1
    case Closes => -1
    case Plain => 0
  }

  /** Opening less closing markers among lines `a` to `b - 1`. */
  function Net(items: seq<Item>, a: nat, b: nat): int
    requires b <= |items|
  {
    if b <= a then 0 else Net(items, a, b - 1) + Delta(items[b - 1])
  }

  /** No line closes a block that was not opened, and every block is closed. */
  ghost predicate WellNested(items: seq<Item>) {
    Net(items, 0, |items|) == 0 && forall k :: 0 <= k <= |items| ==> Net(items, 0, k) >= 0
  }

  lemma {:induction false} NetSplit(items: seq<Item>, a: nat, b: nat, c: nat)
    requires a <= b <= c <= |items|
    ensures Net(items, a, c) == Net(items, a, b) + Net(items, b, c)
    decreases c
  {
    if c > b { NetSplit(items, a, b, c - 1); }
  }

  lemma {:induction false} NetSlice(items: seq<Item>, a: nat, b: nat, k: nat)
    requires a + k <= b <= |items|
    ensures Net(items[a..b], 0, k) == Net(items, a, a + k)
  {
    if k > 0 { NetSlice(items, a, b, k - 1); }
  }

  lemma SliceNetAt(items: seq<Item>, a: nat, b: nat, k: nat, n: nat)
    requires a <= n <= b <= |items| && n == a + k && Net(items, a, n) >= 0
    ensures Net(items[a..b], 0, k) == Net(items, a, n)
  {
    NetSlice(items, a, b, k);
  }

  lemma SliceWellNested(items: seq<Item>, a: nat, b: nat)
    requires a <= b <= |items| && Net(items, a, b) == 0
    requires forall k :: a <= k <= b ==> Net(items, a, k) >= 0
    ensures WellNested(items[a..b])
  {
    var part := items[a..b];
    forall k | 0 <= k <= |part| ensures Net(part, 0, k) >= 0 { SliceNetAt(items, a, b, k, a + k); }
    SliceNetAt(items, a, b, b - a, b);
  }

  /** The line that closes a block opened at line 0. */
  lemma {:induction false} ClosingLine(items: seq<Item>, n: nat) returns (m: nat)
    requires 1 <= n <= |items| && Net(items, 1, n) < 0
    ensures 1 <= m < n && Net(items, 1, m) == 0 && items[m].kind.Closes?
    ensures forall k :: 1 <= k <= m ==> Net(items, 1, k) >= 0
    decreases n
  {
    if exists k :: 1 <= k < n && Net(items, 1, k) < 0 {
      var k :| 1 <= k < n && Net(items, 1, k) < 0;
      m := ClosingLine(items, k);
    } else {
      m := n - 1;
    }
  }

  /** Every well-nested template is the writing of some tree of blocks. */
  lemma {:induction false} WellNestedHasTree(items: seq<Item>) returns (t: Tree)
    requires WellNested(items)
    ensures Written(t) == items
    decreases |items|, 1
  {
    if items == [] {
      t := End;
    } else if items[0].kind.Opens? {
      t := BlockTree(items);
    } else {
      AfterLine(items);
      var next := WellNestedHasTree(items[1..|items|]);
      t := Line(items[0].line, next);
      assert items == [items[0]] + items[1..|items|];
    }
  }

  lemma {:induction false} BlockTree(items: seq<Item>) returns (t: Tree)
    requires WellNested(items) && items != [] && items[0].kind.Opens?
    ensures Written(t) == items
    decreases |items|, 0
  {
    assert Net(items, 0, 1) == Net(items, 0, 0) + Delta(items[0]);
    NetSplit(items, 0, 1, |items|);
    var m := ClosingLine(items, |items|);
    SliceWellNested(items, 1, m);
    var body := WellNestedHasTree(items[1..m]);
    AfterBlock(items, m);
    var after := WellNestedHasTree(items[m + 1..|items|]);
    t := Block(items[0].line, items[0].kind.condition, body, items[m].line, after);
    assert items == [items[0]] + items[1..m] + [items[m]] + items[m + 1..|items|];
  }

  lemma AfterBlock(items: seq<Item>, m: nat)
    requires WellNested(items) && 1 <= m < |items|
    requires Delta(items[0]) == 1 && Net(items, 1, m) == 0 && Delta(items[m]) == -1
    ensures WellNested(items[m + 1..|items|])
  {
    assert Net(items, 0, 1) == Net(items, 0, 0) + Delta(items[0]);
    NetSplit(items, 0, 1, m);
    var n := m + 1;
    assert Net(items, 0, n) == 0;
    forall k | n <= k <= |items| ensures Net(items, n, k) == Net(items, 0, k) >= 0 {
      NetSplit(items, 0, n, k);
      assert Net(items, 0, k) >= 0;
    }
    SliceWellNested(items, n, |items|);
  }

  lemma AfterLine(items: seq<Item>)
    requires WellNested(items) && items != [] && !items[0].kind.Opens?
    ensures items[0].kind.Plain? && WellNested(items[1..|items|])
  {
    assert Net(items, 0, 1) == Net(items, 0, 0) + Delta(items[0]);
    assert Net(items, 0, 1) >= 0;
    forall k | 1 <= k <= |items| ensures Net(items, 1, k) == Net(items, 0, k) >= 0 {
      NetSplit(items, 0, 1, k);
      assert Net(items, 0, k) >= 0;
    }
    SliceWellNested(items, 1, |items|);
  }

  /** So the output of a well-nested template is the value of its block tree. */
  lemma WellNestedTemplate(template: string, flags: Flags) returns (t: Tree)
    requires WellNested(Items(Lines(template)))
    ensures Written(t) == Items(Lines(template))
    ensures Kept(Items(Lines(template)), [], flags) == Evaluate(t, flags)
  {
    t := WellNestedHasTree(Items(Lines(template)));
    NestedTemplateEvaluates(t, flags);
  }

  // --- Enclosing blocks ----------------------------------------------------

  /** Lines after `j` and before `m` close no more blocks than they open. */
  predicate Unclosed(items: seq<Item>, j: nat, m: nat) {
    m <= |items| && Net(items, j + 1, m) >= 0
  }

  /** Line `j` opens a block that no line before `n` has closed. */
  ghost predicate Encloses(items: seq<Item>, j: nat, n: nat) {
    j < n <= |items| && items[j].kind.Opens? && forall m :: j < m <= n ==> Unclosed(items, j, m)
  }

  ghost predicate AllEnclosingHold(items: seq<Item>, n: nat, flags: Flags)
    requires n <= |items|
  {
    forall j: nat :: Encloses(items, j, n) ==> Holds(flags, items[j].kind.condition)
  }

  /** The plain lines before `n` whose enclosing blocks all hold. */
  ghost function Selected(items: seq<Item>, n: nat, flags: Flags): seq<string>
    requires n <= |items|
  {
    if n == 0 then []
    else
      var keep := items[n - 1].kind.Plain? && AllEnclosingHold(items, n - 1, flags);
      Selected(items, n - 1, flags) + (if keep then [items[n - 1].line] else [])
  }

  /** The lines whose blocks are open before line `n`, outermost first. */
  ghost function OpenLines(items: seq<Item>, n: nat): seq<nat>
    requires n <= |items|
  {
    if n == 0 then []
    else
      var open := OpenLines(items, n - 1);
      match items[n - 1].kind
      case Opens(_) => open + [n - 1]
      case Closes => if open == [] then [] else open[..|open| - 1]
      case Plain => open
  }

  ghost function StackAt(items: seq<Item>, n: nat, flags: Flags): seq<bool>
    requires n <= |items|
  {
    if n == 0 then [] else Pushed(StackAt(items, n - 1, flags), items[n - 1].kind, flags)
  }

  /** The open line at `p` encloses line `n`, with the later ones inside it. */
  ghost predicate OpenAt(items: seq<Item>, n: nat, open: seq<nat>, p: nat) {
    p < |open| && Encloses(items, open[p], n) && Net(items, open[p] + 1, n) == |open| - 1 - p
  }

  lemma {:induction false} OpenLinesEnclose(items: seq<Item>, n: nat, p: nat)
    requires n <= |items| && p < |OpenLines(items, n)|
    ensures OpenAt(items, n, OpenLines(items, n), p)
  {
    var open := OpenLines(items, n);
    if p == |open| - 1 && items[n - 1].kind.Opens? {
      assert open[p] == n - 1;
    } else {
      var before := OpenLines(items, n - 1);
      assert open[p] == before[p];
      OpenLinesEnclose(items, n - 1, p);
      StillEncloses(items, n, before, p);
    }
  }

  lemma StillEncloses(items: seq<Item>, n: nat, before: seq<nat>, p: nat)
    requires 0 < n <= |items| && OpenAt(items, n - 1, before, p)
    requires items[n - 1].kind.Closes? ==> p < |before| - 1
    ensures Encloses(items, before[p], n)
    ensures Net(items, before[p] + 1, n) == |before| - 1 - p + Delta(items[n - 1])
  {
    var j := before[p];
    forall m | j < m <= n ensures Unclosed(items, j, m) {
      if m < n { assert Encloses(items, j, n - 1); }
    }
  }

  lemma {:induction false} EnclosingIsOpen(items: seq<Item>, n: nat, j: nat)
    requires n <= |items| && Encloses(items, j, n)
    ensures j in OpenLines(items, n)
    decreases n
  {
    var open := OpenLines(items, n);
    if j == n - 1 {
      assert open[|open| - 1] == j;
    } else {
      var before := OpenLines(items, n - 1);
      assert Encloses(items, j, n - 1);
      EnclosingIsOpen(items, n - 1, j);
      var p :| 0 <= p < |before| && before[p] == j;
      OpenLinesEnclose(items, n - 1, p);
      assert Unclosed(items, j, n);
      assert open[p] == j;
    }
  }

  lemma {:induction false} StackMirrorsOpenLines(items: seq<Item>, n: nat, flags: Flags)
    requires n <= |items|
    ensures |StackAt(items, n, flags)| == |OpenLines(items, n)|
    ensures forall p :: 0 <= p < |OpenLines(items, n)| ==>
      OpenLines(items, n)[p] < n && items[OpenLines(items, n)[p]].kind.Opens?
      && StackAt(items, n, flags)[p] == Holds(flags, items[OpenLines(items, n)[p]].kind.condition)
  {
    if n > 0 { StackMirrorsOpenLines(items, n - 1, flags); }
  }

  /** The stack is all true exactly when every enclosing condition holds. */
  lemma StackMeansEnclosure(items: seq<Item>, n: nat, flags: Flags)
    requires n <= |items|
    ensures AllTrue(StackAt(items, n, flags)) <==> AllEnclosingHold(items, n, flags)
  {
    var stack, open := StackAt(items, n, flags), OpenLines(items, n);
    StackMirrorsOpenLines(items, n, flags);
    if AllTrue(stack) {
      forall j: nat | Encloses(items, j, n) ensures Holds(flags, items[j].kind.condition) {
        EnclosingIsOpen(items, n, j);
        var p :| 0 <= p < |open| && open[p] == j;
        assert stack[p];
      }
    }
    if AllEnclosingHold(items, n, flags) {
      forall p | 0 <= p < |stack| ensures stack[p] {
        OpenLinesEnclose(items, n, p);
      }
    }
  }

  lemma {:induction false} SelectedSoFar(items: seq<Item>, n: nat, flags: Flags)
    requires n <= |items|
    ensures Kept(items, [], flags) == Selected(items, n, flags) + Kept(items[n..], StackAt(items, n, flags), flags)
  {
    if n == 0 {
      assert items[0..] == items;
    } else {
      var item, stack := items[n - 1], StackAt(items, n - 1, flags);
      SelectedSoFar(items, n - 1, flags);
      assert items[n - 1..] == [item] + items[n..];
      KeptStep(item, items[n..], stack, flags);
      StackMeansEnclosure(items, n - 1, flags);
      ConcatAssociative(
        Selected(items, n - 1, flags), Output(item, stack), Kept(items[n..], StackAt(items, n, flags), flags));
    }
  }

  /** For every template, nested or not: a plain line is kept exactly when every
      block open around it holds, and the kept lines stay in order. */
  lemma KeptIsSelected(items: seq<Item>, flags: Flags)
    ensures Kept(items, [], flags) == Selected(items, |items|, flags)
  {
    SelectedSoFar(items, |items|, flags);
    assert items[|items|..] == [];
  }

  // --- No marker survives --------------------------------------------------

  lemma {:induction false} KeptArePlain(lines: seq<string>, stack: seq<bool>, flags: Flags)
    ensures forall line :: line in Kept(Items(lines), stack, flags) ==> line in lines && Classify(line).Plain?
  {
    if lines != [] {
      var item := ItemOf(lines[0]);
      KeptArePlain(lines[1..], Pushed(stack, item.kind, flags), flags);
      KeptStep(item, Items(lines[1..]), stack, flags);
    }
  }

  lemma {:induction false} LinesHaveNoNewline(text: string)
    ensures forall line :: line in Lines(text) ==> '\n' !in line
    decreases |text|
  {
    if text != [] {
      match SplitOnce(text, '\n')
      case None =>
      case Some((line, rest)) => LinesHaveNoNewline(rest);
    }
  }

  lemma {:induction false} TrimStartKeepsEnd(s: string, c: char)
    requires IsWhitespace(c)
    ensures TrimEnd(TrimStart(s + [c])) == TrimEnd(TrimStart(s))
  {
    if s != [] && IsWhitespace(s[0]) {
      assert (s + [c])[1..] == s[1..] + [c];
      TrimStartKeepsEnd(s[1..], c);
    } else if s != [] {
      assert (s + [c])[..|s|] == s;
    } else {
      assert (s + [c])[1..] == [];
    }
  }

  lemma CarriageReturnIsTrimmed(line: string)
    ensures Classify(StripCarriageReturn(line)) == Classify(line)
  {
    var stripped := StripCarriageReturn(line);
    if stripped != line {
      assert line == stripped + ['\r'];
      TrimStartKeepsEnd(stripped, '\r');
    }
    assert Trim(stripped) == Trim(line);
  }

  lemma {:induction false} UnlinedArePlain(lines: seq<string>)
    requires forall line :: line in lines ==> '\n' !in line && Classify(line).Plain?
    ensures forall line :: line in Lines(Unlines(lines)) ==> Classify(line).Plain?
  {
    if lines != [] {
      var rest := Unlines(lines[1..]);
      SplitOnceJoin(lines[0], '\n', rest);
      assert lines[0] in lines;
      CarriageReturnIsTrimmed(lines[0]);
      UnlinedArePlain(lines[1..]);
    }
  }

  /** No line of any output is a marker. */
  lemma NoMarkerIsEmitted(template: string, flags: Flags)
    ensures forall line :: line in Lines(Unlines(Kept(Items(Lines(template)), [], flags))) ==> Classify(line).Plain?
  {
    KeptArePlain(Lines(template), [], flags);
    LinesHaveNoNewline(template);
    UnlinedArePlain(Kept(Items(Lines(template)), [], flags));
  }

  // --- Markers and conditions as written -----------------------------------

  /** The first entry for `name` is true. */
  ghost predicate FlagOn(flags: Flags, name: string) {
    exists i :: 0 <= i < |flags| && flags[i] == (name, true) && forall j :: 0 <= j < i ==> flags[j].0 != name
  }

  lemma {:induction false} IsSetMeansOn(flags: Flags, name: string)
    ensures IsSet(flags, name) <==> FlagOn(flags, name)
  {
    if flags != [] {
      var rest := flags[1..];
      IsSetMeansOn(rest, name);
      if flags[0].0 == name {
        if flags[0].1 { assert flags[0] == (name, true); }
      } else {
        if FlagOn(rest, name) {
          var i :| 0 <= i < |rest| && rest[i] == (name, true) && forall j :: 0 <= j < i ==> rest[j].0 != name;
          assert flags[i + 1] == (name, true);
          assert forall j :: 0 <= j < i + 1 ==> flags[j].0 != name;
        }
        if FlagOn(flags, name) {
          var i :| 0 <= i < |flags| && flags[i] == (name, true) && forall j :: 0 <= j < i ==> flags[j].0 != name;
          assert rest[i - 1] == (name, true);
        }
      }
    }
  }

  /** A condition `name` holds exactly when its flag is on, `!name` exactly when it
      is not. */
  lemma ConditionMeaning(flags: Flags, name: string)
    ensures !IsPrefix("!", name) ==> (Holds(flags, name) <==> FlagOn(flags, name))
    ensures Holds(flags, "!" + name) <==> !FlagOn(flags, name)
  {
    IsSetMeansOn(flags, name);
    assert ("!" + name)[..1] == "!" && ("!" + name)[1..] == name;
  }

  /** A line opens a block under `condition` exactly when it reads so between
      whitespace, and closes one exactly when it is an end marker. */
  lemma MarkerMeaning(line: string, condition: string)
    ensures Classify(line) == Opens(condition) <==> Trim(line) == "// __IF " + condition + "__"
    ensures Classify(line).Closes? <==> exists tag :: IsEndMarker(line, tag)
  {
    MarkerReads(line, "// __IF ", condition);
    if Classify(line).Closes? {
      var tag := Marker(line, "// __END ").value;
      MarkerReads(line, "// __END ", tag);
      assert IsEndMarker(line, tag);
    }
    if tag :| IsEndMarker(line, tag) {
      MarkerReads(line, "// __END ", tag);
      EndIsNotIf(line, tag);
    }
  }

  ghost predicate IsEndMarker(line: string, tag: string) {
    Trim(line) == "// __END " + tag + "__"
  }

  lemma MarkerReads(line: string, prefix: string, text: string)
    ensures Marker(line, prefix) == Some(text) <==> Trim(line) == prefix + text + "__"
  {
    var t := Trim(line);
    if Marker(line, prefix) == Some(text) {
      var rest := t[|prefix|..];
      assert t == prefix + rest && rest == text + "__";
    }
    if t == prefix + text + "__" {
      assert t[..|prefix|] == prefix && t[|prefix|..] == text + "__";
      assert (text + "__")[|text|..] == "__" && (text + "__")[..|text|] == text;
    }
  }

  lemma EndIsNotIf(line: string, tag: string)
    requires IsEndMarker(line, tag)
    ensures Marker(line, "// __IF ").None?
  {
    var t := Trim(line);
    assert t[5] == 'E' && "// __IF "[5] == 'I';
    assert |t| >= 8 ==> t[..8][5] == 'E';
  }

  /** Markers may be indented and followed by whitespace. */
  lemma MarkerWritten(indent: string, condition: string, after: string)
    requires AllWhitespace(indent) && AllWhitespace(after)
    ensures Classify(indent + ("// __IF " + condition + "__") + after) == Opens(condition)
    ensures Classify(indent + ("// __END " + condition + "__") + after).Closes?
  {
    var open, close := "// __IF " + condition + "__", "// __END " + condition + "__";
    assert open[0] == '/' && open[|open| - 1] == '_' && close[0] == '/' && close[|close| - 1] == '_';
    TrimStrips(indent, open, after);
    TrimStrips(indent, close, after);
    MarkerMeaning(indent + open + after, condition);
    MarkerMeaning(indent + close + after, condition);
    assert IsEndMarker(indent + close + after, condition);
  }

  /** A one-line block under `name` or `!name` is kept exactly when its flag says so. */
  lemma BlockKeptByFlag(flags: Flags, name: string, text: string, close: string)
    requires !IsPrefix("!", name)
    ensures Evaluate(Block("", name, Line(text, End), close, End), flags) == if FlagOn(flags, name) then [text] else []
    ensures Evaluate(Block("", "!" + name, Line(text, End), close, End), flags) == if FlagOn(flags, name) then [] else [text]
  {
    ConditionMeaning(flags, name);
    assert Evaluate(Line(text, End), flags) == [text];
  }

  predicate EndsInReturn(line: string) {
    line != [] && line[|line| - 1] == '\r'
  }

  /** Lines without line endings of their own are read back as they were written. */
  lemma {:induction false} LinesRoundTrip(lines: seq<string>)
    requires forall i :: 0 <= i < |lines| ==> '\n' !in lines[i] && !EndsInReturn(lines[i])
    ensures Lines(Unlines(lines)) == lines
  {
    if lines != [] {
      SplitOnceJoin(lines[0], '\n', Unlines(lines[1..]));
      LinesRoundTrip(lines[1..]);
      assert lines[0] + "\n" + Unlines(lines[1..]) != [];
    }
  }

  /** A carriage return before a newline belongs to the line ending; a last line
      without a newline is read whole. */
  lemma LineEndings(line: string, rest: string)
    requires '\n' !in line
    ensures Lines(line + ['\r'] + ['\n'] + rest) == [line] + Lines(rest)
    ensures line != [] ==> Lines(line) == [line]
  {
    SplitOnceJoin(line + ['\r'], '\n', rest);
    assert (line + ['\r'])[..|line|] == line;
  }
}
