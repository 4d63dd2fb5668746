/**
  Re-indentation of a script with tabs by a stack of column counts
  (src/safegdscript/script_language_safegdscript.cpp:1306-1344).
 */
module AutoIndent {

  // ----- Lines

  predicate IsIndent(c: char) { c == ' ' || c == '\t' }

  /** What `strip_edges` takes off: every character up to and including the space. */
  predicate IsEdge(c: char) { c <= ' ' }

  function IndentOf(line: string): (n: nat)
    ensures n <= |line|
  {
    if line != [] && IsIndent(line[0]) then 1 + IndentOf(line[1..]) else 0
  }

  function StripLeft(s: string): string {
    if s != [] && IsEdge(s[0]) then StripLeft(s[1..]) else s
  }

  function StripRight(s: string): string {
    if s != [] && IsEdge(s[|s| - 1]) then StripRight(s[..|s| - 1]) else s
  }

  function StripEdges(s: string): string { StripRight(StripLeft(s)) }

  function Stripped(line: string): string { StripEdges(line[IndentOf(line)..]) }

  /** Neither blank nor a comment. */
  predicate IsCode(line: string) { Stripped(line) != [] && Stripped(line)[0] != '#' }

  function Tabs(n: nat): (s: string)
    ensures |s| == n && forall i :: 0 <= i < n ==> s[i] == '\t'
  {
    seq(n, _ => '\t')
  }

  // ----- The stack

  type Stack = seq<nat>

  function Top(stack: Stack): nat { if stack == [] then 0 else stack[|stack| - 1] }

  function PopAbove(stack: Stack, indent: nat): (r: Stack)
    ensures r <= stack && (r == [] || Top(r) <= indent)
  {
    if stack != [] && Top(stack) > indent then PopAbove(stack[..|stack| - 1], indent) else stack
  }

  function Next(stack: Stack, indent: nat): Stack {
    if indent > Top(stack) then stack + [indent]
    else if indent < Top(stack) then
      var popped := PopAbove(stack, indent);
      if popped != [] && Top(popped) != indent then popped + [indent] else popped
    else stack
  }

  /** All that the stack depends on: whether a line is code, and how far it is indented. */
  datatype Shape = Other | Code(indent: nat)

  function ShapeOf(line: string): Shape { if IsCode(line) then Code(IndentOf(line)) else Other }

  function Shapes(lines: seq<string>): (r: seq<Shape>)
    ensures |r| == |lines| && forall i :: 0 <= i < |lines| ==> r[i] == ShapeOf(lines[i])
  {
    seq(|lines|, i requires 0 <= i < |lines| => ShapeOf(lines[i]))
  }

  /** The stack once the first `n` lines have been looked at. */
  function StackAfter(shapes: seq<Shape>, n: nat): Stack
    requires n <= |shapes|
  {
    if n == 0 then []
    else if shapes[n - 1].Code? then Next(StackAfter(shapes, n - 1), shapes[n - 1].indent)
    else StackAfter(shapes, n - 1)
  }

  // ----- The result

  /** The depth of the block that line `i` is in or opens. */
  function Depth(shapes: seq<Shape>, i: nat): nat
    requires i < |shapes|
  {
    |StackAfter(shapes, i + 1)|
  }

  predicate Rewritten(shapes: seq<Shape>, from: int, to: int, i: nat)
    requires i < |shapes|
  {
    from <= i <= to && shapes[i].Code?
  }

  function Indented(lines: seq<string>, from: int, to: int): (r: seq<string>)
    ensures |r| == |lines|
  {
    seq(|lines|, i requires 0 <= i < |lines| => IndentedLine(lines, from, to, i))
  }

  function IndentedLine(lines: seq<string>, from: int, to: int, i: nat): string
    requires i < |lines|
  {
    if Rewritten(Shapes(lines), from, to, i) then Tabs(Depth(Shapes(lines), i)) + Stripped(lines[i]) else lines[i]
  }

  function Split(code: string): (lines: seq<string>)
    ensures |lines| > 0
  {
    if code == [] then [[]]
    else
      var rest := Split(code[1..]);
      if code[0] == '\n' then [[]] + rest else [[code[0]] + rest[0]] + rest[1..]
  }

  function Join(lines: seq<string>): string {
    if lines == [] then []
    else if |lines| == 1 then lines[0]
    else lines[0] + ['\n'] + Join(lines[1..])
  }

  function AutoIndented(code: string, from: int, to: int): string { Join(Indented(Split(code), from, to)) }

  // ----- As it runs

  /** The columns of indent in front of a line, what is left of it without edges, and whether that is code. */
  method MeasureIndent(line: string) returns (isCode: bool, indent: nat, stripped: string)
    ensures ShapeOf(line) == if isCode then Code(indent) else Other
    ensures stripped == Stripped(line)
  {
    indent := 0;
    while indent < |line| && IsIndent(line[indent])
      invariant indent <= |line| && IndentOf(line) == indent + IndentOf(line[indent..])
    {
      assert line[indent..][1..] == line[indent + 1..];
      indent := indent + 1;
    }
    stripped := StripEdges(line[indent..]);
    isCode := stripped != [] && stripped[0] != '#';
  }

  /** The update of `indent_stack` for one line of code. */
  method UpdateStack(stack: Stack, indent: nat) returns (r: Stack)
    ensures r == Next(stack, indent)
  {
    r := stack;
    var current := if r == [] then 0 else r[|r| - 1];
    if indent > current {
      r := r + [indent];
    } else if indent < current {
      while r != [] && r[|r| - 1] > indent
        invariant PopAbove(r, indent) == PopAbove(stack, indent)
      {
        r := r[..|r| - 1];
      }
      if r != [] && r[|r| - 1] != indent {
        r := r + [indent];
      }
    }
  }

  /** What the loop makes of the lines from `n` on, starting with `stack`: it stops at code past the range. */
  function Rest(lines: seq<string>, n: nat, stack: Stack, from: int, to: int): seq<string>
    requires n <= |lines|
    decreases |lines| - n
  {
    if n == |lines| then []
    else
      match ShapeOf(lines[n])
      case Other => [lines[n]] + Rest(lines, n + 1, stack, from, to)
      case Code(indent) =>
        var next := Next(stack, indent);
        if n < from then [lines[n]] + Rest(lines, n + 1, next, from, to)
        else if n > to then lines[n..]
        else [Tabs(|next|) + Stripped(lines[n])] + Rest(lines, n + 1, next, from, to)
  }

  /** The loop over the lines, which are overwritten one by one. */
  method IndentLines(original: seq<string>, from: int, to: int) returns (lines: seq<string>)
    ensures lines == Indented(original, from, to)
  {
    lines := original;
    var stack: Stack := [];
    for i := 0 to |original|
      invariant |lines| == |original| && lines[i..] == original[i..]
      invariant lines[..i] + Rest(original, i, stack, from, to) == Rest(original, 0, [], from, to)
    {
      var line := lines[i];
      var isCode, indent, stripped := MeasureIndent(line);
      if isCode {
        stack := UpdateStack(stack, indent);
        if i >= from {
          if i > to {
            RestIsIndented(original, 0, from, to);
            assert lines == lines[..i] + original[i..];
            return;
          }
          line := Tabs(|stack|) + stripped;
        }
      }
      Regroup(lines, i, line, Rest(original, i + 1, stack, from, to));
      lines := lines[i := line];
    }
    RestIsIndented(original, 0, from, to);
    assert lines == lines[..|original|] + [];
  }

  lemma Regroup(a: seq<string>, i: nat, line: string, b: seq<string>)
    requires i < |a|
    ensures a[..i] + ([line] + b) == a[i := line][..i + 1] + b
    ensures a[i := line][i + 1..] == a[i..][1..]
  {
  }

  lemma {:induction false} RestIsIndented(lines: seq<string>, n: nat, from: int, to: int)
    requires n <= |lines|
    ensures Rest(lines, n, StackAfter(Shapes(lines), n), from, to) == Indented(lines, from, to)[n..]
    decreases |lines| - n
  {
    if n < |lines| {
      LineDone(lines, from, to, n);
      if ShapeOf(lines[n]).Code? && n > to && n >= from {
        IndentedPast(lines, from, to, n);
      } else {
        RestIsIndented(lines, n + 1, from, to);
        assert Indented(lines, from, to)[n..] == [IndentedLine(lines, from, to, n)] + Indented(lines, from, to)[n + 1..];
      }
    }
  }

  lemma IndentedPast(lines: seq<string>, from: int, to: int, n: nat)
    requires to < n <= |lines|
    ensures Indented(lines, from, to)[n..] == lines[n..]
  {
  }

  lemma LineDone(lines: seq<string>, from: int, to: int, i: nat)
    requires i < |lines|
    ensures IndentedLine(lines, from, to, i)
         == if ShapeOf(lines[i]).Code? && from <= i <= to then Tabs(|StackAfter(Shapes(lines), i + 1)|) + Stripped(lines[i])
            else lines[i]
    ensures StackAfter(Shapes(lines), i + 1)
         == if ShapeOf(lines[i]).Code? then Next(StackAfter(Shapes(lines), i), ShapeOf(lines[i]).indent)
            else StackAfter(Shapes(lines), i)
  {
    assert Shapes(lines)[i] == ShapeOf(lines[i]);
  }

  /** `_auto_indent_code`. */
  method AutoIndentCode(code: string, from: int, to: int) returns (result: string)
    ensures result == AutoIndented(code, from, to)
  {
    var lines := IndentLines(Split(code), from, to);
    result := Join(lines);
  }

  // ----- Text

  lemma {:induction false} StripLeftStart(s: string)
    ensures StripLeft(s) != [] ==> !IsEdge(StripLeft(s)[0])
    ensures StripLeft(s) == s <==> (s == [] || !IsEdge(s[0]))
  {
    if s != [] && IsEdge(s[0]) {
      StripLeftStart(s[1..]);
      StripLeftShorter(s[1..]);
    }
  }

  lemma {:induction false} StripLeftShorter(s: string)
    ensures |StripLeft(s)| <= |s|
  {
    if s != [] && IsEdge(s[0]) {
      StripLeftShorter(s[1..]);
    }
  }

  lemma {:induction false} StripRightEnd(s: string)
    ensures StripRight(s) <= s
    ensures StripRight(s) != [] ==> !IsEdge(StripRight(s)[|StripRight(s)| - 1])
  {
    if s != [] && IsEdge(s[|s| - 1]) {
      StripRightEnd(s[..|s| - 1]);
    }
  }

  /** Stripped text starts and ends with a character that is not stripped. */
  lemma StrippedEnds(line: string)
    ensures var t := Stripped(line); t == [] || (!IsEdge(t[0]) && !IsEdge(t[|t| - 1]))
  {
    var s := line[IndentOf(line)..];
    StripLeftStart(s);
    StripRightEnd(StripLeft(s));
  }

  lemma {:induction false} IndentOfTabs(n: nat, text: string)
    requires text == [] || !IsIndent(text[0])
    ensures IndentOf(Tabs(n) + text) == n
  {
    var line := Tabs(n) + text;
    if n > 0 {
      assert line[1..] == Tabs(n - 1) + text;
      IndentOfTabs(n - 1, text);
    } else {
      assert line == text;
    }
  }

  /** Putting tabs in front of stripped text: that many columns of indent, and the same text. */
  lemma TabsAndText(n: nat, line: string)
    requires IsCode(line)
    ensures var out := Tabs(n) + Stripped(line);
      IndentOf(out) == n && Stripped(out) == Stripped(line) && IsCode(out)
  {
    var t := Stripped(line);
    var out := Tabs(n) + t;
    StrippedEnds(line);
    IndentOfTabs(n, t);
    assert out[n..] == t;
    StripLeftStart(t);
    assert StripLeft(t) == t && StripRight(t) == t;
  }

  // ----- Stacks

  /** Strictly increasing and positive: what every run's stack is. */
  predicate Increasing(stack: Stack) {
    && (stack != [] ==> stack[0] > 0)
    && forall i, j :: 0 <= i < j < |stack| ==> stack[i] < stack[j]
  }

  lemma NextIncreasing(stack: Stack, indent: nat)
    requires Increasing(stack)
    ensures Increasing(Next(stack, indent))
    ensures Next(stack, indent) == [] || Top(Next(stack, indent)) == indent
    ensures indent > Top(stack) ==> |Next(stack, indent)| == |stack| + 1
    ensures indent == Top(stack) ==> Next(stack, indent) == stack
    ensures indent < Top(stack) ==> |Next(stack, indent)| <= |stack|
  {
    if indent < Top(stack) {
      var popped := PopAbove(stack, indent);
      assert popped != stack;
    }
  }

  lemma {:induction false} StackIncreasing(shapes: seq<Shape>, n: nat)
    requires n <= |shapes|
    ensures Increasing(StackAfter(shapes, n))
    decreases n
  {
    if n > 0 {
      StackIncreasing(shapes, n - 1);
      if shapes[n - 1].Code? {
        NextIncreasing(StackAfter(shapes, n - 1), shapes[n - 1].indent);
      }
    }
  }

  // ----- Depths

  /** Lines `i` and `j` are code and nothing between them is. */
  predicate Neighbours(shapes: seq<Shape>, i: nat, j: nat) {
    i < j < |shapes| && shapes[i].Code? && shapes[j].Code? && forall k :: i < k < j ==> shapes[k].Other?
  }

  /** The line's own column is the top of the stack after it; not so for a line dedented to a column that was never opened. */
  predicate Settled(shapes: seq<Shape>, i: nat)
    requires i < |shapes| && shapes[i].Code?
  {
    Top(StackAfter(shapes, i + 1)) == shapes[i].indent
  }

  lemma {:induction false} StackUnchangedBetween(shapes: seq<Shape>, i: nat, j: nat)
    requires i <= j <= |shapes| && forall k :: i <= k < j ==> shapes[k].Other?
    ensures StackAfter(shapes, j) == StackAfter(shapes, i)
    decreases j
  {
    if i < j {
      StackUnchangedBetween(shapes, i, j - 1);
    }
  }

  /**
    How the depth moves from one line of code to the next: one tab deeper for a deeper line, and never
    deeper otherwise when the first line is settled; a line of equal indent keeps the depth exactly
    when the first is settled.
   */
  lemma DepthSteps(shapes: seq<Shape>, i: nat, j: nat)
    requires Neighbours(shapes, i, j)
    ensures shapes[j].indent > shapes[i].indent ==> Depth(shapes, j) == Depth(shapes, i) + 1
    ensures shapes[j].indent == shapes[i].indent ==> (Depth(shapes, j) == Depth(shapes, i) <==> Settled(shapes, i))
    ensures shapes[j].indent <= shapes[i].indent && Settled(shapes, i) ==> Depth(shapes, j) <= Depth(shapes, i)
    ensures Settled(shapes, i) <==> Depth(shapes, i) > 0 || shapes[i].indent == 0
  {
    StackIncreasing(shapes, i);
    NextIncreasing(StackAfter(shapes, i), shapes[i].indent);
    StackUnchangedBetween(shapes, i + 1, j);
    NextIncreasing(StackAfter(shapes, j), shapes[j].indent);
  }

  // ----- The second run

  /** The columns 1 to n. */
  function Steps(n: nat): Stack { seq(n, i => i + 1) }

  /**
    One step of both runs: where the first moves from a stack to the next by a column, the second moves
    from [1..depth] to [1..new depth] by the new depth as its column.
   */
  lemma NextSteps(stack: Stack, indent: nat)
    requires Increasing(stack)
    ensures Next(Steps(|stack|), |Next(stack, indent)|) == Steps(|Next(stack, indent)|)
  {
    var n, m := |stack|, |Next(stack, indent)|;
    NextIncreasing(stack, indent);
    if m < n {
      PopSteps(n, m);
    }
  }

  lemma {:induction false} PopSteps(n: nat, m: nat)
    requires m <= n
    ensures PopAbove(Steps(n), m) == Steps(m)
    decreases n
  {
    if m < n {
      assert Steps(n)[..n - 1] == Steps(n - 1);
      PopSteps(n - 1, m);
    }
  }

  /** The shapes of the lines that the first run leaves. */
  function Reshaped(shapes: seq<Shape>, from: int, to: int): (r: seq<Shape>)
    ensures |r| == |shapes|
    ensures forall i :: 0 <= i < |shapes| ==>
              r[i] == if Rewritten(shapes, from, to, i) then Code(Depth(shapes, i)) else shapes[i]
  {
    seq(|shapes|, i requires 0 <= i < |shapes| =>
      if Rewritten(shapes, from, to, i) then Code(Depth(shapes, i)) else shapes[i])
  }

  /** The first line that is rewritten, or the end of the file if none is. */
  function FirstRewritten(shapes: seq<Shape>, from: int, to: int, n: nat): (f: nat)
    requires n <= |shapes|
    ensures n <= f <= |shapes|
    ensures forall i :: n <= i < f ==> !Rewritten(shapes, from, to, i)
    ensures f < |shapes| ==> Rewritten(shapes, from, to, f)
    decreases |shapes| - n
  {
    if n == |shapes| || Rewritten(shapes, from, to, n) then n else FirstRewritten(shapes, from, to, n + 1)
  }

  /** A column that is the depth it leads to: `d` tabs, measured under the columns in force, make a line `d` deep. */
  predicate Fits(stack: Stack, d: nat) {
    || d == 0
    || (d == 1 && (stack == [] || stack[0] == 1))
    || (d >= 2 && Steps(d - 1) <= stack)
  }

  /** The condition under which a range stays put: the first line rewritten fits under the columns in force above it. */
  predicate Stable(shapes: seq<Shape>, from: int, to: int) {
    var f := FirstRewritten(shapes, from, to, 0);
    f == |shapes| || Fits(StackAfter(shapes, f), Depth(shapes, f))
  }

  lemma {:induction false} PopBound(stack: Stack, indent: nat)
    requires Increasing(stack)
    ensures forall i :: |PopAbove(stack, indent)| <= i < |stack| ==> stack[i] > indent
  {
    if stack != [] && Top(stack) > indent {
      PopBound(stack[..|stack| - 1], indent);
    }
  }

  /** An increasing stack of `d` positive columns that ends in `d` is [1..d]. */
  lemma {:induction false} ExactSteps(stack: Stack)
    requires Increasing(stack) && (stack == [] || Top(stack) == |stack|)
    ensures stack == Steps(|stack|)
  {
    if |stack| > 1 {
      var front := stack[..|stack| - 1];
      LengthAtMostTop(front);
      ExactSteps(front);
    }
  }

  lemma {:induction false} LengthAtMostTop(stack: Stack)
    requires Increasing(stack)
    ensures |stack| <= Top(stack)
  {
    if |stack| > 1 {
      LengthAtMostTop(stack[..|stack| - 1]);
    }
  }

  /** A column fits exactly when the stack it leads to has that depth, and then that stack is [1..d]. */
  lemma FitsExactly(stack: Stack, d: nat)
    requires Increasing(stack) && d <= |stack| + 1
    ensures |Next(stack, d)| == d <==> Fits(stack, d)
    ensures Fits(stack, d) ==> Next(stack, d) == Steps(d)
  {
    NextIncreasing(stack, d);
    var popped := PopAbove(stack, d);
    PopBound(stack, d);
    if |Next(stack, d)| == d {
      ExactSteps(Next(stack, d));
      if d >= 2 {
        StepsBelow(stack, d);
      }
    }
    if Fits(stack, d) {
      FitsLength(stack, d);
      ExactSteps(Next(stack, d));
    }
  }

  lemma StepsBelow(stack: Stack, d: nat)
    requires Increasing(stack) && d >= 2 && Next(stack, d) == Steps(d)
    ensures Steps(d - 1) <= stack
  {
    assert Steps(d)[..d - 1] == Steps(d - 1);
    assert Next(stack, d)[..d - 1] <= stack by {
      if d < Top(stack) {
        var popped := PopAbove(stack, d);
        assert popped <= stack;
      }
    }
  }

  lemma FitsLength(stack: Stack, d: nat)
    requires Increasing(stack) && d <= |stack| + 1 && Fits(stack, d)
    ensures |Next(stack, d)| == d
  {
    var popped := PopAbove(stack, d);
    PopBound(stack, d);
    if d >= 2 {
      assert stack[d - 2] == Steps(d - 1)[d - 2] == d - 1;
      LengthAtMostTop(stack);
      LengthAtMostTop(popped);
      assert |popped| == d - 1 ==> Top(popped) == stack[d - 2];
    }
  }

  lemma {:induction false} BeforeTheRange(shapes: seq<Shape>, from: int, to: int, n: nat)
    requires n <= FirstRewritten(shapes, from, to, 0)
    ensures StackAfter(Reshaped(shapes, from, to), n) == StackAfter(shapes, n)
    decreases n
  {
    if n > 0 {
      BeforeTheRange(shapes, from, to, n - 1);
    }
  }

  /** The simulation: past the first line rewritten, the second run's stack is [1..depth] if that line fits. */
  lemma {:induction false} SecondRunStack(shapes: seq<Shape>, from: int, to: int, n: nat)
    requires FirstRewritten(shapes, from, to, 0) < n <= |shapes| && n <= to + 1 && Stable(shapes, from, to)
    ensures StackAfter(Reshaped(shapes, from, to), n) == Steps(|StackAfter(shapes, n)|)
    decreases n
  {
    var f := FirstRewritten(shapes, from, to, 0);
    StackIncreasing(shapes, n - 1);
    if n - 1 == f {
      SecondRunFirst(shapes, from, to);
    } else {
      SecondRunStack(shapes, from, to, n - 1);
      if shapes[n - 1].Code? {
        NextSteps(StackAfter(shapes, n - 1), shapes[n - 1].indent);
        assert Reshaped(shapes, from, to)[n - 1] == Code(Depth(shapes, n - 1));
      }
    }
  }

  /** What the second run makes of the first line rewritten. */
  lemma SecondRunFirst(shapes: seq<Shape>, from: int, to: int)
    requires FirstRewritten(shapes, from, to, 0) < |shapes|
    ensures var f := FirstRewritten(shapes, from, to, 0); var again := Reshaped(shapes, from, to);
      && StackAfter(again, f + 1) == Next(StackAfter(shapes, f), Depth(shapes, f))
      && (Depth(again, f) == Depth(shapes, f) <==> Stable(shapes, from, to))
      && (Stable(shapes, from, to) ==> StackAfter(again, f + 1) == Steps(Depth(shapes, f)))
  {
    var f := FirstRewritten(shapes, from, to, 0);
    StackIncreasing(shapes, f);
    NextIncreasing(StackAfter(shapes, f), shapes[f].indent);
    BeforeTheRange(shapes, from, to, f);
    FitsExactly(StackAfter(shapes, f), Depth(shapes, f));
  }

  /** So every line the first run rewrites is as deep in the second. */
  lemma SameDepthAgain(shapes: seq<Shape>, from: int, to: int, i: nat)
    requires i < |shapes| && Stable(shapes, from, to) && Rewritten(shapes, from, to, i)
    ensures Depth(Reshaped(shapes, from, to), i) == Depth(shapes, i)
    ensures Rewritten(Reshaped(shapes, from, to), from, to, i)
  {
    SecondRunStack(shapes, from, to, i + 1);
  }

  lemma ShapesOfIndented(lines: seq<string>, from: int, to: int)
    ensures Shapes(Indented(lines, from, to)) == Reshaped(Shapes(lines), from, to)
    ensures forall i :: 0 <= i < |lines| ==> Stripped(Indented(lines, from, to)[i]) == Stripped(lines[i])
  {
    forall i | 0 <= i < |lines|
      ensures ShapeOf(Indented(lines, from, to)[i]) == Reshaped(Shapes(lines), from, to)[i]
      ensures Stripped(Indented(lines, from, to)[i]) == Stripped(lines[i])
    {
      if Rewritten(Shapes(lines), from, to, i) {
        TabsAndText(Depth(Shapes(lines), i), lines[i]);
      }
    }
  }

  lemma IndentedTwice(lines: seq<string>, from: int, to: int)
    ensures Indented(Indented(lines, from, to), from, to) == Indented(lines, from, to) <==> Stable(Shapes(lines), from, to)
  {
    var out := Indented(lines, from, to);
    var shapes := Shapes(lines);
    ShapesOfIndented(lines, from, to);
    if Stable(shapes, from, to) {
      forall i | 0 <= i < |lines| ensures IndentedLine(out, from, to, i) == out[i] {
        if Rewritten(shapes, from, to, i) {
          SameDepthAgain(shapes, from, to, i);
        }
      }
    } else {
      var f := FirstRewritten(shapes, from, to, 0);
      SecondRunFirst(shapes, from, to);
      assert |IndentedLine(out, from, to, f)| != |out[f]|;
    }
  }

  // ----- Splitting and joining

  predicate OneLine(line: string) { '\n' !in line }

  lemma {:induction false} SplitJoin(lines: seq<string>)
    requires lines != [] && forall i :: 0 <= i < |lines| ==> OneLine(lines[i])
    ensures Split(Join(lines)) == lines
    decreases |lines|, |lines[0]|
  {
    var code := Join(lines);
    if |lines| == 1 && lines[0] == [] {
    } else if lines[0] == [] {
      assert code == ['\n'] + Join(lines[1..]);
      assert code[1..] == Join(lines[1..]);
      SplitJoin(lines[1..]);
    } else {
      var tail := [lines[0][1..]] + lines[1..];
      assert code[1..] == Join(tail) by {
        assert tail[1..] == lines[1..];
      }
      assert code[0] == lines[0][0];
      SplitJoin(tail);
      assert [code[0]] + tail[0] == lines[0];
      assert [lines[0]] + lines[1..] == lines;
    }
  }

  lemma {:induction false} SplitIsLines(code: string, i: nat)
    requires i < |Split(code)|
    ensures OneLine(Split(code)[i])
  {
    if code != [] {
      var rest := Split(code[1..]);
      if code[0] == '\n' {
        if i > 0 { SplitIsLines(code[1..], i - 1); }
      } else {
        SplitIsLines(code[1..], i);
      }
    }
  }

  lemma {:induction false} JoinSplit(code: string)
    ensures Join(Split(code)) == code
  {
    if code != [] {
      JoinSplit(code[1..]);
      var rest := Split(code[1..]);
      if code[0] == '\n' {
        assert ([[]] + rest)[1..] == rest;
      } else {
        var lines := [[code[0]] + rest[0]] + rest[1..];
        assert lines[1..] == rest[1..];
      }
    }
  }

  lemma {:induction false} StripSubset(s: string, c: char)
    requires c !in s
    ensures c !in StripLeft(s) && c !in StripRight(s)
  {
    if s != [] {
      if IsEdge(s[0]) { StripSubset(s[1..], c); }
      if IsEdge(s[|s| - 1]) { StripSubset(s[..|s| - 1], c); }
    }
  }

  lemma IndentedIsLines(lines: seq<string>, from: int, to: int, i: nat)
    requires i < |lines| && OneLine(lines[i])
    ensures OneLine(Indented(lines, from, to)[i])
  {
    var s := lines[i][IndentOf(lines[i])..];
    StripSubset(s, '\n');
    StripSubset(StripLeft(s), '\n');
  }

  lemma SplitOfIndented(code: string, from: int, to: int)
    ensures Split(AutoIndented(code, from, to)) == Indented(Split(code), from, to)
  {
    var lines := Split(code);
    forall i | 0 <= i < |lines| ensures OneLine(Indented(lines, from, to)[i]) {
      SplitIsLines(code, i);
      IndentedIsLines(lines, from, to, i);
    }
    SplitJoin(Indented(lines, from, to));
  }

  // ----- Main results

  /**
    Exactly when re-indenting twice is re-indenting once, for every script and every range: when nothing
    is rewritten, or the first line rewritten fits under the columns in force above it.
   */
  lemma IdempotentExactly(code: string, from: int, to: int)
    ensures AutoIndented(AutoIndented(code, from, to), from, to) == AutoIndented(code, from, to)
       <==> Stable(Shapes(Split(code)), from, to)
  {
    SplitOfIndented(code, from, to);
    SplitOfIndented(AutoIndented(code, from, to), from, to);
    IndentedTwice(Split(code), from, to);
  }

  /** So it is for a range that starts where the columns in force are 1 to n. */
  lemma Idempotent(code: string, from: int, to: int)
    requires var shapes := Shapes(Split(code)); var f := FirstRewritten(shapes, from, to, 0);
      StackAfter(shapes, f) == Steps(|StackAfter(shapes, f)|)
    ensures AutoIndented(AutoIndented(code, from, to), from, to) == AutoIndented(code, from, to)
  {
    var shapes := Shapes(Split(code));
    var f := FirstRewritten(shapes, from, to, 0);
    if f < |shapes| {
      StackIncreasing(shapes, f);
      NextIncreasing(StackAfter(shapes, f), shapes[f].indent);
      StepsFit(|StackAfter(shapes, f)|, Depth(shapes, f));
    }
    IdempotentExactly(code, from, to);
  }

  lemma StepsFit(n: nat, d: nat)
    requires d <= n + 1
    ensures Fits(Steps(n), d)
  {
    if d >= 2 {
      assert Steps(d - 1) == Steps(n)[..d - 1];
    }
  }

  /** And for every range from the first line on: no column is in force above the first line of code. */
  lemma WholeFileIdempotent(code: string, to: int)
    ensures AutoIndented(AutoIndented(code, 0, to), 0, to) == AutoIndented(code, 0, to)
  {
    var shapes := Shapes(Split(code));
    var f := FirstRewritten(shapes, 0, to, 0);
    if f < |shapes| {
      assert Rewritten(shapes, 0, to, f);
      forall k | 0 <= k < f ensures shapes[k].Other? {
        assert !Rewritten(shapes, 0, to, k);
      }
      StackUnchangedBetween(shapes, 0, f);
      Idempotent(code, 0, to);
    } else {
      IdempotentExactly(code, 0, to);
    }
  }

  /** Nothing but the indent changes: the lines stay as many, and each keeps its text. */
  lemma TextKept(code: string, from: int, to: int, i: nat)
    requires i < |Split(code)|
    ensures var before := Split(code); var after := Split(AutoIndented(code, from, to));
      && |after| == |before| && Stripped(after[i]) == Stripped(before[i])
      && (after[i] != before[i] ==> from <= i <= to && IsCode(before[i]))
      && (from <= i <= to && IsCode(before[i]) ==> IndentOf(after[i]) == Depth(Shapes(before), i))
  {
    SplitOfIndented(code, from, to);
    ShapesOfIndented(Split(code), from, to);
    var after := Indented(Split(code), from, to);
    assert Shapes(after)[i] == ShapeOf(after[i]);
  }

  /**
    A range that does not fit moves again: in every script whose first three lines open a block of more
    than two columns and one below it, re-indenting the third line alone puts it at two tabs, and doing
    so again puts it at none.
   */
  lemma PartialRangeMovesAgain(lines: seq<string>, m: nat, n: nat)
    requires |lines| >= 3 && Shapes(lines)[..3] == [Code(0), Code(m), Code(n)] && 2 < m < n
    ensures IndentOf(Indented(lines, 2, 2)[2]) == 2
    ensures IndentOf(Indented(Indented(lines, 2, 2), 2, 2)[2]) == 0
  {
    var once := Indented(lines, 2, 2);
    var twice := Indented(once, 2, 2);
    ShapesOfIndented(lines, 2, 2);
    ShapesOfIndented(once, 2, 2);
    BlockStack(Shapes(lines), m, n);
    assert Next([m], n) == [m] + [n];
    assert Shapes(once)[2] == Code(2);
    BlockStack(Shapes(once), m, 2);
    assert [m][..0] == [];
    assert PopAbove([m], 2) == PopAbove([], 2) == [];
    assert Shapes(twice)[2] == Code(0);
    assert ShapeOf(once[2]) == Shapes(once)[2] && ShapeOf(twice[2]) == Shapes(twice)[2];
  }

  lemma BlockStack(shapes: seq<Shape>, m: nat, n: nat)
    requires m > 0 && |shapes| >= 3 && shapes[0] == Code(0) && shapes[1] == Code(m) && shapes[2] == Code(n)
    ensures StackAfter(shapes, 3) == Next([m], n)
  {
    assert StackAfter(shapes, 1) == Next([], 0) == [];
    assert StackAfter(shapes, 2) == Next([], m) == [] + [m] == [m];
  }
}
