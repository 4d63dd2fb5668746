/**
  Re-indentation told by the characters of a script: which columns its lines are read at, and where the
  lines of a block come to stand (src/safegdscript/script_language_safegdscript.cpp:1313-1341).
 */
module IndentedBlocks {
  import opened AutoIndent

  // ----- Lines

  ghost predicate Blanks(s: string) { forall i :: 0 <= i < |s| ==> s[i] == ' ' || s[i] == '\t' }

  ghost predicate Edges(s: string) { forall i :: 0 <= i < |s| ==> s[i] <= ' ' }

  /** The parts of a line that is not blank: blanks, further edges, the text, and edges again. */
  datatype Parts = Parts(blanks: string, before: string, text: string, after: string) {
    function Line(): string { blanks + (before + (text + after)) }

    ghost predicate Valid() {
      && Blanks(blanks) && Edges(before) && Edges(after)
      && (before == [] || (before[0] != ' ' && before[0] != '\t'))
      && text != [] && text[0] > ' ' && text[|text| - 1] > ' '
    }
  }

  /** The line is `text` behind `column` spaces and tabs. */
  ghost predicate Reads(line: string, column: nat, text: string) {
    exists p: Parts :: p.Valid() && p.Line() == line && |p.blanks| == column && p.text == text
  }

  ghost predicate ReadsCode(line: string, column: nat, text: string) { Reads(line, column, text) && text[0] != '#' }

  /** A line without text, or one whose text is a comment. */
  ghost predicate Quiet(line: string) {
    Edges(line) || exists column: nat, text :: Reads(line, column, text) && text[0] == '#'
  }

  lemma {:induction false} IndentOfBlanks(blanks: string, text: string)
    requires Blanks(blanks) && (text == [] || (text[0] != ' ' && text[0] != '\t'))
    ensures IndentOf(blanks + text) == |blanks|
    decreases |blanks|
  {
    var line := blanks + text;
    if blanks == [] {
      assert line == text;
    } else {
      assert line[1..] == blanks[1..] + text;
      IndentOfBlanks(blanks[1..], text);
    }
  }

  lemma {:induction false} StripLeftEdges(before: string, text: string)
    requires Edges(before) && (text == [] || text[0] > ' ')
    ensures StripLeft(before + text) == text
    decreases |before|
  {
    var s := before + text;
    if before == [] {
      assert s == text;
    } else {
      assert s[1..] == before[1..] + text;
      StripLeftEdges(before[1..], text);
    }
  }

  lemma {:induction false} StripRightEdges(text: string, after: string)
    requires Edges(after) && (text == [] || text[|text| - 1] > ' ')
    ensures StripRight(text + after) == text
    decreases |after|
  {
    var s := text + after;
    if after == [] {
      assert s == text;
    } else {
      assert s[..|s| - 1] == text + after[..|after| - 1];
      StripRightEdges(text, after[..|after| - 1]);
    }
  }

  /** What a line is read as, from its characters alone. */
  lemma LineRead(p: Parts)
    requires p.Valid()
    ensures IndentOf(p.Line()) == |p.blanks| && Stripped(p.Line()) == p.text
    ensures IsCode(p.Line()) <==> p.text[0] != '#'
  {
    var rest := p.before + (p.text + p.after);
    IndentOfBlanks(p.blanks, rest);
    assert p.Line()[|p.blanks|..] == rest;
    StripLeftEdges(p.before, p.text + p.after);
    StripRightEdges(p.text, p.after);
  }

  lemma ReadsShape(line: string, column: nat, text: string)
    requires Reads(line, column, text)
    ensures Stripped(line) == text
    ensures ShapeOf(line) == if text[0] == '#' then Other else Code(column)
  {
    var p: Parts :| p.Valid() && p.Line() == line && |p.blanks| == column && p.text == text;
    LineRead(p);
  }

  lemma {:induction false} StripLeftSuffix(s: string) returns (n: nat)
    ensures n <= |s| && StripLeft(s) == s[n..] && Edges(s[..n])
  {
    n := 0;
    if s != [] && IsEdge(s[0]) {
      n := StripLeftSuffix(s[1..]);
      n := n + 1;
      assert s[1..][n - 1..] == s[n..];
      assert forall i :: 1 <= i < n ==> s[..n][i] == s[1..][..n - 1][i - 1];
    }
  }

  lemma {:induction false} StripRightPrefix(s: string)
    ensures StripRight(s) <= s && Edges(s[|StripRight(s)|..])
  {
    if s != [] && IsEdge(s[|s| - 1]) {
      var init := s[..|s| - 1];
      StripRightPrefix(init);
      var n := |StripRight(init)|;
      assert forall i :: 0 <= i < |init| - n ==> s[n..][i] == init[n..][i];
    }
  }

  lemma {:induction false} IndentIsBlanks(line: string)
    ensures Blanks(line[..IndentOf(line)])
    ensures IndentOf(line) < |line| ==> line[IndentOf(line)] != ' ' && line[IndentOf(line)] != '\t'
  {
    if line != [] && IsIndent(line[0]) {
      IndentIsBlanks(line[1..]);
      var n := IndentOf(line);
      assert forall i :: 1 <= i < n ==> line[..n][i] == line[1..][..n - 1][i - 1];
    }
  }

  /** Every line is of one of these kinds, and the shape says of which. */
  lemma LineKinds(line: string)
    ensures Quiet(line) <==> ShapeOf(line).Other?
    ensures ShapeOf(line).Code? ==> ReadsCode(line, IndentOf(line), Stripped(line))
  {
    if Edges(line) {
      EdgesAreOther(line);
    } else {
      var p := PartsOf(line);
      LineRead(p);
      assert Reads(line, |p.blanks|, p.text);
      if Quiet(line) {
        var column: nat, text :| Reads(line, column, text) && text[0] == '#';
        ReadsShape(line, column, text);
      }
    }
  }

  lemma EdgesAreOther(line: string)
    requires Edges(line)
    ensures ShapeOf(line).Other?
  {
    var rest := line[IndentOf(line)..];
    StripLeftEdges(rest, []);
    assert rest + [] == rest;
  }

  lemma PartsOf(line: string) returns (p: Parts)
    requires !Edges(line)
    ensures p.Valid() && p.Line() == line
  {
    var n := IndentOf(line);
    IndentIsBlanks(line);
    var before, text, after := TextOf(line[n..]);
    p := Parts(line[..n], before, text, after);
    assert line == line[..n] + line[n..];
    if text == [] {
      EdgesJoin(line[..n], before, text + after);
    }
  }

  /** Edges, then what starts and ends without one, then edges. */
  lemma TextOf(rest: string) returns (before: string, text: string, after: string)
    ensures rest == before + (text + after) && Edges(before) && Edges(after)
    ensures before != [] ==> before[0] == rest[0]
    ensures if text == [] then Edges(text + after) else text[0] > ' ' && text[|text| - 1] > ' '
  {
    var k := StripLeftSuffix(rest);
    before := rest[..k];
    StripLeftStart(rest);
    var s := StripLeft(rest);
    StripRightPrefix(s);
    StripRightEnd(s);
    text, after := StripRight(s), s[|StripRight(s)|..];
    assert text + after == s;
  }

  lemma EdgesJoin(a: string, b: string, c: string)
    requires Blanks(a) && Edges(b) && Edges(c)
    ensures Edges(a + (b + c))
  {
  }

  // ----- Blocks

  /** Lines `i` and `j` read as code and no line between them does. */
  ghost predicate Adjacent(lines: seq<string>, i: nat, m: nat, s: string, j: nat, n: nat, t: string) {
    && i < j < |lines| && ReadsCode(lines[i], m, s) && ReadsCode(lines[j], n, t)
    && forall k :: i < k < j ==> Quiet(lines[k])
  }

  /** The line is that text behind that many tabs. */
  predicate Stands(line: string, d: nat, text: string) { line == Tabs(d) + text }

  /** Where a line of code comes to stand. */
  lemma CodeStands(code: string, to: int, i: nat, m: nat, s: string)
    requires i < |Split(code)| && i <= to && ReadsCode(Split(code)[i], m, s)
    ensures |Split(AutoIndented(code, 0, to))| == |Split(code)|
    ensures Stands(Split(AutoIndented(code, 0, to))[i], Depth(Shapes(Split(code)), i), s)
    ensures Shapes(Split(code))[i] == Code(m)
  {
    SplitOfIndented(code, 0, to);
    ReadsShape(Split(code)[i], m, s);
  }

  /**
    Two lines of code with none between them: the second, if it has more spaces and tabs in front of it,
    comes to stand one tab deeper than the first, and if it has as many, and the first has none or
    comes to stand behind a tab, under it.
   */
  lemma NextLineStands(code: string, to: int, i: nat, m: nat, s: string, j: nat, n: nat, t: string) returns (d: nat)
    requires Adjacent(Split(code), i, m, s, j, n, t) && j <= to
    ensures var after := Split(AutoIndented(code, 0, to));
      && |after| == |Split(code)|
      && Stands(after[i], d, s)
      && (n > m ==> Stands(after[j], d + 1, t))
      && (n == m && (d > 0 || m == 0) ==> Stands(after[j], d, t))
      && (n < m && d > 0 ==> exists e: nat :: e <= d && Stands(after[j], e, t))
  {
    var shapes := Shapes(Split(code));
    CodeStands(code, to, i, m, s);
    CodeStands(code, to, j, n, t);
    forall k | i < k < j ensures shapes[k].Other? {
      LineKinds(Split(code)[k]);
    }
    DepthSteps(shapes, i, j);
    d := Depth(shapes, i);
  }

  /** The first line of code stands at no tab if it is at column 0, and at one tab if not. */
  lemma FirstLineStands(code: string, to: int, i: nat, m: nat, s: string)
    requires i < |Split(code)| && i <= to && ReadsCode(Split(code)[i], m, s)
    requires forall k :: 0 <= k < i ==> Quiet(Split(code)[k])
    ensures i < |Split(AutoIndented(code, 0, to))|
    ensures Stands(Split(AutoIndented(code, 0, to))[i], if m == 0 then 0 else 1, s)
  {
    var shapes := Shapes(Split(code));
    CodeStands(code, to, i, m, s);
    forall k | 0 <= k < i ensures shapes[k].Other? {
      LineKinds(Split(code)[k]);
    }
    StackUnchangedBetween(shapes, 0, i);
  }

  /** A blank line or a comment stays as it is, and what stands in its place makes no difference to other lines. */
  lemma QuietLines(lines: seq<string>, from: int, to: int, i: nat, line: string)
    requires i < |lines| && Quiet(lines[i]) && Quiet(line)
    ensures Indented(lines[i := line], from, to) == Indented(lines, from, to)[i := line]
  {
    LineKinds(lines[i]);
    LineKinds(line);
    assert Shapes(lines[i := line]) == Shapes(lines);
  }

  /** Between `i` and `j` there is only code deeper than `m`. */
  ghost predicate OnlyDeeper(shapes: seq<Shape>, i: nat, j: nat, m: nat)
    requires j <= |shapes|
  {
    forall k :: i < k < j && shapes[k].Code? ==> shapes[k].indent > m
  }

  /** While the code is deeper than its top, a stack stays below what is pushed. */
  lemma NextAbove(base: Stack, stack: Stack, indent: nat)
    requires Increasing(stack) && base <= stack && indent > Top(base)
    ensures base <= Next(stack, indent)
  {
    if indent < Top(stack) {
      PopKeeps(base, stack, indent);
    }
  }

  lemma {:induction false} PopKeeps(base: Stack, stack: Stack, indent: nat)
    requires base <= stack && indent >= Top(base)
    ensures base <= PopAbove(stack, indent)
  {
    if stack != [] && Top(stack) > indent {
      PopKeeps(base, stack[..|stack| - 1], indent);
    }
  }

  lemma {:induction false} DeeperAbove(shapes: seq<Shape>, i: nat, j: nat)
    requires i < j <= |shapes| && OnlyDeeper(shapes, i, j, Top(StackAfter(shapes, i + 1)))
    ensures StackAfter(shapes, i + 1) <= StackAfter(shapes, j)
    decreases j
  {
    if i + 1 < j {
      DeeperAbove(shapes, i, j - 1);
      StackIncreasing(shapes, j - 1);
      if shapes[j - 1].Code? {
        NextAbove(StackAfter(shapes, i + 1), StackAfter(shapes, j - 1), shapes[j - 1].indent);
      }
    }
  }

  /** Back at the top of a stack that is still there, that is the stack again. */
  lemma NextBack(base: Stack, stack: Stack)
    requires Increasing(stack) && base <= stack
    ensures Next(stack, Top(base)) == base
  {
    PopKeeps(base, stack, Top(base));
    PopBound(stack, Top(base));
  }

  /**
    The lines of one block line up: code at the column of an earlier line, with only deeper code between
    them, comes to stand at that line's depth, if that one has column 0 or stands behind a tab.
   */
  lemma SiblingsAlign(code: string, to: int, i: nat, s: string, j: nat, t: string, m: nat) returns (d: nat)
    requires i < j < |Split(code)| && j <= to && ReadsCode(Split(code)[i], m, s) && ReadsCode(Split(code)[j], m, t)
    requires forall k, n: nat, u :: i < k < j && ReadsCode(Split(code)[k], n, u) ==> n > m
    ensures var after := Split(AutoIndented(code, 0, to));
      |after| == |Split(code)| && Stands(after[i], d, s) && (d > 0 || m == 0 ==> Stands(after[j], d, t))
  {
    var shapes := Shapes(Split(code));
    CodeStands(code, to, i, m, s);
    CodeStands(code, to, j, m, t);
    d := Depth(shapes, i);
    if d > 0 || m == 0 {
      StackIncreasing(shapes, i);
      NextIncreasing(StackAfter(shapes, i), m);
      forall k | i < k < j && shapes[k].Code? ensures shapes[k].indent > m {
        LineKinds(Split(code)[k]);
      }
      DeeperAbove(shapes, i, j);
      StackIncreasing(shapes, j);
      NextBack(StackAfter(shapes, i + 1), StackAfter(shapes, j));
    }
  }

  // ----- Lines that open a block and the lines in it

  /** The stack is `base` and, above it, columns that are no less than `n`. */
  predicate Over(base: Stack, stack: Stack, n: nat) {
    base <= stack && forall k :: |base| <= k < |stack| ==> stack[k] >= n
  }

  lemma NextOver(base: Stack, stack: Stack, n: nat, indent: nat)
    requires Increasing(stack) && Over(base, stack, n) && Top(base) < n <= indent
    ensures Over(base, Next(stack, indent), n)
  {
    NextAbove(base, stack, indent);
  }

  lemma NextOpens(base: Stack, stack: Stack, n: nat)
    requires Increasing(stack) && Over(base, stack, n) && base != [] && Top(base) < n
    ensures Next(stack, n) == base + [n]
  {
    NextAbove(base, stack, n);
    NextOver(base, stack, n, n);
    NextIncreasing(stack, n);
    var now := Next(stack, n);
    assert |now| > |base|;
    assert now[|base|] <= Top(now) == n;
    assert |now| == |base| + 1;
  }

  lemma {:induction false} StackOver(shapes: seq<Shape>, i: nat, j: nat, n: nat)
    requires i < j <= |shapes| && Top(StackAfter(shapes, i + 1)) < n && OnlyDeeper(shapes, i, j, n - 1)
    ensures Over(StackAfter(shapes, i + 1), StackAfter(shapes, j), n)
    decreases j
  {
    if i + 1 < j {
      StackOver(shapes, i, j - 1, n);
      StackIncreasing(shapes, j - 1);
      if shapes[j - 1].Code? {
        NextOver(StackAfter(shapes, i + 1), StackAfter(shapes, j - 1), n, shapes[j - 1].indent);
      }
    }
  }

  /**
    A line of a block comes to stand one tab deeper than the line that opens it, whatever deeper blocks
    lie between them, also where it is dedented to a column that none of those was at.
   */
  lemma ChildStands(code: string, to: int, i: nat, m: nat, s: string, j: nat, n: nat, t: string) returns (d: nat)
    requires i < j < |Split(code)| && j <= to && m < n && ReadsCode(Split(code)[i], m, s) && ReadsCode(Split(code)[j], n, t)
    requires forall k, l: nat, u :: i < k < j && ReadsCode(Split(code)[k], l, u) ==> l >= n
    ensures var after := Split(AutoIndented(code, 0, to));
      |after| == |Split(code)| && Stands(after[i], d, s) && (d > 0 ==> Stands(after[j], d + 1, t))
  {
    var shapes := Shapes(Split(code));
    CodeStands(code, to, i, m, s);
    CodeStands(code, to, j, n, t);
    d := Depth(shapes, i);
    if d > 0 {
      StackIncreasing(shapes, i);
      NextIncreasing(StackAfter(shapes, i), m);
      forall k | i < k < j && shapes[k].Code? ensures shapes[k].indent > n - 1 {
        LineKinds(Split(code)[k]);
      }
      StackOver(shapes, i, j, n);
      StackIncreasing(shapes, j);
      NextOpens(StackAfter(shapes, i + 1), StackAfter(shapes, j), n);
    }
  }
}
