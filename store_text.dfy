/**
  The plaintext credential store as the Credential Writer sees it: a text
  file that Python's `readlines` splits into lines (each keeping its
  terminating '\n', the last one possibly without) and that `writelines`
  writes back as the plain concatenation of the lines.
 */
module StoreText {

  /** A line as `readlines` produces it: non-empty, with '\n' at most as its last character. */
  predicate IsLine(line: string) {
    line != [] && forall j :: 0 <= j < |line| - 1 ==> line[j] != '\n'
  }

  /** The line ends with its terminator. */
  predicate Terminated(line: string) {
    line != [] && line[|line| - 1] == '\n'
  }

  /** What `readlines` can return: lines, all terminated except perhaps the last. */
  predicate IsLineSequence(lines: seq<string>) {
    forall i :: 0 <= i < |lines| ==> IsLine(lines[i]) && (i < |lines| - 1 ==> Terminated(lines[i]))
  }

  /** The text ends with a line terminator, or is empty. */
  predicate EndsCleanly(text: string) {
    text == [] || text[|text| - 1] == '\n'
  }

  /** `writelines`: the lines written one after the other, no separator added. */
  function Concat(lines: seq<string>): (text: string)
    ensures lines != [] ==> lines[0] <= text
  {
    if lines == [] then []
    else
      var rest := Concat(lines[1..]);
      lines[0] + rest
  }

  lemma {:induction false} ConcatAppend(a: seq<string>, b: seq<string>)
    ensures Concat(a + b) == Concat(a) + Concat(b)
  {
    if a == [] {
      assert a + b == b;
    } else {
      assert (a + b)[1..] == a[1..] + b;
      ConcatAppend(a[1..], b);
    }
  }

  /** Length of the first line of a non-empty text: up to and including the first '\n', or the whole text. */
  function FirstLineLength(text: string): (n: nat)
    requires text != []
    ensures 0 < n <= |text|
    ensures forall j :: 0 <= j < n - 1 ==> text[j] != '\n'
    ensures text[n - 1] == '\n' || n == |text|
  {
    if text[0] == '\n' || |text| == 1 then 1 else 1 + FirstLineLength(text[1..])
  }

  /** `readlines`: the text cut after every '\n'. */
  function ReadLines(text: string): (lines: seq<string>)
    ensures Concat(lines) == text
    ensures IsLineSequence(lines)
    decreases |text|
  {
    if text == [] then []
    else
      var n := FirstLineLength(text);
      var rest := ReadLines(text[n..]);
      assert text == text[..n] + text[n..];
      assert ([text[..n]] + rest)[1..] == rest;
      assert rest == [] ==> n == |text|;
      [text[..n]] + rest
  }

  /** A text that ends cleanly reads back as lines that are all terminated. */
  lemma {:induction false} ReadLinesTerminated(text: string)
    requires EndsCleanly(text)
    ensures forall i :: 0 <= i < |ReadLines(text)| ==> Terminated(ReadLines(text)[i])
    decreases |text|
  {
    if text != [] {
      var n := FirstLineLength(text);
      assert text[n..] == [] || text[n..][|text[n..]| - 1] == text[|text| - 1];
      ReadLinesTerminated(text[n..]);
      var lines := ReadLines(text);
      assert lines[1..] == ReadLines(text[n..]);
      forall i | 0 <= i < |lines| ensures Terminated(lines[i]) {
        if i > 0 {
          assert lines[i] == lines[1..][i - 1];
        }
      }
    }
  }

  /** The first line of a concatenation is the first line written, when that one is terminated or alone. */
  lemma FirstLineOfConcat(line: string, rest: string)
    requires IsLine(line)
    requires Terminated(line) || rest == []
    ensures FirstLineLength(line + rest) == |line|
  {
    var text := line + rest;
    assert text[|line| - 1] == line[|line| - 1];
    assert forall j :: 0 <= j < |line| - 1 ==> text[j] == line[j];
  }

  /** Reading back what `writelines` wrote gives the same lines, for any sequence `readlines` could produce. */
  lemma {:induction false} ReadLinesOfConcat(lines: seq<string>)
    requires IsLineSequence(lines)
    ensures ReadLines(Concat(lines)) == lines
  {
    if lines != [] {
      var rest := Concat(lines[1..]);
      assert lines[1..] == [] ==> rest == [];
      FirstLineOfConcat(lines[0], rest);
      var text := lines[0] + rest;
      assert text[..|lines[0]|] == lines[0];
      assert text[|lines[0]|..] == rest;
      assert IsLineSequence(lines[1..]) by {
        forall i | 0 <= i < |lines[1..]|
          ensures IsLine(lines[1..][i]) && (i < |lines[1..]| - 1 ==> Terminated(lines[1..][i]))
        {
          assert lines[1..][i] == lines[i + 1];
        }
      }
      ReadLinesOfConcat(lines[1..]);
    }
  }

  /** Every line is a line and carries its terminator. */
  predicate AllTerminated(lines: seq<string>) {
    forall i :: 0 <= i < |lines| ==> IsLine(lines[i]) && Terminated(lines[i])
  }

  lemma ConcatSingle(line: string)
    ensures Concat([line]) == line
  {
    assert [line][1..] == [];
  }

  lemma ConcatPairText(first: string, second: string)
    ensures Concat([first, second]) == first + second
  {
    var lines := [first, second];
    assert lines[1..] == [second];
    ConcatSingle(second);
  }

  lemma ConcatThree(first: string, second: string, third: string)
    ensures Concat([first, second, third]) == first + second + third
  {
    var lines := [first, second, third];
    assert lines[1..] == [second, third];
    assert lines[1..][1..] == [third];
    ConcatSingle(third);
  }

  /** Text free of '\n' followed by '\n' is one terminated line. */
  lemma TerminatedLine(content: string)
    requires '\n' !in content
    ensures IsLine(content + "\n") && Terminated(content + "\n")
  {
    var line := content + "\n";
    forall j | 0 <= j < |line| - 1 ensures line[j] != '\n' {
      assert line[j] == content[j];
    }
  }

  /** Two texts free of '\n' joined are free of '\n'. */
  lemma NoNewlineJoin(first: string, second: string)
    requires '\n' !in first && '\n' !in second
    ensures '\n' !in first + second
  {
    var joined := first + second;
    forall j | 0 <= j < |joined| ensures joined[j] != '\n' {
      if j < |first| {
        assert joined[j] == first[j];
      } else {
        assert joined[j] == second[j - |first|];
      }
    }
  }

  /** A prefix and a text, both free of '\n', followed by '\n' make one terminated line. */
  lemma JoinedLine(prefix: string, content: string)
    requires '\n' !in prefix && '\n' !in content
    ensures IsLine(prefix + content + "\n") && Terminated(prefix + content + "\n")
  {
    NoNewlineJoin(prefix, content);
    TerminatedLine(prefix + content);
  }

  /** Three terminated lines joined read back as those three lines. */
  lemma ThreeLinesRead(first: string, second: string, third: string)
    requires IsLine(first) && Terminated(first)
    requires IsLine(second) && Terminated(second)
    requires IsLine(third) && Terminated(third)
    ensures ReadLines(first + second + third) == [first, second, third]
  {
    var lines := [first, second, third];
    assert AllTerminated(lines) by {
      forall i | 0 <= i < 3 ensures IsLine(lines[i]) && Terminated(lines[i]) {
        assert lines[i] == first || lines[i] == second || lines[i] == third;
      }
    }
    ConcatOfTerminated(lines);
    ConcatThree(first, second, third);
  }

  /** Terminated lines read back as themselves, and their text ends cleanly. */
  lemma ConcatOfTerminated(lines: seq<string>)
    requires AllTerminated(lines)
    ensures ReadLines(Concat(lines)) == lines
    ensures EndsCleanly(Concat(lines))
  {
    ReadLinesOfConcat(lines);
    if lines != [] {
      var n := |lines|;
      assert lines == lines[..n - 1] + [lines[n - 1]];
      ConcatAppend(lines[..n - 1], [lines[n - 1]]);
      ConcatSingle(lines[n - 1]);
      var text := Concat(lines);
      assert text == Concat(lines[..n - 1]) + lines[n - 1];
      assert text[|text| - 1] == lines[n - 1][|lines[n - 1]| - 1];
    }
  }

  /** The last line read from a text that does not end cleanly lacks its terminator. */
  lemma LastLineUnterminated(text: string)
    requires !EndsCleanly(text)
    ensures var lines := ReadLines(text);
      lines != [] && !Terminated(lines[|lines| - 1])
  {
    var lines := ReadLines(text);
    var n := |lines|;
    assert lines != [];
    assert lines == lines[..n - 1] + [lines[n - 1]];
    ConcatAppend(lines[..n - 1], [lines[n - 1]]);
    ConcatSingle(lines[n - 1]);
    assert text[|text| - 1] == lines[n - 1][|lines[n - 1]| - 1];
  }
}
