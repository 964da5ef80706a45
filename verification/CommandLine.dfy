/** Reading a command line and splitting it in place (task02/main.c): spaces become NULs in one
    buffer, and an array of offsets points at the words. */
module CommandLine {

  /** The result of getchar() stored in a signed char. */
  type Symbol = c: int | -128 <= c < 128

  const NUL: Symbol := 0
  const NEWLINE: Symbol := 10
  const SPACE: Symbol := 32
  const EOF: Symbol := -1

  const CMD_SIZE := 255
  const ARGV_SIZE := 25

  /** A null pointer in `argv`; other entries are offsets into `cmd`. */
  const NULL := -1

  predicate Terminator(c: Symbol) { c == NEWLINE || c == NUL || c == EOF }

  /** The characters before the first terminator, and no more than fit in the buffer. */
  function Text(input: seq<Symbol>, room: nat := CMD_SIZE - 1): (t: seq<Symbol>)
    ensures |t| <= room && t <= input
    ensures forall i :: 0 <= i < |t| ==> !Terminator(t[i])
    ensures |t| == room || |t| == |input| || Terminator(input[|t|])
  {
    if input == [] || room == 0 || Terminator(input[0]) then [] else [input[0]] + Text(input[1..], room - 1)
  }

  // ---- words ----

  /** Where the space-free run at position `i` ends. */
  function RunEnd(t: seq<Symbol>, i: nat): (n: nat)
    requires i <= |t|
    ensures i <= n <= |t| && (forall k :: i <= k < n ==> t[k] != SPACE) && (n < |t| ==> t[n] == SPACE)
    decreases |t| - i
  {
    if i == |t| || t[i] == SPACE then i else RunEnd(t, i + 1)
  }

  /** The maximal space-free runs from position `i` on. */
  function Runs(t: seq<Symbol>, i: nat): seq<seq<Symbol>>
    requires i <= |t|
    decreases |t| - i
  {
    if i == |t| then []
    else if t[i] == SPACE then Runs(t, i + 1)
    else [t[i..RunEnd(t, i)]] + Runs(t, RunEnd(t, i))
  }

  /** Word 0 is whatever precedes the first space, even if empty; then come the runs. */
  function Words(t: seq<Symbol>): seq<seq<Symbol>> {
    [t[..RunEnd(t, 0)]] + Runs(t, RunEnd(t, 0))
  }

  // ---- the offsets the loop records ----

  /** Offsets recorded from position `i` on; `gap` is the flag new_arg. */
  function StartsFrom(t: seq<Symbol>, i: nat, gap: bool): seq<int>
    decreases |t| - i
  {
    if i >= |t| then []
    else if t[i] == SPACE then StartsFrom(t, i + 1, true)
    else (if gap then [i] else []) + StartsFrom(t, i + 1, false)
  }

  function Starts(t: seq<Symbol>): seq<int> { [0] + StartsFrom(t, 0, false) }

  /** The buffer's content: spaces replaced by NULs. */
  function Blanked(t: seq<Symbol>): (b: seq<Symbol>)
    ensures |b| == |t| && forall i :: 0 <= i < |t| ==> b[i] == if t[i] == SPACE then NUL else t[i]
  {
    seq(|t|, i requires 0 <= i < |t| => if t[i] == SPACE then NUL else t[i])
  }

  /** At this offset the buffer holds `w` as a C string. */
  ghost predicate StringAt(b: seq<Symbol>, offset: int, w: seq<Symbol>) {
    && 0 <= offset && offset + |w| < |b|
    && b[offset..offset + |w|] == w && b[offset + |w|] == 0
    && forall i :: 0 <= i < |w| ==> w[i] != 0
  }

  ghost predicate NoNul(t: seq<Symbol>) { forall i :: 0 <= i < |t| ==> t[i] != NUL }

  /** `b` starts with the blanked text and its terminating NUL. */
  ghost predicate Holds(b: seq<Symbol>, t: seq<Symbol>) {
    |t| < |b| && b[..|t|] == Blanked(t) && b[|t|] == NUL
  }

  /** The string at a position is the text up to the next space. */
  lemma RunIsString(b: seq<Symbol>, t: seq<Symbol>, i: nat)
    requires Holds(b, t) && NoNul(t) && i <= |t|
    ensures StringAt(b, i, t[i..RunEnd(t, i)])
  {
    var n := RunEnd(t, i);
    forall k | i <= k < n
      ensures b[k] == t[k] != NUL
    {
      assert b[k] == b[..|t|][k];
    }
    assert b[i..n] == t[i..n];
    if n < |t| {
      assert b[n] == b[..|t|][n];
    }
  }

  /** Inside a word nothing is recorded until the next space. */
  lemma {:induction false} SkipRun(t: seq<Symbol>, i: nat)
    requires i <= |t|
    ensures StartsFrom(t, i, false) == StartsFrom(t, RunEnd(t, i), true)
    decreases |t| - i
  {
    if i < |t| && t[i] != SPACE {
      SkipRun(t, i + 1);
    }
  }

  ghost predicate PointAt(b: seq<Symbol>, starts: seq<int>, words: seq<seq<Symbol>>) {
    && |starts| == |words|
    && forall k :: 0 <= k < |starts| ==> StringAt(b, starts[k], words[k])
  }

  lemma PointAtCons(b: seq<Symbol>, i: nat, starts: seq<int>, word: seq<Symbol>, words: seq<seq<Symbol>>)
    requires PointAt(b, starts, words) && StringAt(b, i, word)
    ensures PointAt(b, [i] + starts, [word] + words)
  {
  }

  lemma {:induction false} StartsPointAtRuns(b: seq<Symbol>, t: seq<Symbol>, i: nat)
    requires Holds(b, t) && NoNul(t) && i <= |t|
    ensures PointAt(b, StartsFrom(t, i, true), Runs(t, i))
    decreases |t| - i
  {
    if i < |t| {
      if t[i] == SPACE {
        StartsPointAtRuns(b, t, i + 1);
      } else {
        var n := RunEnd(t, i);
        SkipRun(t, i + 1);
        RunIsString(b, t, i);
        StartsPointAtRuns(b, t, n);
        PointAtCons(b, i, StartsFrom(t, n, true), t[i..n], Runs(t, n));
      }
    }
  }

  /** The recorded offsets point at the words, in order. */
  lemma StartsPointAtWords(b: seq<Symbol>, t: seq<Symbol>)
    requires Holds(b, t) && NoNul(t)
    ensures PointAt(b, Starts(t), Words(t))
  {
    var n := RunEnd(t, 0);
    SkipRun(t, 0);
    RunIsString(b, t, 0);
    StartsPointAtRuns(b, t, n);
    PointAtCons(b, 0, StartsFrom(t, n, true), t[..n], Runs(t, n));
  }

  /** What the flag new_arg says before position `i`. */
  predicate Gap(t: seq<Symbol>, i: nat)
    requires i <= |t|
  {
    i > 0 && t[i - 1] == SPACE
  }

  /** The offsets recorded by the first `i` passes of the loop. */
  function StartsUpTo(t: seq<Symbol>, i: nat): seq<int>
    requires i <= |t|
  {
    if i == 0 then [0]
    else if t[i - 1] != SPACE && Gap(t, i - 1) then StartsUpTo(t, i - 1) + [i - 1]
    else StartsUpTo(t, i - 1)
  }

  lemma {:induction false} StartsSplit(t: seq<Symbol>, i: nat)
    requires i <= |t|
    ensures StartsUpTo(t, i) + StartsFrom(t, i, Gap(t, i)) == Starts(t)
    decreases i
  {
    if i > 0 {
      StartsSplit(t, i - 1);
      var rest := StartsFrom(t, i, Gap(t, i));
      if t[i - 1] != SPACE && Gap(t, i - 1) {
        assert StartsUpTo(t, i - 1) + ([i - 1] + rest) == StartsUpTo(t, i - 1) + [i - 1] + rest;
      } else {
        assert StartsFrom(t, i - 1, Gap(t, i - 1)) == rest;
      }
    }
  }

  /** `t` is the text of the line: up to a terminator, the end of input or the end of the buffer. */
  ghost predicate IsText(input: seq<Symbol>, t: seq<Symbol>) {
    && |t| < CMD_SIZE && |t| <= |input|
    && (forall i :: 0 <= i < |t| ==> t[i] == input[i] && !Terminator(t[i]))
    && (|t| == CMD_SIZE - 1 || |t| == |input| || Terminator(input[|t|]))
  }

  // ---- lines, in characters ----

  /** The code of a character, as getchar delivers it. */
  function Code(c: char): Symbol
    requires c < 128 as char
  {
    c as int
  }

  /** A line ends at a newline, at a zero byte and at the end of the input. */
  predicate Ends(c: Symbol) { c == Code('\n') || c == 0 || c == -1 }

  predicate Plain(w: seq<Symbol>) { forall i :: 0 <= i < |w| ==> w[i] != Code(' ') && !Ends(w[i]) }

  function Spaces(n: nat): seq<Symbol> { seq(n, _ => Code(' ')) }

  /** The words, each followed by its number of spaces. */
  function Spaced(words: seq<seq<Symbol>>, gaps: seq<nat>): seq<Symbol>
    requires |words| == |gaps|
  {
    if words == [] then [] else words[0] + (Spaces(gaps[0]) + Spaced(words[1..], gaps[1..]))
  }

  /** Words without spaces or line ends, set apart by at least one space each; none but the first
      is empty. */
  ghost predicate IsSpacing(words: seq<seq<Symbol>>, gaps: seq<nat>) {
    && |words| == |gaps| > 0
    && (forall k :: 0 <= k < |words| ==> Plain(words[k]))
    && (forall k :: 1 <= k < |words| ==> words[k] != [])
    && (forall k :: 0 <= k < |words| - 1 ==> gaps[k] > 0)
  }

  /** The input begins with the line that these words and spaces make; the line is ended, or as
      long as the buffer allows. */
  ghost predicate IsLine(input: seq<Symbol>, words: seq<seq<Symbol>>, gaps: seq<nat>) {
    IsSpacing(words, gaps) &&
    var t := Spaced(words, gaps);
    && |t| <= 254 && t <= input
    && (|t| == 254 || |t| == |input| || Ends(input[|t|]))
  }

  ghost predicate SpaceFree(w: seq<Symbol>) { forall i :: 0 <= i < |w| ==> w[i] != SPACE }

  /** Words are found wherever the text stands. */
  lemma {:induction false} RunEndShift(a: seq<Symbol>, t: seq<Symbol>, i: nat)
    requires i <= |t|
    ensures RunEnd(a + t, |a| + i) == |a| + RunEnd(t, i)
    decreases |t| - i
  {
    if i < |t| && t[i] != SPACE {
      RunEndShift(a, t, i + 1);
    }
  }

  lemma {:induction false} RunsShift(a: seq<Symbol>, t: seq<Symbol>, i: nat)
    requires i <= |t|
    ensures Runs(a + t, |a| + i) == Runs(t, i)
    decreases |t| - i
  {
    if i < |t| {
      if t[i] == SPACE {
        RunsShift(a, t, i + 1);
      } else {
        var n := RunEnd(t, i);
        RunEndShift(a, t, i);
        RunsShift(a, t, n);
        assert (a + t)[|a| + i..|a| + n] == t[i..n];
        assert Runs(a + t, |a| + i) == [t[i..n]] + Runs(a + t, |a| + n);
      }
    }
  }

  /** The run at the start of a word that ends in a space or at the end of the text. */
  lemma FirstRun(w: seq<Symbol>, rest: seq<Symbol>)
    requires SpaceFree(w) && (rest != [] ==> rest[0] == SPACE)
    ensures RunEnd(w + rest, 0) == |w| && (w + rest)[..|w|] == w
    ensures Runs(w + rest, |w|) == Runs(rest, 0)
  {
    RunsShift(w, rest, 0);
  }

  lemma {:induction false} SkipSpaces(n: nat, t: seq<Symbol>, i: nat)
    requires i <= n
    ensures Runs(Spaces(n) + t, i) == Runs(t, 0)
    decreases n - i
  {
    if i == n {
      RunsShift(Spaces(n), t, 0);
    } else {
      SkipSpaces(n, t, i + 1);
    }
  }

  lemma SpacedFirst(words: seq<seq<Symbol>>, gaps: seq<nat>)
    requires IsSpacing(words, gaps)
    ensures var t, n := Spaced(words, gaps), |words[0]|;
            n <= |t| && RunEnd(t, 0) == n && t[..n] == words[0]
            && Runs(t, n) == Runs(Spaced(words[1..], gaps[1..]), 0)
  {
    var tail := Spaced(words[1..], gaps[1..]);
    var rest := Spaces(gaps[0]) + tail;
    assert Spaced(words, gaps) == words[0] + rest;
    FirstRun(words[0], rest);
    SkipSpaces(gaps[0], tail, 0);
  }

  lemma {:induction false} RunsOfSpaced(words: seq<seq<Symbol>>, gaps: seq<nat>)
    requires |words| == |gaps| && (words == [] || (IsSpacing(words, gaps) && words[0] != []))
    ensures Runs(Spaced(words, gaps), 0) == words
    decreases |words|
  {
    if words != [] {
      SpacedFirst(words, gaps);
      assert Spaced(words, gaps)[0] == words[0][0];
      RunsOfSpaced(words[1..], gaps[1..]);
    }
  }

  /** Splitting words set apart by any number of spaces returns the words. Only the first may be
      empty: then the line begins with spaces. */
  lemma WordsOfSpaced(words: seq<seq<Symbol>>, gaps: seq<nat>)
    requires IsSpacing(words, gaps)
    ensures Words(Spaced(words, gaps)) == words
  {
    SpacedFirst(words, gaps);
    RunsOfSpaced(words[1..], gaps[1..]);
  }

  lemma {:induction false} SpacedIsPlain(words: seq<seq<Symbol>>, gaps: seq<nat>)
    requires |words| == |gaps| && forall k :: 0 <= k < |words| ==> Plain(words[k])
    ensures forall i :: 0 <= i < |Spaced(words, gaps)| ==> !Ends(Spaced(words, gaps)[i])
    decreases |words|
  {
    if words != [] {
      SpacedIsPlain(words[1..], gaps[1..]);
    }
  }

  lemma LineIsRead(input: seq<Symbol>, words: seq<seq<Symbol>>, gaps: seq<nat>)
    requires IsLine(input, words, gaps)
    ensures Text(input) == Spaced(words, gaps) && Words(Text(input)) == words
  {
    var t, u := Spaced(words, gaps), Text(input);
    SpacedIsPlain(words, gaps);
    WordsOfSpaced(words, gaps);
    assert |u| == |t| && u == input[..|t|] == t;
  }

  /** Lines 15-46: `argv` afterwards holds one string per word and then NULL. The terminator, or
      the first character that does not fit, is consumed as well. `fits` is false, and the model
      stops, where the code would write past the end of `argv`: exactly from the 25th word on.
      The second clause says the same of every way to write a line. */
  method ReadCommand(input: seq<Symbol>, cmd: array<Symbol>, argv: array<int>)
    returns (argc: nat, used: nat, fits: bool)
    requires cmd.Length == CMD_SIZE && argv.Length == ARGV_SIZE
    modifies cmd, argv
    ensures fits <==> |Words(Text(input))| < ARGV_SIZE
    ensures fits ==> argc == |Words(Text(input))| && argv[argc] == NULL
                     && PointAt(cmd[..], argv[..argc], Words(Text(input)))
                     && used == |Text(input)| + 1
    ensures forall words, gaps :: IsLine(input, words, gaps) ==>
              && (fits <==> |words| <= 24)
              && (fits ==> argc == |words| && argv[argc] == -1 && used == |Spaced(words, gaps)| + 1
                           && forall k :: 0 <= k < |words| ==> StringAt(cmd[..], argv[k], words[k]))
  {
    WordsAreStarts(Text(input));
    argc, used, fits := SplitLine(input, cmd, argv, Text(input));
    forall words, gaps | IsLine(input, words, gaps)
      ensures Text(input) == Spaced(words, gaps) && Words(Text(input)) == words
    {
      LineIsRead(input, words, gaps);
    }
  }

  /** The character loop. */
  method SplitLine(input: seq<Symbol>, cmd: array<Symbol>, argv: array<int>, ghost t: seq<Symbol>)
    returns (argc: nat, used: nat, fits: bool)
    requires cmd.Length == CMD_SIZE && argv.Length == ARGV_SIZE && IsText(input, t)
    modifies cmd, argv
    ensures fits <==> |Starts(t)| < ARGV_SIZE
    ensures fits ==> argc == |Starts(t)| && argv[argc] == NULL && PointAt(cmd[..], argv[..argc], Words(t))
                     && used == |t| + 1
  {
    argc := 0;
    argv[0] := 0;
    var i, newArg := 0, false;
    while true
      invariant i <= |t| && newArg == Gap(t, i)
      invariant argc + 1 == |StartsUpTo(t, i)| <= ARGV_SIZE
      invariant forall k :: 0 <= k < i ==> cmd[k] == if t[k] == SPACE then NUL else t[k]
      invariant forall k :: 0 <= k <= argc ==> argv[k] == StartsUpTo(t, i)[k]
      decreases |t| - i
    {
      var sym := if i < |input| then input[i] else EOF;
      if sym == NEWLINE || sym == NUL || sym == EOF || i == CMD_SIZE - 1 {
        cmd[i] := NUL;
        i := i + 1;
        break;
      }
      StartsSplit(t, i + 1);
      if sym == SPACE {
        cmd[i] := NUL;
        i := i + 1;
        newArg := true;
        continue;
      }
      if newArg {
        argc := argc + 1;
        if argc == ARGV_SIZE {
          return argc, i, false;
        }
        argv[argc] := i;
        newArg := false;
      }
      cmd[i] := sym;
      i := i + 1;
    }
    StartsSplit(t, |t|);
    argc := argc + 1;
    if argc == ARGV_SIZE {
      return argc, i, false;
    }
    argv[argc] := NULL;
    used, fits := i, true;
    LoopResult(cmd, argv, argc, t);
  }

  lemma LoopResult(cmd: array<Symbol>, argv: array<int>, argc: nat, t: seq<Symbol>)
    requires |t| < cmd.Length && NoNul(t) && cmd[|t|] == NUL
    requires forall k :: 0 <= k < |t| ==> cmd[k] == if t[k] == SPACE then NUL else t[k]
    requires argc == |Starts(t)| <= argv.Length && forall k :: 0 <= k < argc ==> argv[k] == Starts(t)[k]
    ensures PointAt(cmd[..], argv[..argc], Words(t))
  {
    assert cmd[..][..|t|] == Blanked(t);
    assert argv[..argc] == Starts(t);
    StartsPointAtWords(cmd[..], t);
  }

  lemma WordsAreStarts(t: seq<Symbol>)
    requires NoNul(t)
    ensures |Starts(t)| == |Words(t)|
  {
    var b := Blanked(t) + [NUL];
    assert b[..|t|] == Blanked(t);
    StartsPointAtWords(b, t);
  }
}
