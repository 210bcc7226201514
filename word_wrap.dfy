/**
 * Greedy word wrapping of help text.  The text written to the terminal is
 * modelled as the returned string.
 */
module TextWrap {
  import opened Helper

  /** A line's words as written: each followed by one space. */
  function LineText(words: seq<string>): string
  {
    if |words| == 0 then "" else LineText(words[..|words| - 1]) + words[|words| - 1] + " "
  }

  lemma {:induction false} LineTextAppend(a: seq<string>, b: seq<string>)
    ensures LineText(a + b) == LineText(a) + LineText(b)
  {
    if |b| > 0 {
      var n := |b| - 1;
      assert (a + b)[..|a + b| - 1] == a + b[..n];
      LineTextAppend(a, b[..n]);
    } else {
      assert a + b == a;
    }
  }

  /** A word added to a line adds the word and one space to its text. */
  lemma LineTextSnoc(line: seq<string>, w: string)
    ensures LineText(line + [w]) == LineText(line) + w + " "
  {
    assert (line + [w])[..|line|] == line;
  }

  /** The lines' texts with `sep` between consecutive lines. */
  function JoinLines(lines: seq<seq<string>>, sep: string): string
  {
    if |lines| == 0 then ""
    else if |lines| == 1 then LineText(lines[0])
    else JoinLines(lines[..|lines| - 1], sep) + sep + LineText(lines[|lines| - 1])
  }

  /** All the words of all the lines, in order. */
  function Flatten(lines: seq<seq<string>>): seq<string>
  {
    if |lines| == 0 then [] else Flatten(lines[..|lines| - 1]) + lines[|lines| - 1]
  }

  lemma {:induction false} FlattenCons(line: seq<string>, rest: seq<seq<string>>)
    ensures Flatten([line] + rest) == line + Flatten(rest)
  {
    if |rest| > 0 {
      var n := |rest| - 1;
      assert ([line] + rest)[..|rest|] == [line] + rest[..n];
      FlattenCons(line, rest[..n]);
    } else {
      assert [line] + rest == [line];
      assert [line][..0] == [];
    }
  }

  /**
   * The greedy packing of `words` after the current `line`, whose written
   * length (prefix included) is `len`: a word moves to a fresh line when
   * `len + |word| + 1` reaches `width`.  The line in progress stays the head of
   * the first line.
   */
  function PackFrom(width: int, prefixLen: int, words: seq<string>, line: seq<string>, len: int)
    : (lines: seq<seq<string>>)
    ensures |lines| >= 1 && line <= lines[0]
    decreases |words|
  {
    if |words| == 0 then [line]
    else if len + |words[0]| + 1 >= width then
      [line] + PackFrom(width, prefixLen, words[1..], [words[0]], prefixLen + |words[0]| + 1)
    else PackFrom(width, prefixLen, words[1..], line + [words[0]], len + |words[0]| + 1)
  }

  /**
   * The lines `para` writes `words` in, after a prefix of `prefixLen` characters:
   * all the words, in order, and nothing else.
   */
  function Pack(width: int, prefixLen: int, words: seq<string>): (lines: seq<seq<string>>)
    ensures |lines| >= 1 && Flatten(lines) == words
  {
    PackFromFlatten(width, prefixLen, words, [], prefixLen);
    assert [] + words == words;
    PackFrom(width, prefixLen, words, [], prefixLen)
  }

  /** The text of `para(prefix, ...)` for the given lines: each line starts with the prefix. */
  function Render(prefix: string, lines: seq<seq<string>>): (s: string)
    ensures |s| > |prefix| && s[..|prefix|] == prefix && s[|s| - 1] == '\n'
  {
    prefix + JoinLines(lines, "\n" + prefix) + "\n"
  }

  /** Packing neither drops, duplicates nor reorders words. */
  lemma {:induction false} PackFromFlatten(width: int, prefixLen: int, words: seq<string>, line: seq<string>, len: int)
    ensures Flatten(PackFrom(width, prefixLen, words, line, len)) == line + words
    decreases |words|
  {
    if |words| == 0 {
      assert Flatten([line]) == Flatten([line][..0]) + line;
    } else if len + |words[0]| + 1 >= width {
      PackFromFlatten(width, prefixLen, words[1..], [words[0]], prefixLen + |words[0]| + 1);
      FlattenCons(line, PackFrom(width, prefixLen, words[1..], [words[0]], prefixLen + |words[0]| + 1));
      assert line + ([words[0]] + words[1..]) == line + words;
    } else {
      PackFromFlatten(width, prefixLen, words[1..], line + [words[0]], len + |words[0]| + 1);
      assert (line + [words[0]]) + words[1..] == line + words;
    }
  }

  /**
   * Word `j` of a line was placed without a break: the line up to and
   * including it stayed below `width`.  The first word of a line started by a
   * break is exempt.
   */
  ghost predicate Placed(width: int, prefixLen: int, line: seq<string>, first: bool)
  {
    forall j :: 0 <= j < |line| && (first || j > 0) ==>
      prefixLen + |LineText(line[..j])| + |line[j]| + 1 < width
  }

  /** Every line after the first was started by a break, and the break rule held there. */
  ghost predicate Breaks(width: int, prefixLen: int, lines: seq<seq<string>>)
  {
    forall k :: 0 < k < |lines| ==>
      |lines[k]| >= 1 && prefixLen + |LineText(lines[k - 1])| + |lines[k][0]| + 1 >= width
  }

  /** The greedy line breaking `para` performs. */
  ghost predicate Greedy(width: int, prefixLen: int, lines: seq<seq<string>>)
  {
    |lines| >= 1 && Breaks(width, prefixLen, lines) &&
    forall k :: 0 <= k < |lines| ==> Placed(width, prefixLen, lines[k], k == 0)
  }

  lemma PlacedSnoc(width: int, prefixLen: int, line: seq<string>, first: bool, w: string)
    requires Placed(width, prefixLen, line, first)
    requires (first || |line| > 0) ==> prefixLen + |LineText(line)| + |w| + 1 < width
    ensures Placed(width, prefixLen, line + [w], first)
  {
    forall j | 0 <= j < |line| + 1 && (first || j > 0)
      ensures prefixLen + |LineText((line + [w])[..j])| + |(line + [w])[j]| + 1 < width
    {
      if j < |line| {
        assert (line + [w])[..j] == line[..j];
      } else {
        assert (line + [w])[..j] == line;
      }
    }
  }

  /**
   * `lines` continue a line in progress that held `line`: the greedy rule holds
   * for all of them, the first line is judged as `first` says.
   */
  ghost predicate GreedyFrom(width: int, prefixLen: int, lines: seq<seq<string>>, line: seq<string>, first: bool)
  {
    |lines| >= 1 && Breaks(width, prefixLen, lines) &&
    Placed(width, prefixLen, lines[0], first) && line <= lines[0] &&
    forall k :: 0 < k < |lines| ==> Placed(width, prefixLen, lines[k], false)
  }

  /** A line closed because the next line's first word does not fit keeps the break rule. */
  lemma BreaksCons(width: int, prefixLen: int, line: seq<string>, rest: seq<seq<string>>)
    requires |rest| >= 1 && |rest[0]| >= 1 && Breaks(width, prefixLen, rest)
    requires prefixLen + |LineText(line)| + |rest[0][0]| + 1 >= width
    ensures Breaks(width, prefixLen, [line] + rest)
  {
    var r := [line] + rest;
    forall k | 0 < k < |r|
      ensures |r[k]| >= 1 && prefixLen + |LineText(r[k - 1])| + |r[k][0]| + 1 >= width
    {
      assert r[k] == rest[k - 1];
      if k > 1 {
        assert r[k - 1] == rest[k - 2];
      }
    }
  }

  /** A line closed because `w` does not fit, followed by greedy lines starting with `w`, keeps the break rule. */
  lemma BreakBefore(width: int, prefixLen: int, line: seq<string>, first: bool, w: string, rest: seq<seq<string>>)
    requires prefixLen + |LineText(line)| + |w| + 1 >= width
    requires Placed(width, prefixLen, line, first)
    requires GreedyFrom(width, prefixLen, rest, [w], false)
    ensures GreedyFrom(width, prefixLen, [line] + rest, line, first)
  {
    var r := [line] + rest;
    assert rest[0][0] == w;
    BreaksCons(width, prefixLen, line, rest);
    forall k | 0 < k < |r| ensures Placed(width, prefixLen, r[k], false) {
      assert r[k] == rest[k - 1];
    }
    assert r[0] == line;
  }

  /** A word that fits joins the line in progress, and the greedy rule carries over. */
  lemma GreedyJoinStep(width: int, prefixLen: int, words: seq<string>, line: seq<string>, len: int, first: bool)
    requires |words| >= 1 && len + |words[0]| + 1 < width
    requires GreedyFrom(width, prefixLen,
      PackFrom(width, prefixLen, words[1..], line + [words[0]], len + |words[0]| + 1), line + [words[0]], first)
    ensures GreedyFrom(width, prefixLen, PackFrom(width, prefixLen, words, line, len), line, first)
  {
    assert line <= line + [words[0]];
  }

  /** A word that does not fit closes the line in progress and starts the next. */
  lemma GreedyBreakStep(width: int, prefixLen: int, words: seq<string>, line: seq<string>, len: int, first: bool)
    requires |words| >= 1 && len + |words[0]| + 1 >= width
    requires len == prefixLen + |LineText(line)| && Placed(width, prefixLen, line, first)
    requires GreedyFrom(width, prefixLen,
      PackFrom(width, prefixLen, words[1..], [words[0]], prefixLen + |words[0]| + 1), [words[0]], false)
    ensures GreedyFrom(width, prefixLen, PackFrom(width, prefixLen, words, line, len), line, first)
  {
    var rest := PackFrom(width, prefixLen, words[1..], [words[0]], prefixLen + |words[0]| + 1);
    assert PackFrom(width, prefixLen, words, line, len) == [line] + rest;
    BreakBefore(width, prefixLen, line, first, words[0], rest);
  }

  /** A line holding just `w` is placed by the rule, and its text is `w` and a space. */
  lemma PlacedSingle(width: int, prefixLen: int, w: string)
    ensures LineText([w]) == w + " "
    ensures Placed(width, prefixLen, [w], false)
  {
    assert [w][..0] == [];
  }

  /** The packing from a line in progress keeps the greedy rule for that line and all later ones. */
  lemma {:induction false} PackFromGreedy(width: int, prefixLen: int, words: seq<string>, line: seq<string>,
                                          len: int, first: bool)
    requires len == prefixLen + |LineText(line)|
    requires Placed(width, prefixLen, line, first)
    requires !first ==> |line| >= 1
    ensures GreedyFrom(width, prefixLen, PackFrom(width, prefixLen, words, line, len), line, first)
    decreases |words|
  {
    if |words| == 0 {
      assert PackFrom(width, prefixLen, words, line, len) == [line];
    } else {
      var w := words[0];
      if len + |w| + 1 >= width {
        PlacedSingle(width, prefixLen, w);
        PackFromGreedy(width, prefixLen, words[1..], [w], prefixLen + |w| + 1, false);
        GreedyBreakStep(width, prefixLen, words, line, len, first);
      } else {
        LineTextSnoc(line, w);
        PlacedSnoc(width, prefixLen, line, first, w);
        PackFromGreedy(width, prefixLen, words[1..], line + [w], len + |w| + 1, first);
        GreedyJoinStep(width, prefixLen, words, line, len, first);
      }
    }
  }

  /** `Pack` breaks lines greedily, and only where the break rule demands it. */
  lemma PackGreedy(width: int, prefixLen: int, words: seq<string>)
    ensures Greedy(width, prefixLen, Pack(width, prefixLen, words))
  {
    PackFromGreedy(width, prefixLen, words, [], prefixLen, true);
  }

  /** A line placed by the rule with two or more words stays below `width`. */
  lemma PlacedFits(width: int, prefixLen: int, line: seq<string>, first: bool)
    requires Placed(width, prefixLen, line, first) && |line| >= 2
    ensures prefixLen + |LineText(line)| < width
  {
    var j := |line| - 1;
    assert prefixLen + |LineText(line[..j])| + |line[j]| + 1 < width;
  }

  /** Only a line holding a single overlong word can reach `width`. */
  lemma PackLinesFit(width: int, prefixLen: int, words: seq<string>)
    ensures var lines := Pack(width, prefixLen, words);
      forall k :: 0 <= k < |lines| && |lines[k]| >= 2 ==> prefixLen + |LineText(lines[k])| < width
  {
    var lines := Pack(width, prefixLen, words);
    PackGreedy(width, prefixLen, words);
    forall k | 0 <= k < |lines| && |lines[k]| >= 2
      ensures prefixLen + |LineText(lines[k])| < width
    {
      PlacedFits(width, prefixLen, lines[k], k == 0);
    }
  }

  /** When the first word does not fit after the prefix, the first line holds the prefix alone. */
  lemma PackFirstLine(width: int, prefixLen: int, words: seq<string>)
    requires |words| >= 1
    ensures var lines := Pack(width, prefixLen, words);
      prefixLen + |words[0]| + 1 >= width ==>
        |lines| >= 2 && lines[0] == [] && |lines[1]| >= 1 && lines[1][0] == words[0]
    ensures var lines := Pack(width, prefixLen, words);
      prefixLen + |words[0]| + 1 < width ==> |lines| >= 1 && |lines[0]| >= 1 && lines[0][0] == words[0]
  {
    var w := words[0];
    if prefixLen + |w| + 1 >= width {
      var rest := PackFrom(width, prefixLen, words[1..], [w], prefixLen + |w| + 1);
      assert Pack(width, prefixLen, words) == [[]] + rest;
    } else {
      assert [] + [w] == [w];
    }
  }

  /** The lines joined with nothing between them are the words, each followed by a space. */
  lemma {:induction false} JoinLinesUnbroken(lines: seq<seq<string>>)
    requires |lines| >= 1
    ensures JoinLines(lines, "") == LineText(Flatten(lines))
  {
    var n := |lines| - 1;
    if n == 0 {
      assert Flatten(lines) == Flatten(lines[..0]) + lines[0];
      assert Flatten(lines[..0]) == [];
      assert [] + lines[0] == lines[0];
    } else {
      var init := lines[..n];
      JoinLinesUnbroken(init);
      assert Flatten(lines) == Flatten(init) + lines[n];
      LineTextAppend(Flatten(init), lines[n]);
      calc {
        JoinLines(lines, "");
        JoinLines(init, "") + "" + LineText(lines[n]);
        { assert JoinLines(init, "") + "" == JoinLines(init, ""); }
        LineText(Flatten(init)) + LineText(lines[n]);
        LineText(Flatten(lines));
      }
    }
  }

  /** Taking out every inserted line break and prefix leaves each word followed by one space. */
  lemma RenderUnbroken(width: int, prefix: string, words: seq<string>)
    ensures prefix + JoinLines(Pack(width, |prefix|, words), "") + "\n" == prefix + LineText(words) + "\n"
  {
    PackGreedy(width, |prefix|, words);
    JoinLinesUnbroken(Pack(width, |prefix|, words));
  }

  /** Adding a word to the last line adds its text at the end. */
  lemma JoinLinesExtend(lines: seq<seq<string>>, line: seq<string>, w: string, sep: string)
    ensures JoinLines(lines + [line + [w]], sep) == JoinLines(lines + [line], sep) + w + " "
  {
    var n := |lines|;
    assert (line + [w])[..|line|] == line;
    assert (lines + [line + [w]])[..n] == lines;
    assert (lines + [line])[..n] == lines;
  }

  /** Starting a new line adds the separator; the new line is empty so far. */
  lemma JoinLinesNewLine(lines: seq<seq<string>>, sep: string)
    requires |lines| >= 1
    ensures JoinLines(lines + [[]], sep) == JoinLines(lines, sep) + sep
  {
    assert (lines + [[]])[..|lines|] == lines;
    assert LineText([]) == "";
  }

  /** Word `i` does not fit on the current line: the line is closed and the word starts the next one. */
  lemma PackFromBreak(width: int, prefixLen: int, words: seq<string>, i: nat, line: seq<string>, len: int)
    requires i < |words| && len + |words[i]| + 1 >= width
    ensures PackFrom(width, prefixLen, words[i..], line, len) ==
      [line] + PackFrom(width, prefixLen, words[i + 1..], [] + [words[i]], prefixLen + |words[i]| + 1)
  {
    assert words[i..][0] == words[i];
    assert words[i..][1..] == words[i + 1..];
    assert [] + [words[i]] == [words[i]];
  }

  /** Word `i` fits: it joins the current line. */
  lemma PackFromJoin(width: int, prefixLen: int, words: seq<string>, i: nat, line: seq<string>, len: int)
    requires i < |words| && len + |words[i]| + 1 < width
    ensures PackFrom(width, prefixLen, words[i..], line, len) ==
      PackFrom(width, prefixLen, words[i + 1..], line + [words[i]], len + |words[i]| + 1)
  {
    assert words[i..][0] == words[i];
    assert words[i..][1..] == words[i + 1..];
  }

  /**
   * The state of `para` after `i` words: the finished lines `done`, the current
   * `line`, whose written length is `len`, and the text written so far.
   */
  ghost predicate Wrapped(width: int, prefix: string, words: seq<string>, i: int,
                          done: seq<seq<string>>, line: seq<string>, len: int, out: string)
  {
    0 <= i <= |words| && len == |prefix| + |LineText(line)| &&
    done + PackFrom(width, |prefix|, words[i..], line, len) == Pack(width, |prefix|, words) &&
    out == prefix + JoinLines(done + [line], "\n" + prefix)
  }

  lemma WrappedStart(width: int, prefix: string, words: seq<string>)
    ensures Wrapped(width, prefix, words, 0, [], [], |prefix|, prefix)
  {
    assert words[0..] == words;
    var none: seq<seq<string>> := [];
    assert none + [[]] == [[]];
    assert LineText([]) == "";
  }

  lemma WrappedBreak(width: int, prefix: string, words: seq<string>, i: int,
                     done: seq<seq<string>>, line: seq<string>, len: int, out: string)
    requires Wrapped(width, prefix, words, i, done, line, len, out)
    requires i < |words| && len + |words[i]| + 1 >= width
    ensures Wrapped(width, prefix, words, i + 1, done + [line], [words[i]], |prefix| + |words[i]| + 1,
                    out + "\n" + prefix + words[i] + " ")
  {
    var w := words[i];
    var sep := "\n" + prefix;
    var rest := PackFrom(width, |prefix|, words[i + 1..], [] + [w], |prefix| + |w| + 1);
    PackFromBreak(width, |prefix|, words, i, line, len);
    assert done + ([line] + rest) == (done + [line]) + rest;
    JoinLinesNewLine(done + [line], sep);
    JoinLinesExtend(done + [line], [], w, sep);
    assert LineText([] + [w]) == w + " " by {
      assert [] + [w] == [w];
      assert [w][..0] == [];
    }
  }

  lemma WrappedJoin(width: int, prefix: string, words: seq<string>, i: int,
                    done: seq<seq<string>>, line: seq<string>, len: int, out: string)
    requires Wrapped(width, prefix, words, i, done, line, len, out)
    requires i < |words| && len + |words[i]| + 1 < width
    ensures Wrapped(width, prefix, words, i + 1, done, line + [words[i]], len + |words[i]| + 1,
                    out + words[i] + " ")
  {
    var w := words[i];
    PackFromJoin(width, |prefix|, words, i, line, len);
    JoinLinesExtend(done, line, w, "\n" + prefix);
    assert LineText(line + [w]) == LineText(line) + w + " " by {
      assert (line + [w])[..|line|] == line;
    }
  }

  lemma WrappedEnd(width: int, prefix: string, words: seq<string>, i: int,
                   done: seq<seq<string>>, line: seq<string>, len: int, out: string)
    requires Wrapped(width, prefix, words, i, done, line, len, out) && i >= |words|
    ensures out + "\n" == Render(prefix, Pack(width, |prefix|, words))
  {
    assert words[i..] == [];
  }

  class WordWrap {
    const terminalWidth: int

    /** `WordWrap(terminal_width)`. */
    constructor (terminalWidth: int)
      ensures this.terminalWidth == terminalWidth
    {
      this.terminalWidth := terminalWidth;
    }

    /**
     * `para(prefix, str)`: the space-separated words of `str`, packed greedily
     * into lines that each start with `prefix`, then a final newline.
     */
    method Para(prefix: string, str: string) returns (out: string)
      ensures out == Render(prefix, Pack(terminalWidth, |prefix|, Split(str, " ")))
      ensures |out| > |prefix| && out[..|prefix|] == prefix && out[|out| - 1] == '\n'
    {
      var words := StringSplit(str, " ");
      var len := |prefix|;
      out := prefix;
      ghost var done: seq<seq<string>> := [];
      ghost var line: seq<string> := [];
      var i := 0;
      WrappedStart(terminalWidth, prefix, words);
      while i < |words|
        invariant Wrapped(terminalWidth, prefix, words, i, done, line, len, out)
        decreases |words| - i
      {
        var w := words[i];
        if len + |w| + 1 >= terminalWidth {
          WrappedBreak(terminalWidth, prefix, words, i, done, line, len, out);
          out := out + "\n" + prefix + w + " ";
          len := |prefix| + |w| + 1;
          done, line := done + [line], [w];
        } else {
          WrappedJoin(terminalWidth, prefix, words, i, done, line, len, out);
          out := out + w + " ";
          len := len + |w| + 1;
          line := line + [w];
        }
        i := i + 1;
      }
      WrappedEnd(terminalWidth, prefix, words, i, done, line, len, out);
      out := out + "\n";
    }

    /** `para(str)`: the same as `para("", str)`. */
    method ParaUnprefixed(str: string) returns (out: string)
      ensures out == Render("", Pack(terminalWidth, 0, Split(str, " ")))
    {
      out := Para("", str);
    }
  }
}
