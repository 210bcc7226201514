/**
 * The string helpers that carry the configuration grammar: splitting on a
 * delimiter, splitting at the first occurrence of a character, name=value
 * lists, lower-casing and the numeric checks.
 */
module Helper {
  import opened Wrappers
  import opened Decimal
  import opened CArith

  /** A configuration error: a token `std::stoi` rejects, or a surplus argument. */
  datatype ConfigError = InvalidNumber(token: string) | TooManyArguments

  /** `d` occurs in `text` starting at index `p`. */
  predicate MatchAt(text: string, d: string, p: int)
  {
    0 <= p && p + |d| <= |text| && text[p..p + |d|] == d
  }

  /** `text.find(d, from)`: the first occurrence of `d` at or after `from`; `None` is `npos`. */
  function Find(text: string, d: string, from: nat): (r: Option<nat>)
    ensures r.Some? ==> from <= r.value && MatchAt(text, d, r.value)
    decreases |text| - from
  {
    if from + |d| > |text| then None
    else if text[from..from + |d|] == d then Some(from)
    else Find(text, d, from + 1)
  }

  /** `find` reports the first occurrence: none lies between `from` and its answer, or after `from` at all if it fails. */
  lemma {:induction false} FindFirst(text: string, d: string, from: nat)
    ensures Find(text, d, from).Some? ==> forall q :: from <= q < Find(text, d, from).value ==> !MatchAt(text, d, q)
    ensures Find(text, d, from).None? ==> forall q :: from <= q ==> !MatchAt(text, d, q)
    decreases |text| - from
  {
    if from + |d| > |text| {
    } else if text[from..from + |d|] != d {
      FindFirst(text, d, from + 1);
    }
  }

  /** With an empty delimiter `find` succeeds where it started, so `string_split` never advances. */
  lemma EmptyDelimiterStalls(text: string, prev: nat)
    requires prev <= |text|
    ensures Find(text, "", prev) == Some(prev)
  {
  }

  /**
   * The pieces `string_split` pushes once its scan stands at `prev`: the text up to
   * each first occurrence of `d`, then the tail.
   */
  function SplitFrom(text: string, d: string, prev: nat): (pieces: seq<string>)
    requires d != [] && prev <= |text|
    ensures |pieces| >= 1
    decreases |text| - prev
  {
    match Find(text, d, prev)
    case Some(p) => [text[prev..p]] + SplitFrom(text, d, p + |d|)
    case None => [text[prev..]]
  }

  /** The vector `string_split(text, d)` returns: never empty, since the tail is always pushed. */
  function Split(text: string, d: string): (pieces: seq<string>)
    requires d != []
    ensures |pieces| >= 1
  {
    SplitFrom(text, d, 0)
  }

  /** The pieces glued back together with `d` between neighbours. */
  function Join(pieces: seq<string>, d: string): string
  {
    if |pieces| == 0 then ""
    else if |pieces| == 1 then pieces[0]
    else pieces[0] + d + Join(pieces[1..], d)
  }

  /** Gluing a first piece onto at least one more piece puts one delimiter between them. */
  lemma JoinCons(head: string, tail: seq<string>, d: string)
    requires |tail| >= 1
    ensures Join([head] + tail, d) == head + d + Join(tail, d)
  {
    assert ([head] + tail)[1..] == tail;
  }

  /** Joining the pieces with the delimiter reproduces the scanned text exactly. */
  lemma {:induction false} JoinSplitFrom(text: string, d: string, prev: nat)
    requires d != [] && prev <= |text|
    ensures Join(SplitFrom(text, d, prev), d) == text[prev..]
    decreases |text| - prev
  {
    match Find(text, d, prev)
    case Some(p) =>
      JoinSplitFrom(text, d, p + |d|);
      JoinSplitStep(text, d, prev, p);
    case None =>
      assert SplitFrom(text, d, prev) == [text[prev..]];
  }

  /** One delimiter found at `p`: if the rest joins back to its text, so does the whole scan. */
  lemma JoinSplitStep(text: string, d: string, prev: nat, p: nat)
    requires d != [] && prev <= |text| && Find(text, d, prev) == Some(p)
    requires Join(SplitFrom(text, d, p + |d|), d) == text[p + |d|..]
    ensures Join(SplitFrom(text, d, prev), d) == text[prev..]
  {
    var head, rest := text[prev..p], SplitFrom(text, d, p + |d|);
    SplitFromFound(text, d, prev, p);
    JoinCons(head, rest, d);
    SliceAround(text, prev, p, p + |d|);
    assert text[p..p + |d|] == d;
    calc {
      Join(SplitFrom(text, d, prev), d);
      Join([head] + rest, d);
      head + d + Join(rest, d);
      head + text[p..p + |d|] + text[p + |d|..];
      text[prev..];
    }
  }

  /** An occurrence found at `p` ends the first piece there; the scan resumes after the delimiter. */
  lemma SplitFromFound(text: string, d: string, prev: nat, p: nat)
    requires d != [] && prev <= |text| && Find(text, d, prev) == Some(p)
    ensures SplitFrom(text, d, prev) == [text[prev..p]] + SplitFrom(text, d, p + |d|)
  {
  }

  /** A suffix cut at two later points is the three slices in order. */
  lemma SliceAround(text: string, i: nat, j: nat, k: nat)
    requires i <= j <= k <= |text|
    ensures text[i..] == text[i..j] + text[j..k] + text[k..]
  {
  }

  /** Joining the pieces of `string_split(text, d)` with `d` gives back `text`. */
  lemma JoinSplit(text: string, d: string)
    requires d != []
    ensures Join(Split(text, d), d) == text
  {
    JoinSplitFrom(text, d, 0);
  }

  /** An occurrence inside a slice is an occurrence in the whole text, within the slice's bounds. */
  lemma MatchSlice(text: string, d: string, i: nat, j: nat, q: int)
    requires i <= j <= |text|
    ensures MatchAt(text[i..j], d, q) ==> MatchAt(text, d, i + q) && i + q + |d| <= j
  {
    if MatchAt(text[i..j], d, q) {
      var inner, outer := text[i..j][q..q + |d|], text[i + q..i + q + |d|];
      forall k | 0 <= k < |d| ensures inner[k] == outer[k] {
        assert inner[k] == text[i + q + k];
      }
      assert inner == outer;
    }
  }

  /** No piece pushed from `prev` on contains `d`. */
  lemma {:induction false} SplitFromAvoidsDelimiter(text: string, d: string, prev: nat)
    requires d != [] && prev <= |text|
    ensures forall k :: 0 <= k < |SplitFrom(text, d, prev)| ==> Find(SplitFrom(text, d, prev)[k], d, 0) == None
    decreases |text| - prev
  {
    FindFirst(text, d, prev);
    match Find(text, d, prev)
    case Some(p) =>
      SplitFromAvoidsDelimiter(text, d, p + |d|);
      forall q | 0 <= q ensures !MatchAt(text[prev..p], d, q) {
        MatchSlice(text, d, prev, p, q);
      }
      assert Find(text[prev..p], d, 0) == None;
    case None =>
      forall q | 0 <= q ensures !MatchAt(text[prev..|text|], d, q) {
        MatchSlice(text, d, prev, |text|, q);
      }
      assert text[prev..] == text[prev..|text|];
      assert Find(text[prev..], d, 0) == None;
  }

  /** No piece of `string_split(text, d)` contains `d`. */
  lemma SplitAvoidsDelimiter(text: string, d: string)
    requires d != []
    ensures forall k :: 0 <= k < |Split(text, d)| ==> Find(Split(text, d)[k], d, 0) == None
  {
    SplitFromAvoidsDelimiter(text, d, 0);
  }

  /** A one-character pattern matches exactly where that character stands. */
  lemma MatchChar(s: string, c: char, q: int)
    ensures MatchAt(s, [c], q) <==> 0 <= q < |s| && s[q] == c
  {
    if 0 <= q < |s| {
      assert s[q..q + 1] == [s[q]];
    }
  }

  /** A scan from `start` over text without `c` pushes the whole rest as the last piece. */
  lemma SplitFromLastPiece(text: string, c: char, start: nat)
    requires start <= |text| && c !in text[start..]
    ensures SplitFrom(text, [c], start) == [text[start..]]
  {
    forall q | start <= q ensures !MatchAt(text, [c], q) {
      MatchChar(text, c, q);
      if q < |text| { assert text[q] == text[start..][q - start]; }
    }
  }

  /** A scan from `start` whose first `c` stands at `at` pushes `text[start..at]` and resumes after it. */
  lemma SplitFromPiece(text: string, c: char, start: nat, at: nat)
    requires start <= at < |text| && text[at] == c && c !in text[start..at]
    ensures SplitFrom(text, [c], start) == [text[start..at]] + SplitFrom(text, [c], at + 1)
  {
    forall q | start <= q < at ensures !MatchAt(text, [c], q) {
      MatchChar(text, c, q);
      assert text[q] == text[start..at][q - start];
    }
    MatchChar(text, c, at);
    FindFirst(text, [c], start);
    assert Find(text, [c], start) == Some(at);
  }

  /** A text made of `head`, then `c`, then `tail` gives those three back by position. */
  lemma ConsParts(s: string, head: string, c: char, tail: string)
    requires s == head + [c] + tail
    ensures s[..|head|] == head && s[|head|] == c && s[|head| + 1..] == tail
  {
  }

  /** Where the first piece and the first delimiter of `text[start..] == Join([head] + rest, [c])` stand. */
  lemma JoinParts(text: string, start: nat, head: string, rest: seq<string>, c: char)
    requires start <= |text| && |rest| >= 1 && text[start..] == Join([head] + rest, [c])
    ensures start + |head| < |text| && text[start..start + |head|] == head && text[start + |head|] == c
    ensures text[start + |head| + 1..] == Join(rest, [c])
  {
    JoinCons(head, rest, [c]);
    var suffix := text[start..];
    ConsParts(suffix, head, c, Join(rest, [c]));
    assert text[start..start + |head|] == suffix[..|head|];
    assert text[start + |head|] == suffix[|head|];
    assert text[start + |head| + 1..] == suffix[|head| + 1..];
  }

  /** Scanning `text` from `start`, where `text[start..]` is `Join(pieces, [c])`, recovers `pieces`. */
  lemma {:induction false} SplitFromJoin(text: string, start: nat, pieces: seq<string>, c: char)
    requires start <= |text| && |pieces| >= 1
    requires forall k :: 0 <= k < |pieces| ==> c !in pieces[k]
    requires text[start..] == Join(pieces, [c])
    ensures SplitFrom(text, [c], start) == pieces
    decreases |pieces|
  {
    var head := pieces[0];
    if |pieces| == 1 {
      assert text[start..] == head;
      SplitFromLastPiece(text, c, start);
      assert pieces == [head];
    } else {
      var rest := pieces[1..];
      var at := start + |head|;
      assert pieces == [head] + rest;
      JoinParts(text, start, head, rest, c);
      assert forall k :: 0 <= k < |rest| ==> c !in rest[k] by {
        forall k | 0 <= k < |rest| ensures c !in rest[k] { assert rest[k] == pieces[k + 1]; }
      }
      SplitFromJoin(text, at + 1, rest, c);
      SplitFromCons(text, start, head, rest, c);
    }
  }

  /** A first piece without `c`, then `c`, then a scan that yields `rest`: the scan from `start` yields `[head] + rest`. */
  lemma SplitFromCons(text: string, start: nat, head: string, rest: seq<string>, c: char)
    requires start + |head| < |text| && text[start..start + |head|] == head && text[start + |head|] == c && c !in head
    requires SplitFrom(text, [c], start + |head| + 1) == rest
    ensures SplitFrom(text, [c], start) == [head] + rest
  {
    var at := start + |head|;
    SplitFromPiece(text, c, start, at);
    var first := text[start..at];
    assert first == head;
    assert [first] == [head];
  }

  /** Splitting on a one-character delimiter undoes joining pieces that do not contain it. */
  lemma SplitJoin(pieces: seq<string>, c: char)
    requires |pieces| >= 1
    requires forall k :: 0 <= k < |pieces| ==> c !in pieces[k]
    ensures Split(Join(pieces, [c]), [c]) == pieces
  {
    var text := Join(pieces, [c]);
    assert text[0..] == text;
    SplitFromJoin(text, 0, pieces, c);
  }

  /** Pushing the piece before a found delimiter keeps the pieces still to come in step. */
  lemma SplitFromStep(text: string, d: string, prev: nat, result: seq<string>)
    requires d != [] && prev <= |text| && Find(text, d, prev).Some?
    ensures var p := Find(text, d, prev).value;
      (result + [text[prev..p]]) + SplitFrom(text, d, p + |d|) == result + SplitFrom(text, d, prev)
  {
    var p := Find(text, d, prev).value;
    assert SplitFrom(text, d, prev) == [text[prev..p]] + SplitFrom(text, d, p + |d|);
  }

  /** `string_split(text, delimiter)`; an empty delimiter makes the source loop forever. */
  method StringSplit(text: string, delimiter: string) returns (result: seq<string>)
    requires delimiter != []
    ensures result == Split(text, delimiter)
    ensures |result| >= 1 && Join(result, delimiter) == text
    ensures forall k :: 0 <= k < |result| ==> Find(result[k], delimiter, 0) == None
  {
    result := [];
    var prev := 0;
    var pos := Find(text, delimiter, prev);
    while pos.Some?
      invariant prev <= |text|
      invariant pos == Find(text, delimiter, prev)
      invariant result + SplitFrom(text, delimiter, prev) == Split(text, delimiter)
      decreases |text| - prev
    {
      var piece := text[prev..pos.value];
      SplitFromStep(text, delimiter, prev, result);
      result := result + [piece];
      prev := pos.value + |delimiter|;
      pos := Find(text, delimiter, prev);
    }
    assert SplitFrom(text, delimiter, prev) == [text[prev..]];
    result := result + [text[prev..]];
    JoinSplit(text, delimiter);
    SplitAvoidsDelimiter(text, delimiter);
  }

  /**
   * `split_string_at(str, c, &lhs, &rhs)`; `rhs0` is what `*rhs` held before the call.
   * Without `c`, `lhs` is the whole string and `rhs` is left alone; otherwise the
   * string is cut at its first `c`.
   */
  method SplitStringAt(str: string, c: char, rhs0: string) returns (lhs: string, rhs: string)
    ensures c !in str ==> lhs == str && rhs == rhs0
    ensures c in str ==> lhs + [c] + rhs == str && c !in lhs
  {
    var p := Find(str, [c], 0);
    FindFirst(str, [c], 0);
    if p.None? {
      forall q | 0 <= q < |str| ensures str[q] != c { MatchChar(str, c, q); }
      lhs := str;
      rhs := rhs0;
    } else {
      var i := p.value;
      MatchChar(str, c, i);
      forall q | 0 <= q < i ensures str[q] != c { MatchChar(str, c, q); }
      lhs := str[..i];
      rhs := str[i + 1..];
      assert lhs + [c] + rhs == str;
    }
  }

  /** The two strings `process_name_value_string` passes for one comma-separated token. */
  predicate NameValue(token: string, name: string, value: string)
  {
    if '=' in token then name + "=" + value == token && '=' !in name
    else name == token && value == ""
  }

  /**
   * `process_name_value_string(str, func)`: the result lists the arguments of the
   * calls of `func`, one per comma-separated token, in order.
   */
  method ProcessNameValueString(str: string) returns (calls: seq<(string, string)>)
    ensures |calls| == |Split(str, ",")|
    ensures forall i :: 0 <= i < |calls| ==> NameValue(Split(str, ",")[i], calls[i].0, calls[i].1)
  {
    var tokens := StringSplit(str, ",");
    calls := [];
    for i := 0 to |tokens|
      invariant |calls| == i
      invariant forall k :: 0 <= k < i ==> NameValue(tokens[k], calls[k].0, calls[k].1)
    {
      var lhs, rhs := SplitStringAt(tokens[i], '=', "");
      calls := calls + [(lhs, rhs)];
    }
  }

  predicate IsUpper(c: char) { 'A' <= c <= 'Z' }

  /** `tolower` in the C locale. */
  function LowerChar(c: char): (r: char)
    ensures !IsUpper(r)
    ensures !IsUpper(c) ==> r == c
    ensures IsUpper(c) ==> r as int - c as int == 'a' as int - 'A' as int
  {
    if IsUpper(c) then (c as int + ('a' as int - 'A' as int)) as char else c
  }

  /**
   * `to_lower(str)`: the same length, every character through `tolower`; the result
   * is already lower-case, so lowering it again changes nothing.
   */
  method ToLower(str: string) returns (lower: string)
    ensures |lower| == |str|
    ensures forall i :: 0 <= i < |str| ==> lower[i] == LowerChar(str[i])
    ensures forall i :: 0 <= i < |lower| ==> LowerChar(lower[i]) == lower[i]
  {
    lower := str;
    var i := 0;
    while i < |lower|
      invariant 0 <= i <= |lower| == |str|
      invariant forall k :: 0 <= k < i ==> lower[k] == LowerChar(str[k])
      invariant forall k :: i <= k < |lower| ==> lower[k] == str[k]
    {
      lower := lower[i := LowerChar(lower[i])];
      i := i + 1;
    }
  }

  /** `is_number(str)`: every character is a decimal digit (so `""` is a number). */
  method IsNumber(str: string) returns (r: bool)
    ensures r <==> AllDigits(str)
  {
    var i := 0;
    while i < |str|
      invariant 0 <= i <= |str|
      invariant AllDigits(str[..i])
    {
      if !IsDigit(str[i]) {
        assert !AllDigits(str);
        return false;
      }
      assert str[..i + 1] == str[..i] + [str[i]];
      i := i + 1;
    }
    assert str[..i] == str;
    return true;
  }

  /**
   * `to_number(range, str)`: 0 for the empty string, `range * p / 100` (C++ division)
   * for `"<p>%"`, the decimal value otherwise; `None` where `std::stoi` throws.
   */
  function ToNumber(range: int, str: string): (r: Option<int>)
    ensures r.None? <==> |str| >= 1 && ParseInt(if str[|str| - 1] == '%' then str[..|str| - 1] else str).None?
  {
    if |str| == 0 then Some(0)
    else if str[|str| - 1] == '%' then
      match ParseInt(str[..|str| - 1])
      case Some(percent) => Some(TruncDiv(range * percent, 100))
      case None => None
    else ParseInt(str)
  }

  lemma ToNumberEmpty(range: int)
    ensures ToNumber(range, "") == Some(0)
  {
  }

  /** A percentage is that share of `range`, rounded toward zero. */
  lemma ToNumberPercent(range: int, p: int)
    ensures ToNumber(range, IntToString(p) + "%") == Some(TruncDiv(range * p, 100))
  {
    var s := IntToString(p) + "%";
    assert s[..|s| - 1] == IntToString(p);
    ParseIntToString(p);
  }

  /** A plain decimal number stands for itself. */
  lemma ToNumberDecimal(range: int, n: int)
    ensures ToNumber(range, IntToString(n)) == Some(n)
  {
    ParseIntToString(n);
    IntToStringChars(n);
    var s := IntToString(n);
    assert s[|s| - 1] != '%';
  }
}
