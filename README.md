# xboxdrv configuration and filter core, in Dafny

This project models the parts of the xboxdrv userspace gamepad driver that turn
configuration text into behaviour, and that rewrite controller state on every tick:

- **String helpers** (`src/helper.cpp`): `string_split`, `split_string_at`,
  `process_name_value_string`, `to_lower`, `is_number` and `to_number`. Between them
  they carry the configuration grammar: `:`-separated filter arguments,
  `^`-separated button filters and `,`/`=` name-value lists.
- **Button map modifier** (`src/modifier/buttonmap_modifier.cpp`). A mapping reads a
  source button, runs it through a chain of stateful button filters and ORs the result
  into a destination button. `update` first advances every filter, then releases
  every source button, then runs the OR pass. `add_filter` attaches a filter to a
  button.
- **Response-curve axis filter** (`src/axisfilter/response_curve_axis_filter.cpp`): a
  piecewise-linear curve through equally spaced samples, with its parser and its
  printer.
- **Relative-axis filter** (`src/axisfilter/relative_axis_filter.cpp`): integrates the
  axis deflection into a clamped position, with a one-argument parser and a printer.
- **Word wrap** (`src/word_wrap.cpp`): greedy wrapping of help text behind a prefix.
  The text written to the terminal is the method's result.

Modules:

| module | file | contents |
|---|---|---|
| `Wrappers` | `wrappers.dfy` | the `Option` and `Result` types |
| `CArith` | `c_arith.dfy` | C++ `int` division and the `float` to `int` cast |
| `Decimal` | `decimal.dfy` | `std::stoi` on `-?[0-9]+` and `ostream << int` |
| `Helper` | `helper.dfy` | the string helpers |
| `Normalization` | `normalization.dfy` | `to_float`, `to_float_no_range_check`, `from_float` over reals |
| `RelativeAxis` | `relative_axis_filter.dfy` | the relative-axis filter |
| `ResponseCurve` | `response_curve_axis_filter.dfy` | the response-curve filter |
| `ButtonMap` | `buttonmap_modifier.dfy` | button filters, mappings and the button map modifier |
| `TextWrap` | `word_wrap.dfy` | `WordWrap::para` |

The loops of the source are `method`s with loop invariants. Each is proved against
a function or predicate that specifies it:

- `StringSplit` against `Split`;
- `Para` against `Render(prefix, Pack(...))`;
- `ButtonmapModifier.Update` against `Occ`, `Sources` and `Fired`;
- `ResponseCurve.Str` against `Serialize`.

The properties the source promises are lemmas about those functions.

Objects whose fields the source updates are classes:

- `RelativeAxisFilter`, with fields `speed`, `floatSpeed`, `value` and `state`;
- `ButtonFilter`, which records every event it is given in `history`;
- `ButtonmapModifier`, which holds `mappings`.

Button filters are shared by reference. The proofs of `update` therefore track, for
every filter object, the events it received: first its ticks, then the values it was
asked to filter, in call order. A filter may sit in more than one chain, and the
proofs still hold then.

### Where the code departs from its evident intent

The model follows the code in each of these cases. The intent is read from the
source's own comments and defaults, cited with each case.

- `update` clears the **source** button of every mapping, not the destination
  (`src/modifier/buttonmap_modifier.cpp:71-74`). The comment at `:78-79` says the OR
  pass lets several buttons map to the same button. But a destination that is
  nobody's source is never cleared, so its incoming value is ORed in as well
  (`StaleDestinationKept`, `PressedAfterUpdate`).
- `add_filter` has no `return` after it extends a chain (`:98-113`). The comment at
  `:107` says the identity mapping `btn -> btn` is for a button "not already in the
  map", yet it is appended every time. A filter added for a button that already has a
  mapping then sits in two chains, and every later `update` advances that one filter
  twice (`AddedFilterAdvancedTwice`).
- The response curve has no clamp at the top of the range. The FIXME at
  `src/axisfilter/response_curve_axis_filter.cpp:46-47` says the edge conditions are
  not yet met. `filter(max)` computes bucket index `bucket_count` and reads
  `m_samples[bucket_count + 1]`, one past the end (`FilterAtMax`, `FilterAboveRange`).
  - Values less than one bucket below `min` truncate to bucket 0 and are
    extrapolated. Values further below give a negative index (`FilterBelowRange`).
  - `min == max` divides by zero (`FilterEmptyRange`).
- The relative-axis parser starts from a default speed of 20000
  (`src/axisfilter/relative_axis_filter.cpp:28`), but that default is never the result.
  `string_split` always yields a first token, and a bad first token throws
  (`ParseSpeedAccepts`, `ParseSpeed`).

## Model

| member | source | states |
|---|---|---|
| Helper.Find | src/helper.cpp:94 | `text.find(d, from)`: a reported position is at or after `from` and `d` occurs there |
| Helper.SplitFrom | src/helper.cpp:92-101 | the pieces pushed from a scan position on: at least one, since the tail is always pushed |
| Helper.Split | src/helper.cpp:88-104 | `string_split` never returns an empty vector |
| Helper.FindFirst | src/helper.cpp:94 | `find` reports the first occurrence at or after `from`; when it fails, `d` occurs nowhere from `from` on |
| Helper.EmptyDelimiterStalls | src/helper.cpp:94-96 | with an empty delimiter `find` succeeds where the scan stands, so `prev` never advances and `string_split` does not terminate |
| Helper.JoinSplit | src/helper.cpp:92-101 | joining the pieces with the delimiter gives back the text exactly |
| Helper.SplitAvoidsDelimiter | src/helper.cpp:94-96 | no piece contains the delimiter |
| Helper.SplitJoin | src/helper.cpp:88-104 | splitting on a one-character delimiter undoes joining pieces that do not contain it (the inverse direction of `JoinSplit`) |
| Helper.StringSplit | src/helper.cpp:88-104 | the loop over `find` returns `Split(text, delimiter)`: at least one piece, the pieces join back to `text`, none contains the delimiter |
| Helper.SplitStringAt | src/helper.cpp:77-86 | without `c`: `lhs` is the whole string and `rhs` keeps its old value; with `c`: `lhs + c + rhs == str` and `lhs` holds no `c` |
| Helper.ProcessNameValueString | src/helper.cpp:106-116 | one call per `,`-token, in order, with the part before the first `=` and the part after it, or the token and `""` when it has no `=` |
| Helper.LowerChar | src/helper.cpp:71 | `tolower` in the C locale: `A`-`Z` are shifted to `a`-`z`, other characters are unchanged, and no result is upper-case |
| Helper.ToLower | src/helper.cpp:66-75 | same length, each character through `tolower`, and lowering the result again changes nothing |
| Helper.IsNumber | src/helper.cpp:118-125 | true exactly when every character is a decimal digit, so `""` is a number |
| Helper.ToNumber | src/helper.cpp:127-138 | `to_number` fails exactly when the string is non-empty and its text without a trailing `%` is not a number |
| Helper.ToNumberEmpty | src/helper.cpp:128-129 | `to_number(range, "")` is 0 |
| Helper.ToNumberPercent | src/helper.cpp:131-133 | `"<p>%"` gives `range * p / 100` with C++ truncating division |
| Helper.ToNumberDecimal | src/helper.cpp:134-135 | a plain decimal number gives its value |
| CArith.TruncDiv | src/helper.cpp:133 | C++ `/` on `int`: the remainder is smaller than the divisor in magnitude and has the dividend's sign |
| CArith.Trunc | src/helper.cpp:167 | the implicit `float` to `int` conversion truncates toward zero |
| CArith.TruncBetween | src/helper.cpp:167 | truncating a value between two integers stays between them |
| Decimal.ParseIntToString | src/axisfilter/response_curve_axis_filter.cpp:30 | `std::stoi` reads back what `ostream << n` prints, for every `int` |
| Decimal.IntToStringChars | src/axisfilter/response_curve_axis_filter.cpp:67 | a printed integer is non-empty and holds only digits and a leading minus sign, so it contains no `:` |
| Decimal.ParseIntEmpty | src/axisfilter/response_curve_axis_filter.cpp:30 | `std::stoi("")` fails |
| Normalization.Center | src/helper.cpp:150 | for `min < max` the centre lies in `(min, max]` |
| Normalization.ToFloatNoRangeCheck | src/helper.cpp:146-160 | for `min < max` a value in `[min, max]` maps into `[-1, 1]` |
| Normalization.ToFloat | src/helper.cpp:162-164 | the result lies in `[-1, 1]` and equals the unclamped value whenever that is in range |
| Normalization.CenterIsZero | src/helper.cpp:150-159 | the centre `(max + min + 1) / 2` maps to 0 |
| Normalization.FromFloat | src/helper.cpp:166-168 | a value in `[-1, 1]` maps back into `[min, max]` |
| Normalization.FromFloatEnds | src/helper.cpp:166-168 | -1 maps to `min` and 1 maps to `max` |
| Normalization.Clamp | src/helper.cpp:163 | `std::clamp` to `[-1, 1]`: in range unchanged, below gives -1, above gives 1 |
| RelativeAxis.Integrate | src/axisfilter/relative_axis_filter.cpp:51-52 | one integration step always ends in `[-1, 1]`, whatever the prior state and inputs |
| RelativeAxis.IntegrateAtRest | src/axisfilter/relative_axis_filter.cpp:51-52 | with zero deflection or zero elapsed time an in-range state is unchanged |
| RelativeAxis.IntegrateMonotone | src/axisfilter/relative_axis_filter.cpp:51-52 | a non-negative increment never lowers an in-range state |
| RelativeAxis.ParseSpeed | src/axisfilter/relative_axis_filter.cpp:27-45 | an accepted argument is itself a decimal number, and the speed is its value, not the default |
| RelativeAxis.ParseSpeedAccepts | src/axisfilter/relative_axis_filter.cpp:27-45 | parsing succeeds exactly when there is one token and it is a number |
| RelativeAxis.ParseSpeedTooMany | src/axisfilter/relative_axis_filter.cpp:36-39 | a valid speed followed by a second token is "to many arguments" |
| RelativeAxis.ParseSpeedExample | src/axisfilter/relative_axis_filter.cpp:38 | `"1:2"` is refused with "to many arguments" |
| RelativeAxis.ParsePrintedSpeed | src/axisfilter/relative_axis_filter.cpp:30-35 | the decimal text of any speed parses back to that speed |
| RelativeAxis.RelativeAxisFilter.constructor | src/axisfilter/relative_axis_filter.cpp:47-48 | the given speed; state, value and float speed all 0 |
| RelativeAxis.RelativeAxisFilter.Update | src/axisfilter/relative_axis_filter.cpp:50-53 | the state becomes the clamped integration step and stays in `[-1, 1]`; nothing else changes |
| RelativeAxis.RelativeAxisFilter.Filter | src/axisfilter/relative_axis_filter.cpp:55-61 | stores the normalised deflection and speed, leaves state and speed alone, and returns the state held before the call, which lies in `[min, max]` |
| RelativeAxis.RelativeAxisFilter.Str | src/axisfilter/relative_axis_filter.cpp:63-67 | `relativeaxis:`, then an argument that `from_string` parses back to the filter's speed, whatever the state |
| RelativeAxis.FromString | src/axisfilter/relative_axis_filter.cpp:27-45 | the token loop builds a fresh filter at rest exactly when `ParseSpeed` accepts, and reports its error otherwise |
| ResponseCurve.ResponseCurveAxisFilter.Filter | src/axisfilter/response_curve_axis_filter.cpp:40-60 | an out-of-bounds read names an index outside the samples and needs two or more of them; division by zero happens exactly when there are two or more samples and `min == max` |
| ResponseCurve.Interpolate | src/axisfilter/response_curve_axis_filter.cpp:51-58 | the two reads around the bucket: an out-of-bounds result names an index outside the samples, and it never divides by zero |
| ResponseCurve.FilterEmpty | src/axisfilter/response_curve_axis_filter.cpp:41-42 | with no samples the value passes through |
| ResponseCurve.FilterSingle | src/axisfilter/response_curve_axis_filter.cpp:43-44 | with one sample the result is that sample for every value, `min` and `max` |
| ResponseCurve.FilterEmptyRange | src/axisfilter/response_curve_axis_filter.cpp:48-49 | `min == max` makes the bucket size zero |
| ResponseCurve.InterpolateAtPosition | src/axisfilter/response_curve_axis_filter.cpp:51-55 | `t` is the distance of the position into its bucket |
| ResponseCurve.FilterAtPosition | src/axisfilter/response_curve_axis_filter.cpp:48-58 | `filter` reads the curve at position `(value - min) / bucket_size` |
| ResponseCurve.PositionOfAnchor | src/axisfilter/response_curve_axis_filter.cpp:49-51 | a value `k` bucket sizes above `min` lies at position `k` |
| ResponseCurve.PositionInRange | src/axisfilter/response_curve_axis_filter.cpp:48-51 | inside `[min, max)` the position lies in `[0, bucket_count)` |
| ResponseCurve.MixBetween | src/axisfilter/response_curve_axis_filter.cpp:57-58 | for `0 <= t <= 1` the truncated mix lies between the two samples |
| ResponseCurve.FilterInRange | src/axisfilter/response_curve_axis_filter.cpp:48-58 | for `min <= value < max` both reads are inside the samples and the result lies between the two samples around `value` |
| ResponseCurve.FilterAtAnchor | src/axisfilter/response_curve_axis_filter.cpp:53-58 | on the `k`-th bucket boundary `t` is 0 and the result is sample `k` |
| ResponseCurve.FilterAtMin | src/axisfilter/response_curve_axis_filter.cpp:53-58 | `filter(min)` is the first sample |
| ResponseCurve.FilterAtMax | src/axisfilter/response_curve_axis_filter.cpp:51-58 | `filter(max)` reads index `bucket_count + 1`, past the end |
| ResponseCurve.FilterAboveRange | src/axisfilter/response_curve_axis_filter.cpp:51-58 | every value at or above `max` reads outside the samples |
| ResponseCurve.FilterBelowRange | src/axisfilter/response_curve_axis_filter.cpp:51-58 | a whole bucket or more below `min` gives a negative index; less than a bucket below lies at a position in `(-1, 0)` and is extrapolated from samples 0 and 1 |
| ResponseCurve.FilterExample | src/axisfilter/response_curve_axis_filter.cpp:40-60 | the curve `-100:0:100` over `[-100, 100]` at `-100`, `0` and `100` |
| ResponseCurve.ParseSamples | src/axisfilter/response_curve_axis_filter.cpp:29-31 | one sample per token |
| ResponseCurve.ParseSamplesSpec | src/axisfilter/response_curve_axis_filter.cpp:29-31 | the samples are read exactly when every token is a number, one per token in order; otherwise the first bad token is the error |
| ResponseCurve.ParseCurve | src/axisfilter/response_curve_axis_filter.cpp:29-33 | one sample per `:`-token, so no configuration text yields a curve without samples |
| ResponseCurve.FromString | src/axisfilter/response_curve_axis_filter.cpp:25-38 | the `push_back` loop yields the curve of `ParseCurve(str)`, or its error |
| ResponseCurve.FieldsJoin | src/axisfilter/response_curve_axis_filter.cpp:65-68 | the printed fields are the sample texts joined by `:` with a leading `:` |
| ResponseCurve.Serialize | src/axisfilter/response_curve_axis_filter.cpp:62-70 | `responsecurve` alone for no samples, otherwise `responsecurve:` and the sample texts joined by `:` |
| ResponseCurve.ParseTexts | src/axisfilter/response_curve_axis_filter.cpp:29-31 | the decimal texts of any samples parse back to those samples |
| ResponseCurve.SerializeRoundTrip | src/axisfilter/response_curve_axis_filter.cpp:62-70 | `str()` starts with `responsecurve:`, and for a non-empty curve, parsing what follows gives the same samples |
| ResponseCurve.ParseCurveEmptyText | src/axisfilter/response_curve_axis_filter.cpp:29-30 | the empty text is the one empty token, which is not a number |
| ResponseCurve.Str | src/axisfilter/response_curve_axis_filter.cpp:62-70 | the printing loop produces `Serialize(samples)` |
| ButtonMap.GetButton | src/modifier/buttonmap_modifier.cpp:80 | writing back the value `get_button` read leaves the message unchanged |
| ButtonMap.SetButton | src/modifier/buttonmap_modifier.cpp:73 | `set_button` changes the one button and no other |
| ButtonMap.ButtonFilter.constructor | src/modifier/buttonmap_modifier.cpp:41 | a new filter of the token's kind with nothing seen yet |
| ButtonMap.ButtonFilter.Update | src/modifier/buttonmap_modifier.cpp:66 | `update(msec_delta)` records one tick |
| ButtonMap.ButtonFilter.Filter | src/modifier/buttonmap_modifier.cpp:85 | `filter(value)` answers from what the filter saw before, then records the value |
| ButtonMap.MappingFromString | src/modifier/buttonmap_modifier.cpp:25-54 | the first `^`-token names the source; each later token becomes one distinct fresh filter, in order (one filter fewer than tokens); an empty `rhs` makes the destination the source |
| ButtonMap.Sources | src/modifier/buttonmap_modifier.cpp:71-74 | the buttons some mapping reads from, and only those |
| ButtonMap.AdvanceChain | src/modifier/buttonmap_modifier.cpp:64-67 | each filter of one chain gets one tick per place it holds in the chain |
| ButtonMap.ButtonmapModifier.AdvanceFilters | src/modifier/buttonmap_modifier.cpp:62-68 | phase one: every filter gets exactly one tick per place it holds across all chains |
| ButtonMap.ButtonmapModifier.ClearSources | src/modifier/buttonmap_modifier.cpp:70-74 | phase two: the sources are released and every other button is kept |
| ButtonMap.FilterStep | src/modifier/buttonmap_modifier.cpp:85 | one `filter` call answers from what its filter received before it in the tick, and records the value it was given |
| ButtonMap.RunChain | src/modifier/buttonmap_modifier.cpp:80-86 | the chain runs its filters in order, each on its predecessor's answer, and yields the last answer (or the input when there are no filters) |
| ButtonMap.ButtonmapModifier.OrPass | src/modifier/buttonmap_modifier.cpp:76-89 | phase three: each chain runs on its source as read from the original `msg`, and the result is the cleared state plus every destination whose chain answered `true` |
| ButtonMap.ButtonmapModifier.Update | src/modifier/buttonmap_modifier.cpp:58-92 | all ticks come before any `filter` call; every call sees its filter's ticks and the values given to it earlier in the tick; inputs come from the original `msg`; the new state is `(msg - sources) + fired` |
| ButtonMap.Fired | src/modifier/buttonmap_modifier.cpp:76-89 | only destinations of mappings can fire |
| ButtonMap.FiredMembers | src/modifier/buttonmap_modifier.cpp:76-89 | a button fires exactly when it is the destination of a mapping whose chain answered `true` |
| ButtonMap.OrInto | src/modifier/buttonmap_modifier.cpp:88 | OR-ing into a destination only ever adds it: once set in the tick it stays set |
| ButtonMap.PressedAfterUpdate | src/modifier/buttonmap_modifier.cpp:58-92 | after `update` a button is pressed iff it was pressed and nobody reads it, or a chain ending in it answered `true`; a button no mapping mentions is unchanged; a source that is no destination is released |
| ButtonMap.StaleDestinationKept | src/modifier/buttonmap_modifier.cpp:71-74 | with mapping `a -> b`, a held `b` stays pressed even when `a` is released |
| ButtonMap.ButtonmapModifier.constructor | src/modifier/buttonmap_modifier.cpp:56 | the map starts empty |
| ButtonMap.ButtonmapModifier.Add | src/modifier/buttonmap_modifier.cpp:94-96 | the mapping is appended after the existing ones, in order |
| ButtonMap.OccSnoc | src/modifier/buttonmap_modifier.cpp:94-96 | `add` keeps every filter's places and adds those of the new mapping |
| ButtonMap.FirstSource | src/modifier/buttonmap_modifier.cpp:99-105 | the first mapping whose source is `btn`, or none when no mapping reads it |
| ButtonMap.ButtonmapModifier.AddFilter | src/modifier/buttonmap_modifier.cpp:98-113 | the search loop and the unconditional `add` produce `AddedFilter(old mappings, btn, filter)` |
| ButtonMap.AddedFilter | src/modifier/buttonmap_modifier.cpp:98-113 | one mapping more than before, and the last is `btn -> btn` with the new filter alone |
| ButtonMap.AddedFilterShape | src/modifier/buttonmap_modifier.cpp:98-113 | one more mapping, `btn -> btn` with the filter alone; only the chain of the first mapping reading `btn` grows, by the filter |
| ButtonMap.AddedFilterOcc | src/modifier/buttonmap_modifier.cpp:98-113 | the filter gains two places when some mapping already reads `btn`, otherwise one; no other filter's places change |
| ButtonMap.AddedFilterAdvancedTwice | src/modifier/buttonmap_modifier.cpp:98-113 | a new filter added for a button that already has a mapping is advanced twice by every later `update` |
| TextWrap.PackFrom | src/word_wrap.cpp:42-51 | at least one line, and the first line starts with the words already placed on the current line |
| TextWrap.Pack | src/word_wrap.cpp:37-51 | at least one line, and the lines hold all the words in order |
| TextWrap.Render | src/word_wrap.cpp:39-53 | the output starts with the prefix and ends with a newline |
| TextWrap.PackFromFlatten | src/word_wrap.cpp:42-51 | packing neither drops, duplicates nor reorders words |
| TextWrap.PackGreedy | src/word_wrap.cpp:42-51 | a break comes before word `w` exactly when `len` plus the word's length plus 1 reaches the width |
| TextWrap.PackLinesFit | src/word_wrap.cpp:43-50 | a line with two or more words is shorter than the terminal width; only a single overlong word can reach it |
| TextWrap.PackFirstLine | src/word_wrap.cpp:43-47 | when the first word does not fit behind the prefix, the first line holds the prefix alone |
| TextWrap.RenderUnbroken | src/word_wrap.cpp:37-53 | taking out every inserted line break and prefix leaves the prefix, then every word followed by one space, then a newline |
| TextWrap.WrappedStart | src/word_wrap.cpp:39-40 | `len` starts at the prefix length, with the prefix written |
| TextWrap.WrappedBreak | src/word_wrap.cpp:43-50 | a break writes a newline and the prefix, and `len` restarts at the prefix length plus the word and its space |
| TextWrap.WrappedJoin | src/word_wrap.cpp:49-50 | a word that fits is written with its space and `len` grows by the word's length plus 1 |
| TextWrap.WrappedEnd | src/word_wrap.cpp:53 | the final newline completes the rendered lines; the output starts with the prefix and ends with a newline |
| TextWrap.WordWrap.constructor | src/word_wrap.cpp:25 | keeps the terminal width |
| TextWrap.WordWrap.Para | src/word_wrap.cpp:35-54 | the output is the greedy packing of the words, each line behind the prefix, ending in a newline; `len` is the length of the current output line throughout |
| TextWrap.WordWrap.ParaUnprefixed | src/word_wrap.cpp:33 | `para(str)` is `para("", str)` |

## Left out

- Floating point: the `float` arithmetic of `to_float`, `from_float`, the response curve
  and the relative-axis integrator is modelled over exact reals. Rounding, infinities
  and NaN are not modelled. Where the source divides a `float` by zero in
  `to_float_no_range_check`, the model yields 0.
- `int` overflow is not modelled. This covers `range * percent` in `to_number`,
  `std::stoi` out of range and the arithmetic in `para` and `from_float`. Integers are
  unbounded.
- Decimal.ParseInt: accepts exactly `-?[0-9]+`. The leniency of `std::stoi` (leading
  white space, a `+` sign, trailing characters) is not modelled. Every other string
  stands for the `std::invalid_argument` it throws, reported as `InvalidNumber`.
- Helper.StringSplit: requires a non-empty delimiter. With an empty one the source
  loops forever (`EmptyDelimiterStalls`), and the model has no non-terminating
  methods.
- Helper.SplitStringAt: the old value of `*rhs` is a parameter and both outputs are
  results. Aliasing between `str` and the out-pointers is not modelled.
- Helper.ProcessNameValueString: the callback `func` is not called. The method
  returns the sequence of argument pairs it would be called with, in order.
- Characters: a Dafny `char` stands for one C++ `char`, that is, one byte. String
  sizes, `find` positions and the lengths `para` compares with the terminal width are
  byte counts. `tolower` and `isdigit` apply to each byte. A multi-byte UTF-8
  character is several `char`s, so text is wrapped by bytes, not by characters.
  Character encodings are not modelled.
- Helper.LowerChar: only `A`-`Z` change, as in the C locale. Other locales are not
  modelled.
- ButtonMap.ButtonmapModifier.Update: returns the new state instead of assigning it to
  the `msg` reference. It also returns, as ghost values, the filter histories after
  phase one and the filter calls, so that its contract can describe them.
- ButtonMap.ButtonFilter: the behaviour of the button-filter kinds is not available.
  A filter's answer is a function parameter of everything it has been given so far;
  `ButtonFilter::from_string` is the `behaviour` parameter of `MappingFromString`.
  `string2btn` is a parameter too.
- `XboxGenericMsg` layout: only the digital buttons are modelled, as the set of
  pressed buttons. `get_button`/`set_button` are membership and insertion/removal.
- `ButtonmapModifier::str`, because its text depends on `btn2string`.
- ResponseCurve.ResponseCurveAxisFilter.Filter: reading outside `m_samples` and
  dividing by a zero bucket size are undefined behaviour in the source. The model
  reports them as the values `OutOfBounds(index)` and `DivisionByZero` instead of
  continuing. `index` is the first read that falls outside: `bucket_index`, or
  `bucket_index + 1` when only that one does.
- `hexstr2int`, `str2bool` and `raw2str` (libc and iostream behaviour), and
  `get_time`, `get_terminal_width` and `spawn_exe` (operating-system I/O).
- `WordWrap::println` and `newline`, which only write to standard output. The
  terminal output of `para` is its result string.
- `src/axisfilter/sensitivity_axis_filter.cpp`, `src/axis_map.hpp` and
  `src/message_processor.hpp` are not part of this model. The first is `powf`-based,
  and the other two declare interfaces only.
