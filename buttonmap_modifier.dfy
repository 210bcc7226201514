/**
 * The button remapper: an ordered list of mappings, each reading one source
 * button of the controller state, passing it through its own chain of stateful
 * button filters and OR-ing the result into a destination button.
 *
 * Filters are objects shared by reference: the same filter can sit in several
 * chains (see `AddFilter`), and then it is advanced and consulted once per
 * place it occupies.  Each filter records the events it was given, so a
 * filter's answer can depend on everything that happened to it.
 */
module ButtonMap {
  import opened Wrappers
  import opened Helper

  /** A controller button; the concrete enumeration is not part of this model. */
  type Button = int

  /** The placeholder a mapping starts from before its first token is read. */
  const UnknownButton: Button := 0

  /** The digital part of a controller state: the set of buttons held down. */
  datatype XboxGenericMsg = XboxGenericMsg(pressed: set<Button>)

  /** `get_button(msg, b)`: writing back the value read leaves the message as it was. */
  function GetButton(msg: XboxGenericMsg, b: Button): (v: bool)
    ensures SetButton(msg, b, v) == msg
  {
    b in msg.pressed
  }

  /** `set_button(msg, b, v)`: changes button `b` and no other. */
  function SetButton(msg: XboxGenericMsg, b: Button, v: bool): (r: XboxGenericMsg)
    ensures (b in r.pressed) == v
    ensures forall c :: c != b ==> (c in r.pressed) == (c in msg.pressed)
  {
    if v then XboxGenericMsg(msg.pressed + {b}) else XboxGenericMsg(msg.pressed - {b})
  }

  /** What a button filter has been given: elapsed time, or a button value to filter. */
  datatype FilterEvent = Tick(msecDelta: int) | Sample(input: bool)

  /** How a kind of filter answers, from everything it has been given so far and the new value. */
  type Behaviour = (seq<FilterEvent>, bool) -> bool

  /** A button filter: its configuration token, its behaviour and what it has been given. */
  class ButtonFilter {
    const token: string
    const respond: Behaviour
    var history: seq<FilterEvent>

    /** `ButtonFilter::from_string(token)`, with the kind's behaviour given. */
    constructor (token: string, respond: Behaviour)
      ensures this.token == token && this.respond == respond
      ensures history == []
    {
      this.token := token;
      this.respond := respond;
      history := [];
    }

    /** `update(msec_delta)`. */
    method Update(msecDelta: int)
      modifies this
      ensures history == old(history) + [Tick(msecDelta)]
    {
      history := history + [Tick(msecDelta)];
    }

    /** `filter(value)`: the answer depends on the events before this one. */
    method Filter(value: bool) returns (r: bool)
      modifies this
      ensures r == respond(old(history), value)
      ensures history == old(history) + [Sample(value)]
    {
      r := respond(history, value);
      history := history + [Sample(value)];
    }
  }

  /** One rule: a source button, a destination button and the filters in between. */
  datatype ButtonMapping = ButtonMapping(lhs: Button, rhs: Button, filters: seq<ButtonFilter>)

  /**
   * `ButtonMapping::from_string(lhs, rhs)`: the first `^`-token of `lhs` names the
   * source, every later one becomes a new filter, in order; an empty `rhs` makes
   * the destination the source.
   */
  method MappingFromString(lhs: string, rhs: string, string2btn: string -> Button,
                           behaviour: string -> Behaviour)
    returns (mapping: ButtonMapping)
    ensures var tokens := Split(lhs, "^");
      mapping.lhs == string2btn(tokens[0]) && |mapping.filters| == |tokens| - 1 &&
      forall k :: 0 <= k < |mapping.filters| ==>
        mapping.filters[k].token == tokens[k + 1] &&
        mapping.filters[k].respond == behaviour(tokens[k + 1]) &&
        mapping.filters[k].history == [] && fresh(mapping.filters[k])
    ensures forall k, l :: 0 <= k < l < |mapping.filters| ==> mapping.filters[k] != mapping.filters[l]
    ensures mapping.rhs == if rhs == "" then mapping.lhs else string2btn(rhs)
  {
    var source := UnknownButton;
    var filters: seq<ButtonFilter> := [];
    var tokens := StringSplit(lhs, "^");
    var idx := 0;
    while idx < |tokens|
      invariant 0 <= idx <= |tokens|
      invariant idx > 0 ==> source == string2btn(tokens[0])
      invariant |filters| == if idx == 0 then 0 else idx - 1
      invariant forall k :: 0 <= k < |filters| ==>
        filters[k].token == tokens[k + 1] && filters[k].respond == behaviour(tokens[k + 1]) &&
        filters[k].history == [] && fresh(filters[k])
      invariant forall k, l :: 0 <= k < l < |filters| ==> filters[k] != filters[l]
    {
      if idx == 0 {
        source := string2btn(tokens[idx]);
      } else {
        var filter := new ButtonFilter(tokens[idx], behaviour(tokens[idx]));
        filters := filters + [filter];
      }
      idx := idx + 1;
    }
    var destination := if rhs == "" then source else string2btn(rhs);
    mapping := ButtonMapping(source, destination, filters);
  }

  /** The buttons some mapping reads from. */
  function Sources(ms: seq<ButtonMapping>): (s: set<Button>)
    ensures forall k :: 0 <= k < |ms| ==> ms[k].lhs in s
    ensures forall b :: b in s ==> exists k :: 0 <= k < |ms| && ms[k].lhs == b
  {
    if |ms| == 0 then {} else
      var s := Sources(ms[..|ms| - 1]);
      assert forall k :: 0 <= k < |ms| - 1 ==> ms[..|ms| - 1][k] == ms[k];
      s + {ms[|ms| - 1].lhs}
  }

  /** Every filter object that sits in some chain. */
  ghost function FiltersOf(ms: seq<ButtonMapping>): set<ButtonFilter>
  {
    set k, j | 0 <= k < |ms| && 0 <= j < |ms[k].filters| :: ms[k].filters[j]
  }

  /** Each filter of mapping `k` is one of the filters of `ms`. */
  lemma InFilters(ms: seq<ButtonMapping>, k: nat)
    requires k < |ms|
    ensures forall j :: 0 <= j < |ms[k].filters| ==> ms[k].filters[j] in FiltersOf(ms)
  {
  }

  /** How many places filter `f` occupies in one chain. */
  function Count(filters: seq<ButtonFilter>, f: ButtonFilter): nat
  {
    if |filters| == 0 then 0
    else Count(filters[..|filters| - 1], f) + (if filters[|filters| - 1] == f then 1 else 0)
  }

  lemma CountSnoc(filters: seq<ButtonFilter>, g: ButtonFilter, f: ButtonFilter)
    ensures Count(filters + [g], f) == Count(filters, f) + (if g == f then 1 else 0)
  {
    assert (filters + [g])[..|filters|] == filters;
  }

  /** How many places filter `f` occupies across all chains. */
  function Occ(ms: seq<ButtonMapping>, f: ButtonFilter): nat
  {
    if |ms| == 0 then 0 else Occ(ms[..|ms| - 1], f) + Count(ms[|ms| - 1].filters, f)
  }

  /** `n` ticks of `msecDelta` each. */
  function Ticks(msecDelta: int, n: nat): (t: seq<FilterEvent>)
    ensures |t| == n && forall k :: 0 <= k < n ==> t[k] == Tick(msecDelta)
  {
    seq(n, _ => Tick(msecDelta))
  }

  lemma TicksAdd(msecDelta: int, a: nat, b: nat)
    ensures Ticks(msecDelta, a) + Ticks(msecDelta, b) == Ticks(msecDelta, a + b)
  {
  }

  /** Two rounds of ticks appended one after the other are one round of their total. */
  lemma TicksTwice(h0: seq<FilterEvent>, h1: seq<FilterEvent>, h2: seq<FilterEvent>, msecDelta: int, a: nat, b: nat)
    requires h1 == h0 + Ticks(msecDelta, a) && h2 == h1 + Ticks(msecDelta, b)
    ensures h2 == h0 + Ticks(msecDelta, a + b)
  {
    TicksAdd(msecDelta, a, b);
  }

  /** One chain's part of phase one of `update`: each filter advanced once per place in the chain. */
  method AdvanceChain(filters: seq<ButtonFilter>, msecDelta: int, ghost fs: set<ButtonFilter>)
    requires forall j :: 0 <= j < |filters| ==> filters[j] in fs
    modifies fs
    ensures forall f :: f in fs ==>
      f.history == old(f.history) + Ticks(msecDelta, Count(filters, f))
  {
    var j := 0;
    while j < |filters|
      invariant 0 <= j <= |filters|
      invariant forall f :: f in fs ==>
        f.history == old(f.history) + Ticks(msecDelta, Count(filters[..j], f))
    {
      assert filters[..j + 1] == filters[..j] + [filters[j]];
      forall f | f in fs
        ensures Count(filters[..j + 1], f) == Count(filters[..j], f) + (if filters[j] == f then 1 else 0)
      {
        CountSnoc(filters[..j], filters[j], f);
      }
      TicksAdd(msecDelta, Count(filters[..j], filters[j]), 1);
      filters[j].Update(msecDelta);
      j := j + 1;
    }
    assert filters[..j] == filters;
  }

  /** One call of `filter` during a tick: the filter, the events it had seen, its input and its answer. */
  datatype FilterCall = FilterCall(filter: ButtonFilter, seen: seq<FilterEvent>, input: bool, output: bool)

  /** The calls of a tick in the order they were made. */
  function Flatten(calls: seq<seq<FilterCall>>): seq<FilterCall>
  {
    if |calls| == 0 then [] else Flatten(calls[..|calls| - 1]) + calls[|calls| - 1]
  }

  lemma FlattenSnoc(calls: seq<seq<FilterCall>>, chain: seq<FilterCall>)
    ensures Flatten(calls + [chain]) == Flatten(calls) + chain
  {
    assert (calls + [chain])[..|calls|] == calls;
  }

  /** The values `trace` gave to filter `f`, in order. */
  function SamplesFor(trace: seq<FilterCall>, f: ButtonFilter): seq<FilterEvent>
  {
    if |trace| == 0 then [] else
      var last := trace[|trace| - 1];
      SamplesFor(trace[..|trace| - 1], f) + (if last.filter == f then [Sample(last.input)] else [])
  }

  lemma SamplesForSnoc(trace: seq<FilterCall>, call: FilterCall, f: ButtonFilter)
    ensures SamplesFor(trace + [call], f) ==
      SamplesFor(trace, f) + (if call.filter == f then [Sample(call.input)] else [])
  {
    assert (trace + [call])[..|trace|] == trace;
  }

  /**
   * Every call in `trace` saw its filter's events as of the start of the pass
   * (`base`) followed by the values given to that filter earlier in the pass.
   */
  ghost predicate Consistent(base: map<ButtonFilter, seq<FilterEvent>>, trace: seq<FilterCall>)
  {
    forall p :: 0 <= p < |trace| ==> SawHistory(base, trace, p)
  }

  /** Call `p` of `trace` saw the events `base` holds for its filter and the values given to it before `p`. */
  ghost predicate SawHistory(base: map<ButtonFilter, seq<FilterEvent>>, trace: seq<FilterCall>, p: nat)
    requires p < |trace|
  {
    trace[p].filter in base &&
    trace[p].seen == base[trace[p].filter] + SamplesFor(trace[..p], trace[p].filter)
  }

  /** Every filter of `base` holds the events `base` gave it followed by the values `trace` gave it. */
  ghost predicate Tracks(base: map<ButtonFilter, seq<FilterEvent>>, trace: seq<FilterCall>)
    reads base.Keys
  {
    forall f :: f in base ==> f.history == base[f] + SamplesFor(trace, f)
  }

  lemma ConsistentSnoc(base: map<ButtonFilter, seq<FilterEvent>>, trace: seq<FilterCall>, call: FilterCall)
    requires Consistent(base, trace)
    requires call.filter in base && call.seen == base[call.filter] + SamplesFor(trace, call.filter)
    ensures Consistent(base, trace + [call])
  {
    forall p | 0 <= p < |trace| + 1
      ensures SawHistory(base, trace + [call], p)
    {
      if p < |trace| {
        assert SawHistory(base, trace, p);
        assert (trace + [call])[..p] == trace[..p];
      } else {
        assert (trace + [call])[..p] == trace;
      }
    }
  }

  /** The first `|chain|` filters of mapping `m` were called in order, each on its predecessor's answer. */
  ghost predicate ChainLinks(m: ButtonMapping, input: bool, chain: seq<FilterCall>)
  {
    |chain| <= |m.filters| &&
    forall k :: 0 <= k < |chain| ==>
      chain[k].filter == m.filters[k] &&
      chain[k].input == ChainOutput(input, chain[..k]) &&
      chain[k].output == chain[k].filter.respond(chain[k].seen, chain[k].input)
  }

  /** The whole chain of `m` ran on `input`. */
  ghost predicate ChainRun(m: ButtonMapping, input: bool, chain: seq<FilterCall>)
  {
    |chain| == |m.filters| && ChainLinks(m, input, chain)
  }

  /** Every mapping of the first `|calls|` ran its chain on its source in `msg`. */
  ghost predicate AllChainsRun(ms: seq<ButtonMapping>, msg: XboxGenericMsg, calls: seq<seq<FilterCall>>)
  {
    |calls| <= |ms| &&
    forall k :: 0 <= k < |calls| ==> ChainRun(ms[k], GetButton(msg, ms[k].lhs), calls[k])
  }

  lemma AllChainsRunSnoc(ms: seq<ButtonMapping>, msg: XboxGenericMsg, calls: seq<seq<FilterCall>>,
                         chain: seq<FilterCall>)
    requires AllChainsRun(ms, msg, calls) && |calls| < |ms|
    requires ChainRun(ms[|calls|], GetButton(msg, ms[|calls|].lhs), chain)
    ensures AllChainsRun(ms, msg, calls + [chain])
  {
    forall k | 0 <= k < |calls| + 1
      ensures ChainRun(ms[k], GetButton(msg, ms[k].lhs), (calls + [chain])[k])
    {
      if k < |calls| {
        assert (calls + [chain])[k] == calls[k];
      }
    }
  }

  /** The value leaving a chain: the last answer, or the input when there are no filters. */
  function ChainOutput(input: bool, chain: seq<FilterCall>): bool
  {
    if |chain| == 0 then input else chain[|chain| - 1].output
  }

  /** The destinations whose chain answered `true`; only a mapping's destination can fire. */
  function Fired(ms: seq<ButtonMapping>, msg: XboxGenericMsg, calls: seq<seq<FilterCall>>): (r: set<Button>)
    requires |calls| == |ms|
    ensures r <= set m | m in ms :: m.rhs
  {
    if |ms| == 0 then {} else
      var n := |ms| - 1;
      Fired(ms[..n], msg, calls[..n]) + (if ChainOutput(GetButton(msg, ms[n].lhs), calls[n]) then {ms[n].rhs} else {})
  }

  /** A button fires exactly when it is the destination of a mapping whose chain answered `true`. */
  lemma {:induction false} FiredMembers(ms: seq<ButtonMapping>, msg: XboxGenericMsg, calls: seq<seq<FilterCall>>)
    requires |calls| == |ms|
    ensures forall b :: b in Fired(ms, msg, calls) <==>
      exists k :: 0 <= k < |ms| && ms[k].rhs == b && ChainOutput(GetButton(msg, ms[k].lhs), calls[k])
  {
    if |ms| > 0 {
      var n := |ms| - 1;
      FiredMembers(ms[..n], msg, calls[..n]);
      assert forall k :: 0 <= k < n ==> ms[..n][k] == ms[k] && calls[..n][k] == calls[k];
    }
  }

  lemma FiredSnoc(ms: seq<ButtonMapping>, msg: XboxGenericMsg, calls: seq<seq<FilterCall>>,
                  chain: seq<FilterCall>)
    requires |calls| < |ms|
    ensures var n := |calls|;
      Fired(ms[..n + 1], msg, calls + [chain]) ==
        Fired(ms[..n], msg, calls) + (if ChainOutput(GetButton(msg, ms[n].lhs), chain) then {ms[n].rhs} else {})
  {
    var n := |calls|;
    assert ms[..n + 1][..n] == ms[..n];
    assert (calls + [chain])[..n] == calls;
  }

  /** OR-ing `v` into button `b`, as the last step of `update` does for each mapping. */
  lemma OrInto(msg: XboxGenericMsg, b: Button, v: bool)
    ensures SetButton(msg, b, v || GetButton(msg, b)).pressed == msg.pressed + (if v then {b} else {})
  {
  }

  /** OR-ing one more chain's answer into its destination adds that mapping to the fired buttons. */
  lemma OrStep(pressed: set<Button>, current: XboxGenericMsg, ms: seq<ButtonMapping>, msg: XboxGenericMsg,
               calls: seq<seq<FilterCall>>, chain: seq<FilterCall>)
    requires |calls| < |ms| && current.pressed == pressed + Fired(ms[..|calls|], msg, calls)
    ensures var m := ms[|calls|];
      SetButton(current, m.rhs, ChainOutput(GetButton(msg, m.lhs), chain) || GetButton(current, m.rhs)).pressed ==
        pressed + Fired(ms[..|calls| + 1], msg, calls + [chain])
  {
    var m := ms[|calls|];
    OrInto(current, m.rhs, ChainOutput(GetButton(msg, m.lhs), chain));
    FiredSnoc(ms, msg, calls, chain);
  }

  /**
   * One filter chain, run on `input` in the middle of a tick whose earlier calls
   * are `before`.
   */
  method RunChain(m: ButtonMapping, input: bool, ghost base: map<ButtonFilter, seq<FilterEvent>>,
                  ghost before: seq<FilterCall>)
    returns (value: bool, ghost chain: seq<FilterCall>)
    requires forall j :: 0 <= j < |m.filters| ==> m.filters[j] in base
    requires Consistent(base, before) && Tracks(base, before)
    modifies m.filters
    ensures ChainRun(m, input, chain) && value == ChainOutput(input, chain)
    ensures Consistent(base, before + chain) && Tracks(base, before + chain)
  {
    value := input;
    chain := [];
    ghost var trace := before;
    var j := 0;
    while j < |m.filters|
      invariant 0 <= j <= |m.filters| && |chain| == j && trace == before + chain
      invariant ChainLinks(m, input, chain) && value == ChainOutput(input, chain)
      invariant Consistent(base, trace) && Tracks(base, trace)
    {
      ghost var call;
      value, call := FilterStep(m.filters[j], value, base, trace);
      ChainLinksSnoc(m, input, chain, call);
      chain, trace := chain + [call], trace + [call];
      j := j + 1;
    }
  }

  /** One `filter` call in the middle of a pass whose earlier calls are `trace`. */
  method FilterStep(filter: ButtonFilter, value: bool, ghost base: map<ButtonFilter, seq<FilterEvent>>,
                    ghost trace: seq<FilterCall>)
    returns (out: bool, ghost call: FilterCall)
    requires filter in base && Consistent(base, trace) && Tracks(base, trace)
    modifies filter
    ensures call.filter == filter && call.input == value && call.output == out
    ensures out == filter.respond(call.seen, value)
    ensures Consistent(base, trace + [call]) && Tracks(base, trace + [call])
  {
    ghost var seen := filter.history;
    ghost var held := map f | f in base :: f.history;
    assert forall f :: f in base ==> held[f] == base[f] + SamplesFor(trace, f);
    assert seen == base[filter] + SamplesFor(trace, filter);
    out := filter.Filter(value);
    call := FilterCall(filter, seen, value, out);
    ConsistentSnoc(base, trace, call);
    forall f | f in base
      ensures f.history == base[f] + SamplesFor(trace + [call], f)
    {
      SamplesForSnoc(trace, call, f);
      if f == filter {
        assert f.history == seen + [Sample(value)];
        assert SamplesFor(trace + [call], f) == SamplesFor(trace, f) + [Sample(value)];
        assert seen + [Sample(value)] == base[f] + (SamplesFor(trace, f) + [Sample(value)]);
      } else {
        assert SamplesFor(trace + [call], f) == SamplesFor(trace, f);
        assert f.history == held[f];
      }
    }
  }

  lemma ChainLinksSnoc(m: ButtonMapping, input: bool, chain: seq<FilterCall>, call: FilterCall)
    requires ChainLinks(m, input, chain) && |chain| < |m.filters|
    requires call.filter == m.filters[|chain|] && call.input == ChainOutput(input, chain)
    requires call.output == call.filter.respond(call.seen, call.input)
    ensures ChainLinks(m, input, chain + [call]) && ChainOutput(input, chain + [call]) == call.output
  {
    var chain' := chain + [call];
    forall k | 0 <= k < |chain'|
      ensures chain'[k].filter == m.filters[k]
      ensures chain'[k].input == ChainOutput(input, chain'[..k])
      ensures chain'[k].output == chain'[k].filter.respond(chain'[k].seen, chain'[k].input)
    {
      if k < |chain| {
        assert chain'[k] == chain[k] && chain'[..k] == chain[..k];
      } else {
        assert chain'[k] == call && chain'[..k] == chain;
      }
    }
  }

  class ButtonmapModifier {
    var mappings: seq<ButtonMapping>

    /** An empty button map. */
    constructor ()
      ensures mappings == []
    {
      mappings := [];
    }

    ghost function Filters(): set<ButtonFilter>
      reads this
    {
      FiltersOf(mappings)
    }

    /** Phase one of `update`: every filter of every chain is advanced once per place it occupies. */
    method AdvanceFilters(msecDelta: int) returns (ghost ticked: map<ButtonFilter, seq<FilterEvent>>)
      modifies Filters()
      ensures ticked.Keys == Filters()
      ensures forall f :: f in Filters() ==>
        f.history == ticked[f] && ticked[f] == old(f.history) + Ticks(msecDelta, Occ(mappings, f))
    {
      var i := 0;
      while i < |mappings|
        invariant 0 <= i <= |mappings|
        invariant forall f :: f in Filters() ==>
          f.history == old(f.history) + Ticks(msecDelta, Occ(mappings[..i], f))
      {
        assert forall j :: 0 <= j < |mappings[i].filters| ==> mappings[i].filters[j] in Filters();
        label step:
        AdvanceChain(mappings[i].filters, msecDelta, Filters());
        forall f | f in Filters()
          ensures f.history == old(f.history) + Ticks(msecDelta, Occ(mappings[..i + 1], f))
        {
          OccPrefixSnoc(mappings, i, f);
          TicksTwice(old(f.history), old@step(f.history), f.history, msecDelta,
            Occ(mappings[..i], f), Count(mappings[i].filters, f));
        }
        i := i + 1;
      }
      assert mappings[..i] == mappings;
      ticked := map f | f in Filters() :: f.history;
    }

    /** Phase two of `update`: every source button is released. */
    method ClearSources(msg: XboxGenericMsg) returns (cleared: XboxGenericMsg)
      ensures cleared.pressed == msg.pressed - Sources(mappings)
    {
      cleared := msg;
      var i := 0;
      while i < |mappings|
        invariant 0 <= i <= |mappings|
        invariant cleared.pressed == msg.pressed - Sources(mappings[..i])
      {
        assert mappings[..i + 1][..i] == mappings[..i];
        cleared := SetButton(cleared, mappings[i].lhs, false);
        i := i + 1;
      }
      assert mappings[..i] == mappings;
    }

    /**
     * `update(msec_delta, msg)`: advance every filter, release every source
     * button, then OR each mapping's filtered source, read from the original
     * `msg`, into its destination.
     */
    method Update(msecDelta: int, msg: XboxGenericMsg)
      returns (newmsg: XboxGenericMsg, ghost ticked: map<ButtonFilter, seq<FilterEvent>>,
               ghost calls: seq<seq<FilterCall>>)
      modifies Filters()
      ensures |calls| == |mappings|
      ensures forall f :: f in Filters() ==>
        f in ticked && ticked[f] == old(f.history) + Ticks(msecDelta, Occ(mappings, f))
      ensures AllChainsRun(mappings, msg, calls)
      ensures Consistent(ticked, Flatten(calls))
      ensures forall f :: f in Filters() ==>
        f.history == ticked[f] + SamplesFor(Flatten(calls), f)
      ensures newmsg.pressed == (msg.pressed - Sources(mappings)) + Fired(mappings, msg, calls)
    {
      ticked := AdvanceFilters(msecDelta);
      newmsg := ClearSources(msg);
      newmsg, calls := OrPass(msg, newmsg, ticked);
    }

    /**
     * Phase three of `update`: each mapping's chain runs on its source as it is
     * in `msg`, and a `true` answer is OR-ed into the destination.
     */
    method OrPass(msg: XboxGenericMsg, cleared: XboxGenericMsg, ghost base: map<ButtonFilter, seq<FilterEvent>>)
      returns (newmsg: XboxGenericMsg, ghost calls: seq<seq<FilterCall>>)
      requires Filters() <= base.Keys
      requires forall f :: f in base ==> f.history == base[f]
      modifies base.Keys
      ensures |calls| == |mappings| && AllChainsRun(mappings, msg, calls)
      ensures Consistent(base, Flatten(calls)) && Tracks(base, Flatten(calls))
      ensures newmsg.pressed == cleared.pressed + Fired(mappings, msg, calls)
    {
      newmsg := cleared;
      calls := [];
      var i := 0;
      while i < |mappings|
        invariant 0 <= i <= |mappings| && |calls| == i
        invariant AllChainsRun(mappings, msg, calls)
        invariant Consistent(base, Flatten(calls)) && Tracks(base, Flatten(calls))
        invariant newmsg.pressed == cleared.pressed + Fired(mappings[..i], msg, calls)
      {
        var m := mappings[i];
        var value;
        ghost var chain;
        InFilters(mappings, i);
        value, chain := RunChain(m, GetButton(msg, m.lhs), base, Flatten(calls));
        OrStep(cleared.pressed, newmsg, mappings, msg, calls, chain);
        newmsg := SetButton(newmsg, m.rhs, value || GetButton(newmsg, m.rhs));
        AllChainsRunSnoc(mappings, msg, calls, chain);
        FlattenSnoc(calls, chain);
        calls := calls + [chain];
        i := i + 1;
      }
      assert mappings[..i] == mappings;
    }

    /** `add(mapping)`: appended after the existing mappings. */
    method Add(mapping: ButtonMapping)
      modifies this
      ensures mappings == old(mappings) + [mapping]
    {
      mappings := mappings + [mapping];
    }

    /**
     * `add_filter(btn, filter)`: the filter joins the chain of the first mapping
     * whose source is `btn`, and a new mapping `btn -> btn` holding only the
     * filter is appended in every case.
     */
    method AddFilter(btn: Button, filter: ButtonFilter)
      modifies this
      ensures mappings == AddedFilter(old(mappings), btn, filter)
    {
      var i := 0;
      while i < |mappings|
        invariant 0 <= i <= |mappings| && mappings == old(mappings)
        invariant forall k :: 0 <= k < i ==> mappings[k].lhs != btn
      {
        if mappings[i].lhs == btn {
          mappings := mappings[i := mappings[i].(filters := mappings[i].filters + [filter])];
          break;
        }
        i := i + 1;
      }
      Add(ButtonMapping(btn, btn, [filter]));
    }
  }

  /** The first mapping whose source is `btn`. */
  function FirstSource(ms: seq<ButtonMapping>, btn: Button): (r: Option<nat>)
    ensures r.Some? ==>
      r.value < |ms| && ms[r.value].lhs == btn && forall k :: 0 <= k < r.value ==> ms[k].lhs != btn
    ensures r.None? ==> forall k :: 0 <= k < |ms| ==> ms[k].lhs != btn
  {
    if |ms| == 0 then None
    else if ms[0].lhs == btn then Some(0)
    else match FirstSource(ms[1..], btn)
      case None => None
      case Some(k) => Some(k + 1)
  }

  /** The mappings after `add_filter(btn, filter)`: always one more, the identity mapping holding the filter alone. */
  function AddedFilter(ms: seq<ButtonMapping>, btn: Button, filter: ButtonFilter): (r: seq<ButtonMapping>)
    ensures |r| == |ms| + 1 && r[|ms|] == ButtonMapping(btn, btn, [filter])
  {
    var extended := match FirstSource(ms, btn)
      case None => ms
      case Some(k) => ms[k := ms[k].(filters := ms[k].filters + [filter])];
    extended + [ButtonMapping(btn, btn, [filter])]
  }

  /** `add` keeps every earlier place of every filter and adds those of the new mapping. */
  lemma OccSnoc(ms: seq<ButtonMapping>, m: ButtonMapping, f: ButtonFilter)
    ensures Occ(ms + [m], f) == Occ(ms, f) + Count(m.filters, f)
  {
    assert (ms + [m])[..|ms|] == ms;
  }

  /** Extending a prefix of the mappings by one adds that mapping's places. */
  lemma OccPrefixSnoc(ms: seq<ButtonMapping>, i: nat, f: ButtonFilter)
    requires i < |ms|
    ensures Occ(ms[..i + 1], f) == Occ(ms[..i], f) + Count(ms[i].filters, f)
  {
    assert ms[..i + 1][..i] == ms[..i];
  }

  /** Replacing one mapping replaces its places and keeps all others. */
  lemma {:induction false} OccUpdate(ms: seq<ButtonMapping>, i: nat, m: ButtonMapping, f: ButtonFilter)
    requires i < |ms|
    ensures Occ(ms[i := m], f) + Count(ms[i].filters, f) == Occ(ms, f) + Count(m.filters, f)
  {
    var n := |ms| - 1;
    if i == n {
      assert ms[i := m][..n] == ms[..n];
    } else {
      assert ms[i := m][..n] == ms[..n][i := m];
      OccUpdate(ms[..n], i, m, f);
    }
  }

  /**
   * `add_filter(btn, filter)` changes nothing but the chain of the first mapping
   * whose source is `btn`, and appends the mapping `btn -> btn` with the filter alone.
   */
  lemma AddedFilterShape(ms: seq<ButtonMapping>, btn: Button, filter: ButtonFilter)
    ensures var r := AddedFilter(ms, btn, filter);
      |r| == |ms| + 1 && r[|ms|] == ButtonMapping(btn, btn, [filter]) &&
      forall k :: 0 <= k < |ms| ==>
        r[k].lhs == ms[k].lhs && r[k].rhs == ms[k].rhs &&
        r[k].filters == if FirstSource(ms, btn) == Some(k) then ms[k].filters + [filter] else ms[k].filters
  {
  }

  /**
   * After `add_filter(btn, filter)` the filter occupies one more place, or two
   * more when some mapping already reads `btn`: it is then shared by two chains.
   */
  lemma AddedFilterOcc(ms: seq<ButtonMapping>, btn: Button, filter: ButtonFilter, f: ButtonFilter)
    ensures Occ(AddedFilter(ms, btn, filter), f) ==
      Occ(ms, f) + (if f != filter then 0 else if FirstSource(ms, btn).Some? then 2 else 1)
  {
    var extended := match FirstSource(ms, btn)
      case None => ms
      case Some(k) => ms[k := ms[k].(filters := ms[k].filters + [filter])];
    OccSnoc(extended, ButtonMapping(btn, btn, [filter]), f);
    assert Count([filter], f) == if f == filter then 1 else 0 by {
      CountSnoc([], filter, f);
      assert [] + [filter] == [filter];
    }
    match FirstSource(ms, btn)
    case None =>
    case Some(k) =>
      OccUpdate(ms, k, ms[k].(filters := ms[k].filters + [filter]), f);
      CountSnoc(ms[k].filters, filter, f);
  }

  /**
   * A filter added for a button that already has a mapping is advanced twice by
   * every later `update`, even though it was added once.
   */
  lemma AddedFilterAdvancedTwice(ms: seq<ButtonMapping>, btn: Button, filter: ButtonFilter)
    requires Occ(ms, filter) == 0 && exists k :: 0 <= k < |ms| && ms[k].lhs == btn
    ensures Occ(AddedFilter(ms, btn, filter), filter) == 2
  {
    AddedFilterOcc(ms, btn, filter, filter);
  }

  /**
   * What `update` leaves pressed: a button that no mapping reads keeps its
   * state, and a destination is pressed when it was pressed (and is nobody's
   * source) or when a chain ending in it answered `true`.
   */
  lemma PressedAfterUpdate(ms: seq<ButtonMapping>, msg: XboxGenericMsg, calls: seq<seq<FilterCall>>, b: Button)
    requires |calls| == |ms|
    ensures b in (msg.pressed - Sources(ms)) + Fired(ms, msg, calls) <==>
      (GetButton(msg, b) && forall k :: 0 <= k < |ms| ==> ms[k].lhs != b) ||
      exists k :: 0 <= k < |ms| && ms[k].rhs == b && ChainOutput(GetButton(msg, ms[k].lhs), calls[k])
    ensures (forall k :: 0 <= k < |ms| ==> ms[k].lhs != b && ms[k].rhs != b) ==>
      (b in (msg.pressed - Sources(ms)) + Fired(ms, msg, calls) <==> GetButton(msg, b))
    ensures (exists k :: 0 <= k < |ms| && ms[k].lhs == b) && (forall k :: 0 <= k < |ms| ==> ms[k].rhs != b) ==>
      b !in (msg.pressed - Sources(ms)) + Fired(ms, msg, calls)
  {
    FiredMembers(ms, msg, calls);
  }

  /**
   * The source list is cleared, not the destination list: with the single
   * mapping `a -> b` and no filters, a `b` that is held stays pressed even
   * when `a` is released.
   */
  lemma StaleDestinationKept(a: Button, b: Button)
    requires a != b
    ensures var ms := [ButtonMapping(a, b, [])];
      var msg := XboxGenericMsg({b});
      (msg.pressed - Sources(ms)) + Fired(ms, msg, [[]]) == {b}
  {
    var ms := [ButtonMapping(a, b, [])];
    var msg := XboxGenericMsg({b});
    assert Sources(ms) == {a};
    assert !ChainOutput(GetButton(msg, a), []);
    assert Fired(ms, msg, [[]]) == {};
  }
}
