/** The symbol grammar of ScParser (src/ScParser.cpp) stated over immutable
    text: what each production reports to the state-machine model, and what a
    declaration leaves in the one-slot reaction context.  The model itself is
    not represented: a production's meaning is the sequence of calls it makes
    on it. */
module Grammar {
  import opened Tokens

  type Name = string

  // Literal constants of the grammar.
  const NAMESPACE := "boost::statechart::"
  const DETAIL_RESULT := "detail::reaction_result boost::statechart::"
  const STATE_MACHINE_OPEN := "state_machine<"
  const SIMPLE_STATE_OPEN := "simple_state<"
  const SAFE_RESULT := NAMESPACE + "detail::safe_reaction_result "
  const NESTED_STATE := "boost::statechart::simple_state<"
  const TRANSIT := "::transit<"
  const DISCARD_EVENT := "::discard_event()"
  const DEFER_EVENT := "::defer_event()"
  const LIST_WRAPPER := "boost::mpl::list"
  const LIST_OPEN := "<"
  const LIST_SENTINEL := "mpl_::na"
  const TRANSITION_OPEN := "boost::statechart::transition<"
  const DEFERRAL_OPEN := "boost::statechart::deferral<"
  const ORTHOGONAL_MARKER := "::orthogonal<(unsigned char)"
  const LOCAL_REACT := "::local_react<"
  const REACT_SUFFIX := "::react"

  /** One call on the state-machine model (ScModel), with its arguments. */
  datatype Call =
    | AddStateMachine(machine: Name, initialState: Name)
    | AddState(state: Name, parent: Name, region: int, substates: seq<Name>)
    | AddTransition(target: Name, event: Name)
    | AddDeferral(event: Name)
    | SetActiveState(active: Name)

  /** Transitions and deferrals name no state: the model attributes them to the
      state of the most recent other call. */
  predicate IsReaction(c: Call)
  {
    c.AddTransition? || c.AddDeferral?
  }

  /** The most recent call of a trace that is not a reaction. */
  function LastAnchor(trace: seq<Call>): (a: Option<Call>)
    ensures a.Some? ==> a.value in trace && !IsReaction(a.value)
    ensures a.None? ==> forall i :: 0 <= i < |trace| ==> IsReaction(trace[i])
  {
    if trace == [] then None
    else if IsReaction(trace[|trace| - 1]) then LastAnchor(trace[..|trace| - 1])
    else Some(trace[|trace| - 1])
  }

  /** The reaction context: the parser's flag and the (state, event) pair. */
  datatype Context = Context(active: bool, state: Name, event: Name)

  /** What a declaration does: the calls it makes and the context it leaves. */
  datatype Effect = Effect(calls: seq<Call>, context: Context)

  // ---------------------------------------------------------------------------
  // boost::mpl::list walks (parseInitialSubstateList, parseReactionList)

  /** The top-level elements of a list body, in order, up to the first element
      that starts with the sentinel or the end of the list. */
  function ListElements(u: string): seq<string>
    decreases |u|
  {
    var e := AngleArg(u, false);
    if e.arg.None? || LIST_SENTINEL <= e.arg.value then []
    else [e.arg.value] + ListElements(e.rest)
  }

  /** The text after the list wrapper, its address tag and '<', or None when
      the '<' is missing. */
  function ListBody(spec: string): Option<string>
    requires LIST_WRAPPER <= spec
  {
    var tagged := spec[|LIST_WRAPPER|..];
    var open := tagged[AddressLength(tagged)..];
    if LIST_OPEN <= open then Some(open[|LIST_OPEN|..]) else None
  }

  /** parseInitialSubstateList: the names a substate specification lists. */
  function InitialSubstates(spec: string): seq<Name>
  {
    if LIST_WRAPPER <= spec then
      match ListBody(spec)
      case None => []
      case Some(body) => ListElements(body)
    else [spec]
  }

  /** The calls one element of a reaction list makes. */
  function ReactionOf(r: string): (c: seq<Call>)
    ensures |c| <= 1 && forall i :: 0 <= i < |c| ==> IsReaction(c[i])
  {
    if TRANSITION_OPEN <= r then
      var event := AngleArg(r[|TRANSITION_OPEN|..], false);
      var target := AngleArg(event.rest, false);
      [AddTransition(Text(target.arg), Text(event.arg))]
    else if DEFERRAL_OPEN <= r then
      [AddDeferral(Text(AngleArg(r[|DEFERRAL_OPEN|..], false).arg))]
    else []
  }

  function ReactionsOf(rs: seq<string>): seq<Call>
  {
    if rs == [] then [] else ReactionOf(rs[0]) + ReactionsOf(rs[1..])
  }

  /** parseReactionList: only a list is recognised. */
  function ReactionList(spec: string): seq<Call>
  {
    if LIST_WRAPPER <= spec then
      match ListBody(spec)
      case None => []
      case Some(body) => ReactionsOf(ListElements(body))
    else []
  }

  // ---------------------------------------------------------------------------
  // Declarations

  /** parseStateMachine: the text after "state_machine<". */
  function StateMachineCalls(t: string): seq<Call>
  {
    var name := AngleArg(t, false);
    var initial := AngleArg(name.rest, false);
    [AddStateMachine(Text(name.arg), Text(initial.arg))]
  }

  /** The tail of parseSimpleState from the substate specification on. */
  function StateCalls(name: Name, parent: Name, region: int, t: string): seq<Call>
  {
    var substates := AngleArg(t, false);
    var history := AngleArg(substates.rest, true);
    [AddState(name, parent, region, InitialSubstates(Text(substates.arg)))] + LocalReactions(history.rest)
  }

  /** The reactions a "::local_react<" suffix lists, if there is one. */
  function LocalReactions(t: string): seq<Call>
  {
    if LOCAL_REACT <= t then ReactionList(Text(AngleArg(t[|LOCAL_REACT|..], false).arg)) else []
  }

  /** What parseSimpleState reads before the substate specification: the
      state, its parent, its orthogonal region and the text after them.  A
      parent given inline as "simple_state<...>" must be followed by the
      "::orthogonal<" marker, and the region is the number after it; the
      result is None when the marker is missing. */
  function StateHead(t: string): (h: Option<(Name, Name, int, string)>)
    ensures h.None? ==> NESTED_STATE <= AngleArg(t, false).rest
    ensures h.Some? ==> h.value.2 >= 0
  {
    var name := AngleArg(t, false);
    var nested := NESTED_STATE <= name.rest;
    var parent := AngleArg(if nested then name.rest[|NESTED_STATE|..] else name.rest, false);
    if !nested then Some((Text(name.arg), Text(parent.arg), 0, parent.rest))
    else
      var owner := AngleArg(parent.rest, true);
      if !(ORTHOGONAL_MARKER <= owner.rest) then None
      else
        var region := owner.rest[|ORTHOGONAL_MARKER|..];
        var afterRegion := AngleArg(region, true);
        Some((Text(name.arg), Text(parent.arg), LeadingNumber(region), AngleArg(afterRegion.rest, false).rest))
  }

  /** parseSimpleState: the text after "simple_state<". */
  function SimpleStateCalls(t: string): seq<Call>
  {
    match StateHead(t)
    case None => []
    case Some((name, parent, region, rest)) => StateCalls(name, parent, region, rest)
  }

  /** parseReactMethod: the (state, event) pair it writes into the context
      fields, or None when the text is not "<name>::react(". */
  function ReactMethod(t: string): (r: Option<(Name, Name)>)
    ensures r.Some? ==> r.value.0 + REACT_SUFFIX <= t
  {
    var fn := NameArg(t, '(');
    if fn.arg.None? || !EndsWith(fn.arg.value, REACT_SUFFIX) then None
    else Some((fn.arg.value[..|fn.arg.value| - |REACT_SUFFIX|], Text(NameArg(fn.rest, ' ').arg)))
  }

  /** parseFunctionDecl. */
  function Declaration(ctx: Context, t: string): Effect
  {
    var cleared := ctx.(active := false);
    if NAMESPACE <= t then Effect(QualifiedCalls(t[|NAMESPACE|..]), cleared)
    else ReactDeclaration(cleared, t)
  }

  /** The declaration after "boost::statechart::", optionally qualified as a
      reaction result: a state machine, a simple state, or nothing. */
  function QualifiedCalls(u: string): seq<Call>
  {
    var v := if DETAIL_RESULT <= u then u[|DETAIL_RESULT|..] else u;
    if STATE_MACHINE_OPEN <= v then StateMachineCalls(v[|STATE_MACHINE_OPEN|..])
    else if SIMPLE_STATE_OPEN <= v then SimpleStateCalls(v[|SIMPLE_STATE_OPEN|..])
    else []
  }

  /** parseReactMethod: a react method sets the context's state and event; it
      activates the context, and marks the state active, when the event is not
      empty, and otherwise leaves the flag as it was. */
  function ReactDeclaration(ctx: Context, t: string): Effect
  {
    match ReactMethod(t)
    case None => Effect([], ctx)
    case Some((state, event)) =>
      if event == [] then Effect([], ctx.(state := state, event := event))
      else Effect([SetActiveState(state)], Context(true, state, event))
  }

  /** parseFunctionCall: the calls a call-site symbol makes under a context. */
  function CallSite(ctx: Context, t: string): seq<Call>
  {
    if !ctx.active then []
    else
      var u := if SAFE_RESULT <= t then t[|SAFE_RESULT|..] else t;
      if !(NESTED_STATE <= u) then []
      else ReactionCall(ctx, AngleArg(u[|NESTED_STATE|..], true).rest)
  }

  /** The reaction a call site names after its simple_state<...> qualifier. */
  function ReactionCall(ctx: Context, v: string): seq<Call>
  {
    if TRANSIT <= v then [AddTransition(Text(AngleArg(v[|TRANSIT|..], false).arg), ctx.event)]
    else if DISCARD_EVENT <= v then [AddTransition(ctx.state, ctx.event)]
    else if DEFER_EVENT <= v then [AddDeferral(ctx.event)]
    else []
  }

  // ---------------------------------------------------------------------------
  // Text builders for the lemmas

  /** Elements each followed by ", ", as a list prints them. */
  function Joined(xs: seq<string>): string
  {
    if xs == [] then [] else xs[0] + ", " + Joined(xs[1..])
  }

  predicate IsAddressTag(tag: string)
  {
    tag == [] || ("0x" <= tag && forall i :: 2 <= i < |tag| ==> IsHexDigit(tag[i]))
  }

  predicate AreElements(xs: seq<string>)
  {
    forall i :: 0 <= i < |xs| ==> IsArgument(xs[i], false) && !(LIST_SENTINEL <= xs[i])
  }

  /** The optional "detail::reaction_result boost::statechart::" qualifier of
      a declaration. */
  function Qualifier(detail: bool): string
  {
    if detail then DETAIL_RESULT else ""
  }

  /** A call site: optional safe-result qualifier, the inline simple_state<x>
      and the call after it. */
  function CallSiteText(safe: bool, x: string, call: string): string
  {
    (if safe then SAFE_RESULT else "") + (NESTED_STATE + (x + ">" + call))
  }

  // ---------------------------------------------------------------------------
  // Helper facts about prefixes

  lemma Strip(lit: string, rest: string)
    ensures lit <= lit + rest && (lit + rest)[|lit|..] == rest
  {
  }

  lemma Mismatch(a: string, b: string, x: string, j: nat)
    requires j < |a| && j < |b| && a[j] != b[j]
    ensures !(a <= b + x)
  {
    assert (b + x)[j] == b[j];
  }

  lemma PrefixPastComma(lit: string, p: string, w: string)
    requires forall i :: 0 <= i < |lit| ==> lit[i] != ','
    requires !(lit <= p)
    ensures !(lit <= p + ", " + w)
  {
    if |lit| <= |p| {
      assert (p + ", " + w)[..|lit|] == p[..|lit|];
    } else {
      assert (p + ", " + w)[|p|] == ',';
    }
  }

  lemma PrefixConcat(a: string, b: string, t: string)
    requires a <= t
    ensures a + b <= t <==> b <= t[|a|..]
  {
    if a + b <= t {
      assert t[|a|..][..|b|] == t[..|a| + |b|][|a|..];
    }
    if b <= t[|a|..] {
      assert t[..|a| + |b|] == a + b;
    }
  }

  lemma AddressTagSkipped(tag: string, w: string)
    requires IsAddressTag(tag)
    requires w == [] || !IsHexDigit(w[0])
    ensures AddressLength(tag + w) == |tag|
  {
    if tag == [] {
      assert tag + w == w;
    } else {
      var h := tag[2..];
      assert tag + w == "0x" + h + w;
      AddressLengthOfTag(h, w);
    }
  }

  /** matchAngleArgument splits "x, w" at its top-level comma. */
  lemma CommaSplit(x: string, w: string)
    requires IsArgument(x, false)
    ensures AngleArg(x + ", " + w, false) == Scan(Some(x), w)
  {
    assert x + ", " + w == x + [','] + (" " + w);
    AngleArgSplits(x, ',', " " + w, false);
    assert (" " + w)[1..] == w;
  }

  // ---------------------------------------------------------------------------
  // List walks

  /** The sentinel ends a list walk, whatever follows it. */
  lemma SentinelEndsList(w: string)
    ensures ListElements(LIST_SENTINEL + w) == []
  {
    var u := LIST_SENTINEL + w;
    var e := AngleArg(u, false);
    if e.arg.Some? {
      var k := AngleStop(u, 0, false, 1);
      assert forall j :: 0 <= j < |LIST_SENTINEL| ==> u[j] == LIST_SENTINEL[j];
      assert k >= |LIST_SENTINEL|;
      assert e.arg.value[..|LIST_SENTINEL|] == LIST_SENTINEL;
    }
  }

  /** One step of a list walk that has collected done so far: the walk ends at
      a missing element or the sentinel, and otherwise collects the element. */
  lemma ListWalkStep(whole: seq<string>, done: seq<string>, u: string)
    requires whole == done + ListElements(u)
    ensures var e := AngleArg(u, false);
      if e.arg.None? || LIST_SENTINEL <= e.arg.value then whole == done
      else whole == (done + [e.arg.value]) + ListElements(e.rest)
  {
    var e := AngleArg(u, false);
    if e.arg.Some? && !(LIST_SENTINEL <= e.arg.value) {
      assert done + ([e.arg.value] + ListElements(e.rest)) == (done + [e.arg.value]) + ListElements(e.rest);
    }
  }

  /** The same step for a walk that records the reactions of the elements. */
  lemma ReactionWalkStep(whole: seq<Call>, done: seq<Call>, u: string)
    requires whole == done + ReactionsOf(ListElements(u))
    ensures var e := AngleArg(u, false);
      if e.arg.None? || LIST_SENTINEL <= e.arg.value then whole == done
      else whole == (done + ReactionOf(e.arg.value)) + ReactionsOf(ListElements(e.rest))
  {
    var e := AngleArg(u, false);
    if e.arg.Some? && !(LIST_SENTINEL <= e.arg.value) {
      var rs := [e.arg.value] + ListElements(e.rest);
      assert rs[1..] == ListElements(e.rest);
      assert done + (ReactionOf(e.arg.value) + ReactionsOf(ListElements(e.rest)))
          == (done + ReactionOf(e.arg.value)) + ReactionsOf(ListElements(e.rest));
    } else {
      assert done + ReactionsOf([]) == done;
    }
  }

  lemma ListElementsCons(x: string, w: string)
    requires IsArgument(x, false) && !(LIST_SENTINEL <= x)
    ensures ListElements(x + ", " + w) == [x] + ListElements(w)
  {
    CommaSplit(x, w);
  }

  /** A list walk returns the listed elements, in order, up to the sentinel. */
  lemma {:induction false} ListElementsOfJoined(xs: seq<string>, w: string)
    requires AreElements(xs)
    ensures ListElements(Joined(xs) + (LIST_SENTINEL + w)) == xs
  {
    if xs == [] {
      assert Joined(xs) + (LIST_SENTINEL + w) == LIST_SENTINEL + w;
      SentinelEndsList(w);
    } else {
      var tail := LIST_SENTINEL + w;
      var rest := Joined(xs[1..]) + tail;
      JoinedStep(xs, tail, rest);
      ListElementsCons(xs[0], rest);
      assert AreElements(xs[1..]);
      ListElementsOfJoined(xs[1..], w);
      assert xs == [xs[0]] + xs[1..];
    }
  }

  /** The last element of a list, before its closing '>'. */
  lemma LastElement(xs: seq<string>, x: string)
    requires xs == [] && IsArgument(x, false) && !(LIST_SENTINEL <= x)
    ensures ListElements(Joined(xs) + (x + ">")) == xs + [x]
  {
    assert Joined(xs) + (x + ">") == x + ['>'] + [];
    AngleArgSplits(x, '>', [], false);
    assert ListElements([]) == [];
  }

  /** A list that closes without a sentinel yields every element. */
  lemma {:induction false} ListElementsOfClosed(xs: seq<string>, x: string)
    requires AreElements(xs) && IsArgument(x, false) && !(LIST_SENTINEL <= x)
    ensures ListElements(Joined(xs) + (x + ">")) == xs + [x]
  {
    if xs == [] {
      LastElement(xs, x);
    } else {
      var tail := x + ">";
      var rest := Joined(xs[1..]) + tail;
      JoinedStep(xs, tail, rest);
      ListElementsCons(xs[0], rest);
      assert AreElements(xs[1..]);
      ListElementsOfClosed(xs[1..], x);
      assert xs + [x] == [xs[0]] + (xs[1..] + [x]);
    }
  }

  lemma JoinedStep(xs: seq<string>, tail: string, rest: string)
    requires xs != [] && rest == Joined(xs[1..]) + tail
    ensures Joined(xs) + tail == xs[0] + ", " + rest
  {
  }

  /** The list body starts after the wrapper, the address tag and the '<'. */
  lemma ListBodyOf(tag: string, body: string)
    requires IsAddressTag(tag)
    ensures ListBody(LIST_WRAPPER + (tag + (LIST_OPEN + body))) == Some(body)
  {
    Strip(LIST_WRAPPER, tag + (LIST_OPEN + body));
    AddressTagSkipped(tag, LIST_OPEN + body);
    Strip(tag, LIST_OPEN + body);
    Strip(LIST_OPEN, body);
  }

  /** parseInitialSubstateList on a list returns its elements up to the
      sentinel. */
  lemma InitialSubstatesOfList(tag: string, xs: seq<string>, w: string)
    requires IsAddressTag(tag) && AreElements(xs)
    ensures InitialSubstates(LIST_WRAPPER + (tag + (LIST_OPEN + (Joined(xs) + (LIST_SENTINEL + w))))) == xs
  {
    var body := Joined(xs) + (LIST_SENTINEL + w);
    Strip(LIST_WRAPPER, tag + (LIST_OPEN + body));
    ListBodyOf(tag, body);
    ListElementsOfJoined(xs, w);
  }

  /** A list wrapper without '<' lists neither substates nor reactions. */
  lemma UnopenedListIsEmpty(tag: string, w: string)
    requires IsAddressTag(tag) && (w == [] || (w[0] != '<' && !IsHexDigit(w[0])))
    ensures InitialSubstates(LIST_WRAPPER + (tag + w)) == []
    ensures ReactionList(LIST_WRAPPER + (tag + w)) == []
  {
    Strip(LIST_WRAPPER, tag + w);
    AddressTagSkipped(tag, w);
    Strip(tag, w);
  }

  /** A substate specification that is not a list names one substate: the
      whole text. */
  lemma NonListSubstates(spec: string)
    requires !(LIST_WRAPPER <= spec)
    ensures InitialSubstates(spec) == [spec]
  {
  }

  /** A list element that is neither a transition nor a deferral is skipped. */
  lemma OtherReactionSkipped(r: string)
    requires !(TRANSITION_OPEN <= r) && !(DEFERRAL_OPEN <= r)
    ensures ReactionOf(r) == []
  {
  }

  /** Every call a reaction list makes is a transition or a deferral. */
  lemma {:induction false} ReactionsOfAreReactions(rs: seq<string>)
    ensures forall i :: 0 <= i < |ReactionsOf(rs)| ==> IsReaction(ReactionsOf(rs)[i])
  {
    if rs != [] {
      ReactionsOfAreReactions(rs[1..]);
    }
  }

  lemma LocalReactionsAreReactions(t: string)
    ensures forall i :: 0 <= i < |LocalReactions(t)| ==> IsReaction(LocalReactions(t)[i])
  {
    if LOCAL_REACT <= t {
      var spec := Text(AngleArg(t[|LOCAL_REACT|..], false).arg);
      if LIST_WRAPPER <= spec && ListBody(spec).Some? {
        ReactionsOfAreReactions(ListElements(ListBody(spec).value));
      }
    }
  }

  /** A transition<E, T, ...> element records the transition to T on E. */
  lemma TransitionReaction(event: string, target: string, d: char, w: string)
    requires IsArgument(event, false) && IsArgument(target, false) && (d == ',' || d == '>')
    ensures ReactionOf(TRANSITION_OPEN + (event + ", " + (target + [d] + w))) == [AddTransition(target, event)]
  {
    Strip(TRANSITION_OPEN, event + ", " + (target + [d] + w));
    CommaSplit(event, target + [d] + w);
    AngleArgSplits(target, d, w, false);
  }

  /** A deferral<E> element records the deferral of E. */
  lemma DeferralReaction(event: string, d: char, w: string)
    requires IsArgument(event, false) && (d == ',' || d == '>')
    ensures ReactionOf(DEFERRAL_OPEN + (event + [d] + w)) == [AddDeferral(event)]
  {
    Mismatch(TRANSITION_OPEN, DEFERRAL_OPEN, event + [d] + w, 19);
    Strip(DEFERRAL_OPEN, event + [d] + w);
    AngleArgSplits(event, d, w, false);
  }

  /** parseReactionList walks a listed reaction list in order. */
  lemma ReactionListOfList(tag: string, rs: seq<string>, w: string)
    requires IsAddressTag(tag) && AreElements(rs)
    ensures ReactionList(LIST_WRAPPER + (tag + (LIST_OPEN + (Joined(rs) + (LIST_SENTINEL + w))))) == ReactionsOf(rs)
  {
    var body := Joined(rs) + (LIST_SENTINEL + w);
    Strip(LIST_WRAPPER, tag + (LIST_OPEN + body));
    ListBodyOf(tag, body);
    ListElementsOfJoined(rs, w);
  }

  // ---------------------------------------------------------------------------
  // State declarations

  /** From the substate specification on: the state is recorded with its
      substates, then the local reactions that follow the closing '>'. */
  lemma StateCallsOf(name: Name, parent: Name, region: int, l: string, h: string, w: string)
    requires IsArgument(l, false) && IsArgument(h, true)
    ensures StateCalls(name, parent, region, l + ", " + (h + ">" + w))
         == [AddState(name, parent, region, InitialSubstates(l))] + LocalReactions(w)
  {
    CommaSplit(l, h + ">" + w);
    assert h + ">" + w == h + ['>'] + w;
    AngleArgSplits(h, '>', w, true);
  }

  /** The state production always records the state first, and all it records
      after that are reactions. */
  lemma StateCallsShape(name: Name, parent: Name, region: int, t: string)
    ensures var calls := StateCalls(name, parent, region, t);
      calls[0].AddState? && calls[0].state == name && calls[0].parent == parent && calls[0].region == region &&
      forall i :: 1 <= i < |calls| ==> IsReaction(calls[i])
  {
    var history := AngleArg(AngleArg(t, false).rest, true);
    LocalReactionsAreReactions(history.rest);
  }

  /** A state whose parent is a plain name lives in region 0 of that parent. */
  lemma SimpleStateWithParent(n: string, p: string, l: string, h: string, w: string)
    requires IsArgument(n, false) && IsArgument(p, false) && !(NESTED_STATE <= p)
    requires IsArgument(l, false) && IsArgument(h, true)
    ensures SimpleStateCalls(n + ", " + (p + ", " + (l + ", " + (h + ">" + w))))
         == [AddState(n, p, 0, InitialSubstates(l))] + LocalReactions(w)
  {
    var tail := l + ", " + (h + ">" + w);
    CommaSplit(n, p + ", " + tail);
    PrefixPastComma(NESTED_STATE, p, tail);
    CommaSplit(p, tail);
    StateCallsOf(n, p, 0, l, h, w);
  }

  /** The region number of an orthogonal marker is the value of its digits. */
  lemma RegionNumber(digits: string, tail: string)
    requires forall i :: 0 <= i < |digits| ==> IsDigit(digits[i])
    ensures LeadingNumber(digits + (">, " + tail)) == DecimalValue(digits)
  {
    var w := ">, " + tail;
    assert w[0] == '>';
    LeadingNumberOfDigits(digits, w);
  }

  /** Skipping the region's "R>" and splitting at the ", " after it leaves the
      text that follows. */
  lemma RegionSkipped(digits: string, tail: string)
    requires forall i :: 0 <= i < |digits| ==> IsDigit(digits[i])
    ensures AngleArg(AngleArg(digits + (">, " + tail), true).rest, false).rest == tail
  {
    FlatIsArgument(digits, true);
    assert digits + (">, " + tail) == digits + ['>'] + (", " + tail);
    AngleArgSplits(digits, '>', ", " + tail, true);
    FlatIsArgument([], false);
    assert [] + ", " + tail == ", " + tail;
    CommaSplit([], tail);
  }

  /** A state whose parent is an inline
      simple_state<P, ...>::orthogonal<(unsigned char)R> has parent P and
      region R. */
  lemma SimpleStateInRegion(n: string, p: string, q: string, digits: string, l: string, h: string, w: string)
    requires IsArgument(n, false) && IsArgument(p, false) && IsArgument(q, true)
    requires forall i :: 0 <= i < |digits| ==> IsDigit(digits[i])
    requires IsArgument(l, false) && IsArgument(h, true)
    ensures SimpleStateCalls(n + ", " + (NESTED_STATE + (p + ", " + (q + ">" + (ORTHOGONAL_MARKER
              + (digits + (">, " + (l + ", " + (h + ">" + w)))))))))
         == [AddState(n, p, DecimalValue(digits), InitialSubstates(l))] + LocalReactions(w)
  {
    var tail := l + ", " + (h + ">" + w);
    var owner := ORTHOGONAL_MARKER + (digits + (">, " + tail));
    var afterParent := q + ">" + owner;
    CommaSplit(n, NESTED_STATE + (p + ", " + afterParent));
    Strip(NESTED_STATE, p + ", " + afterParent);
    CommaSplit(p, afterParent);
    assert afterParent == q + ['>'] + owner;
    AngleArgSplits(q, '>', owner, true);
    Strip(ORTHOGONAL_MARKER, digits + (">, " + tail));
    RegionNumber(digits, tail);
    RegionSkipped(digits, tail);
    StateCallsOf(n, p, DecimalValue(digits), l, h, w);
  }

  /** An inline parent without the orthogonal marker records no state. */
  lemma SimpleStateWithoutRegion(n: string, p: string, q: string, w: string)
    requires IsArgument(n, false) && IsArgument(p, false) && IsArgument(q, true)
    requires !(ORTHOGONAL_MARKER <= w)
    ensures SimpleStateCalls(n + ", " + (NESTED_STATE + (p + ", " + (q + ">" + w)))) == []
  {
    CommaSplit(n, NESTED_STATE + (p + ", " + (q + ">" + w)));
    Strip(NESTED_STATE, p + ", " + (q + ">" + w));
    CommaSplit(p, q + ">" + w);
    assert q + ">" + w == q + ['>'] + w;
    AngleArgSplits(q, '>', w, true);
  }

  /** The state production records nothing, or the state followed by
      reactions only. */
  lemma SimpleStateShape(t: string)
    ensures var calls := SimpleStateCalls(t);
      calls == [] || (calls[0].AddState? && forall i :: 1 <= i < |calls| ==> IsReaction(calls[i]))
  {
    var name := AngleArg(t, false);
    var nested := NESTED_STATE <= name.rest;
    var parent := AngleArg(if nested then name.rest[|NESTED_STATE|..] else name.rest, false);
    if !nested {
      StateCallsShape(Text(name.arg), Text(parent.arg), 0, parent.rest);
    } else {
      var owner := AngleArg(parent.rest, true);
      if ORTHOGONAL_MARKER <= owner.rest {
        var region := owner.rest[|ORTHOGONAL_MARKER|..];
        var separator := AngleArg(AngleArg(region, true).rest, false);
        StateCallsShape(Text(name.arg), Text(parent.arg), LeadingNumber(region), separator.rest);
      }
    }
  }

  /** Appending reactions does not change the most recent anchor. */
  lemma {:induction false} LastAnchorSkipsReactions(trace: seq<Call>, rs: seq<Call>)
    requires forall i :: 0 <= i < |rs| ==> IsReaction(rs[i])
    ensures LastAnchor(trace + rs) == LastAnchor(trace)
    decreases |rs|
  {
    if rs != [] {
      var last := |trace + rs| - 1;
      assert (trace + rs)[..last] == trace + rs[..|rs| - 1];
      assert (trace + rs)[last] == rs[|rs| - 1];
      LastAnchorSkipsReactions(trace, rs[..|rs| - 1]);
    } else {
      assert trace + rs == trace;
    }
  }

  /** After an anchor followed by reactions, every prefix that includes the
      anchor still has it as its most recent anchor. */
  lemma AnchorThenReactions(trace: seq<Call>, calls: seq<Call>)
    requires calls != [] && !IsReaction(calls[0])
    requires forall i :: 1 <= i < |calls| ==> IsReaction(calls[i])
    ensures forall i :: 1 <= i <= |calls| ==> LastAnchor(trace + calls[..i]) == Some(calls[0])
  {
    forall i | 1 <= i <= |calls|
      ensures LastAnchor(trace + calls[..i]) == Some(calls[0])
    {
      var rs := calls[1..i];
      assert trace + calls[..i] == (trace + [calls[0]]) + rs;
      assert forall j :: 0 <= j < |rs| ==> IsReaction(rs[j]) by {
        forall j | 0 <= j < |rs| ensures IsReaction(rs[j]) {
          assert rs[j] == calls[j + 1];
        }
      }
      LastAnchorSkipsReactions(trace + [calls[0]], rs);
    }
  }

  /** A state declaration records the state before its reactions, so the model
      attributes each of those reactions to that state. */
  lemma SimpleStateReactionsFollowState(t: string, trace: seq<Call>)
    ensures var calls := SimpleStateCalls(t);
      calls == [] ||
      (calls[0].AddState? &&
       forall i :: 1 <= i <= |calls| ==> LastAnchor(trace + calls[..i]) == Some(calls[0]))
  {
    SimpleStateShape(t);
    if SimpleStateCalls(t) != [] {
      AnchorThenReactions(trace, SimpleStateCalls(t));
    }
  }

  // ---------------------------------------------------------------------------
  // parseFunctionDecl

  /** The two leading arguments of a state machine are its name and initial
      state. */
  lemma StateMachineArguments(m: string, i: string, d: char, w: string)
    requires IsArgument(m, false) && IsArgument(i, false) && (d == ',' || d == '>')
    ensures StateMachineCalls(m + ", " + (i + [d] + w)) == [AddStateMachine(m, i)]
  {
    CommaSplit(m, i + [d] + w);
    AngleArgSplits(i, d, w, false);
  }

  /** Even when no argument can be scanned, a state machine is recorded, with
      empty names. */
  lemma StateMachineUnscanned(t: string)
    requires forall j :: 0 <= j < |t| ==> !IsStop(t, j, false)
    ensures StateMachineCalls(t) == [AddStateMachine([], [])]
  {
    AngleArgIsFirstArgument(t, false);
    AngleArgIsFirstArgument([], false);
  }

  /** A state-machine declaration, with or without the reaction-result
      qualifier, records what the state-machine production makes of its
      arguments and clears the reaction context. */
  lemma StateMachineDeclared(ctx: Context, detail: bool, args: string)
    ensures Declaration(ctx, NAMESPACE + (Qualifier(detail) + (STATE_MACHINE_OPEN + args)))
         == Effect(StateMachineCalls(args), ctx.(active := false))
  {
    var v := STATE_MACHINE_OPEN + args;
    Strip(NAMESPACE, Qualifier(detail) + v);
    if detail {
      Strip(DETAIL_RESULT, v);
    } else {
      assert Qualifier(detail) + v == v;
      Mismatch(DETAIL_RESULT, STATE_MACHINE_OPEN, args, 0);
    }
    Strip(STATE_MACHINE_OPEN, args);
  }

  /** A state declaration records what the state production makes of the text
      after "simple_state<" and clears the reaction context. */
  lemma SimpleStateDeclared(ctx: Context, detail: bool, t: string)
    ensures Declaration(ctx, NAMESPACE + (Qualifier(detail) + (SIMPLE_STATE_OPEN + t)))
         == Effect(SimpleStateCalls(t), ctx.(active := false))
  {
    var v := SIMPLE_STATE_OPEN + t;
    Strip(NAMESPACE, Qualifier(detail) + v);
    if detail {
      Strip(DETAIL_RESULT, v);
    } else {
      assert Qualifier(detail) + v == v;
      Mismatch(DETAIL_RESULT, SIMPLE_STATE_OPEN, t, 0);
    }
    Mismatch(STATE_MACHINE_OPEN, SIMPLE_STATE_OPEN, t, 1);
    Strip(SIMPLE_STATE_OPEN, t);
  }

  /** Every declaration in the library namespace clears the reaction context;
      one that is neither a state machine nor a state records nothing. */
  lemma NamespaceDeclaration(ctx: Context, u: string)
    ensures Declaration(ctx, NAMESPACE + u).context == ctx.(active := false)
    ensures !(STATE_MACHINE_OPEN <= u) && !(SIMPLE_STATE_OPEN <= u) &&
            !(DETAIL_RESULT + STATE_MACHINE_OPEN <= u) && !(DETAIL_RESULT + SIMPLE_STATE_OPEN <= u)
            ==> Declaration(ctx, NAMESPACE + u).calls == []
  {
    Strip(NAMESPACE, u);
    if DETAIL_RESULT <= u {
      PrefixConcat(DETAIL_RESULT, STATE_MACHINE_OPEN, u);
      PrefixConcat(DETAIL_RESULT, SIMPLE_STATE_OPEN, u);
    }
  }

  /** Declaration text outside the library namespace records nothing unless
      it activates the context, and text in which no name ends in "::react"
      changes nothing but the cleared flag. */
  lemma OtherTextIsNoop(ctx: Context, t: string)
    requires !(NAMESPACE <= t)
    ensures !Declaration(ctx, t).context.active ==> Declaration(ctx, t).calls == []
    ensures (forall n: nat :: n <= |t| ==> !EndsWith(t[..n], REACT_SUFFIX)) ==>
            Declaration(ctx, t) == Effect([], ctx.(active := false))
  {
    var fn := NameArg(t, '(');
    if fn.arg.Some? && EndsWith(fn.arg.value, REACT_SUFFIX) {
      NameArgParts(t, '(');
      assert fn.arg.value == t[..|fn.arg.value|];
    }
  }

  /** "S::react(E " names the react method of S for event E, where S and E
      may carry template arguments, as in "S<T>::react(E<U> ". */
  lemma ReactMethodOf(s: string, e: string, w: string)
    requires IsName(s) && IsName(e)
    ensures ReactMethod(s + REACT_SUFFIX + ("(" + (e + (" " + w)))) == Some((s, e))
  {
    var f := s + REACT_SUFFIX;
    assert IsIdentifier(REACT_SUFFIX);
    NameThenIdentifier(s, REACT_SUFFIX);
    assert f + ("(" + (e + (" " + w))) == f + ['('] + (e + [' '] + w);
    NameArgSplits(f, '(', e + [' '] + w);
    NameArgSplits(e, ' ', w);
    assert f[|f| - |REACT_SUFFIX|..] == REACT_SUFFIX;
    assert f[..|f| - |REACT_SUFFIX|] == s;
  }

  /** A template state: "S<T>::react(E const&)" is the react method of
      "S<T>" for event "E". */
  lemma ReactMethodOfTemplate()
    ensures ReactMethod("S<T>" + REACT_SUFFIX + ("(" + ("E" + (" " + "const&)")))) == Some(("S<T>", "E"))
  {
    TemplateIsName();
    IdentifierIsName("E");
    ReactMethodOf("S<T>", "E", "const&)");
  }

  /** A react-method declaration outside the library namespace sets the context
      to (S, E); it activates it, and marks S active, exactly when E is not
      empty. */
  lemma ReactDeclared(ctx: Context, s: string, e: string, w: string)
    requires IsName(s) && IsName(e)
    requires !(NAMESPACE <= s + REACT_SUFFIX + ("(" + (e + (" " + w))))
    ensures Declaration(ctx, s + REACT_SUFFIX + ("(" + (e + (" " + w))))
         == if e == [] then Effect([], Context(false, s, e))
            else Effect([SetActiveState(s)], Context(true, s, e))
  {
    ReactMethodOf(s, e, w);
  }

  /** A react method with a non-empty event is spelled "S::react(E " at the
      start of the text. */
  lemma ReactMethodForm(t: string)
    ensures var r := ReactMethod(t);
      r.Some? && r.value.1 != [] ==> r.value.0 + REACT_SUFFIX + "(" + r.value.1 + " " <= t
  {
    var fn := NameArg(t, '(');
    var r := ReactMethod(t);
    if fn.arg.Some? && EndsWith(fn.arg.value, REACT_SUFFIX) {
      var f := fn.arg.value;
      var ev := NameArg(fn.rest, ' ');
      assert r == Some((f[..|f| - |REACT_SUFFIX|], Text(ev.arg)));
      if ev.arg.Some? {
        NameArgParts(t, '(');
        NameArgParts(fn.rest, ' ');
        SpelledOut(r.value.0, REACT_SUFFIX, f, r.value.1, ev.rest, fn.rest, t);
      }
    } else {
      assert r.None?;
    }
  }

  /** The pieces of "S" + suffix + "(" + "E" + " " + rest, laid out as the
      react-method walk finds them. */
  lemma SpelledOut(state: string, suffix: string, f: string, event: string, evRest: string, fnRest: string, t: string)
    requires EndsWith(f, suffix) && state == f[..|f| - |suffix|]
    requires fnRest == event + [' '] + evRest && t == f + ['('] + fnRest
    ensures state + suffix + "(" + event + " " <= t
  {
    assert f == state + suffix;
    assert t == (state + suffix + "(" + event + " ") + evRest;
  }

  /** Conversely, a declaration activates the context only for react-method
      text "S::react(E " with E non-empty, outside the library namespace; it
      then marks S active. */
  lemma ActivationMeansReact(ctx: Context, t: string)
    ensures var e := Declaration(ctx, t);
      e.context.active ==>
        !(NAMESPACE <= t) && e.context.event != [] &&
        e.calls == [SetActiveState(e.context.state)] &&
        e.context.state + REACT_SUFFIX + "(" + e.context.event + " " <= t
  {
    ReactMethodForm(t);
  }

  // ---------------------------------------------------------------------------
  // parseFunctionCall

  /** A call site makes at most one call, always a reaction carrying the
      context's event, and none at all without an active context. */
  lemma CallSiteIsContextReaction(ctx: Context, t: string)
    ensures var calls := CallSite(ctx, t);
      |calls| <= 1 && (!ctx.active ==> calls == []) &&
      forall i :: 0 <= i < |calls| ==> IsReaction(calls[i]) && calls[i].event == ctx.event
  {
  }

  /** Under an active context, a call site qualified by simple_state<x> (with
      or without the safe-result qualifier) makes the reaction the call after
      the qualifier names. */
  lemma CallSiteQualified(ctx: Context, safe: bool, x: string, call: string)
    requires ctx.active && IsArgument(x, true)
    ensures CallSite(ctx, CallSiteText(safe, x, call)) == ReactionCall(ctx, call)
  {
    var t := CallSiteText(safe, x, call);
    var s := NESTED_STATE + (x + ">" + call);
    if safe {
      Strip(SAFE_RESULT, s);
    } else {
      assert t == s;
      assert SAFE_RESULT[19] == 'd' && NESTED_STATE[19] == 's';
      Mismatch(SAFE_RESULT, NESTED_STATE, x + ">" + call, 19);
    }
    assert CallSite(ctx, t) == ReactionCall(ctx, AngleArg(s[|NESTED_STATE|..], true).rest);
    Strip(NESTED_STATE, x + ">" + call);
    assert x + ">" + call == x + ['>'] + call;
    AngleArgSplits(x, '>', call, true);
  }

  /** Under an active context, a call site without the simple_state<
      qualifier (once the optional safe-result qualifier is skipped, leaving
      u) records nothing. */
  lemma CallSiteBranch(ctx: Context, t: string, u: string)
    requires ctx.active && u == if SAFE_RESULT <= t then t[|SAFE_RESULT|..] else t
    ensures !(NESTED_STATE <= u) ==> CallSite(ctx, t) == []
  {
  }

  /** Any other call after the qualifier records nothing. */
  lemma OtherCallIgnored(ctx: Context, v: string)
    requires !(TRANSIT <= v) && !(DISCARD_EVENT <= v) && !(DEFER_EVENT <= v)
    ensures ReactionCall(ctx, v) == []
  {
  }

  /** ::transit<T>() records the transition to T on the context's event. */
  lemma TransitCall(ctx: Context, target: string, d: char, w: string)
    requires IsArgument(target, false) && (d == ',' || d == '>')
    ensures ReactionCall(ctx, TRANSIT + (target + [d] + w)) == [AddTransition(target, ctx.event)]
  {
    Strip(TRANSIT, target + [d] + w);
    AngleArgSplits(target, d, w, false);
  }

  /** ::discard_event() records a transition from the context's state to
      itself on the context's event. */
  lemma DiscardCall(ctx: Context, w: string)
    ensures ReactionCall(ctx, DISCARD_EVENT + w) == [AddTransition(ctx.state, ctx.event)]
  {
    Mismatch(TRANSIT, DISCARD_EVENT, w, 2);
    Strip(DISCARD_EVENT, w);
  }

  /** ::defer_event() records the deferral of the context's event. */
  lemma DeferCall(ctx: Context, w: string)
    ensures ReactionCall(ctx, DEFER_EVENT + w) == [AddDeferral(ctx.event)]
  {
    Mismatch(TRANSIT, DEFER_EVENT, w, 2);
    Mismatch(DISCARD_EVENT, DEFER_EVENT, w, 4);
    Strip(DEFER_EVENT, w);
  }
}
