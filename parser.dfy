/** ScParser (src/ScParser.h, src/ScParser.cpp) over a character buffer: each
    parse step works in place on the demangled symbol, cutting names off with
    NUL as it scans, and is proved to make exactly the calls on the model that
    the Grammar module assigns to the symbol's text. */
module Parser {
  import opened Tokens
  import opened Grammar
  import opened Buffer

  lemma AppendAssociates<T>(x: seq<T>, y: seq<T>, z: seq<T>)
    ensures x + y + z == x + (y + z)
  {
  }

  /** The opening shared by the two list walks: the "boost::mpl::list" test,
      the address tag and the '<'.  When the specification is a list, body is
      the cursor at its elements, or None when the '<' is missing. */
  method OpenList(a: array<char>, p: nat) returns (isList: bool, body: Option<nat>)
    requires Terminated(a[..]) && p < a.Length
    ensures isList == (LIST_WRAPPER <= CStr(a[..], p))
    ensures isList ==> (body.Some? <==> ListBody(CStr(a[..], p)).Some?)
    ensures body.Some? ==> isList && Parsing(a[..], p, a[..], body.value, ListBody(CStr(a[..], p)).value)
  {
    assert NoNul(LIST_WRAPPER) && NoNul(LIST_OPEN);
    ghost var s0 := a[..];
    var c: nat;
    isList, c := ExpectStartsWith(a, p, LIST_WRAPPER);
    body := None;
    if isList {
      var tag := ExpectAddress(a, c);
      var isOpen, elements := ExpectStartsWith(a, tag, LIST_OPEN);
      ghost var spec := CStr(s0, p);
      ghost var tagged := spec[|LIST_WRAPPER|..];
      ghost var open := tagged[AddressLength(tagged)..];
      assert CStr(s0, tag) == open;
      if isOpen {
        assert CStr(s0, elements) == open[|LIST_OPEN|..];
        ParsingStarts(s0, p);
        ParsingAdvance(s0, p, s0, p, spec, elements - p);
        body := Some(elements);
      }
    }
  }

  /** parseInitialSubstateList: the names a substate specification lists.  A
      null specification reads as the empty name. */
  method ParseInitialSubstateList(a: array<char>, mplList: Option<nat>) returns (list: seq<Name>)
    requires Terminated(a[..]) && (mplList.Some? ==> mplList.value < a.Length)
    modifies a
    ensures list == InitialSubstates(StringAt(old(a[..]), mplList))
    ensures Terminated(a[..])
    ensures mplList.None? ==> a[..] == old(a[..])
    ensures mplList.Some? ==> WritesWithin(old(a[..]), a[..], mplList.value, End(old(a[..]), mplList.value))
  {
    if mplList.None? {
      return [[]];
    }
    var p := mplList.value;
    var isList, start := OpenList(a, p);
    if !isList {
      return [CStr(a[..], p)];
    }
    if start.None? {
      return [];
    }
    assert NoNul(LIST_SENTINEL);
    ghost var s0 := a[..];
    ghost var body := ListBody(CStr(s0, p)).value;
    ghost var rest := body;
    assert InitialSubstates(CStr(s0, p)) == ListElements(body);
    var c := start.value;
    list := [];
    while true
      invariant Parsing(s0, p, a[..], c, rest)
      invariant ListElements(body) == list + ListElements(rest)
      decreases |rest|
    {
      ListWalkStep(ListElements(body), list, rest);
      var substate, next := ScanArgument(a, s0, p, c, rest, false);
      if substate.None? {
        break;
      }
      var name := CStr(a[..], substate.value);
      var isSentinel, _ := ExpectStartsWith(a, substate.value, LIST_SENTINEL);
      if isSentinel {
        break;
      }
      list := list + [name];
      c, rest := next, AngleArg(rest, false).rest;
    }
  }

  /** One element of a reaction list (the body of parseReactionList's loop):
      transition<E, T, ...> gives the transition to T on E, deferral<E> the
      deferral of E, and anything else nothing. */
  method ParseReaction(a: array<char>, r: nat) returns (rc: seq<Call>)
    requires Terminated(a[..]) && r < a.Length
    modifies a
    ensures rc == ReactionOf(CStr(old(a[..]), r))
    ensures Terminated(a[..]) && WritesWithin(old(a[..]), a[..], r, End(old(a[..]), r))
  {
    assert NoNul(TRANSITION_OPEN) && NoNul(DEFERRAL_OPEN);
    ghost var s0 := a[..];
    ghost var t := CStr(s0, r);
    ParsingStarts(s0, r);
    var isTransition, c := SkipLiteral(a, s0, r, r, t, TRANSITION_OPEN);
    if isTransition {
      ghost var event := AngleArg(t[|TRANSITION_OPEN|..], false);
      var e, c1 := ScanArgument(a, s0, r, c, t[|TRANSITION_OPEN|..], false);
      var eventName := StringAt(a[..], e);
      var g, _ := ScanArgument(a, s0, r, c1, event.rest, false);
      rc := [AddTransition(StringAt(a[..], g), eventName)];
      return;
    }
    var isDeferral;
    isDeferral, c := SkipLiteral(a, s0, r, r, t, DEFERRAL_OPEN);
    if isDeferral {
      var e, _ := ScanArgument(a, s0, r, c, t[|DEFERRAL_OPEN|..], false);
      rc := [AddDeferral(StringAt(a[..], e))];
    } else {
      rc := [];
    }
  }

  /** The name of a react method, scanned off up to its '(', ends just
      before the cursor. */
  lemma ReactNameCut(s0: seq<char>, data: nat, fn: Scan, s1: seq<char>, c1: nat)
    requires Terminated(s0) && data < |s0| && Scanned(s0, data, fn, s1, Some(data), c1)
    requires fn.arg.Some? && CStr(s0, data) == fn.arg.value + ['('] + fn.rest
    ensures data < c1 && c1 - 1 == End(s1, data)
  {
    assert End(s1, data) == data + |fn.arg.value|;
  }

  /** expectEndsWith(function, end, suffix) on the function name that ends
      at end: it holds exactly when the name ends in the suffix, which it then
      cuts off by writing the terminator over the suffix's first character. */
  method CutSuffix(a: array<char>, data: nat, end: nat, ghost f: string, suffix: string)
    returns (ok: bool)
    requires Terminated(a[..]) && data < a.Length && End(a[..], data) == end && CStr(a[..], data) == f
    requires suffix != [] && NoNul(suffix)
    modifies a
    ensures ok == EndsWith(f, suffix)
    ensures !ok ==> a[..] == old(a[..])
    ensures ok ==> Terminated(a[..]) && WritesWithin(old(a[..]), a[..], data, end)
    ensures ok ==> CStr(a[..], data) == f[..|f| - |suffix|]
  {
    ghost var s1 := a[..];
    EndsWithAtEnd(s1, data, end, f, suffix);
    ok := ExpectEndsWith(a, data, end, suffix);
    if ok {
      CStrCut(s1, data, |f| - |suffix|);
    }
  }

  /** Whether the string at data ends with a suffix, read off at its end. */
  lemma EndsWithAtEnd(s: seq<char>, data: nat, end: nat, f: string, suffix: string)
    requires Terminated(s) && data < |s| && End(s, data) == end && CStr(s, data) == f
    ensures EndsWith(f, suffix) == (|suffix| <= end - data && CStr(s, end - |suffix|) == suffix)
  {
    if |suffix| <= |f| {
      CStrTail(s, data, end - |suffix|);
    }
  }

  /** The element walk of parseReactionList: from the cursor at the list
      body, the reactions of each element up to the sentinel, in order. */
  method ReactionsInList(a: array<char>, ghost s0: seq<char>, ghost p: nat, start: nat, ghost body: string)
    returns (found: seq<Call>)
    requires Terminated(s0) && p < |s0| && Parsing(s0, p, a[..], start, body)
    modifies a
    ensures found == ReactionsOf(ListElements(body))
    ensures Terminated(a[..]) && WritesWithin(s0, a[..], p, End(s0, p))
  {
    assert NoNul(LIST_SENTINEL);
    ghost var rest := body;
    var c := start;
    found := [];
    while true
      invariant Parsing(s0, p, a[..], c, rest)
      invariant ReactionsOf(ListElements(body)) == found + ReactionsOf(ListElements(rest))
      decreases |rest|
    {
      ReactionWalkStep(ReactionsOf(ListElements(body)), found, rest);
      ghost var sc := AngleArg(rest, false);
      var reaction, next := ScanArgument(a, s0, p, c, rest, false);
      if reaction.None? {
        break;
      }
      ghost var s1 := a[..];
      assert CStr(s1, reaction.value) == sc.arg.value;
      var isSentinel, _ := ExpectStartsWith(a, reaction.value, LIST_SENTINEL);
      if isSentinel {
        break;
      }
      var rc := ParseReaction(a, reaction.value);
      assert rc == ReactionOf(sc.arg.value);
      ParsingNested(s0, p, s1, next, sc.rest, reaction.value, a[..]);
      found := found + rc;
      c, rest := next, sc.rest;
    }
  }

  /** The text after the "::orthogonal<(unsigned char)N>, " that follows the
      owner of an orthogonal region in t. */
  ghost function RegionTail(t: string): string
    requires ORTHOGONAL_MARKER <= AngleArg(t, true).rest
  {
    AngleArg(AngleArg(AngleArg(t, true).rest[|ORTHOGONAL_MARKER|..], true).rest, false).rest
  }

  /** The orthogonal-region part of parseSimpleState: skip the owner state to
      its closing '>', expect the marker, read the region number with atoi,
      and skip past the number and the separator. */
  method ScanOrthogonalRegion(a: array<char>, ghost s0: seq<char>, ghost data: nat, c: nat, ghost t: string)
    returns (ok: bool, region: int, cursor: nat)
    requires Terminated(s0) && data < |s0| && Parsing(s0, data, a[..], c, t)
    modifies a
    ensures ok == (ORTHOGONAL_MARKER <= AngleArg(t, true).rest)
    ensures ok ==> region == LeadingNumber(AngleArg(t, true).rest[|ORTHOGONAL_MARKER|..])
    ensures ok ==> Parsing(s0, data, a[..], cursor, RegionTail(t))
    ensures Terminated(a[..]) && WritesWithin(s0, a[..], data, End(s0, data))
  {
    assert NoNul(ORTHOGONAL_MARKER);
    ghost var owner := AngleArg(t, true);
    var ownerArg, c1 := ScanArgument(a, s0, data, c, t, true);
    var c2;
    ok, c2 := SkipLiteral(a, s0, data, c1, owner.rest, ORTHOGONAL_MARKER);
    region := 0;
    cursor := c2;
    if ok {
      ghost var regionText := owner.rest[|ORTHOGONAL_MARKER|..];
      region := Atoi(a, c2);
      var regionArg, c3 := ScanArgument(a, s0, data, c2, regionText, true);
      var separatorArg, c4 := ScanArgument(a, s0, data, c3, AngleArg(regionText, true).rest, false);
      cursor := c4;
    }
  }

  /** The start of parseSimpleState: the state's name, the "simple_state<"
      test on its parent, the parent, and for an inline parent the orthogonal
      region; the cursor is left at the substate specification. */
  method ScanStateHead(a: array<char>, ghost s0: seq<char>, data: nat)
    returns (ok: bool, name: Name, parent: Name, region: int, cursor: nat)
    requires Terminated(s0) && data < |s0| && a[..] == s0
    modifies a
    ensures Terminated(a[..]) && WritesWithin(s0, a[..], data, End(s0, data))
    ensures ok == StateHead(CStr(s0, data)).Some?
    ensures ok ==> cursor < a.Length && Parsing(s0, data, a[..], cursor, CStr(a[..], cursor))
    ensures ok ==> StateHead(CStr(s0, data)) == Some((name, parent, region, CStr(a[..], cursor)))
  {
    assert NoNul(NESTED_STATE);
    ghost var t := CStr(s0, data);
    ParsingStarts(s0, data);
    ghost var nameScan := AngleArg(t, false);
    var n, c1 := ScanArgument(a, s0, data, data, t, false);
    name := StringAt(a[..], n);
    var nested, c2 := SkipLiteral(a, s0, data, c1, nameScan.rest, NESTED_STATE);
    ghost var u := if nested then nameScan.rest[|NESTED_STATE|..] else nameScan.rest;
    ghost var parentScan := AngleArg(u, false);
    var pa, c3 := ScanArgument(a, s0, data, c2, u, false);
    parent := StringAt(a[..], pa);
    StateHeadBranch(t, nameScan, nested, u, parentScan);
    if nested {
      ok, region, cursor := ScanOrthogonalRegion(a, s0, data, c3, parentScan.rest);
    } else {
      ok, region, cursor := true, 0, c3;
    }
  }

  /** The outcomes of StateHead once the name and the parent are scanned. */
  lemma StateHeadBranch(t: string, nameScan: Scan, nested: bool, u: string, parentScan: Scan)
    requires nameScan == AngleArg(t, false) && nested == (NESTED_STATE <= nameScan.rest)
    requires u == (if nested then nameScan.rest[|NESTED_STATE|..] else nameScan.rest)
    requires parentScan == AngleArg(u, false)
    ensures !nested ==> StateHead(t) == Some((Text(nameScan.arg), Text(parentScan.arg), 0, parentScan.rest))
    ensures nested ==> (StateHead(t).Some? == (ORTHOGONAL_MARKER <= AngleArg(parentScan.rest, true).rest))
    ensures nested && StateHead(t).Some? ==>
      StateHead(t) == Some((Text(nameScan.arg), Text(parentScan.arg),
        LeadingNumber(AngleArg(parentScan.rest, true).rest[|ORTHOGONAL_MARKER|..]), RegionTail(parentScan.rest)))
  {
  }

  /** The first scan of parseReactMethod: the name up to '(' must end in
      "::react", which is cut off to leave the state's name; the cursor is
      left after the '('. */
  method ScanReactName(a: array<char>, ghost s0: seq<char>, data: nat) returns (state: Option<Name>, cursor: nat)
    requires Terminated(s0) && data < |s0| && a[..] == s0
    modifies a
    ensures var fn := NameArg(CStr(s0, data), '(');
      state.Some? == (fn.arg.Some? && EndsWith(fn.arg.value, REACT_SUFFIX))
    ensures var fn := NameArg(CStr(s0, data), '(');
      state.Some? ==> state.value == fn.arg.value[..|fn.arg.value| - |REACT_SUFFIX|] &&
                      Parsing(s0, data, a[..], cursor, fn.rest)
    ensures Terminated(a[..]) && WritesWithin(s0, a[..], data, End(s0, data))
  {
    ghost var t := CStr(s0, data);
    ghost var fn := NameArg(t, '(');
    ParsingStarts(s0, data);
    var f, c1 := MatchName(a, data, '(');
    ghost var s1 := a[..];
    ParsingScan(s0, data, s0, data, t, fn, s1, f, c1);
    cursor := c1;
    if f.None? {
      return None, cursor;
    }
    NameArgParts(t, '(');
    ReactNameCut(s0, data, fn, s1, c1);
    assert NoNul(REACT_SUFFIX);
    var isReact := CutSuffix(a, data, c1 - 1, fn.arg.value, REACT_SUFFIX);
    if !isReact {
      return None, cursor;
    }
    ParsingNested(s0, data, s1, c1, fn.rest, data, a[..]);
    state := Some(CStr(a[..], data));
  }

  /** The scanning half of parseReactMethod: the state's name, then the event
      as the name up to the next ' ' (empty when there is none).  The result
      is None when the text is not a react method. */
  method ScanReactMethod(a: array<char>, ghost s0: seq<char>, data: nat) returns (r: Option<(Name, Name)>)
    requires Terminated(s0) && data < |s0| && a[..] == s0
    modifies a
    ensures r == ReactMethod(CStr(s0, data))
    ensures Terminated(a[..]) && WritesWithin(s0, a[..], data, End(s0, data))
  {
    ghost var fn := NameArg(CStr(s0, data), '(');
    var state, c1 := ScanReactName(a, s0, data);
    if state.None? {
      return None;
    }
    ghost var s1 := a[..];
    ghost var event := NameArg(fn.rest, ' ');
    var ev, c2 := MatchName(a, c1, ' ');
    ParsingScan(s0, data, s1, c1, fn.rest, event, a[..], ev, c2);
    r := Some((state.value, StringAt(a[..], ev)));
  }

  /** A call site after its "simple_state<": the qualifier's arguments are
      skipped to the closing '>', and the reaction named after it is
      "::transit<" with its target, "::discard_event()" or
      "::defer_event()", under the active context (state, event). */
  method ScanReactionCall(a: array<char>, ghost s0: seq<char>, ghost data: nat, c0: nat, ghost w: string, state: Name, event: Name)
    returns (rc: seq<Call>)
    requires Terminated(s0) && data < |s0| && Parsing(s0, data, a[..], c0, w)
    modifies a
    ensures rc == ReactionCall(Context(true, state, event), AngleArg(w, true).rest)
    ensures Terminated(a[..]) && WritesWithin(s0, a[..], data, End(s0, data))
  {
    var qualifier, c := ScanArgument(a, s0, data, c0, w, true);
    rc := ScanReaction(a, s0, data, c, AngleArg(w, true).rest, state, event);
  }

  /** The reaction named at the cursor: "::transit<" with its target,
      "::discard_event()" or "::defer_event()". */
  method ScanReaction(a: array<char>, ghost s0: seq<char>, ghost data: nat, c: nat, ghost v: string, state: Name, event: Name)
    returns (rc: seq<Call>)
    requires Terminated(s0) && data < |s0| && Parsing(s0, data, a[..], c, v)
    modifies a
    ensures rc == ReactionCall(Context(true, state, event), v)
    ensures Terminated(a[..]) && WritesWithin(s0, a[..], data, End(s0, data))
  {
    assert NoNul(TRANSIT);
    assert NoNul(DISCARD_EVENT);
    assert NoNul(DEFER_EVENT);
    var transit, c1 := SkipLiteral(a, s0, data, c, v, TRANSIT);
    if transit {
      var target, c2 := ScanArgument(a, s0, data, c1, v[|TRANSIT|..], false);
      return [AddTransition(StringAt(a[..], target), event)];
    }
    var discard, c2 := SkipLiteral(a, s0, data, c, v, DISCARD_EVENT);
    if discard {
      return [AddTransition(state, event)];
    }
    var defer, c3 := SkipLiteral(a, s0, data, c, v, DEFER_EVENT);
    if defer {
      return [AddDeferral(event)];
    }
    return [];
  }

  /** The scanning part of parseFunctionCall under an active context: the
      optional safe-result qualifier, the simple_state<...> qualifier, and the
      reaction after it. */
  method ScanCallSite(a: array<char>, ghost s0: seq<char>, data: nat, state: Name, event: Name)
    returns (rc: seq<Call>)
    requires Terminated(s0) && data < |s0| && a[..] == s0
    modifies a
    ensures rc == CallSite(Context(true, state, event), CStr(s0, data))
    ensures Terminated(a[..]) && WritesWithin(s0, a[..], data, End(s0, data))
  {
    SafeResultHasNoNul();
    assert NoNul(NESTED_STATE);
    ghost var t := CStr(s0, data);
    var safe, c1 := ExpectStartsWith(a, data, SAFE_RESULT);
    CStrTail(s0, data, c1);
    ghost var u := CStr(s0, c1);
    assert u == if safe then t[|SAFE_RESULT|..] else t;
    CallSiteSteps(Context(true, state, event), t, u);
    var nested, c2 := ExpectStartsWith(a, c1, NESTED_STATE);
    if !nested {
      return [];
    }
    assert CStr(s0, c2) == u[|NESTED_STATE|..];
    CStrTail(s0, data, c2);
    ParsingStarts(s0, c2);
    rc := ScanReactionCall(a, s0, c2, c2, CStr(s0, c2), state, event);
    WritesWithinTrans(s0, s0, a[..], data, End(s0, data), c2, End(s0, c2));
  }

  /** The outcomes of CallSite under an active context once the optional
      safe-result qualifier is skipped, leaving u. */
  lemma CallSiteSteps(ctx: Context, t: string, u: string)
    requires ctx.active && u == if SAFE_RESULT <= t then t[|SAFE_RESULT|..] else t
    ensures !(NESTED_STATE <= u) ==> CallSite(ctx, t) == []
    ensures NESTED_STATE <= u ==> CallSite(ctx, t) == ReactionCall(ctx, AngleArg(u[|NESTED_STATE|..], true).rest)
  {
    CallSiteBranch(ctx, t, u);
  }

  lemma SafeResultHasNoNul()
    ensures NoNul(SAFE_RESULT)
  {
    assert NoNul(NAMESPACE) && NoNul("detail::safe_reaction_result ");
    NoNulConcat(NAMESPACE, "detail::safe_reaction_result ");
  }

  lemma NoNulConcat(x: string, y: string)
    requires NoNul(x) && NoNul(y)
    ensures NoNul(x + y)
  {
  }

  /** The three outcomes of QualifiedCalls on u, given the text v left once
      the optional reaction-result qualifier is skipped. */
  lemma QualifiedBranch(u: string, v: string)
    requires v == if DETAIL_RESULT <= u then u[|DETAIL_RESULT|..] else u
    ensures STATE_MACHINE_OPEN <= v ==> QualifiedCalls(u) == StateMachineCalls(v[|STATE_MACHINE_OPEN|..])
    ensures !(STATE_MACHINE_OPEN <= v) && SIMPLE_STATE_OPEN <= v ==>
      QualifiedCalls(u) == SimpleStateCalls(v[|SIMPLE_STATE_OPEN|..])
    ensures !(STATE_MACHINE_OPEN <= v) && !(SIMPLE_STATE_OPEN <= v) ==> QualifiedCalls(u) == []
  {
  }

  /** The parser: it reports what it recognises to the state-machine model
      (recorded here as the calls it makes), and keeps the reaction context of
      the most recent react method. */
  class ScParser {
    /** The calls made on the model, in order. */
    var calls: seq<Call>
    var currentState: Name
    var currentEvent: Name
    var hasCurrentState: bool

    /** An active context has an event, and its state is the one most recently
        made active on the model, so later reactions are attributed to it. */
    ghost predicate Valid()
      reads this
      ensures Valid() && hasCurrentState ==> SetActiveState(currentState) in calls
    {
      hasCurrentState ==> currentEvent != [] && LastAnchor(calls) == Some(SetActiveState(currentState))
    }

    function ReactionContext(): Context
      reads this
    {
      Context(hasCurrentState, currentState, currentEvent)
    }

    constructor ()
      ensures calls == [] && !hasCurrentState && Valid()
    {
      calls := [];
      currentState := [];
      currentEvent := [];
      hasCurrentState := false;
    }

    /** parseReactionList: the reactions of a listed reaction list, in order;
        a null or unlisted specification gives none. */
    method ParseReactionList(a: array<char>, mplList: Option<nat>)
      requires Terminated(a[..]) && (mplList.Some? ==> mplList.value < a.Length)
      modifies this`calls, a
      ensures calls == old(calls) + ReactionList(StringAt(old(a[..]), mplList))
      ensures Terminated(a[..])
      ensures mplList.None? ==> a[..] == old(a[..])
      ensures mplList.Some? ==> WritesWithin(old(a[..]), a[..], mplList.value, End(old(a[..]), mplList.value))
    {
      if mplList.None? {
        assert ReactionList(StringAt(old(a[..]), mplList)) == [];
        return;
      }
      var p := mplList.value;
      var isList, start := OpenList(a, p);
      ghost var s0 := a[..];
      assert s0 == old(a[..]);
      if start.None? {
        assert ReactionList(StringAt(s0, mplList)) == [];
        return;
      }
      ghost var body := ListBody(CStr(s0, p)).value;
      assert ReactionList(StringAt(s0, mplList)) == ReactionsOf(ListElements(body));
      var found := ReactionsInList(a, s0, p, start.value, body);
      calls := calls + found;
    }

    /** parseStateMachine: the text after "state_machine<" names the machine
        and its initial state. */
    method ParseStateMachine(a: array<char>, data: nat)
      requires Terminated(a[..]) && data < a.Length
      modifies this`calls, a
      ensures calls == old(calls) + StateMachineCalls(CStr(old(a[..]), data))
      ensures Terminated(a[..]) && WritesWithin(old(a[..]), a[..], data, End(old(a[..]), data))
    {
      ghost var s0 := a[..];
      ghost var t := CStr(s0, data);
      ParsingStarts(s0, data);
      var n, c1 := ScanArgument(a, s0, data, data, t, false);
      var machine := StringAt(a[..], n);
      var i, _ := ScanArgument(a, s0, data, c1, AngleArg(t, false).rest, false);
      calls := calls + [AddStateMachine(machine, StringAt(a[..], i))];
    }

    /** The end of parseSimpleState, from the substate specification on: the
        state is added with its initial substates, the history mode is
        skipped, and a "::local_react<" suffix has its reaction list parsed. */
    method ParseStateTail(a: array<char>, data: nat, name: Name, parent: Name, region: int)
      requires Terminated(a[..]) && data < a.Length
      modifies this`calls, a
      ensures calls == old(calls) + StateCalls(name, parent, region, CStr(old(a[..]), data))
      ensures Terminated(a[..]) && WritesWithin(old(a[..]), a[..], data, End(old(a[..]), data))
    {
      assert NoNul(LOCAL_REACT);
      ghost var s0 := a[..];
      ghost var calls0 := calls;
      ghost var t := CStr(s0, data);
      ParsingStarts(s0, data);
      ghost var substates := AngleArg(t, false);
      ghost var history := AngleArg(substates.rest, true);
      ghost var state := AddState(name, parent, region, InitialSubstates(Text(substates.arg)));
      assert StateCalls(name, parent, region, t) == [state] + LocalReactions(history.rest);
      var l, c1 := ScanArgument(a, s0, data, data, t, false);
      ghost var s1 := a[..];
      var list := ParseInitialSubstateList(a, l);
      if l.Some? {
        ParsingNested(s0, data, s1, c1, substates.rest, data, a[..]);
      }
      assert AddState(name, parent, region, list) == state;
      calls := calls + [AddState(name, parent, region, list)];
      var _, c2 := ScanArgument(a, s0, data, c1, substates.rest, true);
      var isLocal, c3 := SkipLiteral(a, s0, data, c2, history.rest, LOCAL_REACT);
      if isLocal {
        ghost var reactions := AngleArg(history.rest[|LOCAL_REACT|..], false);
        assert LocalReactions(history.rest) == ReactionList(Text(reactions.arg));
        var r, c4 := ScanArgument(a, s0, data, c3, history.rest[|LOCAL_REACT|..], false);
        ghost var s4 := a[..];
        ParseReactionList(a, r);
        if r.Some? {
          ParsingNested(s0, data, s4, c4, reactions.rest, c3, a[..]);
        }
        assert calls == calls0 + [state] + LocalReactions(history.rest);
        AppendAssociates(calls0, [state], LocalReactions(history.rest));
      } else {
        assert LocalReactions(history.rest) == [];
        assert calls == calls0 + [state];
        assert [state] + LocalReactions(history.rest) == [state];
      }
      assert calls == calls0 + StateCalls(name, parent, region, t);
    }

    /** parseSimpleState: the text after "simple_state<" names the state and
        its parent; a parent given as an orthogonal region of a simple_state
        also gives the region number, and a missing "::orthogonal<" marker
        ends the parse with nothing added. */
    method ParseSimpleState(a: array<char>, data: nat)
      requires Terminated(a[..]) && data < a.Length
      modifies this`calls, a
      ensures calls == old(calls) + SimpleStateCalls(CStr(old(a[..]), data))
      ensures Terminated(a[..]) && WritesWithin(old(a[..]), a[..], data, End(old(a[..]), data))
    {
      ghost var s0 := a[..];
      var ok, name, parent, region, c := ScanStateHead(a, s0, data);
      if !ok {
        return;
      }
      ghost var s1 := a[..];
      ParseStateTail(a, c, name, parent, region);
      WritesWithinTrans(s0, s1, a[..], data, End(s0, data), c, End(s1, c));
    }

    /** parseReactMethod: a react method sets the context's state and event;
        a non-empty event also activates the context and marks the state
        active on the model. */
    method ParseReactMethod(a: array<char>, data: nat)
      requires Terminated(a[..]) && data < a.Length
      modifies this, a
      ensures var e := ReactDeclaration(old(ReactionContext()), CStr(old(a[..]), data));
        calls == old(calls) + e.calls && ReactionContext() == e.context
      ensures Terminated(a[..]) && WritesWithin(old(a[..]), a[..], data, End(old(a[..]), data))
    {
      var r := ScanReactMethod(a, a[..], data);
      if r.None? {
        return;
      }
      currentState, currentEvent := r.value.0, r.value.1;
      if currentEvent == [] {
        return;
      }
      hasCurrentState := true;
      calls := calls + [SetActiveState(currentState)];
    }

    /** parseFunctionDecl: every declaration first clears the flag; a
        "boost::statechart::" declaration is a state machine or a simple
        state, and anything else is read as a react method.  An active
        context afterwards was just made active by the declaration. */
    method ParseFunctionDecl(a: array<char>, data: nat)
      requires Terminated(a[..]) && data < a.Length
      modifies this, a
      ensures var e := Declaration(old(ReactionContext()), CStr(old(a[..]), data));
        calls == old(calls) + e.calls && ReactionContext() == e.context
      ensures Valid()
      ensures Terminated(a[..]) && WritesWithin(old(a[..]), a[..], data, End(old(a[..]), data))
    {
      assert NoNul(NAMESPACE);
      hasCurrentState := false;
      ghost var t := CStr(a[..], data);
      var inNamespace, c1 := ExpectStartsWith(a, data, NAMESPACE);
      if inNamespace {
        CStrTail(a[..], data, c1);
        ParseQualifiedDecl(a, c1);
        WritesWithinTrans(old(a[..]), old(a[..]), a[..], data, End(old(a[..]), data), c1, End(old(a[..]), c1));
      } else {
        ParseReactMethod(a, data);
        ActivationMeansReact(old(ReactionContext()), t);
      }
    }

    /** The "boost::statechart::" branch of parseFunctionDecl: the optional
        reaction-result qualifier, then "state_machine<" or "simple_state<". */
    method ParseQualifiedDecl(a: array<char>, data: nat)
      requires Terminated(a[..]) && data < a.Length
      modifies this`calls, a
      ensures calls == old(calls) + QualifiedCalls(CStr(old(a[..]), data))
      ensures Terminated(a[..]) && WritesWithin(old(a[..]), a[..], data, End(old(a[..]), data))
    {
      assert NoNul(DETAIL_RESULT);
      assert NoNul(STATE_MACHINE_OPEN);
      ghost var s0 := a[..];
      ghost var u := CStr(s0, data);
      var detail, c1 := ExpectStartsWith(a, data, DETAIL_RESULT);
      CStrTail(s0, data, c1);
      ghost var v := CStr(s0, c1);
      assert v == if detail then u[|DETAIL_RESULT|..] else u;
      var isMachine, c2 := ExpectStartsWith(a, c1, STATE_MACHINE_OPEN);
      if isMachine {
        assert CStr(s0, c2) == v[|STATE_MACHINE_OPEN|..];
        QualifiedBranch(u, v);
        CStrTail(s0, data, c2);
        ParseStateMachine(a, c2);
        WritesWithinTrans(s0, s0, a[..], data, End(s0, data), c2, End(s0, c2));
        return;
      }
      QualifiedBranch(u, v);
      ParseStateDecl(a, c1);
      WritesWithinTrans(s0, s0, a[..], data, End(s0, data), c1, End(s0, c1));
    }

    /** The "simple_state<" test of parseFunctionDecl, once "state_machine<"
        has been ruled out. */
    method ParseStateDecl(a: array<char>, data: nat)
      requires Terminated(a[..]) && data < a.Length
      modifies this`calls, a
      ensures calls == old(calls) +
        if SIMPLE_STATE_OPEN <= CStr(old(a[..]), data) then SimpleStateCalls(CStr(old(a[..]), data)[|SIMPLE_STATE_OPEN|..])
        else []
      ensures Terminated(a[..]) && WritesWithin(old(a[..]), a[..], data, End(old(a[..]), data))
    {
      assert NoNul(SIMPLE_STATE_OPEN);
      ghost var s0 := a[..];
      var isState, c := ExpectStartsWith(a, data, SIMPLE_STATE_OPEN);
      if isState {
        CStrTail(s0, data, c);
        ParseSimpleState(a, c);
        WritesWithinTrans(s0, s0, a[..], data, End(s0, data), c, End(s0, c));
      }
    }

    /** parseFunctionCall: under an active context, a call site records the
        reaction it names for the context's event; the context is kept, and
        it stays attributed to its state since reactions are not anchors. */
    method ParseFunctionCall(a: array<char>, data: nat)
      requires Terminated(a[..]) && data < a.Length
      modifies this`calls, a
      ensures calls == old(calls) + CallSite(ReactionContext(), CStr(old(a[..]), data))
      ensures old(Valid()) ==> Valid()
      ensures Terminated(a[..]) && WritesWithin(old(a[..]), a[..], data, End(old(a[..]), data))
    {
      if !hasCurrentState {
        return;
      }
      var rc := ScanCallSite(a, a[..], data, currentState, currentEvent);
      CallSiteIsContextReaction(ReactionContext(), CStr(old(a[..]), data));
      LastAnchorSkipsReactions(calls, rc);
      calls := calls + rc;
    }
  }
}
