# ScParser: a verified model of bosce's symbol parser

bosce rebuilds a Boost.Statechart state machine from the demangled symbol
names in a disassembled binary. Its parser, `ScParser` (src/ScParser.cpp,
src/ScParser.h), reads one symbol at a time. It has two entry points:

- `parseFunctionDecl` reads a declaration: a state machine, a simple state
  (with its parent, orthogonal region, initial substates and local
  reactions), or a react method `S::react(E ...)`.
- `parseFunctionCall` reads a call site inside the most recent react method:
  `::transit<T>`, `::discard_event()` or `::defer_event()`.

Each symbol the parser recognises becomes calls on the state-machine model
(`ScModel`). The parser works in place on a NUL-terminated `char` buffer. It
moves a cursor, and it cuts each matched name off by writing `'\0'` over the
delimiter that follows it.

The project has four modules:

- `Tokens` (tokens.dfy): the two scanners of the parser, stated over
  immutable text as functions. `AngleArg` is `matchAngleArgument`: a
  bracket-depth scan that starts at depth 1. `NameArg` is `matchName`: an
  identifier that may contain `<...>` groups. Each scan returns a `Scan`: the
  match, or `None` for the null pointer (which is not the same as an empty
  match), plus the text left at the cursor.
- `Grammar` (grammar.dfy): the meaning of each production, as the sequence
  of `Call`s it makes on the model and the reaction context it leaves. The
  lemmas about these functions state what the grammar promises: list walks
  stop at `mpl_::na`, a state is recorded before its reactions, only a react
  method activates the context, and a call site makes one reaction that
  carries the context's event.
- `Buffer` (buffer.dfy): the C-string primitives over an `array<char>`.
  `End` and `CStr` read the string at a cursor. `MatchAngleArgument` and
  `MatchName` are loops with NUL writes; each is proved to compute `AngleArg`
  or `NameArg` on `CStr(old(a[..]), data)` and to write only inside that
  string. `Atoi` is a loop proved to compute `LeadingNumber`.
  `ExpectStartsWith` (a loop) and `ExpectEndsWith` (one comparison and one
  NUL write) are specified directly on `CStr`: the prefix or suffix test,
  the new cursor, and the single write.
- `Parser` (parser.dfy): class `ScParser`. Its fields are `currentState`,
  `currentEvent` and `hasCurrentState` (src/ScParser.h:25-27), plus `calls`:
  the calls made on the model, in order. Every production is a method whose
  `ensures` appends the `Grammar` function of the symbol's text to `calls`
  and sets the context fields to the `Grammar` result. `Valid()` is the
  class invariant. It says that an active context has a non-empty event, and
  that its state is the most recent non-reaction call, so the model
  attributes the reactions that follow to that state. The constructor
  establishes it, `ParseFunctionDecl` re-establishes it, and
  `ParseFunctionCall` preserves it.

Behaviour of the code that a reader may not expect:

- Inline parents and call sites are recognised by the full
  `boost::statechart::simple_state<` prefix (src/ScParser.cpp:103 and 260),
  not by `simple_state<` alone.
- `addTransition` and `addDeferral` take only a target and the event, never
  a source state (src/ScParser.cpp:107, 109 and 111). The model attributes
  them to the state of the most recent other call, which is why `LastAnchor`
  and `Valid()` exist.
- A react method with an empty event still overwrites `m_currentState` and
  `m_currentEvent`; it only leaves the flag cleared (src/ScParser.cpp:329-333).
- An inline parent without the `::orthogonal<(unsigned char)` marker ends
  `parseSimpleState` with nothing recorded (src/ScParser.cpp:264-268).

## Model

| member | source | states |
|---|---|---|
| Parser.ScParser.constructor | src/ScParser.cpp:8-12 | A new parser has made no calls, its reaction flag is cleared, and the class invariant holds |
| Parser.ScParser.Valid | src/ScParser.h:25-27 | The class invariant over the context fields: whenever the flag is set, the state has been announced to the model with setActiveState |
| Buffer.ExpectStartsWith | src/ScParser.cpp:14-18 | Succeeds exactly when the string at the cursor starts with the literal; the cursor then moves past the literal, and otherwise stays; the string at the new cursor is the rest of the old one |
| Buffer.EqString | src/ScParser.cpp:27 | True exactly when the string at the cursor equals the literal |
| Buffer.ExpectEndsWith | src/ScParser.cpp:20-34 | Succeeds exactly when [start, end) is at least as long as the suffix and the string at end minus its length is the suffix; it then writes NUL there and nowhere else, and otherwise the buffer is unchanged |
| Parser.EndsWithAtEnd | src/ScParser.cpp:23-27 | expectEndsWith's length-and-compare test on the name ending at end is exactly "the name ends with the suffix" |
| Parser.CutSuffix | src/ScParser.cpp:325 | Succeeds exactly when the function name ends in the suffix; the name is then cut to the text before the suffix, with writes only inside the name |
| Buffer.FindAngleStop | src/ScParser.cpp:41-65 | The loop of matchAngleArgument stops at the offset that the depth-1 bracket scan `AngleStop` gives, or at the NUL |
| Buffer.AngleScanCut | src/ScParser.cpp:43-56 | A scan that stops on a delimiter writes NUL only there and leaves the cursor past it, and past one space after a comma |
| Buffer.AngleScanMissed | src/ScParser.cpp:61-62 | A scan that reaches the NUL returns null, writes nothing and leaves the cursor on the NUL |
| Buffer.MatchAngleArgument | src/ScParser.cpp:36-66 | The buffer, result and cursor are exactly those that `AngleArg` gives for the old string at the cursor: a NUL at the delimiter and nowhere else, or null with nothing written |
| Tokens.AngleArg | src/ScParser.cpp:36-66 | matchAngleArgument over text: an argument, when found, is a proper prefix of the text and the cursor moves strictly forward; a null result leaves nothing to read. What the scan returns is stated by AngleArgIsFirstArgument and AngleArgSplits |
| Tokens.AngleStopIsFirstStop | src/ScParser.cpp:41-65 | The depth-tracking scan stops at the first position with no bracket left open that is a '>' (or a ',' in split mode), and skips no such position |
| Tokens.AngleArgIsFirstArgument | src/ScParser.cpp:36-66 | matchAngleArgument returns null exactly when no top-level delimiter exists; otherwise it returns the balanced text before the first one |
| Tokens.AngleArgSplits | src/ScParser.cpp:43-56 | Round trip: a balanced argument followed by '>' (or by ',' in split mode) is returned whole, and the cursor is left after the delimiter and one following space |
| Tokens.FlatIsArgument | src/ScParser.cpp:41-65 | Text without '<', '>' or ',' is a whole argument in either mode |
| Tokens.SplitStopsNoLaterThanSkip | src/ScParser.cpp:44 | Split mode never scans further than skip mode on the same text |
| Tokens.SplitExample | src/ScParser.cpp:36-66 | "A<B<C,D>,E>,F" splits into "A<B<C,D>,E>" with the cursor at "F": no comma inside brackets splits, at any depth |
| Tokens.SkipExample | src/ScParser.cpp:36-66 | In skip mode "A<B,C>,X>" yields "A<B,C>,X": commas never stop the scan |
| Grammar.CommaSplit | src/ScParser.cpp:43-49 | Splitting "x, w" returns x and leaves the cursor at w |
| Buffer.FindNameStop | src/ScParser.cpp:288-303 | The loop of matchName stops at the offset that the identifier scan `NameStop` gives |
| Buffer.NameScanStays | src/ScParser.cpp:305-310 | When the scan stops on something other than the terminator, or on the NUL, nothing is written and the cursor stays where the scan stopped |
| Buffer.NameScanCut | src/ScParser.cpp:311-312 | When the scan stops on the terminator, NUL is written there only and the cursor moves past it |
| Buffer.MatchName | src/ScParser.cpp:284-313 | The buffer, result and cursor are exactly those that `NameArg` gives for the old string at the cursor |
| Tokens.NameArg | src/ScParser.cpp:284-313 | matchName over text: a name, when found, is a prefix of the text, and the cursor never moves back. What the scan returns is stated by NameArgIsFirstName, NameArgParts and NameArgSplits |
| Tokens.NameStopIsFirstStop | src/ScParser.cpp:288-303 | The identifier scan stops at the first position outside every '<...>' group that is neither a name character nor '<' |
| Tokens.NameArgIsFirstName | src/ScParser.cpp:284-313 | With a terminator other than NUL, matchName succeeds exactly when the first character that ends the identifier is the terminator; the name is the text before it and the cursor is after it |
| Tokens.NameArgParts | src/ScParser.cpp:305-312 | On success the text is the name, the terminator and the rest |
| Tokens.NameArgSplits | src/ScParser.cpp:284-313 | Round trip: a name, `<...>` groups included, followed by its terminator is matched exactly, with the cursor after the terminator |
| Buffer.Atoi | src/ScParser.cpp:269 | The value of the leading decimal digits of the string at the cursor |
| Tokens.LeadingNumberOfDigits | src/ScParser.cpp:269 | A run of digits followed by a non-digit reads as the run's decimal value |
| Buffer.SkipHexDigits | src/ScParser.cpp:181 | The cursor moves over the leading run of hexadecimal digits |
| Buffer.ExpectAddress | src/ScParser.cpp:181 | The address tag after the list wrapper ("0x" and hexadecimal digits, or nothing) is skipped, and the cursor's string is the rest |
| Tokens.AddressLengthOfTag | src/ScParser.cpp:181 | A tag "0x" + hex digits followed by a non-hex character is skipped whole |
| Grammar.AddressTagSkipped | src/ScParser.cpp:181 | Any well-formed address tag, empty or "0x..." followed by a non-hex character, is skipped whole |
| Parser.OpenList | src/ScParser.cpp:180-185 | The specification is a list exactly when it starts with "boost::mpl::list"; the body cursor exists exactly when the '<' follows the tag, and it designates the list body |
| Parser.ParseInitialSubstateList | src/ScParser.cpp:176-202 | Returns `InitialSubstates` of the specification (null reads as the empty name), and writes only inside that string |
| Grammar.InitialSubstates | src/ScParser.cpp:176-202 | Reference definition of parseInitialSubstateList: the listed elements for a boost::mpl::list, none when its '<' is missing, and the whole text otherwise. Stated by InitialSubstatesOfList, UnopenedListIsEmpty and NonListSubstates |
| Grammar.NonListSubstates | src/ScParser.cpp:197-199 | A substate specification that is not a boost::mpl::list names one substate: the whole text |
| Grammar.ListBodyOf | src/ScParser.cpp:180-185 | The list body starts after the wrapper, the address tag and '<' |
| Grammar.InitialSubstatesOfList | src/ScParser.cpp:180-196 | A listed specification yields its elements, in order, up to the sentinel |
| Grammar.UnopenedListIsEmpty | src/ScParser.cpp:182-184 | A list wrapper without '<' yields no substates and no reactions |
| Grammar.SentinelEndsList | src/ScParser.cpp:191-193 | A list walk ends at an element that starts with "mpl_::na", whatever follows |
| Grammar.ListElementsCons | src/ScParser.cpp:186-195 | An element that is not the sentinel is collected, and the walk continues after its comma |
| Grammar.ListElements | src/ScParser.cpp:186-196 | Reference definition of the substate walk: each element is read with matchAngleArgument, and the walk stops at a null element or one starting with "mpl_::na". Its results are stated by ListElementsCons, ListElementsOfJoined and ListElementsOfClosed |
| Grammar.ListElementsOfJoined | src/ScParser.cpp:186-196 | The walk over elements followed by the sentinel returns exactly those elements, in order |
| Grammar.ListElementsOfClosed | src/ScParser.cpp:186-196 | The walk over a list that closes with '>' and has no sentinel returns every element, in order |
| Parser.ParseReaction | src/ScParser.cpp:227-234 | The calls one element makes are `ReactionOf` of its text: transition<E, T> gives addTransition(T, E), deferral<E> gives addDeferral(E), anything else nothing |
| Grammar.ReactionOf | src/ScParser.cpp:227-234 | One list element makes at most one call, and that call is a transition or a deferral |
| Grammar.OtherReactionSkipped | src/ScParser.cpp:227-234 | A list element that is neither a transition nor a deferral makes no call |
| Parser.ReactionsInList | src/ScParser.cpp:218-235 | The walk from the list body records the reactions of each element up to the sentinel, in order |
| Parser.ScParser.ParseReactionList | src/ScParser.cpp:204-237 | Appends exactly `ReactionList` of the specification (nothing for a null or unlisted one), and writes only inside that string |
| Grammar.ReactionList | src/ScParser.cpp:204-237 | Reference definition of parseReactionList: the reactions of the listed elements for a boost::mpl::list, and nothing otherwise. Stated by ReactionListOfList and ReactionsOfAreReactions |
| Grammar.TransitionReaction | src/ScParser.cpp:227-230 | transition<E, T, ...> records the transition to T on E |
| Grammar.DeferralReaction | src/ScParser.cpp:231-233 | deferral<E> records the deferral of E |
| Grammar.ReactionListOfList | src/ScParser.cpp:212-236 | A listed reaction list records the reactions of its elements, in order, up to the sentinel |
| Grammar.ReactionsOfAreReactions | src/ScParser.cpp:227-234 | Every call a reaction list makes is a transition or a deferral |
| Grammar.LocalReactionsAreReactions | src/ScParser.cpp:279-281 | A "::local_react<" suffix records only transitions and deferrals |
| Parser.ScParser.ParseStateMachine | src/ScParser.cpp:168-174 | Appends exactly one addStateMachine with the first two arguments |
| Grammar.StateMachineCalls | src/ScParser.cpp:168-174 | Reference definition of parseStateMachine: one addStateMachine call with the first two arguments. Stated by StateMachineArguments and StateMachineUnscanned |
| Grammar.StateMachineArguments | src/ScParser.cpp:170-173 | The two leading arguments of a state machine are its name and its initial state |
| Grammar.StateMachineUnscanned | src/ScParser.cpp:168-174 | A state machine is recorded even when no argument can be scanned, with empty names |
| Parser.ScanStateHead | src/ScParser.cpp:258-272 | Succeeds exactly when `StateHead` is defined, and then returns its name, parent, region and the text at the cursor; it writes only inside the symbol |
| Grammar.StateHead | src/ScParser.cpp:258-272 | The head of a simple state is read in full unless its parent is given inline as simple_state<...>, which is the only case where parseSimpleState returns early; the orthogonal region is never negative |
| Parser.ScanOrthogonalRegion | src/ScParser.cpp:264-272 | Succeeds exactly when the "::orthogonal<(unsigned char)" marker follows the skipped owner; the region is the atoi value after it, and the cursor is past the region and the comma |
| Parser.ScParser.ParseStateTail | src/ScParser.cpp:274-281 | Appends addState with the initial substates, then the local reactions after the skipped history mode |
| Grammar.StateCalls | src/ScParser.cpp:274-281 | Reference definition of the tail of parseSimpleState: one addState call with the initial substates, then the local reactions. Stated by StateCallsOf and StateCallsShape |
| Parser.ScParser.ParseSimpleState | src/ScParser.cpp:239-282 | Appends exactly `SimpleStateCalls` of the text after "simple_state<" |
| Grammar.SimpleStateCalls | src/ScParser.cpp:239-282 | Reference definition of parseSimpleState: nothing when the head is cut short, and otherwise the state's calls. Stated by SimpleStateShape and SimpleStateReactionsFollowState |
| Grammar.StateCallsOf | src/ScParser.cpp:274-281 | From the substate specification on, the state is recorded with its substates, then the local reactions after the history mode |
| Grammar.StateCallsShape | src/ScParser.cpp:274-281 | The state production records the state first, with its name, parent and region, and only reactions after it |
| Grammar.SimpleStateWithParent | src/ScParser.cpp:258-275 | A plain parent gives region 0 of that parent |
| Grammar.RegionNumber | src/ScParser.cpp:269 | The region number is the value of the digits after the marker |
| Grammar.RegionSkipped | src/ScParser.cpp:270-271 | Skipping "R>" and splitting at the comma after it leaves the text that follows |
| Grammar.SimpleStateInRegion | src/ScParser.cpp:258-275 | An inline parent simple_state<P, ...>::orthogonal<(unsigned char)R> gives parent P and region R |
| Grammar.SimpleStateWithoutRegion | src/ScParser.cpp:264-268 | An inline parent without the orthogonal marker records nothing |
| Grammar.SimpleStateShape | src/ScParser.cpp:258-281 | A state declaration records nothing, or the state followed only by reactions |
| Grammar.LastAnchorSkipsReactions | src/ScParser.cpp:107-111 | Appending reactions does not change which call the model attributes reactions to |
| Grammar.LastAnchor | src/ScParser.cpp:107-111 | The most recent non-reaction call of a trace, which is where the model attributes a transition or deferral: when there is one it is in the trace and is not a reaction; when there is none, every call in the trace is a reaction |
| Grammar.AnchorThenReactions | src/ScParser.cpp:274-281 | After an anchor call followed by reactions, every prefix that contains the anchor attributes its reactions to it |
| Grammar.SimpleStateReactionsFollowState | src/ScParser.cpp:274-281 | Each reaction of a state declaration is attributed to that state by the model |
| Parser.ScanReactName | src/ScParser.cpp:321-328 | Succeeds exactly when the name up to '(' ends in "::react"; the state is that name without the suffix, and the cursor is after the '(' |
| Parser.ScanReactMethod | src/ScParser.cpp:321-330 | Returns exactly `ReactMethod` of the text: the state and the event up to ' ' (empty if missing), or None when the text is not a react method |
| Parser.ScParser.ParseReactMethod | src/ScParser.cpp:315-337 | Appends and sets the context exactly as `ReactDeclaration`: a react method sets state and event, and only a non-empty event activates the context and appends setActiveState(S) |
| Grammar.ReactMethod | src/ScParser.cpp:321-330 | A react method's state name, followed by "::react", starts the text |
| Grammar.ReactDeclaration | src/ScParser.cpp:315-337 | Reference definition of parseReactMethod's effect on the context fields and the model. Stated by ReactDeclared and ActivationMeansReact |
| Grammar.ReactMethodOf | src/ScParser.cpp:321-330 | "S::react(E " names the react method of S for event E, for any names S and E, template arguments included |
| Grammar.ReactMethodOfTemplate | src/ScParser.cpp:321-330 | "S<T>::react(E const&)" is the react method of "S<T>" for event "E" |
| Grammar.ReactMethodForm | src/ScParser.cpp:321-330 | A react method with a non-empty event is spelled "S::react(E " at the start of the text |
| Grammar.ReactDeclared | src/ScParser.cpp:315-337 | Outside the namespace, "S::react(E " sets the context to (S, E); it activates it and records setActiveState(S) exactly when E is non-empty |
| Grammar.ActivationMeansReact | src/ScParser.cpp:68-91 | A declaration leaves the context active only for react-method text "S::react(E " with E non-empty outside the namespace, and then its only call is setActiveState(S) |
| Grammar.NamespaceDeclaration | src/ScParser.cpp:78-88 | Every "boost::statechart::" declaration clears the flag; one that is neither a state machine nor a simple state records nothing |
| Grammar.StateMachineDeclared | src/ScParser.cpp:78-83 | A state-machine declaration, with or without the reaction-result qualifier, records the machine and clears the flag |
| Grammar.SimpleStateDeclared | src/ScParser.cpp:78-87 | A simple-state declaration, with or without the qualifier, records the state production's calls and clears the flag |
| Parser.ScParser.ParseQualifiedDecl | src/ScParser.cpp:78-87 | Appends exactly `QualifiedCalls` of the text after the namespace |
| Parser.ScParser.ParseStateDecl | src/ScParser.cpp:85-87 | Appends the simple-state production's calls when the text starts with "simple_state<", and nothing otherwise |
| Parser.ScParser.ParseFunctionDecl | src/ScParser.cpp:68-91 | Appends and sets the context exactly as `Declaration`, which first clears the flag; the class invariant holds afterwards |
| Grammar.Declaration | src/ScParser.cpp:68-91 | Reference definition of parseFunctionDecl: the flag is cleared, then a namespace-qualified declaration or a react method is read. Stated by NamespaceDeclaration, StateMachineDeclared, SimpleStateDeclared, ReactDeclared, ActivationMeansReact and OtherTextIsNoop |
| Grammar.OtherTextIsNoop | src/ScParser.cpp:88-90 | Text outside the namespace records nothing unless it activates the context; when no prefix of it ends in "::react" (the return at :322-327), the declaration changes nothing but the cleared flag |
| Grammar.QualifiedCalls | src/ScParser.cpp:78-87 | Reference definition of the namespace branch of parseFunctionDecl: an optional reaction_result qualifier, then a state machine, a simple state, or nothing. Stated by StateMachineDeclared and SimpleStateDeclared |
| Parser.ScanCallSite | src/ScParser.cpp:102-113 | Returns exactly `CallSite` of the text under the active context (state, event) |
| Parser.ScanReactionCall | src/ScParser.cpp:104-112 | Skips the simple_state<...> qualifier to its closing '>' and returns the reaction that follows |
| Parser.ScanReaction | src/ScParser.cpp:105-112 | "::transit<T>" gives addTransition(T, E), "::discard_event()" addTransition(S, E), "::defer_event()" addDeferral(E), anything else nothing |
| Parser.ScParser.ParseFunctionCall | src/ScParser.cpp:93-114 | Appends exactly `CallSite` of the text under the current context, leaves the context as it was (so repeated call sites each record), and preserves the class invariant |
| Grammar.CallSite | src/ScParser.cpp:93-114 | Reference definition of parseFunctionCall. Stated by CallSiteIsContextReaction, CallSiteQualified and CallSiteBranch |
| Grammar.ReactionCall | src/ScParser.cpp:105-112 | Reference definition of the call named after the simple_state<...> qualifier. Stated by TransitCall, DiscardCall, DeferCall and OtherCallIgnored |
| Grammar.CallSiteIsContextReaction | src/ScParser.cpp:93-114 | A call site makes at most one call, always a reaction that carries the context's event, and none without an active context |
| Grammar.CallSiteQualified | src/ScParser.cpp:102-104 | Under an active context, a call site qualified by simple_state<x>, with or without the safe-result qualifier, makes the reaction that the call after the qualifier names |
| Grammar.CallSiteBranch | src/ScParser.cpp:102-104 | Under an active context, text without the simple_state< qualifier records nothing |
| Grammar.OtherCallIgnored | src/ScParser.cpp:105-112 | A call after the qualifier that is not transit, discard_event or defer_event records nothing |
| Grammar.TransitCall | src/ScParser.cpp:105-107 | "::transit<T>" records the transition to T on the context's event |
| Grammar.DiscardCall | src/ScParser.cpp:108-109 | "::discard_event()" records the transition from the context's state to itself on its event |
| Grammar.DeferCall | src/ScParser.cpp:110-111 | "::defer_event()" records the deferral of the context's event |

## Left out

- src/ObjDumpParser.cpp is not part of this model: it reads a file with `std::ifstream` and classifies lines with `std::regex`.
- The `std::string` overloads at src/ScParser.cpp:116-166 (regex based, with empty branches) are not modelled.
- The attribution of a transition or deferral to the state of the most recent non-reaction call (`LastAnchor`, and `Valid()` built on it) is an assumption about how `ScModel` interprets `addTransition` and `addDeferral`; `ScModel` is not part of this model, so the rule is not derived from its code.
- `ScModel` is not part of this model. Its calls are recorded, in order, as the sequence `calls`, with no storage or overwrite semantics. `ScName` and `QByteArray` conversions reduce to one rule: a null `char*` becomes the empty name.
- ParserHelpers.h is not part of this model. `expectString` and `eqString` are given the contracts their uses imply. `ExpectAddress` is a stand-in that skips "0x" and the hexadecimal digits after it.
- Buffer.Atoi: reads only the leading decimal digits; the sign, leading white space and overflow of `std::atoi` are not modelled.
- Buffer.FindAngleStop: the bracket depth is an unbounded integer, so the overflow of the source's `int nrAngles` on more than 2^31 nested '<' is not modelled; the same holds for `matchName`'s counter in Buffer.FindNameStop.
- Parser.ScParser.ParseFunctionDecl: the final position of the `char*&` cursor is not returned, by this entry point or by ParseFunctionCall. No code in this model reads it after the call.
- Parser.ParseInitialSubstateList: when `parseSimpleState` passes a null pointer (an unclosed argument), the source hands it to `expectStartsWith`, whose helper is not part of this model. The model reads null as the empty name, which gives the one-element list `[""]`. Parser.ScParser.ParseReactionList reads a null list as empty text, which gives no reactions.
- Console output (`<iostream>`) is not modelled.
