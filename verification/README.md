# Verified models of the lighting controller firmware

The project models, in Dafny, the parts of the firmware whose correctness rests on more than one
function, and proves what they promise.

A byte is defined in `Bytes`, which every part uses.

**JSON (`Text`, `StringGrammar`, `Jsmn*`, `Json*`).** The tokenizer jsmn as `json_parser.c` builds it
(strict, with parent links) and the cursor API on top of it, through which every POST body is read.
`JsmnMachine` writes one turn of the main loop as a step on values; `JsmnParser.Parser` is the parser
object with its loops and in-place updates, each method proved equal to that machine. On the machine stand
the theorems: an invariant of every run over every text, what is refused and why, the round trip with a
printer of JSON trees, the two builds of jsmn in lockstep on any text, the nesting of spans, the balance of
brackets, resumption after more bytes or more tokens, the end of a text at a NUL byte, and the agreement of
the counting pass with the filling pass. `JsonContext.Reader` is the context of `json_parser.c`; its searches
are proved exact on any array jsmn can produce, and `JsonNavigation` proves that a path of get calls
is a path of tree lookups and that the leave calls undo it; `JsonPaths` runs such paths on a reader. The
grammar is that of RFC 8259: section 2 for whitespace, sections 4 and 5 for objects and arrays, section 6 for
numbers, section 7 for strings.

**LAN865x (`Bits`, `Lan865x*`).** The driver's side of the OPEN Alliance 10BASE-T1x MAC-PHY Serial
Interface: the parity fold, the cutting of frames into 64-byte blocks, reassembly in place with
resynchronisation, and the reference-counted multicast hash filter. Words are sequences of bits, so shifts,
exclusive or and byte order are modelled bit by bit.

**ENC28J60 (`Enc28j60*`).** The receive ring as a first-in-first-out queue, and the cached register bank
as a refinement of a register file without banks; `Enc28j60Registers` takes the receive call through it.

**LAN86xx (`Lan86xxPlca`).** The table of additional transmit opportunities as a multiset of at most eight.

A text is a sequence of bytes; its loops end at its length or at a NUL byte, as in the source. SPI exchanges
succeed and deliver whatever bytes the other side holds; locks make their sections atomic. The chips'
own behaviour (a queue of replies, a ring being filled, registers seen through a bank) follows the data
sheets and is the environment the drivers are proved against. A lookup key is a byte sequence without NUL, as
a C string is.

Where code and expectation part, the code is followed and the difference is stated:

- Strict jsmn accepts more than RFC 8259, and there its two builds can part. `TurnsTogether` says for every
  byte when they do the same: a closing bracket must not pass with no container open, and where the superior
  tokens differ nothing may be stored. `SuperStays` says when equal superior tokens stay equal: a closed
  container's parent must be the next open token, and a comma must go back to an open container. Both hold over
  whole runs as equivalences. Witnesses: `{}:}` (a closing bracket with nothing open), `"a":1,2 ` (a comma at
  the top) and `{"a":{}{}}` (a closing bracket under a name).
- Brackets balance (strings and primitives set aside) in an accepted text if and only if no closing bracket is
  let pass with nothing open (`AcceptedBalance`); `{}:}` fails (`StrayCloserUnbalances`). Brackets inside
  primitives are set aside because strict jsmn takes `[1[]` for one array (`BracketInPrimitive`). What the
  scanning build accepts, and every JSON text, is balanced (`ScanningAcceptsBalanced`, `JsonIsBalanced`).
- In an accepted text a token lies inside an earlier container if and only if that container was open when the
  token was stored, and wholly behind it otherwise (`NestsIffStoredOpen`). So all tokens lie in the containers
  they descend from if and only if none is stored with a closed container as superior token or above it
  (`NestsIffStoredClean`), and only a colon behind a closed container brings that about (`StepClean`,
  `NestsWithoutStrayColon`), as in `{}:"a"` and `{"a"}:1 `.
- A JSON text is accepted if and only if it is not a bare primitive that ends with the text
  (`RoundTrip`); that one is reported as partial.
- `json_obj_get_val_tok` reads the token behind a name unseen: it is the name's value if and only if the name
  has one (`OwnValueIff`); in `{"a","b"}` it is the next name (`BlindStepReadsNextName`). The read leaves the
  array if and only if the name found is the last token and the array has room for no other (`InsideIff`), as
  in `{"a"}` behind json_parse_start (`LastNameReadsOutside`).
- The receive loop brings a frame whole if and only if its blocks pass the room check, which asks for 68
  spare bytes for each block (`ReceivesWholeIffFits`); the task hands on exactly the frames of a stream if and
  only if all of them fit (`StreamWholeIffFits`). One byte more is lost, and the call reports success
  (`LongFrameLosesByte`).
- The counters of the hash filter are signed bytes. Counters and filter bits stay right if and only if every
  removal takes back a registered address and none leaves a positive multiple of 256 behind
  (`StepConsistent`, `ConsistentIffOrderly`); otherwise a registered address can be blocked
  (`WrappedCounterBlocks`, `UnmatchedRemovalBlocks`).
- A transmit opportunity with id 0x00 or 0xFF is reported as added, but nothing is (`AddIsInsert`).
- The cached bank stays right if and only if the operation leaves the bank bits of ECON1 alone
  (`StepCoherent`). The driver's own operations do, as their arguments alone tell (`DriverIsHarmless`); the
  stale cache of `StaleBankReadsWrong` is hypothetical, no caller sets a bank bit by itself.
- One bad footer costs the frame it is in and no other, but the task can stop behind it and leave the rest in
  the chip until the next notification: with bad parity if and only if the first call meets it, with a bad
  header if and only if it is the first block of a call (`OneBadFooter`, `NotifiedAgain`).
- A frame that an idle block interrupts, or whose end is missing, is handed on with success: cut in the first
  case, joined with the next frame in the second (`IdleBlockCutsFrame`, `MissingEndJoinsFrames`).
- The transmit path reads the footer of an answer without swapping its bytes. Its parity check is not affected,
  but its check for a bad header looks at bit 6 and its wake-up of the receive task at bits 0 to 4
  (`RawFields`). The check does what it is for if and only if bit 6 equals bit 30 or the parity is bad
  (`HeaderBadSeenIff`); the footer 40 00 00 00 reports a bad header unheard (`HeaderBadMissed`).
- A NUL byte ends a text, but not for a string cut off right behind a backslash: that is INVAL with the NUL
  byte and PART without it (`RunCut`, `DanglingIsRefused`).

## Model

| member | source | states |
|---|---|---|
| StringGrammar.StringScanExact | managed_components/espressif__jsmn/include/jsmn.h:196-267 | A string is found to end at `q` if and only if a quote stands there and the bytes before it split into plain bytes, legal two-character escapes and `\u` with four hexadecimal digits. |
| StringGrammar.StringScanRejects | managed_components/espressif__jsmn/include/jsmn.h:227-263 | A string is rejected if and only if a legal body runs into a backslash that starts no escape; everything else is a partial string. |
| Text.ScanStringExtend | managed_components/espressif__jsmn/include/jsmn.h:196-267 | A string found or rejected in a text is so in every longer text. |
| Text.ScanPrimitiveExtend | managed_components/espressif__jsmn/include/jsmn.h:144-173 | In strict mode a primitive found or rejected in a text is so in every longer text. |
| Text.ScanPrimitiveExact | managed_components/espressif__jsmn/include/jsmn.h:144-173 | A primitive is found to end at `q` if and only if the first terminator stands there and every byte before it is printable. |
| Text.ScanPrimitiveRejects | managed_components/espressif__jsmn/include/jsmn.h:164-168 | A primitive is rejected if and only if the first byte that may not stand in it is no terminator and does not end the text. |
| Text.ByteClasses | managed_components/espressif__jsmn/include/jsmn.h:144-173 | The classes of bytes the scans tell apart, by the characters they stand for. |
| JsmnParser.Parser.AllocToken | managed_components/espressif__jsmn/include/jsmn.h:106-120 | Clears the next slot and hands it out, or returns none and changes nothing when the slots are used up. |
| JsmnParser.Parser.FillToken | managed_components/espressif__jsmn/include/jsmn.h:125-132 | Sets type and span and a size of zero in one slot and touches nothing else. |
| JsmnParser.Parser.ParsePrimitive | managed_components/espressif__jsmn/include/jsmn.h:137-191 | Stores the primitive up to its terminator as one token; a byte that is not printable gives INVAL, the end of the text PART, a full array NOMEM, each with `pos` back at the start and nothing stored. |
| JsmnParser.Parser.ParseString | managed_components/espressif__jsmn/include/jsmn.h:196-267 | Stores the string between its quotes as one token; a bad escape gives INVAL, the end of the text PART, a full array NOMEM, each with `pos` back at the opening quote and nothing stored. |
| JsmnParser.Parser.OpenContainer | managed_components/espressif__jsmn/include/jsmn.h:286-312 | An opening bracket allocates, counts and links a container, which becomes the superior token; under an object it is INVAL. |
| JsmnParser.Parser.CloseContainer | managed_components/espressif__jsmn/include/jsmn.h:313-365 | A closing bracket, in either build: the walk along parent links is the machine's climb, the backward scans are its last open token. |
| JsmnParser.Parser.Comma | managed_components/espressif__jsmn/include/jsmn.h:384-401 | A comma behind a member or its name takes the superior token back to the container, by link or by scan. |
| JsmnParser.Parser.Parse | managed_components/espressif__jsmn/include/jsmn.h:272-458 | The loop over the token array returns, stores and leaves behind exactly what the run of the machine says, and no slot behind the allocated ones changes; without an array it is the counting run and touches no token. |
| JsmnParser.Parser.Init | managed_components/espressif__jsmn/include/jsmn.h:464-469 | The parser starts at position 0 with no token and no superior token. |
| JsmnMachine.Step | managed_components/espressif__jsmn/include/jsmn.h:280-450 | Every turn of the main loop strictly advances the position within the text, never gives tokens back, and stops with PART or NOMEM only in the very state it started from, so a call can be resumed. |
| JsmnRefusals.CountIsLexed | managed_components/espressif__jsmn/include/jsmn.h:280-443 | The counting pass returns, on any text, what reading it without a parser gives: the number of strings, primitives and opening brackets, or INVAL or PART for the first lexeme that is illegal or cut off. |
| JsmnRefusals.RunIsLexed | managed_components/espressif__jsmn/include/jsmn.h:280-458 | In either build the filling pass accepts only texts that reading passes whole, with one token for each; with slots enough an illegal lexeme gives INVAL, one that is cut off PART or, where a token before it is refused, INVAL. |
| JsmnRefusals.WholeReachesEnd | managed_components/espressif__jsmn/include/jsmn.h:280-443 | A text is whole if and only if the reading gets, lexeme by lexeme, to its end. |
| JsmnRefusals.StrayByteRefused | managed_components/espressif__jsmn/include/jsmn.h:441-443 | The first byte reached that starts neither a string nor a primitive and is no bracket, colon, comma or whitespace makes both passes report INVAL. |
| JsmnRefusals.StrayLetterIsRefused | managed_components/espressif__jsmn/include/jsmn.h:441-443 | `[x]` is refused by both passes. |
| JsmnRefusals.OpenerRefusedIff | managed_components/espressif__jsmn/include/jsmn.h:295-307 | With a slot free an opening bracket is stored, counted and linked, and becomes the superior token, if and only if afterwards only strings stand under objects; otherwise it is INVAL. |
| JsmnRefusals.PrimitiveRefusedIff | managed_components/espressif__jsmn/include/jsmn.h:402-436 | With a slot free a sound primitive is stored if and only if afterwards it stands under no object, and under a string as its first child only; otherwise it is INVAL. |
| JsmnRefusals.PrimitiveStopsIff | managed_components/espressif__jsmn/include/jsmn.h:402-436 | A primitive that is illegal, cut off or without a slot stops with INVAL, PART or NOMEM, and with INVAL first of all where it may not stand. |
| JsmnRefusals.StringStopsIff | managed_components/espressif__jsmn/include/jsmn.h:366-375 | A string is stored wherever it stands; it stops the run only by a bad escape, the end of the text or a full array. |
| JsmnRefusals.AcceptedFits | managed_components/espressif__jsmn/include/jsmn.h:272-458 | In the array of every accepted text only strings stand under objects, a primitive under a string is its first child, and there is one token for every string, primitive and opening bracket. |
| JsmnRefusals.SuperMoves | managed_components/espressif__jsmn/include/jsmn.h:306-401 | Where the next token goes, after every turn of the linked build: under an opened container, under the parent of the last open token after a closing bracket, under the last token after a colon, under the parent of a name or value after a comma. |
| JsmnTextEnd.ScanStringCut | managed_components/espressif__jsmn/include/jsmn.h:203-261 | With a NUL byte behind it a string scan ends as on the bytes before the NUL, unless the body is legal up to a backslash right before it: then it is rejected, and without the NUL it is partial. |
| JsmnTextEnd.RunCut | managed_components/espressif__jsmn/include/jsmn.h:280-458 | A call on a text with a NUL byte leaves value, parser and tokens of the call on the bytes before it, except that INVAL takes the place of PART if and only if the string the latter stops at ends in such a backslash. |
| JsmnTextEnd.DanglingIsRefused | managed_components/espressif__jsmn/include/jsmn.h:226-257 | A quote, a backslash and a NUL byte are INVAL; the quote and the backslash alone are PART. |
| JsmnTextEnd.ParsesCut | managed_components/espressif__json_parser/src/json_parser.c:406-429 | json_parse_start accepts a text with a NUL byte if and only if it accepts the bytes before it, and then with the same tokens. |
| JsmnForest.UnderIsDescends | managed_components/espressif__jsmn/include/jsmn.h:74-76 | In preorder, descent along the parent links is an interval property. |
| JsmnForest.StepKeepsForest | managed_components/espressif__jsmn/include/jsmn.h:285-450 | Every turn, on any text, keeps: parents before children, the array in preorder, sizes equal to the number of tokens naming the token as parent, the superior token on the rightmost path, and every open token an ancestor of it. |
| JsmnForest.RunKeepsForest | managed_components/espressif__jsmn/include/jsmn.h:272-458 | Over a whole call on any text, from any such state, the same holds at the end unless the call reports INVAL. |
| JsmnForest.ParsedForest | managed_components/espressif__jsmn/include/jsmn.h:444-458 | A successful parse of any text, well formed or not, returns the number of tokens of a preorder forest with exact child counts, every span inside the text and free of NUL. |
| JsmnForest.ClimbFindsLastOpen | managed_components/espressif__jsmn/include/jsmn.h:324-340 | From any token below all open ones, the walk along parent links reaches the last open token, or a closed root if none is open. |
| JsmnForest.CloserAgrees | managed_components/espressif__jsmn/include/jsmn.h:319-363 | In every reachable state the walk for a closing bracket stops at the token the backward scan finds. |
| JsmnRoundTrip.PrintedIsLaid | managed_components/espressif__jsmn/include/jsmn.h:272-458 | A printed tree stands in the text piece by piece where the widths of its parts put it. |
| JsmnRoundTrip.RunValue | managed_components/espressif__jsmn/include/jsmn.h:285-450 | Reading one value at any depth appends exactly its flattened tokens, gives its parent one child more and changes no other token. |
| JsmnRoundTrip.RoundTrip | managed_components/espressif__jsmn/include/jsmn.h:272-458 | For every JSON tree with any whitespace RFC 8259 allows, in either build and with enough slots, jsmn returns the number of nodes and leaves the preorder flattening (type, span, child count and parent of every token) if and only if the tree is not a bare primitive that ends with the text; that one gives PART, with the parser at its first byte. |
| JsmnRoundTrip.PrimitiveWaits | managed_components/espressif__jsmn/include/jsmn.h:169-173 | A primitive that ends with the text is reported as partial and nothing is stored. |
| JsonTree.SitsUnique | managed_components/espressif__jsmn/include/jsmn.h:69-77 | The flattening of a tree determines every token, and across the builds every token but for its parent field. |
| JsonLiterals.NumberIsPrimitive | managed_components/espressif__jsmn/include/jsmn.h:402-436 | Every number of section 6 of RFC 8259 is a primitive the round trip covers. |
| JsonLiterals.LiteralsArePrimitive | managed_components/espressif__jsmn/include/jsmn.h:402-436 | So are `true`, `false` and `null`. |
| JsonLiterals.PrimitiveExact | managed_components/espressif__jsmn/include/jsmn.h:144-191 | Strict jsmn takes for a primitive exactly the bytes up to the first terminator, if the first byte starts one and all are printable. |
| JsonLiterals.LoneMinusIsAccepted | managed_components/espressif__jsmn/include/jsmn.h:402-436 | The converse fails: a lone minus sign is a primitive to jsmn and no number. |
| JsmnBuilds.BuildsAgree | managed_components/espressif__jsmn/include/jsmn.h:319-401 | On every JSON text the build with links and the scanning build return the same value and the same type, span and size for every token. |
| JsmnBuilds.ClosersCompared | managed_components/espressif__jsmn/include/jsmn.h:319-363 | On any text a closing bracket closes the same container in both builds, or is rejected by both, while a container is open; the superior token becomes its parent in the linked build and the next open token in the scanning build. When none is open the scanning build rejects, and the linked build accepts if and only if a superior token is set and the root above the last token has the bracket's type. |
| JsmnBuilds.StrayCloserSplitsBuilds | managed_components/espressif__jsmn/include/jsmn.h:333-337 | The text `{}:}` is accepted by the linked build and rejected by the scanning one. |
| JsmnLockstep.TurnsTogether | managed_components/espressif__jsmn/include/jsmn.h:285-450 | On any byte, from states with the same position and tokens, both builds take the same turn (same tokens, or the same error) if and only if a guard on the state holds. |
| JsmnLockstep.SuperStays | managed_components/espressif__jsmn/include/jsmn.h:319-401 | On any byte, from states that agree in the superior token too, they go on agreeing if and only if a guard holds: for a closing bracket that the closed container hangs directly under the next open token or both reject, for a comma behind a name that the name hangs under an open container. |
| JsmnLockstep.InStepIffTogether | managed_components/espressif__jsmn/include/jsmn.h:272-458 | Over a whole run the builds do the same in every turn if and only if the guard holds in every turn. |
| JsmnLockstep.TogetherSameResult | managed_components/espressif__jsmn/include/jsmn.h:272-458 | Then they return the same value and the same tokens but for the parents. |
| JsmnLockstep.SameIffKept | managed_components/espressif__jsmn/include/jsmn.h:272-458 | Over a whole run position, tokens and superior token agree throughout if and only if the second guard holds throughout. |
| JsmnLockstep.CommaSplitsBuilds | managed_components/espressif__jsmn/include/jsmn.h:384-401 | The text `"a":1,2 ` gives three tokens in the linked build and INVAL in the scanning one. |
| JsmnLockstep.CloserUnderNameSplitsBuilds | managed_components/espressif__jsmn/include/jsmn.h:329-363 | The text `{"a":{}{}}` gives four tokens in the linked build and INVAL in the scanning one, although a container is open at every closing bracket. |
| JsmnLockstep.MemberPartsSupers | managed_components/espressif__jsmn/include/jsmn.h:329-363 | On every text that begins with `{"a":{}` the superior tokens come apart at the bracket, while the turn is still the same. |
| JsmnNesting.StepNested | managed_components/espressif__jsmn/include/jsmn.h:285-450 | Every turn, on any text, keeps every token inside every container that was open when it was stored, and wholly behind every one already closed. |
| JsmnNesting.NestsIffStoredOpen | managed_components/espressif__jsmn/include/jsmn.h:295-307 | In the finished array of every accepted text, for every container and every later token: the token lies inside if and only if the container was open when the token was stored, wholly behind it otherwise, and inside only if it descends from it. |
| JsmnNesting.NestsIffStoredClean | managed_components/espressif__jsmn/include/jsmn.h:295-307 | In the finished array of every accepted text every token lies inside every container it descends from if and only if no token was stored with a closed container as superior token or above it. |
| JsmnNesting.StepClean | managed_components/espressif__jsmn/include/jsmn.h:381-383 | While no closed container is the superior token or above it, a turn keeps it so if and only if it is not a colon behind a closed container or something in one. |
| JsmnNesting.NestsWithoutStrayColon | managed_components/espressif__jsmn/include/jsmn.h:381-383 | In every accepted text without such a colon a token lies inside an earlier container if and only if it descends from it, through names or directly. |
| JsmnNesting.StrayColonBreaksNesting | managed_components/espressif__jsmn/include/jsmn.h:381-383 | `{}:"a"` holds such a colon and its string lies behind its parent. |
| JsmnNesting.LateValueFallsBehind | managed_components/espressif__jsmn/include/jsmn.h:381-383 | `{"a"}:1 ` is accepted; every token lies in its container parent, and yet the value lies behind the object above its name. |
| JsmnBalance.StepFollows | managed_components/espressif__jsmn/include/jsmn.h:285-450 | Every turn that goes on, in either build, does to the open tokens what the text does to the brackets still to be closed, unless it lets a bracket pass, and then the rest cannot balance. |
| JsmnBalance.BalancedIffNonePasses | managed_components/espressif__jsmn/include/jsmn.h:272-458 | In either build and from any state, the rest of an accepted text balances the open tokens if and only if no bracket passes in it. |
| JsmnBalance.AcceptedBalance | managed_components/espressif__jsmn/include/jsmn.h:331-337 | A text accepted by the linked build is balanced if and only if no closing bracket passes with no container open. |
| JsmnBalance.ScanningAcceptsBalanced | managed_components/espressif__jsmn/include/jsmn.h:339-363 | Every text accepted by the scanning build is balanced. |
| JsmnBalance.JsonIsBalanced | managed_components/espressif__jsmn/include/jsmn.h:313-365 | Every JSON text is balanced. |
| JsmnBalance.StrayCloserUnbalances | managed_components/espressif__jsmn/include/jsmn.h:331-337 | `{}:}` is accepted by the linked build and not balanced. |
| JsmnBalance.BracketInPrimitive | managed_components/espressif__jsmn/include/jsmn.h:144-173 | `[1[]` is accepted with two tokens and balanced, although it has two opening brackets and one closing. |
| JsmnBuilds.StrayChildIsAccepted | managed_components/espressif__jsmn/include/jsmn.h:381-383 | The text `{}:"a"` is accepted with a child outside its parent's span. |
| JsmnResume.ResumeExact | managed_components/espressif__jsmn/include/jsmn.h:272-458 | In strict mode, calling again on the same parser with a longer text, more slots or both ends exactly like one call with all of it; INVAL stays INVAL. This covers a call that returned PART, NOMEM or success. |
| JsmnResume.OnlyFreeSlotsMatter | managed_components/espressif__jsmn/include/jsmn.h:106-120 | What the array held under the tokens already allocated does not matter to the rest of the call. |
| JsmnResume.FeedExact | managed_components/espressif__jsmn/include/jsmn.h:272-458 | However bytes and slots arrive over any number of calls, each finding the array as the calls before left it, the last call ends as one call over everything. |
| JsmnResume.ParseInParts | managed_components/espressif__jsmn/include/jsmn.h:272-458 | A loop that calls jsmn_parse again and again on one parser and one array, with more bytes or slots each time, leaves value, parser and tokens as a single call does. |
| JsmnResume.PassesAbreast | managed_components/espressif__jsmn/include/jsmn.h:176-179 | From states at the same position with the same number of tokens, the counting pass and the filling pass go on in lockstep. |
| JsmnResume.CountIsEnough | managed_components/espressif__json_parser/src/json_parser.c:406-428 | With as many slots as the counting pass returned, the filling pass never reports NOMEM; when it succeeds it returns that count with every slot filled. |
| JsonSearch.SubtreeIsInterval | managed_components/espressif__json_parser/src/json_parser.c:33-42 | The descendants of a token are exactly the tokens from it to the end of its subtree. |
| JsonSearch.NextIsChild | managed_components/espressif__json_parser/src/json_parser.c:37-40 | Behind the subtrees of the first n children stands the next child, as long as the size promises one. |
| JsonSearch.FrontierEnd | managed_components/espressif__json_parser/src/json_parser.c:33-42 | When as many children as the size says have been passed, the walk stands at the last token of the subtree. |
| JsonSearch.NthExists | managed_components/espressif__json_parser/src/json_parser.c:284-299 | Every index below the size names a child. |
| JsonContext.FilledIsParsed | managed_components/espressif__json_parser/src/json_parser.c:406-428 | When both passes succeed they agree on the count and leave a well-laid-out token array. |
| JsonAccepted.ParsesIffAccepted | managed_components/espressif__json_parser/src/json_parser.c:406-429 | json_parse_start accepts exactly the texts that hold a token and that one filling pass with a slot for every byte accepts, and leaves the same tokens. |
| JsonAccepted.BlankIsRefused | managed_components/espressif__json_parser/src/json_parser.c:411-413 | An empty text, or one of whitespace only, is not accepted, although both passes return 0. |
| JsonAccepted.StrayIsRefused | managed_components/espressif__json_parser/src/json_parser.c:406-429 | A text in which a byte is reached that starts nothing is not accepted. |
| JsonContext.TokenMatchesStr | managed_components/espressif__json_parser/src/json_parser.c:26-31 | The prefix comparison with the length check holds if and only if the bytes of the token are the string. |
| JsonContext.Reader.ParseStart | managed_components/espressif__json_parser/src/json_parser.c:406-429 | Succeeds if and only if both passes do, then holds an array of exactly the counted size with the cursor on the first token; on failure the context is cleared. |
| JsonContext.Reader.ParseStartStatic | managed_components/espressif__json_parser/src/json_parser.c:440-467 | The same into the caller's buffer, which must have room for the counted tokens; the rest of the buffer is zero. |
| JsonContext.Reader.SkipElem | managed_components/espressif__json_parser/src/json_parser.c:33-42 | On any parsed array the recursion ends and returns the last descendant. |
| JsonContext.Reader.ObjSearch | managed_components/espressif__json_parser/src/json_parser.c:105-124 | Finds the first direct child of the cursor's object whose bytes are the key, and nothing if and only if there is none. |
| JsonContext.Reader.ArrSearch | managed_components/espressif__json_parser/src/json_parser.c:284-299 | Finds exactly the direct child of the cursor's array with that index, and nothing if and only if the index is not below the size. |
| JsonContext.Reader.ObjGetValTok | managed_components/espressif__json_parser/src/json_parser.c:126-137 | The token behind the key found, whatever it belongs to, if it has the type asked for; none where an unused slot follows. The array must not end with the key. |
| JsonContext.InsideIff | managed_components/espressif__json_parser/src/json_parser.c:126-137 | On any accepted text the read behind the name found leaves the array if and only if the name is the last token and the array has no slot beyond the tokens; a name with a value is never that one. |
| JsonContext.OwnersReadInside | managed_components/espressif__json_parser/src/json_parser.c:126-137 | Where names own their values, that token is inside the array. |
| JsonContext.OwnValueIff | managed_components/espressif__json_parser/src/json_parser.c:132 | The token behind a name is its own value if and only if the name has one. |
| JsonContext.Reader.ArrGetValTok | managed_components/espressif__json_parser/src/json_parser.c:301-311 | The element found, if it has the type asked for. |
| JsonContext.Reader.ObjGetArray | managed_components/espressif__json_parser/src/json_parser.c:139-148 | Moves the cursor to the array behind the name found and reports its number of children, or fails and stays. |
| JsonContext.Reader.ObjGetObject | managed_components/espressif__json_parser/src/json_parser.c:166-174 | Moves the cursor to the object behind the name found, or fails and stays. |
| JsonContext.Reader.ArrGetArray | managed_components/espressif__json_parser/src/json_parser.c:313-321 | Moves the cursor to the array at that index, or fails and stays. |
| JsonContext.Reader.ArrGetObject | managed_components/espressif__json_parser/src/json_parser.c:332-340 | Moves the cursor to the object at that index, or fails and stays. |
| JsonContext.Reader.ObjLeave | managed_components/espressif__json_parser/src/json_parser.c:150-190 | Succeeds if and only if the cursor's token has a parent and that one too, and goes there; with one parent only it fails with the cursor on it, with none it fails and stays. |
| JsonContext.Reader.ArrLeave | managed_components/espressif__json_parser/src/json_parser.c:323-349 | Succeeds if and only if the cursor's token has a parent, and goes there; otherwise it fails and stays. |
| JsonContext.Reader.TokToString | managed_components/espressif__json_parser/src/json_parser.c:95-103 | Copies exactly the bytes of the token and a NUL behind them, or fails and writes nothing when they do not fit. |
| JsonContext.Reader.ObjGetString | managed_components/espressif__json_parser/src/json_parser.c:228-235 | Copies the string behind the name found, or fails and writes nothing when there is none or it is too long. |
| JsonContext.Strncpy | managed_components/espressif__json_parser/src/json_parser.c:100-101 | Copies up to the first NUL and pads with NUL, leaving the rest of the destination alone. |
| JsonNavigation.ObjectsOwnValues | managed_components/espressif__json_parser/src/json_parser.c:126-137 | In the tokens of a JSON text every member name owns a value, so the blind step to the next token is sound there. |
| JsonNavigation.MemberRefines | managed_components/espressif__json_parser/src/json_parser.c:126-174 | Entering by name reaches the token of the first member with that raw name, and fails if and only if the tree has none or its value is of another type. |
| JsonNavigation.ElementRefines | managed_components/espressif__json_parser/src/json_parser.c:284-340 | Entering by index reaches the token of that element, and fails if and only if the tree has too few or the element is of another type. |
| JsonNavigation.LeaveMemberExact | managed_components/espressif__json_parser/src/json_parser.c:150-190 | On any parsed array: success, failure and the new cursor of a member's leave, by the parents of the cursor's token. |
| JsonNavigation.LeaveElementExact | managed_components/espressif__json_parser/src/json_parser.c:323-349 | The same for an element's leave. |
| JsonNavigation.LeavesAtRoot | managed_components/espressif__json_parser/src/json_parser.c:150-190 | At the root of a JSON text every leave call fails and stays, and a member's leave directly below it fails with the cursor at the root. |
| JsonNavigation.MoveRefines | managed_components/espressif__json_parser/src/json_parser.c:139-190 | Either way of entering is a tree lookup, and the matching leave call brings the cursor back. |
| JsonNavigation.PathRefines | managed_components/espressif__json_parser/src/json_parser.c:139-349 | A path of get calls ends at the token of the node the path names in the tree, fails if and only if the tree has no such node, and the leave calls in reverse order restore the cursor. |
| JsonNavigation.TreeAccepted | managed_components/espressif__json_parser/src/json_parser.c:406-428 | json_parse_start accepts a JSON text, and counts its nodes, if and only if it is not a bare primitive that ends with the text. |
| JsonNavigation.ReaderRefinesTree | managed_components/espressif__json_parser/src/json_parser.c:406-428 | From text to lookup: on every JSON text accepted, every path of get calls from the root is a tree lookup that the leave calls undo. |
| JsonPaths.FollowPath | managed_components/espressif__json_parser/src/json_parser.c:139-340 | Calling the get functions of a path one after the other on a reader is the walk over the array: it succeeds if and only if the walk does, and on failure the cursor stays where the failing call found it. |
| JsonPaths.LeavePath | managed_components/espressif__json_parser/src/json_parser.c:150-349 | Calling the leave functions in reverse order is the walk back, up to the first that fails. |
| JsonPaths.TreeStaysInside | managed_components/espressif__json_parser/src/json_parser.c:126-137 | On the tokens of a JSON text no lookup on any path reads behind the array. |
| JsonPaths.ThereAndBack | managed_components/espressif__json_parser/src/json_parser.c:139-349 | On a JSON text the calls of a path succeed if and only if the tree has the containers it names, reach the node's token, and the leave calls bring the cursor home. |
| JsonPaths.ValuelessIsAccepted | managed_components/espressif__json_parser/src/json_parser.c:132 | `{"a","b"}` is accepted, with two names without values. |
| JsonPaths.BlindStepReadsNextName | managed_components/espressif__json_parser/src/json_parser.c:132 | There the lookup of the string "a" answers with the name "b". |
| JsonPaths.LastNameIsAccepted | managed_components/espressif__json_parser/src/json_parser.c:132 | `{"a"}` is accepted with two tokens, the name last. |
| JsonPaths.LastNameReadsOutside | managed_components/espressif__json_parser/src/json_parser.c:132 | There the lookup of "a" stays inside an array if and only if it has room for a third token, and then finds nothing. |
| JsonNavigation.SpanIsText | managed_components/espressif__json_parser/src/json_parser.c:95-103 | The span of a string or primitive found is its raw text. |
| Lan865xParity.Parity | managed_components/espressif__lan865x/src/esp_eth_mac_lan865x.c:244-252 | The xor folding yields true exactly when bits 31 to 1 hold an even number of ones. |
| Lan865xParity.CheckedIsOdd | managed_components/espressif__lan865x/src/esp_eth_mac_lan865x.c:284-292 | The driver's check accepts exactly the words with an odd number of ones. |
| Lan865xParity.ParityCompletes | managed_components/espressif__lan865x/src/esp_eth_mac_lan865x.c:284-285 | A header given this bit passes the check. |
| Lan865xParity.CorruptionRejected | managed_components/espressif__lan865x/src/esp_eth_mac_lan865x.c:290-292 | Of all corruptions of a good word exactly those that flip an odd number of bits are rejected. |
| Lan865xParity.SwapKeepsCheck | managed_components/espressif__lan865x/src/esp_eth_mac_lan865x.c:290-292 | Byte order does not matter to the check, so the transmit path may check a footer it has not swapped. |
| Lan865xFrames.WireRoundTrip | managed_components/espressif__lan865x/src/esp_eth_mac_lan865x.c:286-338 | A word written most significant byte first is read back. |
| Lan865xFrames.WireValue | managed_components/espressif__lan865x/src/esp_eth_mac_lan865x.c:338 | The word four bytes on the wire stand for, the first one the most significant. |
| Lan865xFrames.FieldsOfValue | managed_components/espressif__lan865x/src/esp_eth_mac_lan865x.c:82-103 | Every field of a footer the driver reads, as a quotient of the thirty-two bit number cut to its width. |
| Lan865xReceive.FrameReceive | managed_components/espressif__lan865x/src/esp_eth_mac_lan865x.c:307-381 | The loop over the shared buffer leaves exactly the bytes, the status, the remaining blocks and the chip state that the collection of replies says, although each block overwrites the footer of the one before; all it sends are headers 80 00 00 00. |
| Lan865xReceive.PollIs | managed_components/espressif__lan865x/src/esp_eth_mac_lan865x.c:330-334 | The header of an empty data block with its parity bit is 80 00 00 00: the data bit and nothing else, with an odd number of ones. |
| Lan865xVerdicts.Turn | managed_components/espressif__lan865x/src/esp_eth_mac_lan865x.c:340-371 | What the receive loop does about a footer in every case, by the number of its ones, its bits and the number it stands for: refuse it for parity, a bad header or a start inside a word, end the call, skip the block or take its bytes. |
| Lan865xVerdicts.FirstFooterRefused | managed_components/espressif__lan865x/src/esp_eth_mac_lan865x.c:340-354 | A call whose first footer has good parity and the header-bad bit set fails, receives nothing and says that nothing remains; with bad parity it says nothing about what remains; with a start inside a word it reports a bad state and what the footer announces. |
| Lan865xVerdicts.IdleBlockCutsFrame | managed_components/espressif__lan865x/src/esp_eth_mac_lan865x.c:347-371 | A frame interrupted by a block without data is delivered as far as it has come, with success. |
| Lan865xVerdicts.MissingEndJoinsFrames | managed_components/espressif__lan865x/src/esp_eth_mac_lan865x.c:348-371 | A frame whose last blocks are missing is joined with the frame behind it and both are delivered as one, with success, for every number of blocks missing. |
| Lan865xReceive.ReceiveAll | managed_components/espressif__lan865x/src/esp_eth_mac_lan865x.c:916-934 | The receive task, calling while blocks remain, passes on exactly what the drain of the queue says. |
| Lan865xStream.RoomIsCheck | managed_components/espressif__lan865x/src/esp_eth_mac_lan865x.c:320-325 | The check for 68 spare bytes is a bound on the number of whole blocks. |
| Lan865xStream.CollectFrame | managed_components/espressif__lan865x/src/esp_eth_mac_lan865x.c:320-371 | From any block of a frame on, with the blocks before it received, a call ends with the frame byte for byte, or with what the room holds of it. |
| Lan865xStream.SkipTail | managed_components/espressif__lan865x/src/esp_eth_mac_lan865x.c:348-358 | What is left of a frame whose start was missed is read and dropped in one call. |
| Lan865xStream.DrainStream | managed_components/espressif__lan865x/src/esp_eth_mac_lan865x.c:916-934 | From the start of a frame on, the task delivers the frames of the whole stream in order, each cut to the room. |
| Lan865xStream.Resynchronises | managed_components/espressif__lan865x/src/esp_eth_mac_lan865x.c:320-380 | Starting at any block of a stream, the task delivers exactly the frames that begin in what is left of it, in order, and leaves nothing in the chip. |
| Lan865xStream.ReceivesWholeIffFits | managed_components/espressif__lan865x/src/esp_eth_mac_lan865x.c:320-371 | At the start of a frame the receive loop always reports success, and brings the whole frame if and only if its blocks pass the room check, otherwise as many blocks as do. |
| Lan865xStream.WholeIffFits | managed_components/espressif__lan865x/src/esp_eth_mac_lan865x.c:322-325 | A frame is longer than the room in whole blocks exactly when it is cut, and then to that room. |
| Lan865xStream.DeliveredWhole | managed_components/espressif__lan865x/src/esp_eth_mac_lan865x.c:916-934 | What is delivered of a stream is its frames, none cut, if and only if every frame fits. |
| Lan865xStream.StreamWholeIffFits | managed_components/espressif__lan865x/src/esp_eth_mac_lan865x.c:916-934 | The receive task hands on exactly the frames of the stream and empties the chip if and only if every frame fits. |
| Lan865xLongFrame.EncodedIsStream | managed_components/espressif__lan865x/src/esp_eth_mac_lan865x.c:320-380 | Every non-empty frame has a stream: the footers that carry it, with good parity and blocks announced. |
| Lan865xLongFrame.EncodedWholeIffFits | managed_components/espressif__lan865x/src/esp_eth_mac_lan865x.c:916-934 | That stream is delivered as the frame if and only if the frame fits. |
| Lan865xLongFrame.LongFrameLosesByte | managed_components/espressif__lan865x/src/esp_eth_mac_lan865x.c:322-325 | A frame of one byte more than the room is received with success and without its last byte, and handed on so. |
| Lan865xCorruption.CollectBad | managed_components/espressif__lan865x/src/esp_eth_mac_lan865x.c:340-346 | A call that meets a block with bad parity or a bad header fails and drops what it has received; the former leaves `remain` unset, the latter sets it to what the footer before announced, or to zero. |
| Lan865xCorruption.DrainPrefix | managed_components/espressif__lan865x/src/esp_eth_mac_lan865x.c:916-934 | Whole frames and idle replies in front of the rest of a stream are delivered, and the task goes on at that rest. |
| Lan865xCorruption.OneBadFooter | managed_components/espressif__lan865x/src/esp_eth_mac_lan865x.c:915-934 | A stream with one bad footer anywhere: every other frame is delivered, and of the broken one nothing, or its first blocks if the room had cut it before; but the task stops there, with the rest in the chip, if and only if bad parity is met by the first call, or a bad header by the first block of a call. |
| Lan865xCorruption.NotifiedAgain | managed_components/espressif__lan865x/src/esp_eth_mac_lan865x.c:915-934 | Notified again after such a stop, the task delivers every frame behind the broken one. |
| Lan865xCorruption.StartInsideWord | managed_components/espressif__lan865x/src/esp_eth_mac_lan865x.c:352-354 | A stream in which one frame starts inside a word: that frame is lost, all others are delivered, and the task never stops there. |
| Lan865xTransmit.BuildHeader | managed_components/espressif__lan865x/src/esp_eth_mac_lan865x.c:266-285 | Field by field the header of block i of a frame is built, parity included. |
| Lan865xTransmit.HeaderFields | managed_components/espressif__lan865x/src/esp_eth_mac_lan865x.c:57-79 | Every bit of every header: the number of ones is odd, start-valid stands on the first block only, end-valid on the last only, with the offset of the last byte, data, data-valid and no-receive on all, and every other bit is 0. |
| Lan865xTransmit.FrameTransmit | managed_components/espressif__lan865x/src/esp_eth_mac_lan865x.c:254-305 | Block k goes out with its header and its bytes, for every k in order, until an answer is not accepted; success if and only if all answers are accepted, and then all blocks are out; INVALID_CRC otherwise, and then the answer to the last block sent is the only one not accepted. The receive task is woken if and only if the raw available-blocks field in the buffer is not zero and the last answer has good parity. |
| Lan865xTransmit.AcceptedExact | managed_components/espressif__lan865x/src/esp_eth_mac_lan865x.c:289-294 | An answer is accepted if and only if the four bytes behind its block have an odd number of ones and bit 6 of the last is 0. |
| Lan865xTransmit.StuckLineRefused | managed_components/espressif__lan865x/src/esp_eth_mac_lan865x.c:289-292 | An answer whose last four bytes are equal, as from a line that is stuck, is never accepted. |
| Lan865xTransmit.FlipStopsThere | managed_components/espressif__lan865x/src/esp_eth_mac_lan865x.c:289-292 | Flip an odd number of footer bits in one of many accepted answers: it is not accepted any more and its block is the last one sent. |
| Lan865xTransmit.RawFields | managed_components/espressif__lan865x/src/esp_eth_mac_lan865x.c:289-300 | What the transmit path reads from a footer it has not swapped: the parity check is that of the footer, its header-bad bit is bit 6 of it, and its available-blocks field are the bits 0 to 4. |
| Lan865xTransmit.HeaderBadSeenIff | managed_components/espressif__lan865x/src/esp_eth_mac_lan865x.c:293-294 | The answers accepted are those with good parity and no bad header if and only if bit 6 and bit 30 of the footer are equal or the parity is bad. |
| Lan865xTransmit.HeaderBadMissed | managed_components/espressif__lan865x/src/esp_eth_mac_lan865x.c:293-294 | The footer 40 00 00 00 reports a bad header and its answer is accepted. |
| Lan865xTransmit.SendsExact | managed_components/espressif__lan865x/src/esp_eth_mac_lan865x.c:290-296 | A block is sent if and only if every answer before it was accepted. |
| Lan865xTransmit.SegmentsJoin | managed_components/espressif__lan865x/src/esp_eth_mac_lan865x.c:265-283 | Joining 64 bytes of every inner block and end offset plus one of the last gives back the frame, for every length. |
| Lan865xTransmit.TransmitThenReceive | managed_components/espressif__lan865x/src/esp_eth_mac_lan865x.c:254-381 | A frame that fits the room, transmitted by one driver and handed on block by block, is delivered by the receive task of another, and nothing else is. |
| Lan865xHashFilter.HashValue | managed_components/espressif__lan865x/src/esp_eth_mac_lan865x.c:683-692 | The shift form computes the hash whose bit i is the exclusive or of address bits i, i+6, up to i+42. |
| Lan865xHashFilter.AlignedGroups | managed_components/espressif__lan865x/src/esp_eth_mac_lan865x.c:685-690 | Three bytes, each shifted into line, add up to the four groups of six bits they hold. |
| Lan865xHashFilter.Emac.HashFilterModify | managed_components/espressif__lan865x/src/esp_eth_mac_lan865x.c:679-726 | One call moves one signed counter and at most one bit of HRB or HRT, as the step of the filter says. |
| Lan865xHashFilter.RegistersInOrder | managed_components/espressif__lan865x/src/esp_eth_mac_lan865x.c:693-706 | The bottom register holds the filter bits 0 to 31, the top register the others. |
| Lan865xHashFilter.StepConsistent | managed_components/espressif__lan865x/src/esp_eth_mac_lan865x.c:708-719 | Any add or removal keeps counters and bits in agreement with the registered addresses if and only if it takes back no address that is not registered and leaves no positive multiple of 256 in its bucket. |
| Lan865xHashFilter.ConsistentIffOrderly | managed_components/espressif__lan865x/src/esp_eth_mac_lan865x.c:728-742 | Over any run they agree in every state if and only if every step is such a one. |
| Lan865xHashFilter.RunConsistent | managed_components/espressif__lan865x/src/esp_eth_mac_lan865x.c:728-742 | Over any run of such calls the counters count the registered addresses and a bit is set if and only if its bucket is not empty. |
| Lan865xHashFilter.RegisteredPass | managed_components/espressif__lan865x/src/esp_eth_mac_lan865x.c:708-719 | Every registered address passes the filter, and what passes shares its hash with a registered one. |
| Lan865xHashFilter.AddsAreOrderly | managed_components/espressif__lan865x/src/esp_eth_mac_lan865x.c:708-712 | Any number of registrations alone never breaks the agreement, even past the range of the counter. |
| Lan865xHashFilter.WrappedCounterBlocks | managed_components/espressif__lan865x/src/esp_eth_mac_lan865x.c:714-718 | 257 registrations and one removal of an address leave it registered 256 times and blocked. |
| Lan865xHashFilter.UnmatchedRemovalBlocks | managed_components/espressif__lan865x/src/esp_eth_mac_lan865x.c:714-718 | Removing an address that is not registered blocks the only registered one of its bucket. |
| Lan865xHashFilter.UnmatchedRemovalHappens | managed_components/espressif__lan865x/src/esp_eth_mac_lan865x.c:714-718 | It happens with the addresses 00:00:00:00:00:00 and 41:00:00:00:00:00, which share their hash. |
| Enc28j60Ring.AlignedIsPredecessor | managed_components/espressif__enc28j60/src/esp_eth_mac_enc28j60.c:143-157 | For every even packet address the value written to ERXRDPT is odd, in range and the ring predecessor. |
| Enc28j60Ring.PacketStartWraps | managed_components/espressif__enc28j60/src/esp_eth_mac_enc28j60.c:162-169 | The payload of a packet starts six bytes behind it modulo 0x1800. |
| Enc28j60Ring.AlignedExact | managed_components/espressif__enc28j60/src/esp_eth_mac_enc28j60.c:143-157 | For every pointer a header can hold: one less where that lies in the buffer, the last byte of the buffer otherwise. |
| Enc28j60Ring.FetchExact | managed_components/espressif__enc28j60/src/esp_eth_mac_enc28j60.c:944-980 | Byte by byte: the length comes from the third and fourth byte behind the next pointer, the new pointer from the first two, the data from the seventh on, round a buffer of 0x1800 bytes; one packet less is counted. |
| Enc28j60Ring.LengthWraps | managed_components/espressif__enc28j60/src/esp_eth_mac_enc28j60.c:978 | The length reported is four less, and wraps around where a header says less than four. |
| Enc28j60Ring.ArriveHolds | managed_components/espressif__enc28j60/src/esp_eth_mac_enc28j60.c:143-157 | Storing an arriving packet, which stops short of ERXRDPT, leaves every unread packet intact and puts the new one behind them. |
| Enc28j60Ring.ReceiveHolds | managed_components/espressif__enc28j60/src/esp_eth_mac_enc28j60.c:944-982 | A receive call hands out the oldest packet, reports its length without the CRC and whether packets remain, and frees exactly its room. |
| Enc28j60Ring.RingIsQueue | managed_components/espressif__enc28j60/src/esp_eth_mac_enc28j60.c:944-982 | Over any run of arrivals and receive calls the ring is indistinguishable from a queue bounded by 0x17FF bytes and 255 packets; the next pointer stays even and in range, ERXRDPT odd and just before the unread packets. |
| Enc28j60Ring.QueueIsFifo | managed_components/espressif__enc28j60/src/esp_eth_mac_enc28j60.c:944-982 | What was queued and what entered is, in order, what is delivered and what is left. |
| Enc28j60Ring.RingIsFifo | managed_components/espressif__enc28j60/src/esp_eth_mac_enc28j60.c:1073-1074 | From start-up, over any run, the frames delivered and the frames still whole in the ring are the accepted ones in arrival order. |
| Enc28j60Receive.Emac.ReadPacket | managed_components/espressif__enc28j60/src/esp_eth_mac_enc28j60.c:417-428 | Reads the bytes of the ring from an address on, going round at the end as often as need be, into the first `len` places only. |
| Enc28j60Receive.Emac.Receive | managed_components/espressif__enc28j60/src/esp_eth_mac_enc28j60.c:944-982 | Register by register the call does to the chip, the buffer, the next pointer and the packet flag what the ring operation says, whatever length the header holds, and leaves the rest of the buffer alone. |
| Enc28j60Registers.WriteHeld | managed_components/espressif__enc28j60/src/esp_eth_mac_enc28j60.c:375-390 | A register write by address does to the four pointer registers what the write by name of the receive call does, through whichever bank was selected. |
| Enc28j60Registers.ReceiveReaches | managed_components/espressif__enc28j60/src/esp_eth_mac_enc28j60.c:944-982 | From any coherent state of the bank cache the accesses of a receive call set the read pointer to the header and then to the payload, ERXRDPT to the freed space, and read the packet count from its register in bank 1. |
| Enc28j60Bank.SwitchSelects | managed_components/espressif__enc28j60/src/esp_eth_mac_enc28j60.c:358-370 | After a switch the chip shows the wanted bank and no register has changed but for the bank bits. |
| Enc28j60Bank.StepCoherent | managed_components/espressif__enc28j60/src/esp_eth_mac_enc28j60.c:358-412 | The cached bank stays unknown or right if and only if the operation does not move the bank bits behind its back. |
| Enc28j60Bank.CoherentIffHarmless | managed_components/espressif__enc28j60/src/esp_eth_mac_enc28j60.c:358-412 | The same for every state along a run of any length. |
| Enc28j60Bank.ReadReaches | managed_components/espressif__enc28j60/src/esp_eth_mac_enc28j60.c:397-412 | A read answers with the register its address names, whichever bank was selected before. |
| Enc28j60Bank.AddressNames | managed_components/espressif__enc28j60/src/enc28j60.h:35-40 | An address with kind k, bank b and index i names register i of bank b, and from 0x1B on the register all banks share, for every k, b and i. |
| Enc28j60Bank.AddressesDiffer | managed_components/espressif__enc28j60/src/enc28j60.h:35-40 | Different banks or indices below 0x1B name different registers. |
| Enc28j60Bank.AddressReached | managed_components/espressif__enc28j60/src/esp_eth_mac_enc28j60.c:375-412 | From any coherent state a read by such an address gives that register, and a write changes that one and, the bank bits of ECON1 aside, no other. |
| Enc28j60Bank.StepAgrees | managed_components/espressif__enc28j60/src/esp_eth_mac_enc28j60.c:375-390 | One operation does to the banked registers what it does to a register file without banks. |
| Enc28j60Bank.BankedIsFlat | managed_components/espressif__enc28j60/src/esp_eth_mac_enc28j60.c:358-412 | Over any run of harmless operations, changes by the hardware included, the cache is right and every read answers as the register file without banks does. |
| Enc28j60Bank.BankedIsFlatFromStart | managed_components/espressif__enc28j60/src/esp_eth_mac_enc28j60.c:1073 | This holds from the driver's start with the cache unknown, whatever the chip holds. |
| Enc28j60Bank.IssuedIsHarmless | managed_components/espressif__enc28j60/src/esp_eth_mac_enc28j60.c:637-668 | Every operation of the driver, told by its arguments alone (register writes elsewhere than ECON1, bit commands that spare its bank bits), keeps the cache right in every state. |
| Enc28j60Bank.DriverIsHarmless | managed_components/espressif__enc28j60/src/esp_eth_mac_enc28j60.c:358-412 | So does every run of them, with the hardware changing anything but the bank bits in between. |
| Enc28j60Bank.DriverSeesFlat | managed_components/espressif__enc28j60/src/esp_eth_mac_enc28j60.c:1073 | From the driver's start every run of its operations answers as a register file without banks does. |
| Enc28j60Bank.StaleBankReadsOther | managed_components/espressif__enc28j60/src/esp_eth_mac_enc28j60.c:358-370 | With bank 0 selected and cached, setting the lower bank bit of ECON1 directly makes the next read of a bank 0 register answer with that of bank 1. |
| Enc28j60Bank.StaleBankReadsWrong | managed_components/espressif__enc28j60/src/esp_eth_mac_enc28j60.c:358-370 | On a chip where the two differ the answer is wrong. |
| Enc28j60Bank.Emac.SwitchRegisterBank | managed_components/espressif__enc28j60/src/esp_eth_mac_enc28j60.c:358-370 | Clears and sets the bank bits only when the cache names another bank. |
| Enc28j60Bank.Emac.RegisterWrite | managed_components/espressif__enc28j60/src/esp_eth_mac_enc28j60.c:375-390 | Changes the register the address names and, the bank bits aside, no other; the cache stays right if and only if the write is harmless. |
| Enc28j60Bank.Emac.RegisterRead | managed_components/espressif__enc28j60/src/esp_eth_mac_enc28j60.c:397-412 | Returns the register the address names and keeps the cache right. |
| Lan86xxPlca.AddIsInsert | managed_components/espressif__lan86xx_common/src/esp_eth_phy_lan86xx.c:294-309 | Adding succeeds if and only if fewer than eight entries are occupied, changes the first entry that holds 0x00 or 0xFF, and inserts one copy of the id if and only if the id is neither 0x00 nor 0xFF. |
| Lan86xxPlca.RemoveIsDelete | managed_components/espressif__lan86xx_common/src/esp_eth_phy_lan86xx.c:310-323 | Removing succeeds if and only if the id is there, clears the first entry that holds it and takes out one copy. |
| Lan86xxPlca.RunIsBounded | managed_components/espressif__lan86xx_common/src/esp_eth_phy_lan86xx.c:294-323 | Over any run with proper ids the four registers are a multiset of at most eight ids with the same answers. |
| Lan86xxPlca.Phy.AddTxOpportunity | managed_components/espressif__lan86xx_common/src/esp_eth_phy_lan86xx.c:294-309 | The nested loops over the registers replace the first free entry of the whole table, or none. |
| Lan86xxPlca.Phy.RemoveTxOpportunity | managed_components/espressif__lan86xx_common/src/esp_eth_phy_lan86xx.c:310-323 | The nested loops clear the first entry of the whole table that holds the id, or none. |

## Left out

- Non-strict jsmn: `json_parser.c` does not build it, and resumption fails there because a primitive at the end of the buffer is accepted.
- Widths of jsmn's `int` and `unsigned int` fields: a text and a token array are taken to be shorter than their range.
- ObjGetValTok: requires that the token array does not end with the name found (InsideIff says when it does), because the code reads the slot behind it without looking, and what lies behind the array is not modelled; JSON texts meet this (TreeStaysInside).
- Getters for booleans and string lengths, and the string forms of arrays, objects and elements: the same searches with the same copy.
- Getters for integers and floating point: they rest on the C library's number conversions.
- Failing allocation, SPI errors and lock timeouts: every call is taken to reach the hardware.
- Big-endian hosts: the byte swaps are modelled as a little-endian processor does them.
- The maximum packet size of the receive buffer is not part of this model; the room is a parameter of the receive theorems.
- Resynchronises: requires that the available-blocks field is positive exactly while replies wait, because the task stops reading when it is zero.
- set_all_multicast: overwrites both hash registers without the counters, so it does not belong in a run of adds and removals.
- Reset of the ENC28J60 and a bank switch that fails half-way: they leave the cached bank stale, so runs do not contain them.
- Reading MAC and MII registers with a dummy byte: a matter of the SPI frame, not of the bank.
- The transmit side of the ENC28J60 and its interrupt task: register sequences without a property that spans calls.
- The other PLCA commands of the LAN86xx: single register reads and writes.
- Receive: requires a waiting packet and a buffer as long as its header says, because the code trusts the header it reads.
- Light control, sensors, the web handlers, the CH390 driver and the remaining network set-up: short timers, tables and calls into libraries.
