# Free GetOpt: a verified model of the option scanner and dispatcher

Free GetOpt is a small C++ command-line parser. A `GetOpt` object holds two
things. The first is a table of option descriptors: a short name, a long
name, a flag word, a callback and a data pointer, ended by an all-null row.
The second is a cursor over the argument vector: `argi`, `chari` and
`normalOnly`.

The object works in three layers:

- **The scanner** (`nextOption(const char*&, Type&)`) classifies the next
  token as one of three kinds:
  - a short option inside a bundle such as `-abc`;
  - a long option `--name`;
  - a positional argument.

  When there is no catch-all entry, it moves the next option argument ahead
  of the positionals already seen. It does this by rotating that argument
  into place in `argv`. When no option is left, it latches `normalOnly`.
- **The dispatcher** (`nextOption(const Option*&, const char*&)`) works in
  these steps:
  - it swallows a bare `--`;
  - it looks the token up;
  - it works out how a value is attached: `adjacent`, `withEquals` or
    `nextArg`;
  - it calls the option's callback;
  - it moves the cursor by what the callback accepted and by how many
    bundle characters it claimed.
- **The driver** (`process`) repeats the dispatcher until it reports false,
  then returns `argi`.

The project is split into these modules:

- `Types`: the header's enums, the descriptor, and the callback protocol.
- `Lookup`: the table walks, both as functions and as the loops the
  source runs.
- `Scanner`: the scanner as a function on a `Cursor` value, with
  the rotation search.
- `Dispatch`: the dispatcher (`Step`) and the driver (`Drain`), as
  functions.
- `Engine`: class `GetOpt`. It has the source's fields: `argv` is an
  `array<string>` that is reordered in place. Each of its methods is proved
  to leave exactly the state that the matching `Scanner` or `Dispatch`
  function computes.
- `Scenarios`: a whole command line run through `process`.

A caller-supplied callback is modelled as a responder: a function from what
the callback is handed (`Call`) to what it answers (`Reply`: accepted, and
characters claimed). The responder is a parameter, and it must be honest:
- it never accepts a value that is absent;
- it never claims more characters than the rest of the argument after the
  option character holds (the value, and the `=` before it when there is one).

The library's `isFlag` is modelled concretely. It writes a map from storage
slot to bool.

This revision of the code differs from the parser's broader design in four
ways, and the model follows the code:
- Long names match only the whole text after `--`, ignoring case. There is
  no abbreviation and no split at `=`, so `--output=out.txt` finds an entry
  only if its long name contains the `=` (`Lookup.EqualsMustBeInName`,
  `Scenarios.EqualsFormStopsProcess`).
- Nothing reports errors, writes the `found` state, or checks `needArg` or
  `repeatable`.
- An unknown option stops `process`. So does a positional when there is no
  catch-all: the dispatcher returns false there instead of surfacing the
  text.
- Lookups skip the catch-all row and stop only at the all-null row.

## Model

| member | source | states |
|---|---|---|
| Types.FlagBitsIndependent | GetOpt.hpp:19 | `needArg` and `repeatable` are disjoint single bits: setting either leaves the test of the other unchanged |
| Lookup.CheckReturnAll | GetOpt.cpp:36-47 | the catch-all is the first row with neither name, and only if that row has a callback; otherwise there is none |
| Lookup.FindCatchAll | GetOpt.cpp:36-47 | the constructor's walk to the first nameless row computes exactly `CheckReturnAll` |
| Lookup.FindShortOption | GetOpt.cpp:65-76 | the result is the first row before the terminator whose short name is the character; None means no row before the terminator has it |
| Lookup.FindShort | GetOpt.cpp:65-76 | the table loop computes exactly `FindShortOption` |
| Lookup.FindLongOption | GetOpt.cpp:50-62 | the result is the first row before the terminator whose long name equals the whole text ignoring ASCII case; None means no such row; a row without a long name never matches |
| Lookup.FindLong | GetOpt.cpp:50-62 | the table loop computes exactly `FindLongOption` |
| Lookup.SameIgnoringCaseLength | GetOpt.cpp:56 | texts equal up to ASCII case have the same length |
| Lookup.SameIgnoringCaseAt | GetOpt.cpp:56 | texts equal up to ASCII case agree, folded, at every position |
| Lookup.SameIgnoringCaseSwap | GetOpt.cpp:56 | comparing a name with either of two texts equal up to case gives the same answer |
| Lookup.FindLongIgnoresCase | GetOpt.cpp:56 | two texts equal up to case find the same entry |
| Lookup.EqualsMustBeInName | GetOpt.cpp:53-57 | a text with `=` at position i finds only an entry whose long name has `=` at position i: there is no splitting at `=` |
| Scanner.Rotated | GetOpt.cpp:111-116 | the moved argument lands in slot a; the ones between shift one slot right in order; every other slot is untouched |
| Scanner.RotatedPermutes | GetOpt.cpp:111-116 | rotation is a permutation: no string is created, lost or altered |
| Scanner.Classify | GetOpt.cpp:97-107 | an option argument becomes a long option after `--`, otherwise a bundle after the first character; the token's text is the rest of the argument |
| Scanner.Landed | GetOpt.cpp:96-107 | a landed option token fits the argument under the cursor: `chari` is 0 for a long option and 1 for a bundle; nothing else changes |
| Scanner.SearchFrom | GetOpt.cpp:110-120 | the search keeps the vector length |
| Scanner.SearchFromMeaning | GetOpt.cpp:110-120 | the search keeps every slot before a; when it reports a hit, an option token sits in slot a; when it reports none and there was no option token in `a..i`, no option token is left from a on |
| Scanner.SearchPermutes | GetOpt.cpp:111-116 | the search only permutes the vector |
| Scanner.Scan | GetOpt.cpp:79-127 | the scanner keeps the cursor well formed, the vector length and every slot up to the old `argi`; `argi` moves by at most one; a token fits the argument under the cursor; exhaustion means `argi` passed the end; `normalOnly` is never cleared; a long option or a new bundle is returned only while `normalOnly` is false |
| Scanner.ScanArgument | GetOpt.cpp:90-126 | the scan of the argument at `argi` keeps `argi`, the length and the slots before it; exhaustion happens exactly past the end and changes nothing; a token fits the argument under the cursor; `normalOnly` is never cleared, and an option token is returned only while it is false |
| Scanner.ScanPermutes | GetOpt.cpp:111-116 | one scan leaves a permutation of the vector |
| Scanner.ScanBundle | GetOpt.cpp:81-88 | inside a bundle a scan moves `chari` one on and returns the rest of the bundle, keeping `argi`; at the end of the bundle it moves to the next argument |
| Scanner.ScanExhausted | GetOpt.cpp:81-90 | the scan reports exhaustion exactly when no bundle character is left and the incremented `argi` reaches the end; exhaustion reorders nothing |
| Scanner.ScanIgnoresProgramName | GetOpt.cpp:90-92 | changing `argv[0]` changes nothing in the scan but `argv[0]` itself |
| Scanner.ScanArgumentIgnoresProgramName | GetOpt.cpp:92-126 | changing `argv[0]` changes nothing in the scan of a later argument but `argv[0]` itself |
| Scanner.SearchIgnoresProgramName | GetOpt.cpp:111-116 | the search never reads or moves `argv[0]` |
| Scanner.ScanLatchesNormalOnly | GetOpt.cpp:110-120 | with no catch-all, a positional returned while `normalOnly` was false latches it, and every later option-looking argument is a lone option-start character |
| Scanner.ScanLatchesWhereSourceEnds | GetOpt.cpp:110-120 | on every input where the source's search ends, such a positional latches `normalOnly` and leaves no option-looking argument after the cursor |
| Scanner.ScanAfterEndOfOptions | GetOpt.cpp:90-126 | once `normalOnly` is set outside a bundle, the next argument is returned whole as a positional and nothing is reordered |
| Scanner.ScanWithCatchAll | GetOpt.cpp:110 | with a catch-all the scan never reorders and never latches `normalOnly` |
| Scanner.SearchFirstHit | GetOpt.cpp:111-117 | when the first option-looking argument from i on is an option token, the search rotates exactly that one into slot a |
| Scanner.ScanRotates | GetOpt.cpp:110-117 | after a positional under the cursor, the first later option token moves to the cursor, the arguments between shift right in order, and it is returned |
| Scanner.FirstLookingFrom | GetOpt.cpp:111-112 | the first option-looking argument at or after i, with none before it |
| Scanner.PassAsWritten | GetOpt.cpp:111-117 | one pass of the search as written, restarting at `argi + 1`: it rotates the first option-looking argument into slot a, or finds none and changes nothing |
| Scanner.AsWrittenLivelock | GetOpt.cpp:111-117 | a lone option-start character in slot a followed by the same string makes the pass return the same vector with no option token landed, so the jump back repeats forever |
| Scanner.LoneDashesScanned | GetOpt.cpp:110-119 | `prog - -` reaches that state on the first scan, while the corrected search returns the first `-` as a positional and latches `normalOnly` |
| Scanner.RestartAgrees | GetOpt.cpp:111-117 | restarting at `a + 1` and going on at i give the same result when the slots between hold nothing option-looking |
| Scanner.SearchAsWritten | GetOpt.cpp:110-120 | the source's search, with its jump back, run for a bounded number of passes: it keeps the vector length whenever it ends |
| Scanner.AsWrittenStuck | GetOpt.cpp:111-117 | once lone option-start characters sit in slots `a` and `a + 1`, equal or not, the source's search ends within no number of passes |
| Scanner.AsWrittenAgrees | GetOpt.cpp:110-120 | whenever the source's search ends, it leaves the same vector and the same answer as the corrected `SearchFrom` |
| Scanner.AsWrittenMissClears | GetOpt.cpp:111-120 | when the source's search ends without an option token, nothing option-looking is left after the cursor |
| Scanner.LoneCharactersNeverEnd | GetOpt.cpp:110-119 | the source's search never ends on `prog - -` or `prog x - y -` (option start `-`), nor on `prog - /` (option start `-` or `/`) |
| Dispatch.FirstIndex | GetOpt.cpp:173 | the position of the first `=`, with none before it |
| Dispatch.ScanPastEnd | GetOpt.cpp:135-141 | a bare `--` is never handed on; the extra scan keeps the vector length and the slots up to the old `argi`, and keeps `argi` monotone; staying on the same argument means moving on in its bundle |
| Dispatch.ConnectCases | GetOpt.cpp:159-180 | a `usedChars` slot is passed exactly for a short option with characters after it; the connection is `nextArg` exactly for a positional, a short option at the end of its bundle, or a long option without `=`; the `nextArg` value is the following argument or absent; the `adjacent` and `withEquals` values are exactly the text after the option character, or after the `=` |
| Dispatch.ConnectBounds | GetOpt.cpp:165-179 | characters a callback may claim (the value, and the `=` before it when there is one) lie inside the current argument after the option character, and a value from the next argument exists only when there is one |
| Dispatch.AsEntered | GetOpt.cpp:143-150 | a short option is reported as its option-start character and option character; anything else as the whole argument |
| Dispatch.Resolve | GetOpt.cpp:143-155 | a found entry is a row of the table |
| Dispatch.Advance | GetOpt.cpp:182-191 | for an honest reply the cursor update keeps the cursor well formed, the vector and `normalOnly`, and leaves `argi` inside the vector; on the same argument `chari` becomes 0 or grows; a positional ends with `chari` 0 on its own argument |
| Dispatch.Dispatch | GetOpt.cpp:143-194 | the dispatcher reports false exactly when `Resolve` finds no entry, and on a match it reports the entry `Resolve` found; it hands back the `asEntered` text; an entry without a callback leaves the cursor and the flags alone; it never reorders; an unknown token leaves the cursor where the scan left it; a positional ends with `chari` 0 on the same argument; a matched entry leaves `argi` inside the vector; `normalOnly` is unchanged |
| Dispatch.Step | GetOpt.cpp:130-195 | one call keeps the cursor well formed and the slots up to `argi`; it reports exhaustion exactly when no token is left, with `argi` one past the end; it always moves on: to a later argument, or further into the bundle; its token is the one the scan (past a bare `--`) found; it stops unmatched exactly when no entry takes that token, leaving the cursor where the scan left it, and a match reports the entry the lookup found; when it stops on an unknown token, that token fits the argument at the returned `argi` |
| Dispatch.Drain | GetOpt.cpp:197-207 | `process` ends with no match pending; exhausted, it returns the vector length (1 for an empty vector); stopped, it returns an index inside the vector past the program name, and the token it stopped on (the unrecognised option, or the positional) lies in the argument at that index; when the next token is unknown it stops right there, with the cursor where the scan left it, so no unknown option is passed over |
| Dispatch.StepSwallowsEndMarker | GetOpt.cpp:138-141 | after a bare `--`, the same call sets `normalOnly` and returns the next argument whole as a positional, reordering nothing |
| Dispatch.FlagOptionStoresFlag | GetOpt.cpp:210-215 | `isFlag` stores `flag != 0` in the entry's slot and declines, so the cursor stays where the scan left it |
| Dispatch.CallbackMovesCursor | GetOpt.cpp:182-191 | the callback's answer moves the cursor as follows: a rejection leaves it alone; `usedChars > 0` moves `chari` by exactly that; otherwise `chari` becomes 0, and for an option fed from the next argument `argi` steps over that argument |
| Dispatch.ClaimedCharsSkipped | GetOpt.cpp:165-185 | after claimed characters, the next scan resumes right after them; for an adjacent value that is the first unclaimed character; after `=` the claim counts from the `=`, so the scan resumes on the last claimed character, and a claim of the whole value plus the `=` moves on to the next argument |
| Dispatch.ConsumedArgumentSkipped | GetOpt.cpp:176-189 | a value accepted from the next argument is never scanned: the next scan starts two arguments on |
| Dispatch.StepPermutes | GetOpt.cpp:130-141 | one dispatcher call leaves a permutation of the vector |
| Dispatch.DrainPermutes | GetOpt.cpp:197-207 | `process` leaves a permutation of the vector, and the program name in place |
| Dispatch.DrainStopsAtUnknown | GetOpt.cpp:143-157 | `process` stops only at one of these: a positional with no catch-all, a short option with no entry, or a long option with no entry |
| Dispatch.DrainWithCatchAllKeepsOrder | GetOpt.cpp:110 | with a catch-all, `process` never reorders the vector |
| Dispatch.DrainAfterEndOfOptions | GetOpt.cpp:94-126 | after the end of options, `process` reorders nothing and stops, if at all, on a positional equal to the argument at the returned index |
| Dispatch.OnlyPositionals | GetOpt.cpp:110-120 | a command line with nothing option-looking and no catch-all is left as it is, and `process` returns 1 |
| Dispatch.EndMarkerExample | GetOpt.cpp:138-141 | `prog -- -x` with no catch-all returns 2 on the positional `-x`, unreordered |
| Engine.GetOpt.constructor | GetOpt.cpp:17-26 | the table is kept, its catch-all is cached, the option start is `-`, and the cursor is at 0 |
| Engine.GetOpt.Init | GetOpt.cpp:28-34 | the vector is attached and the cursor rewound |
| Engine.GetOpt.CurrentArg | GetOpt.hpp:54 | reads `argi` and changes nothing |
| Engine.GetOpt.IsFlag | GetOpt.cpp:210-215 | stores `flag != 0` in the entry's slot, changes nothing else and declines |
| Engine.GetOpt.RotateIntoPlace | GetOpt.cpp:113-116 | the backward shift loop leaves exactly `Rotated` of the old vector |
| Engine.GetOpt.SearchLater | GetOpt.cpp:110-121 | the in-place search leaves exactly the vector and the hit that `SearchFrom` computes |
| Engine.GetOpt.NextToken | GetOpt.cpp:79-127 | the scanner method leaves exactly the cursor and vector `Scan` computes, and returns its token |
| Engine.GetOpt.NextArgument | GetOpt.cpp:90-126 | the scan of the argument at `argi` leaves exactly the cursor and vector `ScanArgument` computes, and returns its token |
| Engine.GetOpt.Land | GetOpt.cpp:96-107 | classifies the option token under the cursor exactly as `Landed` does |
| Engine.GetOpt.NextRealToken | GetOpt.cpp:135-141 | the loop over a bare `--` computes exactly `ScanPastEnd` |
| Engine.GetOpt.LookUp | GetOpt.cpp:143-155 | finds the entry `Resolve` names and the `asEntered` text; for a short option `shortOptionBuf` holds that text and a NUL, and otherwise the buffer is left as it was |
| Engine.GetOpt.ValueLink | GetOpt.cpp:159-180 | computes exactly the connection `Connect` states |
| Engine.GetOpt.Answer | GetOpt.cpp:159-192 | the callback call and cursor update leave exactly the cursor and storage that `Dispatch` computes |
| Engine.GetOpt.MoveCursor | GetOpt.cpp:184-191 | the cursor update after the callback's answer leaves exactly the cursor `Advance` computes |
| Engine.GetOpt.NextOption | GetOpt.cpp:130-195 | the dispatcher method leaves exactly the state of `Step`; it returns true with the entry when one matched, and false otherwise; after a short option `shortOptionBuf` holds the returned `asEntered` text and a NUL, and otherwise the buffer is unchanged |
| Engine.GetOpt.Process | GetOpt.cpp:197-207 | `process` leaves exactly the state of `Drain` from a fresh cursor, and returns its `argi` |
| Scenarios.VerboseOutputTable | GetOpt.hpp:28-36 | the example table is valid and has no catch-all |
| Scenarios.VerboseFirstCall | GetOpt.cpp:110-117 | in `prog file1 -v ...` the first call rotates `-v` ahead of `file1`, stores its flag and matches entry 0 |
| Scenarios.SecondScan | GetOpt.cpp:81-117 | the next scan ends the bundle and rotates `--output=out.txt` ahead of `file1` |
| Scenarios.EqualsFormNotFound | GetOpt.cpp:50-62 | no long name of the example table equals `output=out.txt` |
| Scenarios.OutputSecondCall | GetOpt.cpp:143-157 | the second call stops on `--output=out.txt` with the cursor where the scan left it |
| Scenarios.EqualsFormStopsProcess | GetOpt.cpp:50-62 | in `prog file1 -v --output=out.txt file2`: `-v` is rotated forward and sets its flag; `--output=out.txt` is rotated forward but matches no entry; `process` returns 2 |

## Left out

- Error reporting is not modelled. This covers `error`, `errorOutput`, `reportError` and `printError`. The revision never sets `error` and defines no reporter.
- The `found` state and the `needArg` and `repeatable` checks are not modelled. The code declares them but never reads or writes them. `Found` is declared as a type only.
- `isFloat`, `isLong` and `isString` are not modelled. They are declared but not defined here. Every callback other than `isFlag` is an abstract responder.
- Callbacks cannot change the parser's state, because the responder is a pure function of its `Call`. In C a callback receives the `GetOpt*` and could change it.
- A responder that accepts a missing next-argument value is excluded by `Honest`. In C such a callback would push `argi` past `argc`.
- `argc` is the length of the vector, and strings carry no NUL. `stricmp` is ASCII case folding.
- A Dafny `char` stands for one C byte; no text encoding is modelled. An argument holding a multi-byte UTF-8 character is, in C, a bundle of one short option per byte, a `shortName` is a single byte, and `stricmp` folds bytes. The model applies the same rules to `char`s, so it says nothing about how such an argument reads as text.
- An argument string that contains a NUL character has no counterpart in C, where it would end the string. The model nevertheless accepts such strings and gives them a meaning: `"-\0"` is a bundle, and `FindShortOption(t, '\0')` finds the first row without a short name. Those results mean nothing for the C code.
- Types.Reply: `usedChars` is a `nat`. In C it is an `int`, and a callback that writes a negative count moves `chari` backwards (GetOpt.cpp:184-185). The model does not cover that case.
- A table row without a long name never matches a long option. In C, `stricmp` on a null pointer is undefined.
- `void* data` is a slot number into the `flags` map that `isFlag` writes.
- `shortOptionBuf` aliasing is not modelled. In C `asEntered` points into the buffer, so the next short option overwrites the text handed out earlier. The model returns a copy.
- The header and the implementation disagree on four points, and the model follows GetOpt.cpp:
  - the header declares a three-argument `nextOption`;
  - it names the callback field `function`;
  - it differs on the constness of `findLongOption`;
  - it declares no `isFlag`, which GetOpt.cpp:210 defines as a member of `GetOpt`.
- Scanner.SearchFrom: the search continues after a lone option-start character that lands, instead of restarting at `argi + 1` (see Findings). `Scanner.AsWrittenAgrees` proves that the source's search, run pass by pass as `Scanner.SearchAsWritten`, gives the same result whenever it ends.
- Scanner.ScanLatchesNormalOnly: on its own it promises only that no option token is left after the cursor. Lone option-start characters may remain, because the corrected search can leave them behind. An example is `prog x - y -`, on which the source never ends. `Scanner.ScanLatchesWhereSourceEnds` proves the full promise, that nothing option-looking is left, on every input where the source's search ends.

## Findings

| source | as written | input that shows it | evidently intended | confidence | as-written member | corrected member |
|---|---|---|---|---|---|---|
| GetOpt.cpp:110-119 | after a lone option-start character is rotated into `argv[argi]`, the `goto` lands it (not an option), and the search restarts at `argi + 1`, where the string it displaced sits | `prog - -` with option start `-` and no catch-all: the second `-` is swapped with the equal first one forever, so `process` never returns; `prog - /` with option start `-` or `/` swaps two different strings forever | the search goes on after the slot the lone character came from, and returns it as a positional once nothing else is left | not executed | Scanner.AsWrittenLivelock | Scanner.SearchFrom |
