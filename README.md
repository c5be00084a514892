# bsn playground core in Dafny

A model of three pieces of the bsn playground (the browser page that
translates between the "bs" and "bsx" syntaxes and runs programs):

- **The translation round trip** `runTranslation(targetBs)`
  (`playground/src/main.js`). The host page:
  - leases a region of the `wasm_utils` WebAssembly instance's linear memory with
    `alloc`;
  - writes the editor text into that region with `TextEncoder.encodeInto`;
  - calls `translate`;
  - on a status `>= 0`, fetches the payload address with `getTranslatedPointer`,
    decodes that many bytes into the editor and frees the payload region;
  - frees the source region;
  - switches the page to the target syntax (button visibility, editor language and
    theme, terminal background, dark body class).

  The instance is a class (`Wasm.Instance`) with:
  - a memory `array<bv8>`;
  - a multiset ledger of live regions;
  - the translated-pointer slot;
  - an abstract translator;
  - a ghost trace of every export call and every host access to memory.

  The page is a class (`Host.Playground`) holding the instance, the editor text
  and the UI state. `RunTranslation` follows the source's statements in order. It
  is split into stages along the source's own blocks:
  `EncodeSource`, `TranslateWindow`, `Conclude`, `ShowTranslation`, `SwitchMode`.
  Its contract says, for each way a run can end, what the ledger, memory, slot,
  editor text and UI become, and that the trace is exactly `Protocol` of the
  outcome. The properties of `Protocol` are lemmas:
  - which regions are freed and read, and in what order;
  - the pointer is fetched only after a successful `translate`;
  - an ownership replay (`Audit`) finds every write, read and free inside a lease,
    and a completed run holds at the end exactly the leases it started with.
- **The Monaco language data** `createLanguageData(syntax)`
  (`playground/src/language.js`): datatypes for the configuration and the Monarch
  header, with lemmas about:
  - the exact keyword and constant lists;
  - the prefix relation between "bs" and "bsx";
  - the one word ("fake") that is both keyword and constant;
  - the fields both syntaxes share.
- **The ANSI colour wrappers** `blue`, `gray`, `green`, `underline`
  (`playground/src/ansi.js`): exact shape and length, a strip round trip,
  injectivity, and distinctness of the four wrappers. Strings here are UTF-16
  code-unit sequences (`Utf16.Text`), so lengths are JavaScript `length`s.

Sizes follow the source. `sourceText.length` counts UTF-16 code units, and
that count is what goes to `alloc`, `encodeInto`'s window, `translate` and
`free`. The editor text is therefore a sequence of `bv16` code units and the
window has `|text|` bytes. `Host.Window` states what `translate` then receives:
- the bytes `encodeInto` wrote;
- followed by whatever the window already held.

`Host.WindowIsWrittenBytes` shows that the window consists of only the written
bytes exactly when `encodeInto` filled it.

Files: `wrappers.dfy` (Option), `utf16.dfy` (code units), `ansi.dfy`, `language.dfy`, `wasm.dfy`,
`host.dfy`.

## Model

| member | source | states |
|---|---|---|
| Ansi.Blue | playground/src/ansi.js:1-3 | output is `ESC[34m`, then `s`, then `ESC[0m`; length `\|s\| + 9`; stripping the blue prefix and reset gives `s` back |
| Ansi.Gray | playground/src/ansi.js:5-7 | output is `ESC[90m`, then `s`, then `ESC[0m`; length `\|s\| + 9`; stripping gives `s` back |
| Ansi.Green | playground/src/ansi.js:9-11 | output is `ESC[32m`, then `s`, then `ESC[0m`; length `\|s\| + 9`; stripping gives `s` back |
| Ansi.Underline | playground/src/ansi.js:13-15 | output is `ESC[4m`, then `s`, then `ESC[0m`; length `\|s\| + 8`; stripping gives `s` back |
| Ansi.Wrap | playground/src/ansi.js:1-15 | the common shape: prefix, argument, reset, at the stated offsets |
| Ansi.Unwrap | playground/src/ansi.js:1-15 | the partner strip operation; a result is shorter than its input by exactly the prefix and reset |
| Ansi.UnwrapWrap | playground/src/ansi.js:1-15 | stripping a wrapped string recovers it |
| Ansi.WrapUnwrap | playground/src/ansi.js:1-15 | whatever strips is the wrapping of what it strips to |
| Ansi.WrapInjective | playground/src/ansi.js:1-15 | one prefix never maps two arguments to one output |
| Ansi.PrefixesDistinguish | playground/src/ansi.js:2-14 | prefixes that differ at a shared position give different outputs for any arguments |
| Ansi.WrappersInjective | playground/src/ansi.js:1-15 | each of the four wrappers is injective |
| Ansi.WrappersDistinct | playground/src/ansi.js:2-14 | no output of one wrapper is an output of another, for all six pairs |
| Language.CreateLanguageData | playground/src/language.js:6-147 | the base keywords and constants are prefixes of the lists; "fake" is a keyword, and a constant, exactly when the tag is "bsx" |
| Language.BsKeywords | playground/src/language.js:31-40 | under "bs" the keywords are exactly if, else, for, fn, let, const, try, catch, in order |
| Language.BsxKeywordList | playground/src/language.js:31-60 | under "bsx" the eight base keywords are followed by the 17 words rn … find_out, in order |
| Language.ConstantLists | playground/src/language.js:63-68 | constants are true, false, null, and "bsx" appends fake, nocap, cap |
| Language.BsIsPrefixOfBsx | playground/src/language.js:31-68 | the "bs" keyword and constant lists are prefixes of the "bsx" ones (8 and 25 keywords) |
| Language.OtherTagsAreBs | playground/src/language.js:40-67 | any tag other than "bsx" yields exactly the "bs" data (the source tests `=== "bsx"`) |
| Language.SharedFields | playground/src/language.js:8-92 | configuration, types, operators, token postfix and every field but keywords and constants agree between any two tags |
| Language.BaseConstantNotKeyword | playground/src/language.js:31-66 | true, false and null are keywords of neither syntax |
| Language.BsxConstantAsKeyword | playground/src/language.js:41-67 | of fake, nocap, cap only fake is a keyword |
| Language.BsxOverlap | playground/src/language.js:31-67 | under "bsx" a word is both keyword and constant iff it is "fake" |
| Language.KeywordConstantOverlap | playground/src/language.js:47-67 | a word is both keyword and constant iff the tag is "bsx" and the word is "fake" |
| Wasm.Overwrite | playground/src/main.js:70-73 | a store keeps the memory size and puts the bytes at the given offset |
| Wasm.OverwriteOutside | playground/src/main.js:70-73 | a store changes no byte outside the stored range |
| Wasm.OverwriteElsewhere | playground/src/main.js:70-73 | a store leaves any disjoint region as it was |
| Wasm.Instance.constructor | playground/src/main.js:63-64 | a fresh instance is valid, with an empty ledger and trace |
| Wasm.Instance.Place | playground/src/main.js:68 | the allocator picks an in-bounds gap clear of every live region, or reports that none fits |
| Wasm.Instance.Lease | playground/src/main.js:68 | leasing a free in-bounds region keeps the ledger valid and adds exactly that region |
| Wasm.Instance.Alloc | playground/src/main.js:68 | `alloc(len)` leases exactly `(ptr, len)` in a free gap and logs the call, or traps when no gap fits, with the ledger unchanged |
| Wasm.Instance.Free | playground/src/main.js:92-97 | `free(ptr, len)` of a leased region removes exactly that lease and logs the call; memory and slot unchanged |
| Wasm.Instance.Store | playground/src/main.js:70-73 | the memory afterwards is `Overwrite` of the memory before |
| Wasm.Instance.Emit | playground/src/main.js:75 | the module places output bytes in a fresh region, records the address in the slot, and the region holds those bytes |
| Wasm.Instance.Translate | playground/src/main.js:75 | translating the bytes at `(ptr, len)`: output gives status = its length, a fresh leased region holding it and the slot; failure gives the negative code with nothing else changed; it traps only on a panic, or on output no free gap fits, and then changes nothing but the trace |
| Wasm.Instance.GetTranslatedPointer | playground/src/main.js:80 | returns the slot and changes nothing but the trace |
| Host.ToInt32 | playground/src/main.js:75 | `targetBs` reaches the i32 parameter as 1 for true and 0 for false |
| Host.Window | playground/src/main.js:68-75 | the `\|text\|`-byte window `translate` reads is the written bytes followed by the stale remainder |
| Host.WindowIsWrittenBytes | playground/src/main.js:68-75 | the window holds only the written bytes iff `encodeInto` wrote `\|text\|` bytes |
| Host.ModesOpposite | playground/src/main.js:99-111 | the two target modes differ in language, theme, button visibility, darkness and terminal background |
| Host.LoggedIsProtocol | playground/src/main.js:62-112 | logging a run one interaction at a time appends exactly its `Protocol` |
| Host.SourceRegionPairing | playground/src/main.js:68-97 | a completed run allocates `(sourcePtr, n)` first, translates that same pair, and frees it last |
| Host.FreedConcat | playground/src/main.js:77-97 | the regions freed, and those read back, by a trace are those of its parts, in order |
| Host.FreedAndRead | playground/src/main.js:77-97 | a success frees the payload region, then the source region; a negative status frees only the source region; a throw frees nothing. Only a success reads memory, and exactly `[translatedPtr, translatedPtr + status)` |
| Host.PointerOnlyAfterSuccess | playground/src/main.js:77-80 | `getTranslatedPointer` is called iff the run succeeded, and only right after a `translate` that returned `>= 0` |
| Host.NoReadAfterFree | playground/src/main.js:80-97 | nothing is read back and no pointer fetched after any free |
| Host.SourceAccessesCovered | playground/src/main.js:70-75 | writing and translating stay inside the source lease |
| Host.CustodyWhenTranslateThrew | playground/src/main.js:68-75 | a run whose `translate` trapped keeps the discipline and still holds the source region |
| Host.CustodyWhenFailed | playground/src/main.js:68-97 | a negative-status run keeps the discipline and ends with the leases it started with |
| Host.SucceededSteps | playground/src/main.js:68-97 | each interaction of a successful run, taken alone, keeps the discipline |
| Host.CustodyWhenSucceeded | playground/src/main.js:68-97 | a successful run keeps the discipline and ends with the leases it started with |
| Host.ProtocolKeepsCustody | playground/src/main.js:62-112 | every run keeps the ownership discipline and ends holding its starting leases, plus the source region when `translate` trapped |
| Host.Playground.constructor | playground/src/main.js:59-64 | the page starts valid with the given instance, codecs, text and UI |
| Host.Playground.SwitchMode | playground/src/main.js:99-111 | the page shows the mode of `targetBs`, whatever the translation did, and keeps every other class |
| Host.Playground.EncodeSource | playground/src/main.js:70-73 | memory becomes `Overwrite` at `sourcePtr` of what `encodeInto` wrote, and the source region reads as `Window`; ledger and slot unchanged |
| Host.Playground.ShowTranslation | playground/src/main.js:78-92 | the editor gets the decoding of exactly the payload region's bytes; only that lease is freed; the trace is fetch, read, free |
| Host.Playground.Conclude | playground/src/main.js:77-111 | on a status `>= 0` the translation is shown and its lease returned, otherwise the editor is unchanged; then the source lease is freed and the mode switched |
| Host.Playground.TranslateWindow | playground/src/main.js:75-111 | per outcome (trap, failure, success), the translator's verdict on the source bytes and the resulting ledger, memory, slot, editor and UI; a trap means a panic or output no gap fits |
| Host.Playground.TranslateSource | playground/src/main.js:70-111 | the same per-outcome state, with the translator reading the code-unit-sized `Window` |
| Host.Playground.RunTranslation | playground/src/main.js:62-112 | trace is the exact protocol. An alloc trap leaves everything unchanged. A translate trap, which happens only on a panic or on output no gap fits, leaks the source lease. Failed and succeeded runs end with the ledger they started with: failure leaves the editor alone, success puts the decoded payload in it. The mode is switched exactly on those two |

## Left out

- The Run-button handler (playground/src/main.js:117-156) is not part of this model. It instantiates WASI, runs the program, writes terminal output and times the run with a floating-point clock.
- The editor, terminal and theme setup and the Shift+Enter binding (playground/src/main.js:11-45) are page wiring over Monaco and xterm.
- `fetch`, `init`, `instantiateStreaming` and `compileStreaming` (playground/src/main.js:47-53) and the `await` of the instance are asynchronous I/O. The model starts from an instantiated module.
- The `wasm_utils` module's own code is not part of this model. Its exports are given by their observable contract: any free gap, a translator function, and a payload region it leases itself.
- Wasm.Instance.Alloc, Wasm.Instance.Free, Wasm.Instance.Translate: the module is modelled as writing no byte of linear memory outside the payload region it fills. A real allocator may write bookkeeping into freed or fresh blocks. The exact final memory in `Host.Playground.RunTranslation`, `TranslateSource` and `TranslateWindow`, and the stale bytes past what `encodeInto` wrote in `Host.Window`, rest on that assumption. The properties about which regions are leased, read and freed do not.
- The internals of `TextEncoder.encodeInto` and `TextDecoder.decode` are abstract functions. The one property used is that `encodeInto` writes at most the window's length.
- Growth of the linear memory is not modelled. Its size is fixed, and an allocation that does not fit traps.
- Host.Playground.RunTranslation: no leak-freedom claim under exceptions. Throws from `decode` or `setValue` between the reads and the frees are not modelled. Only the `alloc` and `translate` traps are outcomes, and a `translate` trap is shown to keep the source lease.
- Wasm.Instance.Translate: the status is the payload length as an unbounded integer. The i32 wrap of payloads of 2 GiB or more is not modelled, nor is the u32 reading of `sourcePtr` and lengths in the exports.
- `console.error` on a negative status (playground/src/main.js:94) is output only.
- Overlapping clicks: each run is modelled as one uninterrupted call. Nothing in the source serialises them.
- The Monarch regular expressions and tokenizer states (playground/src/language.js:69-143), and the empty `comments` field (line 10), are not modelled. Their meaning belongs to Monaco's interpreter. Regular expressions are kept as text.
- The Monaco registration calls (playground/src/language.js:149-158) are library side effects.
- `playground/vite.config.js` is build configuration.
- Language.CreateLanguageData: the model does not state that each list is free of duplicates.
