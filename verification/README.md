# svd2async-runtime generator core, modelled in Dafny

`svd2async-runtime` reads an SVD description of an AVR microcontroller and
prints Rust source for an interrupt-dispatch framework. That framework has the
following parts:

- a `Runtime` trait with five lifecycle methods and one no-op-by-default
  method per interrupt;
- one exported `__vector_N` entry point per interrupt;
- a type-erased `RawRuntime` handle that forwards every call through a
  hand-built `Vtable` of function pointers, filled from the trampolines of
  `mod vtable`.

This project models the pure pipeline behind the printing, as immutable
records and total functions:

- `wrappers.dfy` (`Wrappers`): `Option` and `Result`.
- `text.dfy` (`Text`): the Rust `str`/`char` behaviour the code relies on.
  This covers UTF-8 encoding and byte length (`str::len`), lowercasing,
  `char::is_whitespace` and `str::lines`, with `JoinLines` as the inverse of
  `lines`.
- `numerals.dfy` (`Numerals`): decimal rendering (`Display` for integers) and
  `usize::from_str`, plus the round trip between them.
- `utils.dfy` (`Utils`): `starts_with_case_insensitive`, `InPlace::in_place`
  and the `str::trim` mutator it is used with. `in_place` is modelled twice:
  on characters, as it is meant to behave, and on bytes, as it is written
  (see "## Findings").
- `svd.dfy` (`Svd`): the parsed device. Each peripheral has interrupt lines,
  and each line has a name, an optional description and a vector `value`.
- `normalize.dfy` (`Normalization`): the `flat_map` / `filter` / `map`
  pipeline at the top of `one::run`. `Flatten` and `KeptPositions` are an
  independent reference against which the pipeline is proved.
- `dispatch.dfy` (`Dispatch`): every emitted item as a record.
  - Items: the trait methods, vector entries, trampolines, `Vtable` fields,
    initializer entries and `RawRuntime` forwarding methods.
  - `Generate` builds them for a normalized list, and `Run` is normalization
    followed by generation.
  - The predicate `Coherent` states how these lists must agree.
- `versions.dfy` (`Versions`): the `VERSIONS` table and `valid_version`. It
  also models clap's default, combined with the `VERSIONS[args.version]`
  lookup.

Where a reader might expect otherwise, the model follows the code:

- Interrupt names are lowercased but not trimmed.
- A description is trimmed as one whole string, not line by line.
- Two interrupts whose names lowercase to the same string are both kept and
  both emitted; nothing detects the clash (`Normalization.NoDeduplication`).
- Only one strategy exists: `VERSIONS` holds `one::run` alone, so the default
  `VERSIONS.len()` selects index 0.

## Model

| member | source | states |
|---|---|---|
| `Utils.StartsWithCaseInsensitive` | src/utils.rs:24-33 | a `b` with more UTF-8 bytes than `a` is refused; the empty prefix always matches |
| `Utils.StartsWithMeansLoweredPrefix` | src/utils.rs:24-33 | the predicate holds exactly when lowercased `b` is a prefix of lowercased `a`: the byte guard never refuses a real prefix and the truncating `zip` never accepts an overlong `b` |
| `Utils.StartsWithSelf` | src/utils.rs:29-32 | every string is a case-insensitive prefix of itself |
| `Utils.StartsWithIgnoresCase` | src/utils.rs:29-32 | changing the case of letters in either argument does not change the answer |
| `Utils.ReservedExamples` | src/one.rs:10 | `RESERVED0` and `Reserved1` match `reserved`, `UART_RX` does not |
| `Utils.InPlace` | src/utils.rs:10-17 | moving the mutator's sub-slice to the front and truncating leaves exactly that sub-slice, of its length |
| `Utils.Trim` | src/one.rs:15 | the trim view cuts only whitespace on both sides and keeps a non-whitespace first and last character |
| `Utils.TrimInPlace` | src/one.rs:14-17 | the trimmed description is the input minus whitespace-only padding on both ends, and is tight |
| `Utils.TrimInPlaceIdempotent` | src/one.rs:15 | trimming in place twice equals trimming once |
| `Utils.TrimInPlaceRemovesPadding` | src/one.rs:15 | padding a tight string with whitespace and trimming gives the string back |
| `Utils.InPlaceBytesAsWritten` | src/utils.rs:10-17 | on the string's bytes, the `ptr::copy` then `truncate(len)` panics exactly when `len` is neither 0 nor the end and the old byte left at `len` is a UTF-8 continuation byte; otherwise it yields the mutator's sub-slice |
| `Utils.TrimByteSpan` | src/utils.rs:11-14 | the pointer and `len` that `str::trim` hands back cover exactly the encoding of the trimmed string |
| `Utils.TrimInPlaceBytesAsWritten` | src/one.rs:14-17 | `d.in_place(str::trim)` as written, on bytes: when it does not panic, it yields the UTF-8 encoding of the trimmed description |
| `Utils.TrimInPlaceBytesAsWrittenWithoutLeading` | src/utils.rs:15-16 | without leading whitespace nothing moves, and the code as written never panics and yields the trimmed description |
| `Utils.TrimInPlaceBytesPanics` | src/utils.rs:15-16 | the description `" é"` (bytes `20 C3 A9`) makes the code as written panic in `truncate(2)`, while the intended result is `"é"` (bytes `C3 A9`) |
| `Utils.TrimInPlaceBytes` | src/one.rs:14-17 | the intended byte-level trim in place always yields the UTF-8 encoding of the trimmed description, the string the rest of the model uses |
| `Text.LowerStrProperties` | src/one.rs:13 | lowercasing keeps length in characters and bytes, leaves no upper-case ASCII letter, and is idempotent |
| `Text.Lines` | src/one.rs:40 | `str::lines` yields no line for an empty text and at least one otherwise, and no line holds `\n` |
| `Text.JoinLinesOfLines` | src/one.rs:40-42 | the lines of a description without `\r` that does not end in `\n` join back to the description |
| `Numerals.ParseUsize` | src/main.rs:9 | a parsed version number fits in a 64-bit `usize`, and the input spells it: an optional `+`, then zeros, then its decimal digits |
| `Numerals.ParseUsizeExactly` | src/main.rs:9 | a string parses to v exactly when v fits in a `usize` and the string is an optional `+`, any number of `0`s and the decimal rendering of v |
| `Numerals.ParseDecimal` | src/main.rs:9 | parsing the decimal rendering of any `usize` gives it back |
| `Numerals.ParseRejectsNonNumerals` | src/main.rs:9 | the empty string, a lone `+`, a negative number, words and trailing spaces do not parse |
| `Numerals.DecimalInjective` | src/one.rs:61-64 | distinct vector numbers render to distinct numerals |
| `Normalization.NormalizeInterrupt` | src/one.rs:12-19 | the vector `value` is unchanged; the name keeps its length and loses its upper case; reserved status is unchanged; a description stays present or absent and becomes tight |
| `Normalization.NormalizeInterruptIdempotent` | src/one.rs:12-19 | normalizing a normalized interrupt changes nothing |
| `Normalization.KeptPositions` | src/one.rs:10 | the surviving positions increase strictly, are all non-reserved, and include every non-reserved position |
| `Normalization.NormalizeIsFlatPass` | src/one.rs:4-21 | the per-peripheral `flat_map` equals one filter-and-normalize pass over all interrupts in peripheral order |
| `Normalization.NormalizeSpec` | src/one.rs:4-21 | output k is the k-th non-reserved input line, lowercased, same `value`, description trimmed; every non-reserved line appears once, in order, and no reserved one |
| `Normalization.NormalizeDropsReserved` | src/one.rs:10-13 | no output line is reserved |
| `Normalization.NoDeduplication` | src/one.rs:10-21 | `Timer` and `TIMER` both survive as `timer`, in order |
| `Normalization.ReservedScenario` | src/one.rs:4-21 | `RESERVED0`@0, `UART_RX`@3, `Reserved1`@1 normalize to `uart_rx`@3 alone |
| `Dispatch.AssembleNames` | src/one.rs:95-194 | `mod vtable`, `struct Vtable`, the `vtable::<R>()` initializer and the `RawRuntime` methods list `init, snapshot, idle, wake, shutdown, is_ready` and then the interrupt names, in order, each pointing at its namesake |
| `Dispatch.AssembleSignatures` | src/one.rs:98-122 | slot by slot, trampoline, field and handle method have the same signature; only `idle, wake, shutdown` lack the critical section; only `is_ready` returns `bool`; only interrupt handle methods lack `allow(dead_code)` |
| `Dispatch.AssembleTrait` | src/one.rs:26-53 | the trait lists the five lifecycle methods, then one unsafe, no-op-by-default method per interrupt, each named like its table slot's trampoline and taking a critical section exactly when that trampoline does |
| `Dispatch.AssembleVectors` | src/one.rs:56-72 | `mod interrupts` has one entry point per interrupt, in order; entry point j is exported and named `__vector_{value}` of interrupt j and calls trait method 5 + j, which takes a critical section |
| `Dispatch.Generate` | src/one.rs:23-201 | the emitted framework is coherent and has 6 + n table slots; entry point j is `__vector_{value}` of interrupt j and calls that interrupt's method, whose doc lines are the lines of the interrupt's description |
| `Dispatch.VectorSymbolsDistinct` | src/one.rs:58-71 | entry-point symbols are pairwise distinct exactly when vector values are |
| `Dispatch.DocLinesReadBack` | src/one.rs:39-44 | a trimmed description without `\r` is emitted as its lines plus one empty `///` line; those lines join back to the description, and none of them holds a line break |
| `Dispatch.Run` | src/one.rs:3-204 | for a device, the framework is coherent; slot 6 + k, entry point k and trait method 5 + k belong to the k-th non-reserved line, under its lowercased name, with its own vector and the lines of its trimmed description as doc lines |
| `Dispatch.RunScenario` | src/one.rs:3-204 | the reserved-line scenario yields seven table slots ending in `uart_rx` and the single entry point `__vector_3` |
| `Versions.ValidVersion` | src/main.rs:8-15 | a parsed number v in `1..=len` is accepted as `Ok(v - 1)`, which is in bounds for `VERSIONS`; unparsable input and numbers outside `1..=len` are refused with the matching error |
| `Versions.ValidVersionAcceptsSpellings` | src/main.rs:9-13 | `"+01"` and `"1"` both select entry 0 |
| `Versions.ValidVersionOfDecimal` | src/main.rs:9-13 | every n in `1..=len` selects n - 1; `0` and every n above `len` are refused |
| `Versions.ValidVersionRejects` | src/main.rs:9-13 | `"0"`, `"2"`, `""` and `"-1"` are refused |
| `Versions.SelectVersion` | src/main.rs:19-28 | without an argument the default selects the last, newest strategy; an accepted argument selects `VERSIONS[parsed - 1]` |

## Left out

- Reading the SVD file and parsing it with `svd_parser` (src/one.rs:4): the model takes the parsed peripherals as input.
- Parse and I/O errors of `run`: they come from that parsing and from the file system, which are not modelled.
- Printed text: `use` lines, `#[inline(always)]`, `#[doc(hidden)]`, the fixed `# Safety` doc lines, indentation and braces. Items are recorded as names, signatures, receivers, flags and doc lines.
- Fixed items of `RawRuntime` that do not depend on the interrupts: its two fields, `RawRuntime::new`, `from_ptr` and `unsafe impl Sync`. They are printed verbatim.
- clap's argument parsing and the dynamic call `VERSIONS[k](&file)` in `main`: only the selection of the entry is modelled.
- What the generated Rust does at run time: critical sections, pointer casts, the `RUNTIME` static. This is emitted text, not behaviour of the generator.
- Text.LowerStr: lowers ASCII letters only and keeps every other character. `char::to_lowercase` also maps non-ASCII letters, sometimes to several characters, which would break the byte-length reasoning.
- Utils.InPlace: a mutator that returns a slice outside the string is excluded by its precondition, since that is undefined behaviour in the source. It moves characters, not bytes, so it always returns the sub-slice. On bytes, the source's `truncate(len)` panics when the mutator's slice does not start at 0 and the old byte at `len` is a UTF-8 continuation byte. An example is the description `" é"`. `Utils.InPlace`, `Utils.TrimInPlace` and everything built on them return the trimmed string in that case, as intended; `Utils.InPlaceBytesAsWritten` and `Utils.TrimInPlaceBytesAsWritten` model the panic (see "## Findings").
- Numerals.ParseUsize: assumes a 64-bit host. It checks overflow once on the final value instead of at every digit; the two agree because the accumulated value only grows.
- Interrupt `value`: modelled as an unbounded `nat` rather than a `u32`. The generator only prints it, so no wrap-around can arise.
- Duplicate normalized names: they are neither detected nor reported, as in the source.

## Findings

| source | as written | input that shows it | evidently intended | confidence | as-written member | corrected member |
|---|---|---|---|---|---|---|
| src/utils.rs:15-16 | `in_place` moves the `len` bytes of the trimmed slice to the front, then calls `String::truncate(len)`, which asserts that byte `len` starts a character; that byte is still the old one | description `" é"`, bytes `20 C3 A9`: the slice starts at byte 1 with `len` 2, the move leaves `C3 A9 A9`, and `truncate(2)` finds the continuation byte `A9` and panics | the trimmed description `"é"`, bytes `C3 A9`: cut the moved bytes to `len` without the boundary assertion on the stale byte | high, not executed | `Utils.TrimInPlaceBytesPanics` | `Utils.TrimInPlaceBytes` |
