# Porch Configuration Assistant — a Dafny model of its core

The Porch Configuration Assistant is a desktop calculator for display timing
("porch") parameters. Each calculator window collects ten inputs and computes
up to seven outputs. The window comes in two families: DSC and NonDSC.
A window can append its record to a text file, the porch-conf file. The
program reads that file back into an in-memory list of records. It can
delete one record, which rewrites the whole file from the list.

This project models that core:

- **Records** — the `Conf` record: a name, a mode flag, ten inputs, five
  common outputs and two DSC-only outputs, with the program's defaults.
- **Text** — the whitespace tokenising that `stream >> word` performs, the
  left-justified `setw` padding, and the writing and reading of numbers.
- **Codec** — the porch-conf format:
  - the header line;
  - the 22-line (DSC) or 20-line (NonDSC) block per record;
  - the line handler `HandlePorchFileHeader`;
  - the loader `LoadPorchConfFile`, with every way a load can fail.
- **CodecLaws** — what each kind of line does to the store and how the load
  loop behaves. It also proves the round trip: loading a file the full
  rewrite wrote returns the records it was given, in canonical form, when
  every name is a single word.
- **Store** — the append save a window performs, the full-rewrite save, and
  `DeletePage`. Files are lists of lines. Whether a file can be opened is a
  boolean parameter.
- **Windows** — the five DSC and five NonDSC window slots: `AddDSCWindow`,
  `AddNonDSCWindow`, the close button and `UpdateWindows`.
- **Gating** — which outputs a window computes, decided by which input
  buffers are filled.
- **Utility** — `utility::ceiling`.

Each float field of the program is an integer here. A value is written as
its decimal digits and read back by the sign-and-digits prefix rule of
`stream >> value`.

The code writes 22 lines per DSC record and 20 per NonDSC record: lines `0.`
to `19.`, plus `20.` and `21.` for DSC.

## Model

| member | source | states |
|---|---|---|
| Records.Set | source/main.cpp:885-969 | Storing a value into one field changes that field only. Name, mode and the other sixteen fields are kept. |
| Records.Canonical | source/main.cpp:801-805 | A record after a pass through the file. A NonDSC record's two DSC-only outputs become the -2 default. Everything else is unchanged. |
| Records.CanonicalAll | source/main.cpp:801-805 | A list after a pass through the file: every record is canonical and keeps its name and mode. The list is unchanged exactly when every record was already canonical. |
| Records.CanonicalFixes | source/main.cpp:108-112 | Canonical forms are fixed points. A record equals its canonical form exactly when it is DSC or holds -2 in both DSC-only fields. |
| Text.Words | source/main.cpp:851-853 | Repeated `stream >> word` yields only non-empty, space-free words. |
| Text.Pad | source/main.cpp:727-747 | `std::left << std::setw(w)` keeps the text as a prefix. It pads with blanks up to width `w` and never truncates. |
| Text.ParseFormat | source/main.cpp:884-885 | Reading a number from a written value gives the value back, whatever non-digit text follows it. |
| Codec.FieldOfPrefix | source/main.cpp:885-969 | The line prefixes `4.`–`13.` and `15.`–`21.` name exactly one field each. Any other word names none. |
| Codec.BlockLines | source/main.cpp:722-753 | A record's block has 22 lines in DSC mode and 20 in NonDSC mode. |
| Codec.EncodeFile | source/main.cpp:770 | The full rewrite starts with the header line. |
| Codec.HandleLine | source/main.cpp:849-974 | One line is rejected exactly when its first word is no known prefix. `0.` appends a fresh default record. A field line with no record yet is flagged. Accepted lines never touch any record but the last. What each kind of line sets is stated by the `CodecLaws.Any…Line` lemmas. |
| Codec.Load | source/main.cpp:814-846 | A load fails as "cannot open" exactly when the file is unreadable. It fails as "bad header" exactly when the first line is missing or wrong, and then the list is empty. Success needs the header. |
| CodecLaws.RuleLineStartsRecord | source/main.cpp:855-859 | The `0.` rule line appends a default record. |
| CodecLaws.DividerLinesSkipped | source/main.cpp:860-863 | The `3.` and `14.` divider lines leave the store alone. |
| CodecLaws.TitleLineSetsName | source/main.cpp:864-876 | The `1.` line renames the last record to the concatenated words before the first `\|`. |
| CodecLaws.KindLineSetsMode | source/main.cpp:877-882 | The `2.` line either save path writes sets the last record's mode to the mode written. |
| CodecLaws.AnyKindLine | source/main.cpp:877-882 | Any `2.` line sets DSC mode exactly when its next word is `DSC`, so `2.` alone or `2. dsc` give NonDSC. Name, fields and earlier records are kept. |
| CodecLaws.AnyTitleLine | source/main.cpp:864-876 | Any `1.` line renames the last record to the glued words before the first `\|`, a one-word name. Mode, fields and earlier records are kept. |
| CodecLaws.AnyFieldLine | source/main.cpp:883-969 | Any field line stores the number read from its second word, or 0 when there is none, into its own field of the last record. Name, mode, every other field and earlier records are kept. |
| CodecLaws.ValueLineSetsField | source/main.cpp:883-969 | A written value line stores its value into its own field of the last record. |
| CodecLaws.NameOfStopsAtBar | source/main.cpp:867-874 | The name ends at the first `\|` word. Words after it do not matter. |
| CodecLaws.NameOfIsNameOk | source/main.cpp:867-874 | A loaded name is one word without blanks, and not the word `\|` itself. |
| CodecLaws.TitleNameOfFullName | source/main.cpp:779 | For a one-word name, the title `name \| DSC` or `name \| NonDSC` loads back as that name. |
| Codec.Scan | source/main.cpp:835-842 | The load loop ends as success, a rejected line, or a field line with no record. It never drops a record and never changes any but the last of those it started with. |
| CodecLaws.ScanStopsAtRejected | source/main.cpp:835-842 | The load loop stops at the first rejected line. The lines after it change nothing, and the records read so far stay in memory. |
| CodecLaws.LoadStopsAtRejected | source/main.cpp:814-846 | A load with a rejected line fails. The list then holds what the lines before it built. |
| CodecLaws.ScanCountsRecords | source/main.cpp:855-859 | A load that gets through has one record per `0.` line. |
| CodecLaws.LoadedNamesOk | source/main.cpp:864-876 | Every record a load produces, successful or not, has a one-word name. |
| CodecLaws.ScanBlock | source/main.cpp:722-753 | A whole written block adds exactly one record. It carries the title's name, the mode and every value written. |
| CodecLaws.RoundTrip | source/main.cpp:760-811 | Loading the file the full rewrite wrote succeeds. It gives the records back in canonical form. |
| CodecLaws.RoundTripExact | source/main.cpp:760-811 | Records already in canonical form come back unchanged. |
| CodecLaws.RewriteAfterLoad | source/main.cpp:809 | Rewriting whatever a load produced, then loading, gives the same records back in canonical form: a NonDSC record's two DSC-only outputs become -2. A second rewrite and load changes nothing. |
| CodecLaws.BlockHasNoHeader | source/main.cpp:722-753 | No line of a record's block is the header line. |
| CodecLaws.HeaderOnlyFirst | source/main.cpp:770-805 | The full rewrite writes the header as line 1 and nowhere else. |
| CodecLaws.EncodedStarts | source/main.cpp:772-805 | The rewrite writes exactly one `0.` line per record, whatever the names hold. |
| Store.WindowRecord | source/main.cpp:582-583 | A window's record holds its ten inputs and its mode's outputs, in file order. It is canonical. |
| Store.SaveWindow | source/main.cpp:683-757 | The append save succeeds exactly when all ten input buffers hold text and the file opens. On failure the file is untouched. On success the file keeps its old lines and gains one 22- or 20-line block, which never contains the header line. |
| Store.SaveThenLoad | source/main.cpp:683-757 | After an append save to a loadable file, a load gives the old records plus the window's record, named by its title. |
| Store.SavedWindowName | source/main.cpp:390 | For a one-word window name, the saved title `name \| DSC` or `name \| NonDSC` loads back as that name. |
| Store.FirstSaveUnloadable | source/main.cpp:713-720 | As written, the first append save into a missing file reports success, yet the file it leaves fails the header check on every load, with an empty list. |
| Store.SaveWindowCreating | source/main.cpp:683-757 | The corrected append save: same success condition and failure behaviour as `SaveWindow`; on an empty file it writes the header first, and otherwise it is `SaveWindow`. |
| Store.SaveCreatingIntoMissing | source/main.cpp:713-720 | With the correction, a first save into a missing file loads back to the window's record alone. |
| Store.SaveCreatingThenLoad | source/main.cpp:683-757 | With the correction, a save into a missing file or a loadable one loads back to the earlier records followed by the window's record. |
| Store.Rewrite | source/main.cpp:760-811 | The full rewrite succeeds exactly when the file opens. If it does not open, file and list are untouched. Otherwise, when all names are one word, the reload succeeds and gives the canonical list; it gives an empty list when the file cannot be read back. |
| Store.Erase | source/main.cpp:979 | Erasing at `index` drops exactly that record. The others stay in order. |
| Store.DeletePage | source/main.cpp:977-982 | Delete reports the rewrite's success. If the file cannot be opened, the record is gone from memory but the file is unchanged. Otherwise, when all names are one word and the reload can open the file, the list is the other records in order, in canonical form. When the reload cannot open it, the list is empty. |
| Store.DeleteLoaded | source/main.cpp:977-982 | Deleting from a loaded list leaves exactly the canonical remaining records. The file it writes loads back to that list. |
| Store.RewriteTwice | source/main.cpp:760-811 | Rewriting the list a rewrite reloaded writes the same file and reloads the same records. |
| Windows.InitialSlots | source/main.cpp:50-55 | Five DSC and five NonDSC slots, all closed at start. |
| Windows.FirstClosed | source/main.cpp:377-385 | The slot search finds the lowest closed slot, or reports that all are open. |
| Windows.AddWindow | source/main.cpp:368-391 | Nothing changes exactly when the name is empty, a slot already carries the title, or all slots are open. Otherwise the lowest closed slot opens as `name + suffix` and the other slots are unchanged. |
| Windows.AddDSCWindow | source/main.cpp:368-391 | Adding a DSC window leaves the NonDSC slots unchanged. |
| Windows.AddNonDSCWindow | source/main.cpp:394-417 | Adding a NonDSC window leaves the DSC slots unchanged. |
| Windows.CloseWindow | source/main.cpp:196 | The close button clears only that slot's open flag. The title stays. |
| Windows.ReleaseClosed | source/main.cpp:353-365 | `UpdateWindows` renames every closed slot `NULL`. Open slots are untouched. |
| Windows.UpdateWindows | source/main.cpp:353-365 | In both families every closed slot is renamed `NULL`. Open slots and all open flags are unchanged. |
| Windows.GoodInvariant | source/main.cpp:353-417 | The start state, adding, closing and `UpdateWindows` all keep open titles distinct. Each open title stays a name plus its family's suffix. |
| Windows.UpdateWindowsIdempotent | source/main.cpp:353-365 | Running `UpdateWindows` twice is the same as once. |
| Windows.TakenAfterRelease | source/main.cpp:372-375 | After `UpdateWindows`, the duplicate check refuses a title exactly when an open window carries it. |
| Windows.StaleTitleBlocks | source/main.cpp:372-375 | Why `UpdateWindows` is needed: without it, a closed window's old title would block a new window of that name. The program never reaches this state, because `MainWindowFunction` (source/main.cpp:143-147) runs `UpdateWindows` at the end of every frame, after the close and before the next add. |
| Windows.ReopenAfterClose | source/main.cpp:353-391 | With `UpdateWindows` in between, closing a window and adding its name again opens a slot under that title, at or below the closed slot. |
| Gating.Present | source/main.cpp:492-511 | An input counts as present exactly when its buffer holds text. |
| Gating.ShownAsWrittenByReads | source/main.cpp:516-667 | As written, a window shows an output exactly when every input its formula reads is present, except that `adj_hblank` demands `hactive` instead of `adj_hactive`. The DSC tests are at 516-576 and the NonDSC tests at 623-667. |
| Gating.GatesMatchReads | source/main.cpp:516-576 | Every gate except `adj_hblank` tests exactly the inputs its formula reads. |
| Gating.AdjHblankGateUnsound | source/main.cpp:535-538 | As written, `adj_hblank` is shown with the `adj_hactive` buffer empty, although its formula reads `adj_hactive`. |
| Gating.AdjHblankGateIncomplete | source/main.cpp:641-644 | As written, `adj_hblank` is hidden when only `hactive` is missing, an input its formula does not read. |
| Gating.ShownAsWritten | source/main.cpp:516-667 | On every output but `adj_hblank`, the written gates show exactly what the corrected gates show. |
| Gating.ShownIntended | source/main.cpp:535-538 | With the corrected gates, a window shows exactly the outputs of its mode whose formulas read only filled inputs. |
| Gating.GateIntended | source/main.cpp:535-538 | The corrected gate is exactly the set of inputs the formula reads. It differs from the written gates only for `adj_hblank`. |
| Gating.IntendedSoundAndComplete | source/main.cpp:535-538 | With the corrected gate, an output is shown exactly when every input its formula reads is present. |
| Gating.ShownMonotone | source/main.cpp:516-579 | Filling more buffers never hides an output, under either gate. |
| Gating.AllFilledShowsAll | source/main.cpp:685-711 | When all ten buffers are filled, as the save demands, every output of the mode is computed. |
| Utility.Ceil | include/utility.hpp:163 | `std::ceil` is the least integer not below the number. |
| Utility.Ceiling | include/utility.hpp:156-167 | Negative arguments give -1. A number below `significance` gives `significance`. Otherwise the result is a multiple of `significance`, at least the number. From `significance` on, it lies strictly above `ceil(num)` and at most one step beyond. |
| Utility.CeilingIsLeastMultipleAbove | include/utility.hpp:163-166 | From `significance` on, the result is the least multiple strictly above `ceil(num)`. |
| Utility.CeilingBumpsMultiples | include/utility.hpp:164-166 | A whole-number input that is already a multiple still moves up a full step. |
| Utility.CeilingExamples | include/utility.hpp:156-167 | Sample values: `ceiling(50,25)=75`, `ceiling(30,25)=50`, `ceiling(10,25)=25`, `ceiling(0,25)=25`. Negative arguments give -1. |
| Utility.CeilingIntended | include/utility.hpp:156-167 | Corrected rounding. Negative arguments still give -1 and a number below `significance` still gives `significance`. From `significance` on, the result is a multiple, at least `ceil(num)` and less than one step above it. |
| Utility.CeilingIntendedIsLeast | include/utility.hpp:163-166 | From `significance` on, the corrected rounding gives the least multiple not below the number. It differs from the written one exactly when `ceil(num)` is already a multiple. |
| Utility.CeilingDiscrepancy | include/utility.hpp:164-166 | `ceiling(50,25)` is 75 as written and 50 corrected. |

## Left out

- Float arithmetic: the window formulas that compute the outputs are not modelled. Each output is described only by the set of inputs it reads.
- Float formatting: `<<` on a float prints at most six significant digits and may switch to exponent notation. Integers are written here as plain decimal digits. In the program a reload therefore rounds to six significant digits (`txvid` 1234567 comes back as 1234570), so `CodecLaws.RoundTrip`, `CodecLaws.RoundTripExact` and `Store.SaveThenLoad` hold of the integer model only.
- Float parsing: `>>` on a float also reads a decimal point and an exponent. Only the sign-and-digits part is modelled.
- Missing value: a value line with no value after its prefix leaves the program's `buf` uninitialised. The model reads it as 0.
- Codec.HandleLine: a field line before any `0.` line calls `back()` on an empty list, which is undefined behaviour. The model reports it as the distinct status `FieldBeforeRecord` instead of giving it a meaning.
- Codec.HandleLine: the `separator` position computed on the `1.` line is never used, so it is not modelled.
- CodecLaws.RoundTrip: records come back unchanged only when each name is one word and not the word `|` itself (`x|y` qualifies). A name with blanks loads back with the blanks removed. Every name a load produces qualifies, which `CodecLaws.LoadedNamesOk` proves.
- Text.Pad: strings are sequences of characters, not UTF-8 bytes. `std::setw` counts bytes, so the title column of a non-ASCII name gets more blanks in the model than the program writes (`帧 | DSC` is 9 bytes and gets 16 blanks in the program, 18 here), and a title of 25 bytes or more gets none in the program. Blanks only separate words and the name stops at `|`, so no decoded value depends on it.
- File system and streams: a file is a list of lines, and opening for reading or writing is a boolean parameter. Partial writes, a last line without a newline, and `\r` characters are not modelled.
- Store.DeletePage: `index` must be in range. The program does not check it, and an out-of-range `erase` is undefined behaviour.
- Gating.Present: treats every non-empty buffer as a usable number. In the program each frame runs `std::stof` on every non-empty buffer. The decimal input filter also admits `.`, `+`, `-`, `*` and `/`, so a buffer holding only `-` (the first keystroke of a negative value) or `.` makes `std::stof` throw `std::invalid_argument`. An over-long digit string makes it throw `std::out_of_range`. Neither exception is caught, and the program ends before any gate or the save button runs. `Gating.AllFilledShowsAll` inherits this assumption.
- Store.SaveWindow: takes the window's input and output arrays as parameters, so it assumes the buffers parsed. A window whose buffers make `std::stof` throw never reaches the save button (see `Gating.Present`). Turning the input text into floats (`std::stof`) and the formulas are not modelled.
- Utility.Ceiling: a `significance` of zero with a non-negative number takes a remainder by zero, which is undefined behaviour, and is excluded. The number is an integer here, so a NaN or infinite `num` and overflow of `int(std::ceil(num))` for huge floats are not modelled; each is undefined behaviour in the conversion at include/utility.hpp:163. A NaN arises when vactive and adj_vactive are both 0 (`adjHtotal` at source/main.cpp:556), and an infinity when htotal is 0 (`txvid / adjHtotal`).
- The user interface (ImGui, GLFW, Win32 setup), menus, tooltips, the static `isSave` flag, the file-window selection list and the confirm-delete dialog are left out. They are presentation only.

## Findings

| source | as written | input that shows it | evidently intended | confidence | as-written member | corrected member |
|---|---|---|---|---|---|---|
| source/main.cpp:535-538 | The `adj_hblank` output is gated on `hactive` being filled, but its formula reads `adj_hactive` (same at 641-644). | Buffers vactive, htotal, adj_vactive and hactive filled, adj_hactive empty: `adj_hblank` is computed from an unset `adj_hactive`. | Gate on `adj_hactive`, the input the formula reads. | high, not executed | Gating.AdjHblankGateUnsound | Gating.IntendedSoundAndComplete |
| source/main.cpp:713-720 | The append save opens with `std::ios::app`, which creates a missing file, and writes only the record block; the header is written only by the full rewrite, which runs only after a load. | The first save on a machine with no porch-conf file: the file holds one block without the header, and every later load stops at the header check. | Write the header when the file is new or empty. | high, not executed | Store.FirstSaveUnloadable | Store.SaveCreatingThenLoad |
| include/utility.hpp:163-166 | `offset = significance - n % significance` adds a whole step when `n` is already a multiple. | `ceiling(50, 25)` returns 75. | 50, the least multiple of 25 not below 50. | medium, not executed | Utility.CeilingBumpsMultiples | Utility.CeilingIntendedIsLeast |
