# RDP Wrapper: a verified model of its parsing, relaying and service logic

This project models the parts of the RDP Wrapper repository that carry algorithms and proves what they
promise. `dafny verify dfyconfig.toml` checks all of it.

* **The INI engine** (`ini::Parser`). `IniStore` holds the ordered sections and options, `IniParse` the meaning of
  reading a text line by line, `IniOps` the other operations and the layered views, `IniPrint` the printer.
  `IniTwoPhase` proves that the streaming state machine is the same as cutting a text into items and applying them;
  `IniLines` and `IniReadings` say from the characters alone what every line means, which exception a reading throws
  and at which line; `IniEdits` and `IniWritten` say when an edit succeeds and what is written. On that rest
  `IniMeaning` (which assignment wins), `IniRoundTrip`, `IniNormalForm`, `IniExact` and `IniUnprintable`
  (printing and parsing undo each other, for exactly which stores, and texts for which they do not), `IniViews` (the
  views agree, and what one operation changes) and the four `Interpolation` modules (fuel, expansion trees, cycles,
  escaping, spelling and depth). `IniParser` is the object itself: a class whose fields are updated in place by the
  loops of parser.cpp, each method proved against the meaning above.
* **The argument relay** (`ArgRelay`). Quoting, the parameter string, the rules of "Parsing C command-line arguments"
  (Microsoft C language reference) and of the Remarks on CommandLineToArgvW, and the marker filter of `wmain`. The
  three known treatments of a doubled quote inside quotes are a parameter, and no result depends on it.
* **The service restart** (`ServiceGraph`, `StopOrder`, `ServiceRestart`, `WaitService`). The service manager is a
  class whose calls fail or answer nondeterministically and whose pending transitions complete at any time; ghost
  logs record accepted stop requests, start requests, start attempts with what they saw and answered, failed calls
  and waits given up.
* **Smaller cores**: `PipeTransfer` (the wide-character pipe), `PatchBytes` and `PatchConfig` (patch decoding, the
  range check, and which write a configuration asks for), `UpdateDate` (validation, the date reader, the update
  decision), `VersionSupport` (three answers to whether a configuration covers a version). `Text` and `Decimals` hold strings and numbers.

Characters are C-locale bytes, so `isspace` is the six ASCII white-space characters and `tolower` folds A to Z.
The code is followed where it is surprising: `get_raw` on a missing section still falls back to DEFAULT while
`has_option` does not; DEFAULT values are printed without folding their newlines; a validated date after a lone
carriage return is not the one the date reader uses; where blank lines end a value, one that follows continuation
lines loses them. The round trips, the default section's name, the date, the version scans and the order in which a
restart stops services are stated with their exact conditions, and lemmas also give inputs that miss them (for the round trips in `IniUnprintable`). `StopOrder` models the stop phase's recursion
as runs over the answers the enumerations give; `ServiceRestart` proves that a stop phase in which nothing is pending
and nothing fails is such a run, and keeps the order's invariant under every failure.

## Model

| member | source | states |
|---|---|---|
| IniTwoPhase.ReadIsTwoPhase | src-multiarch/cpp_configparser/src/parser.cpp:240-418 | The streaming parser refines a two-phase reading: for every text, store and option setting, reading equals cutting the text into items (each option line with the lines that go on its value) and applying whole items, with the same store and the same exception; where blank lines end a value, one that comes after continuation lines loses them |
| IniTwoPhase.ContLenIs | src-multiarch/cpp_configparser/src/parser.cpp:253-270 | The run of lines that go on a value stops exactly at the first that cannot: one that is neither blank once cleaned nor indented, or a blank one where blank lines end a value |
| IniMeaning.LastReadWins | src-multiarch/cpp_configparser/src/parser.cpp:291-372 | After a text has been read to its end, every option of every section holds the value of the last item that assigns it there (repeated headers reopen the same section), or what it held before |
| IniMeaning.StrictAgrees | src-multiarch/cpp_configparser/src/parser.cpp:272-291 | Strict reading that is not stopped by a repetition has exactly the result of non-strict reading; StrictStopsExactly says when it is stopped |
| IniMeaning.StrictStopsExactly | src-multiarch/cpp_configparser/src/parser.cpp:272-357 | Reading is stopped by a repetition exactly when the parser is strict and some item, reached without any other exception, opens a stored section again or assigns a key its section already holds |
| IniMeaning.ApplyStores | src-multiarch/cpp_configparser/src/parser.cpp:336-372 | One item changes the value of exactly the option it assigns and leaves every other option of every section as it was |
| IniParse.CommentCut | src-multiarch/cpp_configparser/src/parser.cpp:186-216 | Nothing is left of a comment line; of any other line the trimmed front up to a place where some inline prefix starts a comment, or all of it, with no inline comment starting in what is kept |
| IniParse.FirstDelimiter | src-multiarch/cpp_configparser/src/parser.cpp:310-334 | A hit is an occurrence of a listed delimiter with no occurrence of any of them to its left; no hit means none occurs |
| IniLines.FoundExactly | src-multiarch/cpp_configparser/src/parser.cpp:310-318 | The delimiter found is exactly the one that stands leftmost, and of several at one place the one listed first |
| IniLines.StripExactly | src-multiarch/cpp_configparser/src/parser.cpp:186-216 | A line that trimmed begins with a non-empty comment prefix vanishes; of any other what stays, trimmed, is its front up to a place, at the start or after white space, where a non-empty inline prefix stands, or all of it, with no such place inside |
| IniLines.PairReads | src-multiarch/cpp_configparser/src/parser.cpp:310-344 | Under any delimiters, a line whose first delimiter stands between a key and a trimmed value, with any white space around it, assigns that value to that key |
| IniLines.PairLine | src-multiarch/cpp_configparser/src/parser.cpp:310-344 | Under the shipped delimiters and comments, a key in any letter case, an equals sign or a colon, and a value, with any white space before, between and after, is that assignment |
| IniLines.BareLine | src-multiarch/cpp_configparser/src/parser.cpp:323-342 | A line without a delimiter is an option without a value where those are allowed, and otherwise in error |
| IniLines.NoKeyLine | src-multiarch/cpp_configparser/src/parser.cpp:331-343 | A line that begins with a delimiter is in error |
| IniLines.CommentLine | src-multiarch/cpp_configparser/src/parser.cpp:192-196 | A line that begins with a hash or a semicolon is as good as blank |
| IniLines.SectionLine | src-multiarch/cpp_configparser/src/parser.cpp:272-274 | A bracketed line, white space around it or not, is the header of what stands between the brackets |
| IniLines.ItemsAreCut | src-multiarch/cpp_configparser/src/parser.cpp:253-270 | Each item says what its own line says and owns the lines that go on its value; items follow one another without overlapping; every line that is not blank once cleaned belongs to one |
| IniReadings.ThrowsExactly | src-multiarch/cpp_configparser/src/parser.cpp:272-415 | A reading throws what the first item that stops it throws, located at that item's line: a repeated section or option of a strict parser, or an option before all headers where no unnamed section is allowed; if none does, it reports exactly the lines in error, in order, with numbers and texts; and otherwise nothing |
| IniReadings.MissingHeader | src-multiarch/cpp_configparser/src/parser.cpp:293-308 | Where no unnamed section is allowed, a text whose first line that is not blank is no header is refused at that line and nothing is stored |
| IniReadings.PairIsStored | src-multiarch/cpp_configparser/src/parser.cpp:336-372 | A header and one option line, either delimiter, any letter case and white space, are read as exactly that section with that one entry, its key in lower case |
| IniReadings.BareIsStored | src-multiarch/cpp_configparser/src/parser.cpp:323-372 | A header and a line without a delimiter are read as the entry without a value, or store the section and report that line |
| IniReadings.NoKeyIsReported | src-multiarch/cpp_configparser/src/parser.cpp:331-343 | A header and a line that begins with a delimiter store the empty section and report that line with its number and text |
| IniReadings.HeaderlessPair | src-multiarch/cpp_configparser/src/parser.cpp:293-308 | One option line without a header goes to the unnamed section where that is allowed, and otherwise is refused at line one with nothing stored |
| IniReadings.BlankLosesLines | src-multiarch/cpp_configparser/src/parser.cpp:253-260 | Where blank lines end a value, a blank line or a comment after a continuation line loses that line: the value read is its first line only, and whole without it |
| IniLines.KeyLineReads | src-multiarch/cpp_configparser/src/parser.cpp:310-344 | Under shipped delimiters and comment prefixes a printed option line, either spacing, is read as exactly that key and that first-line value |
| IniNormal.HeaderLineReads | src-multiarch/cpp_configparser/src/parser.cpp:272-291 | A bracketed name is read back as the header of that name, whatever the name contains |
| IniNormal.TabLineReads | src-multiarch/cpp_configparser/src/parser.cpp:262-265 | A tab in front of a trimmed line that does not start a comment makes it a continuation line with that text |
| IniNormal.StandardDelimiter | src-multiarch/cpp_configparser/src/parser.cpp:310-334 | With the shipped delimiters the hit is the first equals sign or colon |
| IniRoundTrip.PrintThenParse | src-multiarch/cpp_configparser/src/parser.cpp:693-750 | Print, then parse, is the identity: for every printable store and either spacing, printing succeeds and reading the text into an empty parser raises nothing and gives the same defaults, sections, options and values in order |
| IniExact.RoundTripExactly | src-multiarch/cpp_configparser/src/parser.cpp:693-750 | Of all stores whatsoever, printing succeeds and the text reads back to the store exactly for the printable ones, both directions |
| IniExact.ReadPrintRead | src-multiarch/cpp_configparser/src/parser.cpp:377-418 | For every text, also one whose reading throws, the store it leaves survives print and read if and only if it has no key starting with a bracket, no section named with the unnamed marker and no DEFAULT value with a newline |
| IniUnprintable.MarkerIsLost | src-multiarch/cpp_configparser/src/parser.cpp:720-723 | A header naming the unnamed marker is read without an exception, and the section is gone after printing and reading again |
| IniUnprintable.DefaultIsCut | src-multiarch/cpp_configparser/src/parser.cpp:699-718 | A DEFAULT value of two lines is read without an exception, printed unfolded, and not read back |
| IniUnprintable.BracketIsRefused | src-multiarch/cpp_configparser/src/parser.cpp:702-711 | A key that begins with a bracket is read without an exception, and printing then reports InvalidWrite |
| IniUnprintable.SectionTextReads | src-multiarch/cpp_configparser/src/parser.cpp:377-418 | The text of one normal section, its values going on over tabbed lines, is read as exactly that section |
| IniUnprintable.DefaultTextReads | src-multiarch/cpp_configparser/src/parser.cpp:377-418 | A DEFAULT text whose values go on over tabbed lines is read as exactly those entries |
| IniNormalForm.ReadNormal | src-multiarch/cpp_configparser/src/parser.cpp:240-418 | Whatever the text, and even when reading throws, the store it leaves is in normal form: distinct non-empty names, lower-case trimmed delimiter-free keys, present values whose lines are trimmed |
| IniNormalForm.JoinLinesNormal | src-multiarch/cpp_configparser/src/parser.cpp:29-42 | Joining an option's lines gives a value with every line trimmed, no continuation line a comment and no white space at its end |
| IniPrint.WriteTextLines | src-multiarch/cpp_configparser/src/parser.cpp:693-750 | The printed text is the listed lines each ended by a newline: headers, option lines with the continuation lines of folded values, bare keys for absent values when these are allowed, DEFAULT unfolded, one blank line after each section |
| IniPrint.FoldJoin | src-multiarch/cpp_configparser/src/parser.cpp:735-741 | Folding puts a tab in front of every continuation line and changes nothing else |
| IniWritten.RefusedExactly | src-multiarch/cpp_configparser/src/parser.cpp:699-745 | Writing is refused, with InvalidWrite, exactly when some entry that is written with a delimiter has a key that starts with a bracket or in which some delimiter occurs |
| IniWritten.DefaultWritten | src-multiarch/cpp_configparser/src/parser.cpp:699-718 | A DEFAULT entry is written under the default header with its value as it is |
| IniWritten.SectionWritten | src-multiarch/cpp_configparser/src/parser.cpp:720-747 | A section is written under its header, the unnamed one under none; a tab follows each newline in a value; an entry without a value is its key alone where values may be missing, and otherwise an empty value; a blank line ends it |
| IniWritten.BodyAppend | src-multiarch/cpp_configparser/src/parser.cpp:723-746 | The entries of a section are written in order, each as it is alone |
| IniWritten.WrittenInOrder | src-multiarch/cpp_configparser/src/parser.cpp:693-750 | A store with more sections is written as the store and then those sections alone, and refused if either is |
| IniRoundTrip.SegBody | src-multiarch/cpp_configparser/src/parser.cpp:262-270 | Cutting a printed section body gives one item per option, in order, and hands the rest of the text on untouched |
| IniRoundTrip.ReadWrite | src-multiarch/cpp_configparser/src/parser.cpp:377-418 | Reading the printed text is reading exactly the printed lines |
| Text.LinesOfUnlines | src-multiarch/cpp_configparser/src/parser.cpp:383-400 | Lines written with terminators come back from getline one by one |
| Text.LinesUnterminated | src-multiarch/cpp_configparser/src/parser.cpp:383-400 | A last line that nothing ends is delivered too, unless it is empty |
| Text.JoinOfSplit | src-multiarch/cpp_configparser/src/parser.cpp:29-42 | Cutting a value at its newlines and joining the lines again is the identity |
| IniOps.ReadOk | src-multiarch/cpp_configparser/src/parser.cpp:377-418 | Reading any text under any options keeps the store invariant (distinct names, none the default section's, distinct lower-case keys), whether or not it throws |
| IniOps.AddSectionOk | src-multiarch/cpp_configparser/src/parser.cpp:96-106 | add_section keeps the store invariant, also when it throws |
| IniOps.SetOptionOk | src-multiarch/cpp_configparser/src/parser.cpp:631-657 | set keeps the store invariant |
| IniOps.RemoveOptionOk | src-multiarch/cpp_configparser/src/parser.cpp:659-676 | remove_option keeps the store invariant |
| IniOps.RemoveSectionOk | src-multiarch/cpp_configparser/src/parser.cpp:678-691 | remove_section keeps the store invariant and the section is gone |
| IniEdits.SetExactly | src-multiarch/cpp_configparser/src/parser.cpp:631-657 | set succeeds exactly for the default section, which the empty name stands for, and for stored ones, and then overwrites the lower-case key where it stands or adds it last, in that section only; otherwise it throws NoSection and changes nothing |
| IniEdits.RemoveOptionExactly | src-multiarch/cpp_configparser/src/parser.cpp:659-676 | remove_option succeeds for the same sections and takes out exactly that key's entry, the others keeping their order; otherwise it throws NoSection and changes nothing |
| IniEdits.AddSectionExactly | src-multiarch/cpp_configparser/src/parser.cpp:96-106 | add_section throws DuplicateSection and changes nothing exactly for the default section's name and for stored ones; otherwise the new section stands last and empty |
| IniEdits.RemoveSectionExactly | src-multiarch/cpp_configparser/src/parser.cpp:678-691 | remove_section takes out the section of that name; every other section keeps its entries and its place in the order |
| IniViews.DefaultStaysApart | src-multiarch/cpp_configparser/src/parser.cpp:293-308 | With the shipped comment prefixes, no text at all can store a section under the default section's name if and only if the unnamed section is not both allowed and named as the default one |
| IniViews.ViewsAgree | src-multiarch/cpp_configparser/src/parser.cpp:137-184 | For an existing section options and items(raw) list the same keys in the same order, once each, own entries first; each listed value is what get_raw returns and has_option holds of exactly the listed keys; for a missing section they fail while get_raw still falls back to DEFAULT |
| IniViews.FallbackOrder | src-multiarch/cpp_configparser/src/parser.cpp:602-629 | A section's items are its own in their order followed by the DEFAULT entries it does not override in theirs |
| IniViews.Fallbacks | src-multiarch/cpp_configparser/src/parser.cpp:167-184 | Merging DEFAULT entries keeps keys distinct, keeps own entries first and unchanged, and answers a key from DEFAULT only when the section lacks it |
| IniViews.SetFrame | src-multiarch/cpp_configparser/src/parser.cpp:631-657 | After set, get_raw of any section and key returns the new value exactly when it asks that section and key, or falls through to DEFAULT and the write was there; otherwise what it returned before |
| IniViews.RemoveFrame | src-multiarch/cpp_configparser/src/parser.cpp:659-676 | After remove_option, readers of that key in that section fall through to DEFAULT, readers through a removed DEFAULT entry find nothing, everyone else sees what they saw |
| IniViews.SetThenRemove | src-multiarch/cpp_configparser/src/parser.cpp:631-676 | Removing an option that set has just created gives back the very same store |
| IniViews.AddThenRemove | src-multiarch/cpp_configparser/src/parser.cpp:678-691 | Removing a section that add_section has just created gives back the very same store |
| Interpolation.SucceedsIffTree | src-multiarch/cpp_configparser/src/parser.cpp:457-561 | Interpolation at a given number of levels returns a text if and only if an expansion tree lower than that number derives it |
| Interpolation.InterpolateMonotone | src-multiarch/cpp_configparser/src/parser.cpp:457-474 | A successful interpolation is unchanged by any larger depth limit |
| Interpolation.ExpandMonotone | src-multiarch/cpp_configparser/src/parser.cpp:476-561 | The same for the text of one value, token by token |
| InterpolationCycles.CyclesNeverResolve | src-multiarch/cpp_configparser/src/parser.cpp:502-558 | An option from which a chain of valued references comes back to an option already on the chain never interpolates to a string: get raises under every depth limit, in both modes and across sections |
| InterpolationCycles.WalkCosts | src-multiarch/cpp_configparser/src/parser.cpp:457-474 | Along a chain of valued references each step uses up one level of depth |
| InterpolationCycles.ResolvesIffRanked | src-multiarch/cpp_configparser/src/parser.cpp:457-561 | An option interpolates under some depth limit exactly when it lies in a closed set of well-formed options that can be ranked so that references lead strictly down; its rank plus one is a sufficient depth |
| InterpolationEscape.EscapeUndone | src-multiarch/cpp_configparser/src/parser.cpp:476-569 | Doubling the trigger character of any string, storing it and calling get returns the string, given a depth limit of at least one |
| InterpolationEscape.PlainTextFixed | src-multiarch/cpp_configparser/src/parser.cpp:476-561 | A value without the trigger character interpolates to itself |
| InterpolationEscape.ListedIsGot | src-multiarch/cpp_configparser/src/parser.cpp:602-629 | A listed entry with a value, interpolated, is what get returns for its key, with the same failure if there is one |
| InterpolationEscape.ItemsAgreeWithGet | src-multiarch/cpp_configparser/src/parser.cpp:602-629 | An interpolated listing succeeds exactly when get succeeds on every listed key and then gives the same keys, each with what get returns |
| InterpolationEscape.ItemsFailWithGet | src-multiarch/cpp_configparser/src/parser.cpp:617-625 | An interpolated listing that fails does so with the error get gives on the first listed key it fails on |
| InterpolationForms.RefReads | src-multiarch/cpp_configparser/src/parser.cpp:493-511 | A reference of the mode's own spelling is read as one to that option of the section at hand, in lower case, and the text goes on right after it |
| InterpolationForms.RefInReads | src-multiarch/cpp_configparser/src/parser.cpp:535-550 | A reference with a section before a colon is read as one to that section; further colons belong to the option |
| InterpolationForms.BadExactly | src-multiarch/cpp_configparser/src/parser.cpp:481-538 | Text that begins with the trigger is in error exactly unless the trigger is doubled or opens a reference that is closed somewhere |
| InterpolationForms.RefExpands | src-multiarch/cpp_configparser/src/parser.cpp:498-511 | A reference puts in its place nothing for an option without a value, the option's own substitution one level deeper for one with a value, and fails with the lookup's error for a missing one |
| InterpolationForms.RefInExpands | src-multiarch/cpp_configparser/src/parser.cpp:544-559 | The same for a reference to another section, whose value is substituted in that section |
| InterpolationForms.BadStops | src-multiarch/cpp_configparser/src/parser.cpp:481-538 | Whatever escaped text stands before it, the first thing in error makes the substitution fail with InterpolationSyntax |
| InterpolationForms.DepthExactly | src-multiarch/cpp_configparser/src/parser.cpp:457-474 | get follows a chain of references to its end exactly when the chain has no more options than max_interpolation_depth, and otherwise fails with InterpolationDepth |
| IniParser.IndexIsLinearSearch | src-multiarch/cpp_configparser/include/ini/parser.hpp:129-135 | The index sends names to exact positions and nothing else if and only if names are distinct and looking up in it is linear search |
| IniParser.Parser.constructor | src-multiarch/cpp_configparser/include/ini/parser.hpp:59-61 | A new parser is valid and empty |
| IniParser.Parser.Clear | src-multiarch/cpp_configparser/src/parser.cpp:86-90 | clear gives the empty store and a valid index |
| IniParser.Parser.AddSection | src-multiarch/cpp_configparser/src/parser.cpp:96-106 | The in-place method does what the operation on stores says, with its exception, and keeps index and list in agreement |
| IniParser.Parser.HasSection | src-multiarch/cpp_configparser/src/parser.cpp:108-113 | The index lookup answers what linear search answers |
| IniParser.Parser.FindSectionItems | src-multiarch/cpp_configparser/src/parser.cpp:115-135 | Finds the default entries, or by index the entries linear search finds, or nothing |
| IniParser.Parser.HasOption | src-multiarch/cpp_configparser/src/parser.cpp:137-156 | Computes the layered has_option |
| IniParser.Parser.SectionList | src-multiarch/cpp_configparser/src/parser.cpp:158-165 | The stored names in order |
| IniParser.Parser.OptionList | src-multiarch/cpp_configparser/src/parser.cpp:167-184 | Computes the layered key list |
| IniParser.Parser.StripComments | src-multiarch/cpp_configparser/src/parser.cpp:186-216 | The two loops compute the cleaned line |
| IniParser.Parser.FinishMultiline | src-multiarch/cpp_configparser/src/parser.cpp:218-238 | Stores the joined lines in the named option only, or throws, with nothing else changed |
| IniParser.Parser.ReadHeader | src-multiarch/cpp_configparser/src/parser.cpp:272-291 | Opens, reopens or refuses the section as the line semantics says |
| IniParser.Parser.EnterUnnamed | src-multiarch/cpp_configparser/src/parser.cpp:293-308 | Creates the unnamed section when allowed, or throws the missing-header exception |
| IniParser.Parser.ReadPair | src-multiarch/cpp_configparser/src/parser.cpp:310-344 | Cuts a cleaned line at its leftmost delimiter into key and value |
| IniParser.Parser.ReadOption | src-multiarch/cpp_configparser/src/parser.cpp:345-372 | Overwrites or appends the option, or throws on a strict repetition |
| IniParser.Parser.ReadLogicalLine | src-multiarch/cpp_configparser/src/parser.cpp:272-372 | Handles a line that is neither blank nor a continuation as the line semantics says, updating fields and locals in step |
| IniParser.Parser.ParseLine | src-multiarch/cpp_configparser/src/parser.cpp:240-372 | One call of parse_line is one step of the line state machine on fields and locals alike |
| IniParser.Parser.ReadString | src-multiarch/cpp_configparser/src/parser.cpp:377-418 | The getline loop leaves the store and throws the exception that the meaning of the whole text prescribes, and keeps the object valid also when it throws |
| IniParser.Parser.GetRaw | src-multiarch/cpp_configparser/src/parser.cpp:430-455 | Computes the layered lookup |
| IniParser.Parser.Interpolate | src-multiarch/cpp_configparser/src/parser.cpp:457-474 | The depth test and dispatch compute the specified interpolation; the recursion ends by remaining depth |
| IniParser.Parser.InterpolateBasic | src-multiarch/cpp_configparser/src/parser.cpp:476-512 | The percent loop computes the token-by-token expansion |
| IniParser.Parser.InterpolateExtended | src-multiarch/cpp_configparser/src/parser.cpp:514-561 | The dollar loop computes the token-by-token expansion, switching sections at a colon |
| IniParser.Parser.Get | src-multiarch/cpp_configparser/src/parser.cpp:563-569 | get is the interpolated raw value, the empty string for an option without a value, and fails as the lookup or the interpolation does |
| IniParser.Parser.ItemList | src-multiarch/cpp_configparser/src/parser.cpp:602-629 | Computes the raw or interpolated listing, failing with the first failure |
| IniParser.Parser.Set | src-multiarch/cpp_configparser/src/parser.cpp:631-657 | set in place is the operation on stores; index and list stay in agreement |
| IniParser.Parser.RemoveOption | src-multiarch/cpp_configparser/src/parser.cpp:659-676 | remove_option in place is the operation on stores and reports whether an entry went |
| IniParser.Parser.RemoveSection | src-multiarch/cpp_configparser/src/parser.cpp:678-691 | remove_section erases the section and rebuilds an index that agrees again |
| IniParser.Parser.WriteToString | src-multiarch/cpp_configparser/src/parser.cpp:693-750 | The writing loops produce the specified text, or InvalidWrite exactly when some printed key starts with a bracket or contains a delimiter |
| IniParser.Parser.WriteEntry | src-multiarch/cpp_configparser/src/parser.cpp:702-717 | Writes one option line, or reports InvalidWrite exactly when its key may not be printed |
| IniParser.Parser.WriteBody | src-multiarch/cpp_configparser/src/parser.cpp:721-745 | Writes the option lines of a section, or reports InvalidWrite exactly when one of them may not be printed |
| IniParser.Parser.WriteSection | src-multiarch/cpp_configparser/src/parser.cpp:720-747 | Writes a section: a header unless it is the unnamed one, its folded options, a blank line |
| IniParser.Parser.WriteDefaults | src-multiarch/cpp_configparser/src/parser.cpp:699-718 | Writes DEFAULT, only when it has entries and without folding |
| IniParser.FindEntry | src-multiarch/cpp_configparser/src/parser.cpp:218-238 | The searching loop stops at the first entry with the key |
| IniParser.EraseKey | src-multiarch/cpp_configparser/src/parser.cpp:659-676 | remove_if keeps the other entries in order |
| IniParser.TrimCopy | src-multiarch/cpp_configparser/src/parser.cpp:13-23 | The two loops return the text between its first and last character that is not white space |
| IniParser.JoinLinesOf | src-multiarch/cpp_configparser/src/parser.cpp:29-42 | The loops return the lines with newlines between them and no white space at the end |
| IniParser.ScanDelimiters | src-multiarch/cpp_configparser/src/parser.cpp:310-334 | The scan over all delimiters returns the leftmost hit |
| IniParser.CutInlineAt | src-multiarch/cpp_configparser/src/parser.cpp:200-212 | The search loop cuts at the first inline prefix that begins the line or follows white space |
| IniParser.FoldNewlines | src-multiarch/cpp_configparser/src/parser.cpp:735-740 | The replacement loop inserts a tab after every newline |
| IniParser.BuildIndex | src-multiarch/cpp_configparser/src/parser.cpp:684-690 | The rebuilt index agrees with the list |
| ArgRelay.QuoteArgument | src-installer/RDPWInst.cpp:1363-1386 | The loop with its running backslash count writes the quoted form |
| ArgRelay.QuotedExactly | src-installer/RDPWInst.cpp:1363-1367 | An argument is left as it is exactly when it is not empty and holds no blank, tab, newline, vertical tab or quote |
| ArgRelay.ScanQuoted | src-installer/RDPWInst.cpp:1363-1386 | A quoted argument in front of a separator is scanned back whole by the Microsoft rules, no backslash or quote leaks into the rest, whichever doubled-quote rule the reader follows |
| ArgRelay.SplitJoined | src-installer/RDPWInst.cpp:1401-1412 | Splitting the joined quoted arguments gives exactly the argument list, for every list and every doubled-quote rule |
| ArgRelay.BuildParameters | src-installer/RDPWInst.cpp:1401-1412 | The parameter string is the arguments after the program name, the pid marker and, with a pipe, the pipe marker, quoted and separated |
| ArgRelay.AddedText | src-installer/RDPWInst.cpp:1407-1412 | Without arguments of its own the first process sends exactly the pid marker with the decimal pid and the quoted pipe marker with the pipe's name |
| ArgRelay.FilterArguments | src-installer/RDPWInst.cpp:1507-1530 | The loop of wmain computes the filtered list, the pid and the pipe name |
| ArgRelay.FilterUnmarks | src-installer/RDPWInst.cpp:1507-1530 | What the filter keeps carries no marker after the program name and begins with the same program name |
| ArgRelay.FilterExactly | src-installer/RDPWInst.cpp:1507-1530 | The filter keeps the program name and every argument without a marker, in order, and gives the number of the last pid argument that is all number and the name in the last pipe argument |
| ArgRelay.UlongExactly | src-installer/RDPWInst.cpp:1515-1519 | The text after the pid marker is a complete number exactly when it is white space, a sign and decimal digits to its end, clipped to 32 bits, or empty |
| ArgRelay.DecimalReads | src-installer/RDPWInst.cpp:1515-1519 | A printed 32-bit pid is read back as itself with nothing left over |
| ArgRelay.RelayIsIdentity | src-installer/RDPWInst.cpp:1401-1412 | End to end: the elevated copy, splitting and filtering what the first process built, works on exactly the first one's arguments, and the pid and pipe name arrive unchanged |
| WaitService.WaitForState | src-RDP_CnC/main.cpp:276-306 | The loop ends as the recursive meaning of the polls says, and answers true if and only if some query sees the expected state after queries that all worked in time and at none of which the service had stalled |
| WaitService.DelayFits | src-RDP_CnC/main.cpp:287-304 | Below the deadline the tick difference is the elapsed time at every start tick, and the sleep is a tenth of the hint held between one and ten seconds, or what is left if that is less |
| WaitService.StallExactly | src-RDP_CnC/main.cpp:289-300 | The wait is given up exactly when state and checkpoint have stood still for longer than the hint; the tick difference is the true elapsed time across a wrap; otherwise it remembers the state seen, and checkpoint and time anew when either has moved |
| WaitService.NoteTracks | src-RDP_CnC/main.cpp:290-300 | One step: the watch holds the state and checkpoint of the earliest turn since which the service has stood still, and gives up exactly when the polls so far are a stall |
| WaitService.WaitExactly | src-RDP_CnC/main.cpp:276-306 | On the polls alone: the loop ends at the first turn that settles something (a failed query, the expected state, the deadline, a stall), with as many queries as turns and the sleeps of the turns before |
| WaitService.WaitIsBounded | src-RDP_CnC/main.cpp:282-305 | The total requested sleep is at most the timeout and the loop makes at most one query per second of it plus two |
| WaitService.OriginDoesNotMatter | src-RDP_CnC/main.cpp:277-306 | Outcome, queries and sleeps are unchanged by moving the start tick anywhere modulo 2^32 |
| WaitService.ReachedExactly | src-RDP_CnC/main.cpp:276-306 | On the polls alone: the answer is true if and only if some query sees the expected state and every earlier one worked before the deadline and was no stall, a stall being a non-zero hint shorter than the time since some earlier turn after which neither the state has changed nor the checkpoint exceeded that turn's |
| WaitService.PatientWait | src-RDP_CnC/main.cpp:288-300 | Its consequence for services that give no wait hint: seen in the expected state before the deadline, the answer is true |
| ServiceGraph.AcceptKeeps | src-RDP_CnC/main.cpp:308-333 | Accepting a stop request for a running service keeps the stop-phase invariant once all that depends on it through what ran at the start has been asked to stop |
| ServiceGraph.SettleKeeps | src-RDP_CnC/main.cpp:276-306 | Pending transitions completing at any time keep the stop-phase invariant |
| ServiceGraph.AboveComplete | src-RDP_CnC/main.cpp:353-381 | When the running direct dependents of a service are on a list that has dependents before every entry, so is everything that depends on it through running services |
| ServiceGraph.SafeIsFirst | src-RDP_CnC/main.cpp:383-407 | In a safe start such a list puts every service after all that depends on it in any way |
| ServiceGraph.SupportedIsSafe | src-RDP_CnC/main.cpp:423-454 | A start in which every active service has what it needs running is a safe start |
| StopOrder.OrderSafeExactly | src-RDP_CnC/main.cpp:383-407 | With every service running or stopped and no call failing, every enumeration order records dependents first if and only if any two running services that reach the parent through running services and depend on each other at all do so through running services; the orders of direct dependents alone need the same condition |
| StopOrder.RunKeeps | src-RDP_CnC/main.cpp:383-407 | Every run of the recursion keeps the list free of repetition with all that depends on an entry through running services before it, and records what it meets and nothing else |
| StopOrder.RunIsComplete | src-RDP_CnC/main.cpp:383-407 | A run records exactly the services that depend on the parent through running services, each once |
| StopOrder.BuildRun | src-RDP_CnC/main.cpp:353-381 | Truthful direct enumerations can always be continued to a run, so the order results are not empty |
| StopOrder.LeadRun | src-RDP_CnC/main.cpp:383-407 | There is a run that follows a given chain of running services up first, so that its head is recorded before anything that does not depend on the head through running services |
| StopOrder.UnsafeExample | src-RDP_CnC/main.cpp:383-407 | A concrete start that is not safe and the run of direct enumerations that records a, c, d although c depends on a |
| ServiceGraph.RestoreOrderIsSafe | src-RDP_CnC/main.cpp:409-421 | Starting the parent and then a dependents-first list backwards never starts a service before something it depends on |
| ServiceRestart.Manager.StopService | src-RDP_CnC/main.cpp:308-333 | A true answer means stopped and a false one that some call failed or a wait was given up, which only happens for a service asked to stop or already on its way; the flag is set exactly when this call's own request was accepted, which without a failed call is exactly when the service ran; with nothing pending, success stops exactly a running service |
| ServiceRestart.Manager.StopActiveDependents | src-RDP_CnC/main.cpp:383-407 | Under any failures the list grows by exactly the accepted stop requests, all of services that depend on this one through active services; on success all that depends on it through what ran at the start has been asked to stop, and with nothing pending the call was a run of the recursion on the answers it got; failure means a failed call; the recursion ends because the graph has no cycle |
| ServiceRestart.Manager.StopDependent | src-RDP_CnC/main.cpp:391-405 | One turn of the loop: first what depends on the dependent, then the dependent, recorded only if its stop was accepted, and then even when waiting failed |
| ServiceRestart.Manager.StartService | src-RDP_CnC/main.cpp:335-351 | Exactly one start request when the service is seen stopped, or seen stopping and then stopped; none when it is seen running, starting or paused or cannot be queried; a true answer means running, a false one that a call failed, a wait for this service was given up, or it was paused; nothing that ran stops |
| ServiceRestart.Manager.RestoreServices | src-RDP_CnC/main.cpp:409-421 | Every recorded service is attempted, in reverse, whatever happens to the others; the start requests issued are those of the attempts, in order, each explained by what the attempt saw; the answer is true exactly when every attempt's is |
| ServiceRestart.Manager.RestartTermService | src-RDP_CnC/main.cpp:423-454 | For every acyclic graph and any pattern of failures: the recorded list is the duplicate-free list of dependents whose stop this call got accepted, all running before, with all that depends on an entry through what ran before it; what was not asked to stop runs on; the parent and the list backwards are attempted; the start requests issued are those of the attempts, and without a failed call an attempt lacks one only if it saw the service running or starting or its stop was waited for in vain; if every logged start answer is true everything that ran is running; if nothing goes wrong the restart succeeds and the parent was requested to start; in a safe start dependents come first and no start is attempted before that of something it depends on |
| ServiceRestart.Manager.StopPhase | src-RDP_CnC/main.cpp:438-441 | The dependents, and only if all of them stopped the parent, whose own request then follows the recorded ones exactly if it ran, unless a call failed; waits are given up only on services asked to stop or already on their way; with nothing pending and no failure the list is that of a run of the recursion |
| ServiceRestart.Manager.StartPhase | src-RDP_CnC/main.cpp:442-448 | The parent is always attempted first, then the recorded list backwards, whatever became of the parent; the start requests issued are those of the attempts, each explained by what it saw; both answers are true exactly when every logged one is |
| ServiceRestart.Manager.ActiveDependents | src-RDP_CnC/main.cpp:353-381 | An enumeration names every active direct dependent, and only active services that depend on this one through active services |
| PipeTransfer.WriteText | src-installer/RDPWInst.cpp:1230-1243 | The pipe gains exactly the bytes of the reported prefix if and only if every successful write of this call reported an even count; less than the whole text is reported only when the last write failed, or took half a character or nothing; the loop ends |
| PipeTransfer.Console.ShowAll | src-installer/RDPWInst.cpp:1333-1341 | The whole text is shown if and only if every console call worked and showed something; otherwise a proper front of it |
| PipeTransfer.ForwardToConsole | src-installer/RDPWInst.cpp:1323-1359 | However reads cut the byte stream, up to a read of zero bytes, the pending bytes are what the bytes so far leave over, less than one character, and exactly the characters read are shown if and only if every console call worked and showed something |
| PipeTransfer.ReadMore | src-installer/RDPWInst.cpp:1328-1359 | One turn keeps the odd byte and shows all characters of pending and new bytes if and only if its console calls worked |
| PipeTransfer.NarrowBytes | src-installer/RDPWInst.cpp:1234-1237 | The low byte of a character travels first |
| PipeTransfer.CharsOfBytes | src-installer/RDPWInst.cpp:1329-1332 | The characters read from the bytes of a text are that text |
| PipeTransfer.BytesOfChars | src-installer/RDPWInst.cpp:1329-1359 | The characters of any bytes, written out again and followed by the leftover, are those bytes |
| PipeTransfer.CharsUnique | src-installer/RDPWInst.cpp:1329-1332 | There is only one way to read bytes as characters with less than one left over |
| PipeTransfer.ChunkingDoesNotMatter | src-installer/RDPWInst.cpp:1323-1359 | Two forwarding loops that receive the same bytes in whatever pieces keep the same byte over, and show the same text when their consoles work |
| PipeTransfer.ShownIsUnique | src-installer/RDPWInst.cpp:1329-1359 | The characters and the leftover of the bytes received are the only text and rest of less than one character that make up those bytes |
| PipeTransfer.Transfer | src-installer/RDPWInst.cpp:1230-1243 | Both ends together: when every successful write reported an even count, every console call worked, and the reads deliver what was written, the console shows exactly the prefix the writer reported and nothing is pending |
| PatchBytes.GetByteArray | src-multiarch/rdpwrap_utils.cpp:113-145 | The answer and the bytes are a function of the text alone and nothing past the limit is written, also when the text turns out malformed half way |
| PatchBytes.Keep | src-multiarch/rdpwrap_utils.cpp:123-129 | The loop drops exactly the separators |
| PatchBytes.DecodeInto | src-multiarch/rdpwrap_utils.cpp:135-141 | The loop succeeds exactly on hexadecimal text, then the front of the buffer is the bytes of its digit pairs, and nothing past the limit is touched |
| PatchBytes.DecodesIffSpells | src-multiarch/rdpwrap_utils.cpp:123-145 | A text decodes to given bytes exactly when it is not empty, they fit, and it spells their digits in any mixture of cases with separators anywhere |
| PatchBytes.HexNibbleIs | src-multiarch/rdpwrap_utils.cpp:66-71 | A character has a value exactly when it is one of the sixteen digits in either case, and then its place among them |
| PatchBytes.ResolvePatchBytes | src-multiarch/rdpwrap_hook.cpp:21-55 | With one buffer for both lookups, the bytes delivered are those of the named entry or of the key's own text; what a failed first lookup left behind never shows |
| PatchBytes.PlanFits | src-multiarch/rdpwrap_hook.cpp:86-92 | A planned patch lies inside the module and neither the range check nor the address can wrap |
| PatchConfig.RawTextIs | src-multiarch/rdpwrap_utils.cpp:19-35 | A configured text is the section's own entry, or DEFAULT's if it has none, and the default if the section is missing or the entry has no value |
| PatchConfig.CStringIs | src-multiarch/rdpwrap_utils.cpp:47 | A configured text is read up to its first NUL, or to its end |
| PatchConfig.HexNumberExactly | src-multiarch/rdpwrap_utils.cpp:46-51 | A text reads as n exactly when it is white space, a sign, 0x or 0X, all optional, and hexadecimal digits of n by n / 16 and n % 16 in any mixture of cases, with any leading zeros, to its end and below 2^64, a minus counting from 2^64 down; or when it is empty and n is zero |
| PatchConfig.HexValueExactly | src-multiarch/rdpwrap_utils.cpp:47 | The value of a run of hexadecimal digits is the number whose digits they are |
| PatchConfig.OffsetExactly | src-multiarch/rdpwrap_utils.cpp:37-53 | The offset read is a positive n exactly when the text found spells n and n is an address |
| PatchConfig.EnabledExactly | src-multiarch/rdpwrap_utils.cpp:102-111 | A switch is on exactly when the text found begins with a number other than zero |
| PatchConfig.CodeExactly | src-multiarch/rdpwrap_hook.cpp:21-55 | The bytes resolved are exactly those that the entry of [PatchCodes] named by the key's text spells, or, if that spells none, the key's own text |
| PatchConfig.PlanExactly | src-multiarch/rdpwrap_hook.cpp:57-92 | A configuration asks for these bytes at this offset if and only if its switch is on, its offset text spells the offset, its code key stands for the bytes, and they are some and fit in the module |
| PatchBytes.ApplyConfiguredPatch | src-multiarch/rdpwrap_hook.cpp:57-101 | With a plan, which PlanExactly gives from the configured texts, exactly one write is made, of the configured bytes at base+offset, and its answer returned; without one none; memory outside [base+offset, base+offset+size) is untouched |
| PatchBytes.Memory.Write | src-multiarch/rdpwrap_utils.cpp:235-261 | A successful write stores all bytes, a failed one changes nothing outside the range |
| UpdateDate.ValidIniContent | src-installer/RDPWInst.cpp:734-752 | Accepts exactly the contents of the stated shape: size, no NUL, both section markers, and a date of ten characters after the first Updated= |
| UpdateDate.ValidExactly | src-installer/RDPWInst.cpp:734-752 | Validation accepts exactly contents of at most sixteen mebibytes without NUL that hold both section markers and whose first Updated= begins the content or follows a line end and is followed by four, two and two digits with dashes between and a line end or nothing |
| UpdateDate.IniDate | src-installer/RDPWInst.cpp:1074-1089 | The getline loop returns the date of the first line that begins with Updated= |
| UpdateDate.DateExactly | src-installer/RDPWInst.cpp:1074-1089 | The date read is n exactly when a first line begins with Updated= and the rest of that line, without its dashes, begins with the integer n, and n fits |
| UpdateDate.ValueExactly | src-installer/RDPWInst.cpp:1074-1078 | What is read after Updated= is the rest of that line |
| UpdateDate.UndashedExactly | src-installer/RDPWInst.cpp:1079 | Dropping the dashes keeps every other character, in order |
| UpdateDate.StoiExactly | src-installer/RDPWInst.cpp:1080-1081 | An integer is read exactly when the text begins with white space, a sign and decimal digits, the first two optional, and the value fits in 32 bits |
| UpdateDate.InstalledExactly | src-installer/RDPWInst.cpp:1049-1073 | A date is read from an installed file exactly when it can be read, is neither empty nor larger than sixteen mebibytes, and has a date |
| UpdateDate.UpdatedLineLeast | src-installer/RDPWInst.cpp:1074-1080 | No line at or after the start that begins with Updated= comes before the one the reader uses |
| UpdateDate.ValidatedDateIsRead | src-installer/RDPWInst.cpp:734-752 | On validated content the reader uses the validated occurrence if and only if that one begins the content or follows a line feed, and then succeeds with the eight digits validated |
| UpdateDate.CarriageReturnMisses | src-installer/RDPWInst.cpp:738-742 | There is validated content, its date after a lone carriage return, from which no date is read |
| UpdateDate.DateOrder | src-installer/RDPWInst.cpp:1110-1117 | Integer order and equality of dates are the dictionary order and equality of the ten-character texts |
| UpdateDate.DivisionsRecover | src-installer/RDPWInst.cpp:1092-1097 | The divisions of formattedDate recover year, month and day |
| UpdateDate.FormattedDateIs | src-installer/RDPWInst.cpp:1092-1097 | The printed date is the validated one with dots, exactly when its year has no leading zero |
| UpdateDate.FormattedExactly | src-installer/RDPWInst.cpp:1092-1097 | The printed date is the year, and month and day as two digits each, with dots between |
| UpdateDate.EarlyYearShrinks | src-installer/RDPWInst.cpp:1092-1097 | Validated content with a year below one thousand, whose printed date is not the validated one with dots |
| UpdateDate.DateNotNegative | src-installer/RDPWInst.cpp:1079-1081 | No file yields a negative date |
| UpdateDate.CheckUpdate | src-installer/RDPWInst.cpp:1098-1117 | Stops exactly when a file is missing, invalid or dateless; otherwise decides by the two integers |
| UpdateDate.DecisionFollowsDates | src-installer/RDPWInst.cpp:1110-1117 | Between validated files the update is installed exactly when its date text comes after the installed one's, they count as equal exactly when the texts are, and the installed one as newer exactly when its text comes after |
| VersionSupport.SupportLevel | src-RDP_CnC/main.cpp:807-823 | Level 2 exactly when some line, trimmed of blanks, tabs, returns and newlines, is the version in brackets; level 1 exactly for the two oldest families otherwise |
| VersionSupport.SupportChain | src-multiarch/cpp_configparser/src/parser.cpp:272-291 | Without inline comments, a section the parser stores, even when reading throws, has a line that spells its header; the line scan finds the version exactly when one of the lines that spell it has no vertical tab or form feed in its margins, so a stored section is found when none of them has; and what the scan finds the substring test finds |
| VersionSupport.SameTrimExactly | src-RDP_CnC/main.cpp:810-813 | The scan trims a line as the parser does exactly when its margins hold no vertical tab or form feed |
| VersionSupport.ParsedHasLine | src-multiarch/cpp_configparser/src/parser.cpp:186-291 | Every section a reading adds comes from a line that is its header once cleaned |
| VersionSupport.ScanImpliesSubstring | src-installer/RDPWInst.cpp:980 | A line that is the version's header puts that text into the file |
| VersionSupport.ScanExactly | src-RDP_CnC/main.cpp:807-819 | After a whole reading, when the lines that spell the header have plain margins, the scan finds the version if and only if the parser stores it or some option's value took the header's text in as a continuation line |
| VersionSupport.SwallowedHeader | src-RDP_CnC/main.cpp:807-819 | For every version a value that goes on over its header line makes the scan find it although the parser stores no such section |
| VersionSupport.ItemsAddHeaders | src-multiarch/cpp_configparser/src/parser.cpp:272-291 | A whole reading adds exactly the sections whose headers are items of the text |
| VersionSupport.VerticalTabHides | src-RDP_CnC/main.cpp:809-818 | For every version a header after a vertical tab is stored by the parser and missed by the scan |
| VersionSupport.CommentCounts | src-installer/RDPWInst.cpp:980 | For every version the installer counts a header that is commented out, which the scan does not |

## Left out

- RestartTermService: starts in which a service is starting or paused, and third parties acting on services. When a stop was already pending at the start the safe-start condition is sufficient; its necessity is proved for starts in which every service is running or stopped.
- Manager.WaitService: gives up after any number of polls, which counts as a failure; its timing is the subject of WaitService.
- Manager.ActiveDependents: the sizing call and its retries are folded into one answer that may fail or list, in any order, all active direct dependents and some indirect ones.
- WaitForState: the time of each poll is a parameter; a sleep is taken to last at least as long as asked and a call less than 2^32 milliseconds.
- WriteText: a failing WriteFile adds nothing to the pipe; the stream buffer above write (overflow, sync, xsputn) is not modelled.
- ForwardToConsole: only the console branch; the UTF-8 branch converts each chunk on its own, so it does depend on chunking. Connecting and overlapped reading become the list of chunks. How much of a chunk a failing console shows is bounded but not counted.
- Transfer: the partial cases are in WriteText and ForwardToConsole.
- Memory.Write: page protection and the instruction cache; a failed write may have stored any front part of the bytes.
- CheckUpdate: messages, the download itself and everything after the decision (stopping services, installing, starting them).
- SupportLevel: opening the file, its wide decoding and text-mode treatment of the end-of-file character; the text is a list of characters.
- PrintThenParse: under shipped delimiters and comment prefixes, values required, no unnamed section, no inline comments; strictness, interpolation and the default section's name are free.
- RoundTripExactly: under the same options as PrintThenParse.
- ReadPrintRead: under the same options as PrintThenParse.
- ScanExactly: blank lines are kept in values, as in the wrapper's own options.
- PairLine: with BareLine, NoKeyLine, CommentLine and SectionLine it covers every line under the shipped delimiters and prefixes; under others PairReads, FoundExactly and StripExactly say what a line means.
- SupportChain: the section-name claims assume no inline comment prefixes, as in the wrapper's own options.
- Exception messages and source names; an exception is its code and line numbers.
- read_file, get_int, get_float, get_bool and SectionView: thin wrappers over what is modelled, or library number parsing.
- Locale effects, Unicode and code-page conversion.
- strtoull, strtol, wcstoul and stoi are modelled by their documented base-ten and base-sixteen behaviour, with 32-bit long and 64-bit long long.
- How the C runtime finds the program's own path in a command line (argv[0]); the pipe's name and the pid are parameters.
- Windows, dialogs, registry, firewall, access control, downloads, thread freezing, instruction stubs, policy hooks, resource and INI data files: foreign calls, user interface or data.
