# A model of zvcs's configuration editor and of the logic around it

zvcs is a git-compatible version control program. This project models the parts of it whose
correctness rests on bytes, indices, counters and interleavings, and proves what they are for.

**The configuration editor** (`config_store.rs`). `ConfigGrammar` says what a configuration file
means, as an automaton from bytes to entries; `ConfigText` says it as a grammar of texts, written out in
bytes, and `ConfigTextParse` proves that the automaton reads exactly those texts, and each as it is
meant. `ConfigSource` is the tokenizer in its own form, a
cursor and a store that are updated in place, proved to compute what `ConfigScan` computes from
that automaton. `ConfigFacts` proves what one successful parse leaves in the store: the events tile
the file, and the recorded places are exactly the matches, or the last place a line may go;
`ConfigEvents` says in bytes what each event is.
`ConfigWriter` and `ConfigEdit` are the writer and the splicer. `ConfigMeaning`, `ConfigFresh` and
`ConfigAgain` then read the edited file back: set, unset, the widened removal of an emptied
section, and the second set. `ConfigRename` and `ConfigSections` are the line-based rename, copy
and removal of sections, and `ConfigSectionMeaning` says what they do to the entries of the file.
`ConfigFailures` and `ConfigSectionFailures` hold a file for every way in which a promise of the editor
fails. `ConfigLines`, `ConfigMatching`, `ConfigCuts` and `ConfigSectionText` say in bytes and events what
is written, what is taken for the editor's own, and what an unset and a section edit leave, and
`ConfigExamples` goes through every kind of edit on one small file. `LockBackoff` is the retry loop of
the lock.

**Configuration order** (`config.rs`). `CommandLine` finds the two deliveries of the command line in
a merged walk by counting, dropping and queueing, and `CommandLineOrder` replays it. `CommandLineWalk`
describes every walk the setup code builds, what a parent left in the environment being inherited, and
what the replay makes of it; `CommandLineGit` says over which of them that is git's one delivery, and
`CommandLineInclude` says it again in the bytes of the include keys. `ConfigInclude` is the depth-bounded include walk, `ConfigIncludePlaces` says at which
events it takes an include, and `ConfigKey` is the key parser.

**The rest.** `SplitCmdline` and `AliasResolve` are word splitting and alias expansion;
`Levenshtein`, `LevenshteinWords` and `Autocorrect` the three-row edit distance, what it means for two
words, and the choice made with it; `CNumber` the C integer readers; `Abbrev` and `AbbrevCache` the shortest unique prefix and the stamp it is
cached under; `Ledger` and `LedgerRuns` the claims, jobs and event feed of the SQLite ledger under
every interleaving, `LedgerLaws` what its statements do to each other, and `LedgerSweeps` what the
retention sweep leaves of the feed; `CStdio` the stdout buffer with nested subcommand boundaries.

Bytes are `Bytes.Byte`; text is `Bytes.Bytes`; `Places` counts and locates the members of a sequence.
A method stands for a function that works by loops and assignments and is proved against a
specification function; the theorems are about that function.

## Where a promise fails, and exactly when

* A set value is read back unless it is edged by a VT or FF and nothing else in it makes the writer
  quote it (`ConfigWriter.ReadBackExact`); a lone VT is lost from any file
  (`ConfigFailures.VerticalTabMisread`).
* A set that inserts a line is read back as intended exactly unless the file is a lone byte order mark
  (`ConfigFailures.MarkMoves`), or the line goes to the end of a file whose last value goes on into a
  line that is not there (`ConfigFailures.OpenValueSwallows`), or the section it goes into is a
  `[section.sub]` header that matches the key's section but not its spelling
  (`ConfigFailures.OldHeaderMisleads`). The theorem is `ConfigFresh.SetThenRead`.
* A second set leaves the bytes alone exactly unless a CR LF stands where copying resumes, which
  cannot be when the first set replaced something (`ConfigAgain.SetTwice`); `[s]` with a blank CR LF
  line behind it is such a file (`ConfigFailures.SecondSetDiffers`).
* A section copied to another name and removed again gives the file back exactly unless the file
  ends, unterminated, inside a copied section, where the copy's header is glued to the last line, or
  the new header is itself an overlong line (`ConfigSections.CopyThenRemove`); `[a]` without a line
  end shows it (`ConfigFailures.GluedCopyStays`).
* A header is recognised under its own name exactly when the name holds no NUL, no `]` and no blank
  before its first dot (`ConfigRename.OwnMatch`); `a]` is not (`ConfigFailures.BracketUnseen`).
* Rename, removal and copy go by lines, the parser by bytes. They do what they say to the entries of
  a file in which the sections begin and end between items; a value that goes on into a line that
  looks like a header is cut by them (`ConfigFailures.ContinuedHeaderRemoved`). A copy leaves out what
  stands on the header's own line, as in `[a] k=v` (`ConfigSectionFailures.InlineNotCopied`). The
  comparison of names stops at a `]` inside a quoted subsection: renaming `a.b` cuts the header
  `[a "b]"]` in two, and the file no longer parses (`ConfigSectionFailures.BracketCutsHeader`).
* The command line is told in git's order exactly over the walks that `CommandLineGit.Faithful`
  describes. Not over one with a `-c` that an alias brought and that does not repeat the line
  (`CommandLineGit.AliasComesFirst`), nor over one with an inherited entry equal to an override that
  came without an environment copy (`CommandLineGit.InheritedIsLost`). And what is inherited may be the
  parent's own copy of the override: below a parent of the same program a `-c` whose key holds `=` is
  told twice (`CommandLineGit.EqualsToldTwice`).
* A cached abbreviation is not always safe: the comment in `abbrev.rs` says an answer computed after
  its generation was read is under a generation no later run can observe, but a fan-out directory that
  is missing, appears, and is removed again brings the generation back (`AbbrevCache.MissingComesBack`).
  `AbbrevCache.RowIsSafe` says exactly which rows are safe for ever.
* The event feed would lose the dirty flag to a sync text that is the word for the other flag
  (`LedgerRuns.UpsertTells`, and over whole runs `LedgerRuns.FlagReplays`). No caller passes one, so
  for the program's own updates that failure cannot be reached (`LedgerRuns.CallersReplay`).
* The retention sweep takes old events from the feed. Under a clock that never goes back it takes the
  beginning of a repo's story and leaves the end; `LedgerSweeps.CallersSwept` says exactly when the
  story is still whole. Under one that does it can take the middle (`LedgerSweeps.BackwardClock`).

## Model

| member | source | states |
|---|---|---|
| ConfigGrammar.WalkConcatTop | src/extensions/src/config_store.rs:437-503 | a text read to a point between items can be read on from there, even across a CR LF cut in two |
| ConfigGrammar.EntriesConcatTop | src/extensions/src/config_store.rs:437-503 | the entries of a text are those up to such a point and those read from there |
| ConfigSource.Source.FGetC | src/extensions/src/config_store.rs:121-126 | the next byte and the cursor behind it, or nothing at the end |
| ConfigSource.Source.NextChar | src/extensions/src/config_store.rs:141-159 | one character: CR LF is one line end, the end of the file reads as one and sets `eof` |
| ConfigSource.ParseValue | src/extensions/src/config_store.rs:290-345 | quotes, escapes, comments, continuations and trimming: it stops where the automaton leaves the value, with the value the automaton builds, and fails where it fails |
| ConfigSource.GetValue | src/extensions/src/config_store.rs:349-371 | the rest of a name, an optional value, and one callback with the pair the automaton delivers |
| ConfigSource.GetExtendedBaseVar | src/extensions/src/config_store.rs:374-409 | a quoted subsection with its escapes, or a refusal, as the automaton has it |
| ConfigSource.GetBaseVar | src/extensions/src/config_store.rs:412-431 | a section header up to its `]`, or a refusal |
| ConfigSource.Store.PutSeen | src/extensions/src/config_store.rs:238-243 | the store with the place recorded at `seen_nr`, the list grown as needed |
| ConfigSource.Store.Event | src/extensions/src/config_store.rs:209-234 | the store with the span appended, flagged and anchored when it is a header of the key's section |
| ConfigSource.Store.Entry | src/extensions/src/config_store.rs:247-266 | the store with the entry counted as a match, taken as an insertion point, or passed over |
| ConfigSource.DoEvent | src/extensions/src/config_store.rs:271-287 | the event in progress closed at the offset and the new one opened, runs of blanks kept as one |
| ConfigSource.ParseSource | src/extensions/src/config_store.rs:437-503 | the cursor parser accepts exactly the texts the automaton accepts and fills the store as it does |
| ConfigFacts.ScanGood | src/extensions/src/config_store.rs:209-287 | after every successful parse the spans are consecutive and end with the file, each is what its type says, and `seen` is exactly the matches in order, or else the last event of the key's section |
| ConfigEvents.EventKinds | src/extensions/src/config_store.rs:437-503 | the byte an event begins with tells its kind, and its kind that byte: a bracket, either comment sign, a letter or a blank |
| ConfigEvents.EventEnds | src/extensions/src/config_store.rs:271-287 | blanks are blanks throughout, a comment goes up to its line end, a header ends with its bracket and an entry with a line end or the file |
| ConfigEvents.EventsMeet | src/extensions/src/config_store.rs:209-287 | the first event begins right behind a byte-order mark, each other where the one before it ends, and the last ends with the file |
| ConfigMatching.OwnHeaders | src/extensions/src/config_store.rs:209-234 | a plain header is the key's section's exactly if it names it in any letter case; one with a subsection exactly if that is the key's own byte for byte |
| ConfigMeaning.ScanParses | src/extensions/src/config_store.rs:437-503 | a parse succeeds exactly when the text has a meaning |
| ConfigTextParse.TextMeans | src/extensions/src/config_store.rs:290-503 | a text has certain entries if and only if, its CR LFs folded and its end taken for two line ends, it is what is written for a document of blanks, comments, headers, subsections, flags and settings that means them |
| ConfigTextParse.TextRefused | src/extensions/src/config_store.rs:290-503 | a text does not parse if and only if no document is written so |
| ConfigTextParse.UnquotedReads | src/extensions/src/config_store.rs:299-345 | a value, its inner blanks kept, ends at the blanks before its line end or before a comment, whichever of `#` and `;` begins it and whatever it says |
| ConfigTextParse.QuotedReads | src/extensions/src/config_store.rs:314-345 | in quotes blanks, `#` and `;` stand for themselves, at the ends too |
| ConfigTextParse.EscapesRead | src/extensions/src/config_store.rs:325-337 | the five escapes, `\b` among them |
| ConfigTextParse.NoOtherEscape | src/extensions/src/config_store.rs:325-337 | a file in which any other byte is escaped does not parse |
| ConfigExamples.EditorRead | src/extensions/src/config_store.rs:290-345 | `editor = vim ; mine` under `[core]` is the one entry `core.editor`, with the value `vim` |
| ConfigKey.ParseConfigKey | src/extensions/src/config.rs:325-357 | accepts exactly the well-formed keys, folds section and name only, and otherwise names the first byte at fault and why |
| ConfigMatching.KeysAccepted | src/extensions/src/config.rs:325-357 | the keys accepted are those made of a section, a dot or a subsection between dots, and a name, in bytes; and how each is spelled |
| ConfigWriter.StoreCreateSection | src/extensions/src/config_store.rs:511-534 | the header line of a base, its subsection escaped |
| ConfigWriter.HeaderReads | src/extensions/src/config_store.rs:511-534 | a header written for a base is read back as that base's section, with no entry |
| ConfigWriter.WritePair | src/extensions/src/config_store.rs:538-576 | the entry line with git's quoting and the comment trailer |
| ConfigWriter.ValueReads | src/extensions/src/config_store.rs:538-576 | what is written behind `=`, comment or not, is read back as one value and the line's end |
| ConfigWriter.PairReads | src/extensions/src/config_store.rs:538-576 | a line written in a section is read back as exactly one entry, of that section's key |
| ConfigWriter.ReadBackExact | src/extensions/src/config_store.rs:541-552 | the value read back is the one written exactly when it is quoted, empty, or not edged by a VT or FF |
| ConfigLines.LineIs | src/extensions/src/config_store.rs:538-576 | the bytes of an entry's line: which values are quoted, and what each byte of a value is written as |
| ConfigLines.HeaderIs | src/extensions/src/config_store.rs:511-534 | the bytes of a header line, with a subsection or without |
| ConfigLines.CommentIs | src/extensions/src/porcelain/config.rs:4959-4971 | which comments are refused, kept as they are, or given a space, or a space and `#` |
| ConfigEdit.MaybeRemoveSection | src/extensions/src/config_store.rs:580-649 | the widened span and the last match in it, or the span as it was when a comment or another entry is in the way |
| ConfigEdit.CopyAround | src/extensions/src/config_store.rs:746-798 | the text around all cuts, never leaving a copied line open, and where copying resumes |
| ConfigEdit.SetMultivarInFile | src/extensions/src/config_store.rs:656-802 | the bytes written, or which refusal, for a file that exists or not |
| ConfigMeaning.SetSeen | src/extensions/src/config_store.rs:746-798 | setting a key that is there: the new file's entries are the old ones with all matches gone and one entry where the last match stood |
| ConfigMeaning.UnsetMeaning | src/extensions/src/config_store.rs:746-798 | unsetting: the new file's entries are exactly the old ones that did not match, for every file with a match |
| ConfigMatching.UnsetByPattern | src/extensions/src/config_store.rs:186-206 | an unset by any value, none, a fixed one, an expression or a negated one leaves exactly the entries that does not pick |
| ConfigCuts.CutsExactly | src/extensions/src/config_store.rs:580-649 | an unset cuts a match out with its whole section, from the first event to go to the last, if and only if without it the section is empty of entries and no comment is in the way; else the match alone |
| ConfigCuts.UnsetLeaves | src/extensions/src/config_store.rs:746-798 | the bytes left when the matches lie in one such stretch: what is before it without the blanks at its end, its last line ended, and what is behind |
| ConfigCuts.SetLeaves | src/extensions/src/config_store.rs:739-798 | the bytes left when the one match is replaced: what is before it without the blanks before it on its line, that line ended, the new line, and what is behind the match |
| ConfigCuts.InsertLeaves | src/extensions/src/config_store.rs:739-798 | the bytes left when nothing matches: the new line, under a new header if the section was not seen, behind the last event of the section, or of the file, and the line end that closes it |
| ConfigExamples.SectionGoes | src/extensions/src/config_store.rs:602-607 | unsetting `a.b` in `[a]` with that one entry leaves an empty file |
| ConfigExamples.SectionStays | src/extensions/src/config_store.rs:622-641 | with another entry there the header stays, and just the one line goes |
| ConfigExamples.SetsWritten | src/extensions/src/config_store.rs:656-802 | the bytes of a replacement, of a new entry in its section, of a new section and of a new file |
| ConfigExamples.FirstEntryWritten | src/extensions/src/config_store.rs:739-798 | the first entry of a section without any goes right behind its header, also where the header's line was left unended |
| ConfigMeaning.ResumesExactly | src/extensions/src/config_store.rs:746-798 | after a replacing set copying resumes right behind the last match |
| ConfigFresh.SetFresh | src/extensions/src/config_store.rs:739-798 | setting a key that is not there: every old entry keeps its place and the new one stands at the insertion point |
| ConfigFresh.DanglingFails | src/extensions/src/config_store.rs:325-328 | a line put behind an open continuation changes the last value or breaks the file |
| ConfigFresh.BomFails | src/extensions/src/config_store.rs:739-742 | a set into a file that is only a byte order mark is not read back |
| ConfigFresh.SetThenRead | src/extensions/src/config_store.rs:656-802 | for every file that parses, every pattern, value and comment: the file written reads back as intended if and only if the stated conditions hold |
| ConfigFresh.SetWithComment | src/extensions/src/porcelain/config.rs:4959-4971 | every comment a user may give, once prepared, leaves that as it is: a set with it is read back under the same conditions |
| ConfigFailures.VerticalTabMisread | src/extensions/src/config_store.rs:541-552 | a value of one VT is not read back, from whatever file it is set in |
| ConfigFailures.MarkMoves | src/extensions/src/config_store.rs:739-742 | a lone byte order mark has no entries, and a set into it leaves a file that does not parse |
| ConfigFailures.OpenValueSwallows | src/extensions/src/config_store.rs:325-328 | a set into a file that ends in an open continuation is misread, and not all old entries are read back |
| ConfigFailures.OldHeaderMisleads | src/extensions/src/config_store.rs:209-234 | a set of `s.T.k` into a file with a `[s.T]` header is misread |
| ConfigAgain.SeenCount | src/extensions/src/config_store.rs:247-266 | the store counts exactly the entries that match |
| ConfigAgain.EditVerdict | src/extensions/src/config_store.rs:722-730 | an edit is refused exactly for a file that does not parse, an unset without a match, or several matches without leave to replace them |
| ConfigAgain.NewFile | src/extensions/src/config_store.rs:709-720 | a missing file becomes one of exactly the one entry, as long as the value survives |
| ConfigAgain.LineFound | src/extensions/src/config_store.rs:247-266 | a line written by a set is found by the next parse, once, with the span the next set will replace |
| ConfigAgain.SetTwice | src/extensions/src/config_store.rs:746-798 | a second set leaves every byte as it is if and only if no CR LF stood where copying resumed; always so after a replacement |
| ConfigFailures.SecondSetDiffers | src/extensions/src/config_store.rs:746-798 | a file in which the second set of a key writes other bytes than the first |
| ConfigAgain.WidenRemovesOwn | src/extensions/src/config_store.rs:580-649 | every event in a widened span is a match, blanks, or a header of the key's own section: never a comment, another entry or another header |
| ConfigAgain.InsertedLast | src/extensions/src/config_store.rs:218-224 | no entry of the key's section comes after an inserted line |
| ConfigRename.SectionNameMatch | src/extensions/src/config_store.rs:824-880 | the comparison of a header with a name, blanks, quotes, escapes and all, and how far the match reaches |
| ConfigRename.HeaderMatch | src/extensions/src/config_store.rs:824-880 | the header written for a self-named section is taken for a name exactly when it is that name, and then as a whole line |
| ConfigRename.OwnMatch | src/extensions/src/config_store.rs:824-880 | a header is recognised under its own name if and only if the name is free of NUL, `]` and blanks before its dot |
| ConfigMatching.HeaderTaken | src/extensions/src/config_store.rs:824-880 | any plain header is taken for a name exactly if it is that name, with the blanks and line ends behind it |
| ConfigMatching.SubHeaderTaken | src/extensions/src/config_store.rs:824-880 | any header with a subsection free of NUL and `]`, however its gap is spelled and whatever is escaped, exactly if the name is its own |
| ConfigFailures.BracketUnseen | src/extensions/src/config_store.rs:824-880 | the header written for `a]` is not taken for that name |
| ConfigSections.NextLine | src/extensions/src/config_store.rs:986-1000 | the first line, its line feed kept, and the rest |
| ConfigSections.JoinLines | src/extensions/src/config_store.rs:986-1000 | the lines put together again are the file, each but the last ending in its only line feed |
| ConfigSections.LinesJoin | src/extensions/src/config_store.rs:986-1000 | lines that stay apart are read back as the lines they were |
| ConfigSections.CopyOrRenameSection | src/extensions/src/config_store.rs:884-982 | rename, removal and copy: the bytes committed and the count, or the line that is too long |
| ConfigSectionText.SectionWritten | src/extensions/src/config_store.rs:884-982 | the bytes of a file with one such section after a rename, a removal and a copy, the rest of the header's line put behind a TAB by the first |
| ConfigSectionText.LongLineNamed | src/extensions/src/config_store.rs:884-914 | a line of 524288 bytes or more is refused and named, whatever comes before it |
| ConfigSectionText.IndentedHeader | src/extensions/src/config_store.rs:926-945 | behind blanks a header is one still, and a line that begins with anything else is none |
| ConfigSectionText.TheSection | src/extensions/src/config_store.rs:884-982 | the three on a file of two sections, in bytes |
| ConfigSections.RefusesLongLine | src/extensions/src/config_store.rs:914-916 | the call refuses exactly the files with an overlong line, and names the first |
| ConfigSections.RenameBack | src/extensions/src/config_store.rs:884-982 | renaming a to b and back gives the original bytes and the same count if and only if every header of a is the canonical line, none is b's, and the new header is short enough |
| ConfigSections.RemovesSections | src/extensions/src/config_store.rs:933-966 | a line is dropped exactly when the last header at or before it is one of the removed section |
| ConfigSections.RemoveTwice | src/extensions/src/config_store.rs:884-982 | a removed section is gone: removing it again counts none and changes nothing |
| ConfigSections.CopyThenRemove | src/extensions/src/config_store.rs:884-982 | a copy is undone by removing it, bytes and count, if and only if it starts on a line of its own and its header is short enough |
| ConfigFailures.GluedCopyStays | src/extensions/src/config_store.rs:945-966 | `[a]` without a line end is not given back by copying `a` to `b` and removing `b` |
| ConfigSectionMeaning.RemovedEntries | src/extensions/src/config_store.rs:884-982 | what is left after a removal holds exactly the entries that stood on lines outside the sections, wherever the sections begin and end between items |
| ConfigSectionMeaning.StayOrGo | src/extensions/src/config_store.rs:884-982 | every entry of the file, counted, either stays so or stood on a line of the sections |
| ConfigSectionMeaning.RenamedEntries | src/extensions/src/config_store.rs:884-982 | after a rename the file holds the same entries in the same order, those of the sections under the new name, where each matched header is a whole one |
| ConfigSectionMeaning.CopiedEntries | src/extensions/src/config_store.rs:945-966 | after a copy the file holds its entries in order, each section followed by the entries on the lines behind its header under the new name and by nothing of the header's own line, where that line and the section end closed |
| ConfigFailures.ContinuedHeaderRemoved | src/extensions/src/config_store.rs:933-966 | a value that goes on into a line `[a]` loses it to a removal of `a`, which no section has |
| ConfigSectionFailures.InlineNotCopied | src/extensions/src/config_store.rs:945-966 | `[a] k=v` copied to `b` gives a section `b` with no entry |
| ConfigSectionFailures.BracketCutsHeader | src/extensions/src/config_store.rs:824-880 | a rename of `a.b` takes `[a "b]"]` for its header up to the first bracket, and writes a file that does not parse |
| LockBackoff.Acquire | src/extensions/src/config_store.rs:1064-1111 | it takes the first attempt that is not contended; a positive timeout gives up only after that long, having slept less than it plus 1249 ms; a zero one tries once; a negative one never gives up |
| LockBackoff.MultiplierStep | src/extensions/src/config_store.rs:1103-1108 | the running update keeps the multiplier the square of the wait's number until it is capped at 1000 |
| LockBackoff.WaitBounds | src/extensions/src/config_store.rs:1098-1101 | no wait is over 1249 ms, every one after the first is at least 3, and after the cap at least 750 |
| LockBackoff.WaitsAre | src/extensions/src/config_store.rs:1098-1108 | the waits in milliseconds at the first, second, 31st and 32nd turn |
| LockBackoff.AttemptsBounded | src/extensions/src/config_store.rs:1089-1109 | the attempts of a contended call are bounded by its timeout |
| CommandLine.NormalizeIsCanonical | src/extensions/src/config.rs:1934-1946 | where the key parser accepts a key, normalizing spells it as the parser does |
| CommandLineInclude.Spellings | src/extensions/src/config.rs:1934-1946 | `A.B.C` and `Include.Path` as they are compared |
| CommandLineInclude.IncludeKeys | src/extensions/src/config.rs:1725-1727 | the include keys are `include.path` and what begins with `includeif.` and ends in `.path`, in bytes, and no others |
| CommandLine.IncludedAfter | src/extensions/src/config.rs:1733-1740 | the end of the run of deeper entries of one source behind an include line |
| CommandLine.MarkEnvCopies | src/extensions/src/config.rs:1768-1786 | the scan from the end marks exactly the last environment entries of each pair, as many as there are overrides of it |
| CommandLine.MarkCliCopies | src/extensions/src/config.rs:1787-1803 | the n-th top-level command-line entry of a key goes to the n-th override of that key, with what it included |
| CommandLine.IncludedBy | src/extensions/src/config.rs:1804-1828 | each override takes what its own environment copy included, in argv order, or else its command-line copy |
| CommandLine.DropPulledIn | src/extensions/src/config.rs:1829-1836 | exactly the runs behind dropped include lines are dropped as well |
| CommandLine.CommandLineSplice | src/extensions/src/config.rs:1758-1848 | the whole plan, for any walk; none without an override |
| CommandLineOrder.OrderedOccurrences | src/extensions/src/config.rs:1661-1692 | the walk with the dropped entries skipped and the overrides replayed at the splice point |
| CommandLineWalk.EnvHeadIs | src/extensions/src/config.rs:1768-1786 | over every walk the setup code builds, an environment entry is taken for a copy exactly when it is among the last of its pair, as many as there are overrides of it |
| CommandLineWalk.CliHeadIs | src/extensions/src/config.rs:1787-1803 | every section the command line put in is found to be a copy |
| CommandLineWalk.IncludedIs | src/extensions/src/config.rs:1804-1828 | what is walked again behind an override is the run of an environment entry of its pair that went, in order, or else of its own section |
| CommandLineWalk.Outcome | src/extensions/src/config.rs:1661-1848 | what comes out, for every such walk: aliases' entries behind the copies, inherited parameters without a copy, repeats, collisions and includes among them |
| CommandLineGit.GitsOrder | src/extensions/src/config.rs:1758-1848 | the settings told are git's, in git's order, if and only if every `-c` of an alias has a value, the line is still the end of line and aliases together, and an override without an environment copy shares its pair with no other environment entry and is told in full by its own section |
| CommandLineGit.SpliceIsGit | src/extensions/src/config.rs:1758-1848 | without aliases and with every copy made: files, inherited environment, every override as typed in argv order followed by what it included, then the rest, whatever each copy included |
| CommandLineInclude.ToldInOrder | src/extensions/src/config.rs:1758-1848 | the same over every walk in which only lines of those keys pull anything in, with sources and keys spelled out |
| CommandLineInclude.HoldsFile | src/extensions/src/config.rs:1725-1727 | a line of such a key holds what its file does, and no other line holds anything |
| CommandLineInclude.IncludeFollows | src/extensions/src/config.rs:1758-1848 | `git -c a.b=1 -c include.path=f` among a file, an outer environment and a later source: the included setting is told right behind the line that names the file |
| CommandLineGit.AliasComesFirst | src/extensions/src/setup.rs:305-317 | `-c a.b=1` with an alias that adds `-c a.b=2` is told the other way round |
| CommandLineGit.InheritedIsLost | src/extensions/src/lib.rs:2114-2192 | an inherited entry equal to an inherited parameter that has no environment copy is not told |
| CommandLineGit.EqualsToldTwice | src/extensions/src/lib.rs:2175-2182 | below a parent that made a copy an override whose key holds `=` is told twice, and below one that made none once |
| ConfigInclude.ReadConfigFile | src/extensions/src/config.rs:2191-2286 | over any finite file system, circular ones included, the reader ends and delivers the inline order up to the first thing it dies of |
| ConfigInclude.HandlePathInclude | src/extensions/src/config.rs:2290-2334 | an include is skipped, refused as too deep, or read in its place |
| ConfigIncludePlaces.FileIs | src/extensions/src/config.rs:2232-2286 | an include is taken exactly where a value ends under the last name, a path of an include section, its path the raw bytes of all its parts; the stretches around it, its section's header repeated; or the whole file in one |
| ConfigIncludePlaces.CircularDies | src/extensions/src/config.rs:2191-2334 | a file that includes itself is read eleven times up to its include, and then the depth is exceeded |
| ConfigIncludePlaces.TwoFilesRead | src/extensions/src/config.rs:2191-2334 | a file, the one it includes, one that is not there, an empty path and a path in another section |
| ConfigInclude.VerdictOfOrder | src/extensions/src/config.rs:2191-2334 | the verdict is too deep exactly when the inline order reaches a file it can open one level too deep before any bad line; a verdict of none means a reader without a limit would deliver the same |
| SplitCmdline.SplitLine | src/extensions/src/alias.rs:286-329 | the words of a line, or which of the two errors |
| SplitCmdline.RefusedLines | src/extensions/src/alias.rs:286-329 | `BadEnding` if and only if a backslash outside single quotes has nothing behind it, `UnclosedQuote` if and only if otherwise a quote is left open |
| SplitCmdline.SplitInverts | src/extensions/src/alias.rs:286-329 | any words, each written in pieces that are single-quoted, double-quoted, backslashed or bare, and set apart by blanks, come back as they were |
| SplitCmdline.QuotedComesBack | src/extensions/src/alias.rs:286-329 | any list of words but the empty one is what some line splits into: each in double quotes, a space between them |
| SplitCmdline.SetsApart | src/extensions/src/alias.rs:293-319 | what each byte does between two letters: exactly TAB, LF, FF, CR and a space set them apart |
| SplitCmdline.InsideQuotes | src/extensions/src/alias.rs:304-318 | a backslash in double quotes stands for the byte behind it, in single quotes for itself |
| SplitCmdline.BlanksAtEnds | src/extensions/src/alias.rs:295-300 | blanks in a row set apart once, and at an end leave an empty word |
| AliasResolve.LookupIn | src/extensions/src/alias.rs:212-245 | the last setting that names the alias, in either spelling |
| AliasResolve.LastSettingWins | src/extensions/src/alias.rs:212-245 | a value is found exactly if it is that of the last setting for the name, in any letter case as a variable and byte for byte as a subsection |
| AliasResolve.Resolve | src/extensions/src/alias.rs:67-158 | a recursive or looping alias is reported exactly when the rewriting without a guard would never end, and otherwise the answer is the one it ends with; whatever the outcome, the heads expanded are all distinct, one expansion for each |
| AliasResolve.CycleEndless | src/extensions/src/alias.rs:82-87 | a head that comes up again comes up for ever |
| AliasResolve.ArgumentsKept | src/extensions/src/alias.rs:148-156 | whatever command a resolution ends in still ends with the user's arguments |
| AliasResolve.NamesBecome | src/extensions/src/alias.rs:67-158 | in a world of three aliases: a verb, an unknown name, an alias in either letter case, a shell alias, and one that is rewritten to itself for ever |
| AliasResolve.OptionsTaken | src/extensions/src/alias.rs:116-143 | options an alias may have are dropped, those that change the environment refuse it, one that ends the program ends it, an alias of options alone is empty; a verb is no alias |
| Levenshtein.Compute | src/extensions/src/autocorrect.rs:310-350 | the three rotating rows return the recursive distance |
| Levenshtein.FillRow | src/extensions/src/autocorrect.rs:322-344 | one turn of the outer loop fills the next row of the matrix |
| Levenshtein.DistanceIsLeast | src/extensions/src/autocorrect.rs:310-350 | the distance is the least cost of any script of keeps, substitutions, swaps, insertions and deletions, and some script costs it |
| LevenshteinWords.TurnsIsMade | src/extensions/src/autocorrect.rs:310-350 | a script turns one word into another if and only if its edits, carried out on the bytes, a swap writing the two in the other order, make that word |
| LevenshteinWords.LeastSpent | src/extensions/src/autocorrect.rs:310-350 | the distance is the least that has to be spent on such edits |
| LevenshteinWords.OneSlip | src/extensions/src/autocorrect.rs:324-343 | words that differ by two bytes exchanged, a wrong one, one too few or one too many, wherever it is, are no further apart than its weight |
| LevenshteinWords.GitsDistances | src/extensions/src/autocorrect.rs:310-350 | with git's weights `stauts` is at none from `status`; one, two and three for a letter too few, a wrong one and one too many |
| Levenshtein.ZeroForSame | src/extensions/src/autocorrect.rs:310-350 | no distance is negative and a word is at none from itself; with positive weights from itself alone |
| Levenshtein.Mirrored | src/extensions/src/autocorrect.rs:310-350 | exchanging the words and the weights of insertion and deletion leaves the distance |
| Levenshtein.CellsFit | src/extensions/src/autocorrect.rs:310-350 | with git's weights no cell or sum leaves 32 bits for words under 2^28 bytes |
| Autocorrect.ScoreAll | src/extensions/src/autocorrect.rs:65-77 | every candidate with its score: none for a common command the typo begins, else distance and one |
| Autocorrect.ScoresOf | src/extensions/src/autocorrect.rs:65-77 | the score of a common command that begins with the typo, of one slip of each kind, and of the least words |
| Autocorrect.NearestGroup | src/extensions/src/autocorrect.rs:87-103 | the prefix matches and all that share the best other score, and that score |
| Autocorrect.Correct | src/extensions/src/autocorrect.rs:47-147 | a command is run unasked exactly when the setting acts and one candidate, no prefix match, is strictly nearest and near enough, and that one is run; suggestions exactly when something is near and nothing is run |
| Autocorrect.Settings | src/extensions/src/autocorrect.rs:47-147 | which settings act, what a prompt without terminals is, and which scores are near |
| CNumber.ParseAbbrevArg | src/extensions/src/abbrev.rs:105-129 | the saturated, negated value reduced modulo 2^32 and clamped |
| CNumber.WrapsTo32 | src/extensions/src/abbrev.rs:124-128 | negating modulo 2^64 and keeping 32 bits is negating modulo 2^32 |
| CNumber.ParseOptAbbrevValue | src/extensions/src/abbrev.rs:403-438 | only a whole number is read: clipped to 64 bits, then its low 32 as a signed number |
| CNumber.StrtolLong | src/extensions/src/diffopt.rs:63-100 | the number spelled, clipped to 64 bits; 0 for nothing, and none for anything else |
| CNumber.ReadersOfDecimal | src/extensions/src/abbrev.rs:105-438 | on every number written in decimal the readers agree with arithmetic without a width, up to their limits |
| CNumber.ReadersPastLimits | src/extensions/src/abbrev.rs:105-438 | past the limits they saturate to what 32 bits leave of the limit |
| CNumber.WholeNumbers | src/extensions/src/abbrev.rs:403-438 | a whole number is blanks, a sign or none, and digits, with nothing behind them; and what it spells |
| CNumber.KeptBits | src/extensions/src/abbrev.rs:105-438 | what 32 bits keep of a number, signed or not, is the one in their range that is the same modulo 2^32; the clip and the saturating sum |
| CNumber.AbbrevArgs | src/extensions/src/abbrev.rs:105-129 | what `--abbrev=` makes of a decimal number with anything behind it: at least four, at most the whole name, 2^32 as nothing and -1 as all |
| Abbrev.AutoAbbrevIsLeast | src/extensions/src/abbrev.rs:372-377 | the automatic length is the least of at least seven with four to that power above the object count |
| Abbrev.UniqueIsShortest | src/extensions/src/abbrev.rs:153-165 | the prefix given is unique and at least four digits, and every shorter one from the length asked for is shared |
| Abbrev.CutLength | src/extensions/src/abbrev.rs:153-165 | a name nobody holds is cut to the length asked for, of at least four; no length, or a full one, asks for all of it |
| Abbrev.OnlyItsDirectories | src/extensions/src/abbrev.rs:281-285 | only the packs and the loose objects that share the first byte can alter an abbreviation |
| AbbrevCache.StoreStamp.GenerationOf | src/extensions/src/abbrev.rs:341-352 | a fan-out directory is looked at once per stamp and remembered as it was |
| AbbrevCache.StampIsRead | src/extensions/src/abbrev.rs:292-352 | what a stamp gives was read off the history at its two looks, and is current exactly as long as a fresh stamp would give the same |
| AbbrevCache.Unchanged | src/extensions/src/abbrev.rs:357-368 | a directory found with the stamp it had was never anything else in between |
| AbbrevCache.NeverStale | src/extensions/src/abbrev.rs:255-352 | for every interleaving, a row is right whenever its generation is current, as long as no directory missing when read had been created when the answer was computed |
| AbbrevCache.RowIsSafe | src/extensions/src/abbrev.rs:292-297 | a row is safe for ever if and only if its generation is dead or its answer is the one for the directories as they were read |
| AbbrevCache.MissingComesBack | src/extensions/src/abbrev.rs:357-368 | a concrete run in which a row goes stale under a generation that comes back |
| Ledger.Database.Claim | src/extensions/src/db.rs:1098-1116 | undisturbed: acquired exactly when the repo is there and unclaimed, else whose it is, and nothing else changed |
| Ledger.Database.UnclaimBy | src/extensions/src/db.rs:1119-1125 | the row goes exactly when this session holds it |
| Ledger.Database.UnclaimAny | src/extensions/src/db.rs:1130-1133 | the row goes whoever holds it, and the answer says whether there was one |
| Ledger.Database.Transfer | src/extensions/src/db.rs:1233-1235 | an existing row gets the new session, and no row is made |
| Ledger.Database.Insert | src/extensions/src/db.rs:607-620 | a new queued row under an id of its own, or a refused reference |
| Ledger.Database.Restart | src/extensions/src/db.rs:904-923 | a queued clone linked to the job it was made from, which stays as it is |
| Ledger.Database.ClaimForRun | src/extensions/src/db.rs:633-639 | a queued job starts running, and only a queued one |
| Ledger.Database.PruneJobs | src/extensions/src/db.rs:663-673 | exactly the finished jobs older than the cutoff go, and their number is returned |
| Ledger.Database.PruneEvents | src/extensions/src/db.rs:677-681 | the events before the cutoff go and the others stay in order; their number is returned |
| Ledger.Database.Remove | src/extensions/src/db.rs:508-513 | the repo's row goes, unless a row of another table names it |
| Ledger.Database.Fail | src/extensions/src/db.rs:808-822 | a job already failed is recorded under a new id for an indexed repo |
| Ledger.Database.Note | src/extensions/src/db.rs:715-729 | an event is appended, or its repo refused |
| Ledger.Database.Upsert | src/extensions/src/db.rs:926-943 | the row replaced and the events of both triggers appended |
| Ledger.Database.Prune | src/extensions/src/db.rs:404-436 | one repo after the other, the same as all of them at once |
| LedgerLaws.ClaimBelongs | src/extensions/src/db.rs:1098-1235 | a claim belongs to the session that made it or was given it: it alone is named, it alone can give it up, no other can be made beside it; given up or forced, all is as it was |
| LedgerLaws.JobLives | src/extensions/src/db.rs:607-673 | a job is queued, got by a run or a stop and not by both, ended at a time, and swept only then and past that time |
| LedgerLaws.RowsMade | src/extensions/src/db.rs:508-923 | the rows of a restart and of a failure, and when a repo is removed |
| LedgerLaws.LeavesAlone | src/extensions/src/db.rs:404-1235 | what each statement leaves alone, and that a refused one leaves everything |
| LedgerLaws.RunLeaves | src/extensions/src/db.rs:108-1235 | nine statements from an empty ledger: the rows and events after the updates, and after a sweep and a prune |
| LedgerRuns.AcquiredApart | src/extensions/src/db.rs:1098-1133 | two `Acquired` answers for one repo have a deletion of its row between them, however the calls interleave |
| LedgerRuns.TakenOnce | src/extensions/src/db.rs:633-673 | while `job_finished` gets the states its callers pass, two successes of `claim_running` or `stop_if_queued` on one id have between them the retention sweep taking the row, finished and old |
| LedgerRuns.TakenApart | src/extensions/src/db.rs:633-673 | whatever `job_finished` gets, between two such successes the row was swept or the job put back in the queue |
| LedgerRuns.JobKept | src/extensions/src/db.rs:607-673 | over every run a job keeps its kind, spec, session and parent until the sweep takes it, finished and old, and its repo unless a prune takes that |
| LedgerRuns.HistoryKept | src/extensions/src/db.rs:404-681 | over every run an event stays until a sweep whose cutoff is past its time: what is left of an earlier history is exactly its events from the latest cutoff on, in order, unaltered but for a repo that was pruned |
| LedgerRuns.ReferencesHold | src/extensions/src/db.rs:404-436 | at every point of every run each row that names a repo names one that is there |
| LedgerRuns.NothingInherited | src/extensions/src/db.rs:404-513 | once a repo is pruned or removed no row names it, up to and including the move that next gives its id to a repo |
| LedgerRuns.UpsertTells | src/extensions/src/db.rs:108-117 | a status update keeps the feed true to the row if and only if its sync text does not contradict its dirty flag |
| LedgerRuns.FeedReplays | src/extensions/src/db.rs:184-193 | over every run without a sweep of events the commit events chain from the first commit to the current one and the status events replay the dirty flag, if each sync text agrees with its flag |
| LedgerRuns.CallersReplay | src/extensions/src/superset/status.rs:42-62 | so it is over every run without a sweep in which the sync texts are those the callers have |
| LedgerRuns.FlagReplays | src/extensions/src/db.rs:184-193 | over every run without a sweep, whatever the sync texts, the status events replay the dirty flag if and only if the last update that changed the flag or gave the word for one gave the right one |
| LedgerSweeps.SweptFeed | src/extensions/src/db.rs:677-681 | over every run with sweeps, under a clock that never goes back and whatever the sync texts: the commit events left chain and end at the current commit, and a word for a flag that is left is right exactly when the last one given was |
| LedgerSweeps.CallersSwept | src/extensions/src/superset/zdaemon.rs:570-583 | with the callers' sync texts the events left end in the current commit and flag, and still tell the whole story if and only if the first commit event left begins at the first commit and a word for the flag is left or none was needed |
| LedgerSweeps.BackwardClock | src/extensions/src/db.rs:677-681 | a clock that goes back between two updates lets a sweep break the chain |
| CStdio.Stdout.WriteBytes | src/extensions/src/cstdio.rs:125-148 | straight through behind what is held, or held, with whole lines released on a terminal |
| CStdio.Stdout.WriteBlock | src/extensions/src/cstdio.rs:174-182 | held until a block is full; less than a block is held afterwards |
| CStdio.Stdout.EnterCommand | src/extensions/src/cstdio.rs:246-254 | everything held is emitted and the buffer disarmed, the caller's flag kept |
| CStdio.Stdout.LeaveCommand | src/extensions/src/cstdio.rs:256-262 | everything held is emitted and the flag restored |
| CStdio.Stdout.RunProgram | src/extensions/src/cstdio.rs:241-262 | a program with nested subcommands leaves the stream its specification gives |
| CStdio.AllKeep | src/extensions/src/cstdio.rs:125-199 | for every such program what is emitted and what is held are together all that was written, in order, and nothing emitted is taken back |
| CStdio.BoundaryRestored | src/extensions/src/cstdio.rs:241-262 | when a guard drops all the subcommand wrote has been emitted, behind all before it, and the caller's buffering is as it was |
| CStdio.NoLineHeld | src/extensions/src/cstdio.rs:136-147 | on a terminal no complete line is ever held, by any program that writes by the block only inside its subcommands |
| CStdio.HeldTillFlush | src/extensions/src/cstdio.rs:125-148 | off a terminal an armed stream emits nothing of any run of writes, and holds them all in order |
| CStdio.FlushedOut | src/extensions/src/cstdio.rs:125-160 | a flush behind any program emits all that was written and holds nothing; the stream is armed from the first `defer` on |
| CStdio.StraightThrough | src/extensions/src/cstdio.rs:125-131 | unarmed, every write goes straight out behind what was held |
| CStdio.LinesGo | src/extensions/src/cstdio.rs:136-147 | armed on a terminal, a write lets go of everything up to its last line end |
| CStdio.BlocksHeld | src/extensions/src/cstdio.rs:155-182 | blocks are held short of 65536 bytes and go when they are not |

## Left out

* Files, lock files, permissions, symbolic links, SQLite itself, processes and clocks: files are byte
  sequences, tables are maps and sequences, the clock and the random numbers are parameters.
* Regular expressions in value patterns are any predicate on the value; a pattern that does not compile
  is not modelled, nor are the messages of any error.
* Everything gitoxide does: parsing into events for the include walk, merging the sources, looking up
  a section's values, reading the object database.
* `handle_options` is any function that takes a prefix of an expansion; the pager flag it may set, the
  overrides it may push and the report of a malformed one among them are left out, as are the notice for
  a bare `-h` and the text of the loop report.
* Paths: how an include's path is expanded and resolved is a parameter, as is a value's normalization;
  `includeIf` conditions are left out, as in the source's own reader.
* A missing file in a section rename, which commits an empty file, and the callers' checks of the names.
* The automatic-correction setting's parsing, the scoring's candidate list and the delay; the candidate
  list is taken as sorted.
* Unix details of the stamp: inode and ctime are one number that never comes back, and the hash is injective.
* Failed writes of the stdout buffer, which drop what was held.
* Row ids that SQLite reuses: a new job gets one past the largest id, so an id may come back only after
  its row was deleted, which is what the job theorem allows for.
* The retention sweep of messages, snapshots, stashes, subscriptions and pins.
* The tables of validation callbacks, advice, help and date texts, threads, hooks, the daemon's lanes and
  the build script: case lists and small functions.
- Levenshtein.Compute: works on unbounded integers; that the source's 32-bit cells do not overflow is the separate statement about words under 2^28 bytes.
- CommandLineGit.GitsOrder: compares the settings told, not their include depths, and takes an include line to pull in the same settings wherever it stands.
- ConfigSectionMeaning.RemovedEntries: the condition is sufficient, not necessary, here and for renames and copies: a value that is cut open may happen to be closed by the next line with the same result.
- AbbrevCache.NeverStale: states the safe case only, because the unrestricted statement is false; the exact condition is stated beside it.
- LedgerSweeps.SweptFeed: a clock that never goes back is sufficient, not necessary: under one that does, a sweep may happen to take only events that form a loop of their own.
