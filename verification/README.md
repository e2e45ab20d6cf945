# n2k-mux, modelled and proved in Dafny

n2k-mux takes decoded NMEA 2000 messages, one JSON object per line, chooses one source for every value,
and sends the chosen values on: as NMEA 0183 sentences, as raw frames over TCP, and as a list of frames
that a filter drops from the bus. It uses fixed tables and buffers throughout. This project models its
stateful kernels and proves what they keep.

How the model is built:

- Each kernel has a specification in terms of values (sequences, maps, datatypes) and an imperative form
  with the source's loops, arrays and fields. Every imperative method is proved equal to its
  specification; the properties are then proved of the specification, mostly over whole runs.
- Strings are sequences of characters, a character standing for a byte. Doubles are reals. Times are
  natural numbers of milliseconds. 32-bit and 64-bit limits are written out where they matter.
- Table and buffer bounds are the source's own. Where a bound can cut something off, the statement says
  exactly when, or what is kept.
- What the world decides (reads, sends, the clock, the conversion of a decimal text to a double) is a
  parameter, and the statements hold for every choice of it.
- No proof rests on Dafny's automatic induction.

The files, by part of the program:

| part | files |
|---|---|
| comment-preserving INI merge | `IniText`, `IniMergeSpec`, `IniLines`, `IniMeaning`, `IniMeaningTheorem`, `IniLayout`, `IniPlaces`, `IniIdempotent`, `IniNames`, `IniAliases`, `IniMerge` |
| JSON message reader | `JsonText`, `JsonlSpec`, `JsonlSkip`, `JsonlTree`, `JsonlMeaning`, `JsonlHang`, `JsonlOrderly`, `Jsonl` |
| list of sources, written and read back | `SourcesSpec`, `SourcesJson`, `SourcesRoundTrip`, `SourcesOfRun`, `Sources` |
| chunked line reader | `LineReader` |
| device registry | `RegistrySpec`, `RegistryRuns`, `RegistryHistory`, `Registry` |
| choice of source and failover | `ArbiterSpec`, `Failover`, `Routing`, `Arbiter` |
| loser table and frame filter | `DropSet`, `DropHistory`, `DropKeys`, `CanFilter` |
| AIS deduplication | `AisDedup`, `AisOrder` |
| TCP fan-out | `NetSpec`, `NetOut` |
| throttle of sentence types | `ThrottleSpec`, `ThrottleRules`, `Throttle`, `SentenceKind` |
| shallowest depth, greatest log | `Combiner` |
| polar tables | `PolarSpec`, `PolarProofs`, `PolarText`, `PolarTable`, `Polar` |
| CAN identifiers, fast packets, YDRAW lines, incoming lines | `CanId`, `FastPacket`, `YdrawLine`, `Actisense` |
| NMEA 0183 sentences, satellites in view | `NmeaSpec`, `Nmea`, `GsvPages` |
| shared text, number and set facts | `CText`, `CNumber`, `Radix`, `Sets` |

Where an expected property is false of the code, the exact condition is proved for all inputs and a
concrete failing input is given:

| expected | holds exactly when | failing input |
|---|---|---|
| a merge loses no entry | the entries under no section fit the old text: `IniMeaningTheorem.MergeKeepsMeaning` | `IniMeaningTheorem.UnnamedEntryLost` |
| the JSON reader returns from every line | a scan of the line's brackets meets no closer of the wrong kind at a loop head: `JsonlHang.HangsIff`, and `JsonlOrderly.OrderlyReturns` for lines whose brackets close in order | `JsonlTree.StrayBracketLine`, `JsonlHang.StrayBraceLine` |
| a pair is published only when all its recent discriminants lose | every recent passing verdict of a published pair was stored when it arrived and not pushed out by an eviction since: `DropKeys.AllLoseIff` | `DropHistory.PassForgotten` (not stored), `DropKeys.EvictionLosesPass` (pushed out) |
| a published pair lost its latest verdict | that verdict is not a passing one that was pushed out, which takes a full table and equal times: `DropKeys.LatestLostIff` | `DropKeys.TieLosesPass` |
| a pair is published when all its recent discriminants lose | one of these verdicts was not pushed out: `DropKeys.LosersPublishedIff` | `DropKeys.EvictionLosesLoser` |
| the filter reads the decoder's PGN | the extended data page bit is 0: `CanId.FilterAgrees` | `CanId.ExtendedPageMisread` |
| a printed angle is within half a unit | the angle is below 1000 degrees by more than half a unit: `NmeaSpec.AngleExact` | `NmeaSpec.ThousandLost` |

The comment of `dropset_update` says that the eviction of an old verdict is without consequence. The three
rows on the loser table say for any run whose clock does not go back, with any ties and any evictions, what
the consequences are. While at most 256 keys had a verdict stored in the last 8 s there are none
(`DropKeys.RoomKeeps`, `DropKeys.FitsTrusted`, `DropKeys.LosersPublished`).

## Model

| member | source | states |
|---|---|---|
| IniMeaningTheorem.MergeKeepsMeaning | src/inimerge.c:166-255 | For any old text, the entries read back from a successful merge are among those of the new text with their multiplicities, all those of named sections are there, and all entries are there exactly when the unnamed ones fit the old text. |
| IniMeaningTheorem.UnnamedEntryLost | src/inimerge.c:192-199 | A concrete new text whose entry stands under no section is lost by the merge into an empty file. |
| IniMeaningTheorem.NothingLeft | src/inimerge.c:186-254 | Exactly when the unnamed entries fit, every entry of the new text is consumed by some line; what is left over is always unnamed. |
| IniMeaningTheorem.UncutReadable | src/inimerge.c:28-43 | When no key, value or section name fills its buffer, everything in the new text reads back as it was, the premise of the theorems on the merge. |
| IniMeaning.MergeFaithful | src/inimerge.c:166-254 | The lines written so far always read as the consumed entries, in the order in which they were consumed. |
| IniMeaning.Partition | src/inimerge.c:213-220 | Consumed and remaining entries always add up to the entries of the new text, key by key. |
| IniMeaning.AfterCloses | src/inimerge.c:186-238 | Once a section of the old file has been read past, none of its entries is still to be written. |
| IniMeaning.AddSectionsCloses | src/inimerge.c:240-252 | After the sections missing in the old file were added, no entry of a named section is still to be written. |
| IniIdempotent.MergeIsIdempotent | src/inimerge.c:166-255 | Merging the same new text into the result returns exactly the result, whatever the old text. |
| IniIdempotent.NewLinesReplay | src/inimerge.c:154-164 | Flushed lines, read as an old text, consume the same entries in the same order and are written unchanged. |
| IniLayout.MergeKeepsFrame | src/inimerge.c:186-252 | Every line of the old text that is no key line stands in the result verbatim and in order; the only other such lines open sections that the old text lacks. |
| IniPlaces.MergeKeepsPlaces | src/inimerge.c:186-254 | Of every merge: the lines that come from the old text stand in the old order; every line that is no key line is among them as it was; of the key lines just those are among them that the new text has an entry for, each with its text up to the sign, its comment and the comment's column; and new lines stand only before a section line or at the end. |
| IniPlaces.FindsWhenStays | src/inimerge.c:202-229 | The search for an unused entry succeeds at a key line exactly when the line's section was not left before and the new text has more entries of the key than the section had such lines so far. |
| IniLayout.RewriteKeepsLayout | src/inimerge.c:202-229 | Of one line: a rewritten key line keeps its text up to the sign and its comment, carries the new value in between, and keeps the comment's column when the value is short enough, else two blanks before it. |
| IniLines.RewriteRead | src/inimerge.c:202-229 | A rewritten line reads as its key with the new value, and rewriting it again changes nothing. |
| IniLines.NewLineRead | src/inimerge.c:154-164 | An appended line reads as the entry it was made of, and rewriting it changes nothing. |
| IniLines.SectionLinesRead | src/inimerge.c:240-252 | The header written for a new section reads as that section. |
| IniLines.EntriesSound | src/inimerge.c:87-99 | Every key and value that the parser returns is a trimmed text without comment or line break, within its buffer. |
| IniText.EntriesAppend | src/inimerge.c:118-151 | Reading two runs of lines one after the other is reading them together, the section carried over. |
| IniNames.SectionsSame | src/inimerge.c:46-84 | Two names between brackets open one section exactly when they are equal up to the case of letters, or both are spellings of one of the four classes priority/priorities/priorites, rate(s), talker(s), sentence(s). |
| IniNames.SectionCalled | src/inimerge.c:46-55 | A section is called by the first spelling of its class, else by its own name in small letters. |
| IniNames.SectionLineRead | src/inimerge.c:73-84 | Blanks before the bracket and around the name, and anything behind the bracket, do not change which section a line opens. |
| IniNames.KeyLineRead | src/inimerge.c:86-99 | A key line in any layout, with any blanks around key, sign and value and with a comment after `;` or `#` or without, reads as its key and its value. |
| IniNames.OtherRead | src/inimerge.c:73-99 | Blank lines and comment lines are neither section nor key lines. |
| IniAliases.NewSpelling | src/inimerge.c:166-255 | Another spelling of a section in the new text does not change the result of any merge. |
| IniAliases.OldSpelling | src/inimerge.c:166-255 | Another spelling of a section in the old text changes that line of the result and no other. |
| IniAliases.AliasRewritten | src/inimerge.c:202-229 | A key line under one spelling of a section is rewritten in place by the entry under any other spelling; the section is not doubled. |
| IniAliases.MergeBounds | src/inimerge.c:118-151 | A new text is refused exactly when it has more than 256 entries or more than 24 sections. |
| IniMerge.Run | src/inimerge.c:166-255 | The imperative merge: its buffer, length and failures are those of the specified merge, with the final NUL, and -1 exactly when a table or the buffer is too small. |
| IniMerge.IndexNew | src/inimerge.c:118-151 | The loop over the new text returns its entries and distinct sections, or fails when a table is full. |
| IniMerge.FlushSection | src/inimerge.c:154-164 | The loop that appends and flags the missing entries of a section writes exactly those, in order. |
| IniMerge.MergeLine | src/inimerge.c:186-238 | One turn of the loop over the old text does the specified step on buffer, flags and current section. |
| IniMerge.WriteRewritten | src/inimerge.c:202-229 | The pieces written for a key line make up the specified rewritten line. |
| IniMerge.WriteNewSections | src/inimerge.c:240-252 | The final loop adds exactly the specified sections and entries. |
| IniMerge.ReadKeyValue | src/inimerge.c:87-99 | The scanning loops find the key and the sign exactly where the specification does. |
| IniMerge.ReadSection | src/inimerge.c:74-84 | The scanning loops find the canonical section name. |
| CText.LinesUnlines | src/inimerge.c:58-63 | Splitting into lines undoes closing every line with a line feed. |
| JsonlTree.ParseFindsMessage | src/jsonl.c:295-351 | Every printing of every JSON object, with any keys, order, nesting and white space, and whatever follows, is read as the message of its tree; the reader comes back, and refuses only what the tree asks it to. |
| JsonlMeaning.ParseMeans | src/jsonl.c:295-351 | The message, key by key: the last "src", "pgn", "prio", "dst", "timestamp" and "description" count, and each is known exactly when its key is there; the fields are those of all "fields" objects, in document order, the first 48; the list objects likewise, the first 32, each with its first 8 fields. A line is useless exactly when a text is not in quotes, "fields" is no object, a read value's "name" is not in quotes, or there is neither PGN nor version. |
| JsonlMeaning.ReadingStands | src/jsonl.c:115-207 | What a value stands for: a text is itself, `null` and lists nothing, `true` 1, `false` 0, any other word the number that the conversion gives with its text; an object has a name or value exactly when one of the two keys is there, with the last "value" as its number and the last text as its text. |
| JsonlMeaning.FieldStands | src/jsonl.c:115-207 | A printed value is read as what it stands for, and refused exactly when it is an object with a "name" not in quotes. |
| JsonlMeaning.IntStands | src/jsonl.c:321-334 | A whole number of 32 bits is read as itself, and what is no number as 0. |
| JsonlHang.HangsIff | src/jsonl.c:295-351 | The reader does not return exactly from the lines in which a scan, blind to all values and to the conversion of numbers, comes to a closing square bracket where a key is expected or to a closing brace where a list element is. |
| JsonlOrderly.OrderlyReturns | src/jsonl.c:239-351 | The reader returns from every line whose brackets close in order outside strings, with no quote or bracket in a bare word, whatever else of JSON's grammar it breaks or wherever it ends. |
| JsonlOrderly.CutObjectReturns | src/jsonl.c:295-351 | Every printing of every JSON object, cut off anywhere, is a line from which the reader returns. |
| JsonlOrderly.NestPassed | src/jsonl.c:86-101 | Counting brackets of one kind stops at the bracket that closes the value, on any text whose brackets close in order. |
| JsonlTree.StrayBracketHangs | src/jsonl.c:103-106 | A loop over members stops advancing exactly at a closing square bracket where a key is expected. |
| JsonlHang.StrayBraceHangs | src/jsonl.c:239-258 | The loop over the repeated list stops advancing exactly at a closing brace that closes nothing, and then never ends. |
| JsonlTree.StrayBracketLine | src/jsonl.c:103-106 | A concrete family of lines, with a square bracket for a key, on which the reader does not return. |
| JsonlHang.StrayBraceLine | src/jsonl.c:239-258 | A concrete family of lines, with a brace for a list element, on which the reader does not return. |
| JsonlSkip.SkipValueStops | src/jsonl.c:74-107 | From white space before any well-formed value, skipping stops right behind it, and past the blanks too behind a bare word, although only one kind of bracket is counted. |
| JsonlSkip.StringRead | src/jsonl.c:32-67 | A printed string is read as the characters it stands for, cut to the buffer, and the reader stands behind its closing quote. |
| JsonlTree.FieldRead | src/jsonl.c:115-207 | A field's value is read as the number, string, named value or nothing that its tree stands for. |
| JsonlTree.ListRead | src/jsonl.c:210-258 | A repeated list is read as its objects, as many as the table holds, each with its usable fields. |
| Jsonl.MessageReader.Parse | src/jsonl.c:295-351 | The imperative reader fills the message exactly as specified, and does not come back exactly on the lines specified as hanging. |
| Jsonl.MessageReader.ParseFields | src/jsonl.c:261-293 | The loop over "fields" fills the field table as specified. |
| Jsonl.MessageReader.ParseList | src/jsonl.c:239-258 | The loop over the repeated list fills the list table as specified. |
| Jsonl.FieldValueAt | src/jsonl.c:115-207 | The pointer-advancing reader of one value equals its specification. |
| Jsonl.SkipValueAt | src/jsonl.c:74-107 | The counting loops equal the specified skipping, or make no progress exactly where that says so. |
| Jsonl.ParseStringAt | src/jsonl.c:32-67 | The copying loop returns the specified text and position, within its buffer. |
| Jsonl.Get | src/jsonl.c:353-361 | The search returns the first field with the key, and nothing only when there is none. |
| SourcesRoundTrip.PublishedReadBack | src/sources.c:36-188 | For any table of devices with one-line strings, whatever quotes, backslashes and key look-alikes they hold, reading the published text shows every device with its address, strings, counters (capped at the largest signed long) and PGN list. |
| SourcesJson.PublishedIsJson | src/sources.c:36-75 | What is published is a JSON text: an array of one object for each device, in order, each with its seven members by name, the device's strings and numbers, and an array of one object for each PGN; a line feed closes it. |
| SourcesRoundTrip.LoadedFew | src/sources.c:139-149 | However long the file, at most 64 entries are read. |
| SourcesRoundTrip.LineRead | src/sources.c:146-149 | One read takes a line with its line feed, or 4095 characters of a longer one, or what is left. |
| SourcesRoundTrip.ListEnds | src/sources.c:168-174 | The list of PGNs ends at its bracket: no object behind it belongs to it. |
| SourcesOfRun.RunReadsBack | src/sources.c:36-188 | After any run of messages with one-line strings, what is published reads back as the device table itself, exactly. |
| SourcesOfRun.RunNeat | src/registry.c:181-201 | In every reachable table all strings fit their arrays and no counter exceeds the number of messages, so that the premises of the round trip hold. |
| SourcesRoundTrip.PassString | src/sources.c:25-34 | No escaped value can be mistaken for a key pattern: a search for any key passes over any quoted value. |
| SourcesRoundTrip.SearchFinds | src/sources.c:110-137 | A search for a key among printed fields finds the first field of that name and stands at its value. |
| SourcesRoundTrip.RowRead | src/sources.c:150-184 | The line of a device reads back as that device. |
| SourcesRoundTrip.PgnsReadBack | src/sources.c:166-183 | The list of PGNs of a device reads back entry by entry, and the loop ends at its closing bracket. |
| SourcesRoundTrip.UnescapedEscaped | src/sources.c:110-125 | Reading an escaped string up to its closing quote gives the string back. |
| SourcesRoundTrip.RowFits | src/sources.c:146-149 | The line of any device fits the reader's line buffer. |
| Sources.JsonEscape | src/sources.c:25-34 | The loop writes the escaped form of the longest prefix that leaves room; a buffer of twice the string's array never cuts. |
| Sources.ToJson | src/sources.c:36-75 | The whole document when it fits the buffer with its NUL, and failure exactly when it does not. |
| Sources.ReadStr | src/sources.c:110-125 | The copying loop returns the specified string of a key, within its buffer. |
| Sources.ReadPgns | src/sources.c:166-183 | The loop over the list of PGNs returns the specified entries. |
| Sources.Load | src/sources.c:139-188 | The loop over the file's lines returns the specified entries, at most 64. |
| LineReader.Run | src/daemon.c:591-601 | However reads cut the stream, the lines handed out are a prefix of those that the stream alone determines, and all of them when the end is reached; every line complete in the bytes read is handed out, and every ready read brings a byte or the end. |
| LineReader.OutputsCover | src/daemon.c:140-159 | When no line is longer than the line buffer, the lines put together are the stream, including a last line without line feed. |
| LineReader.LineShape | src/daemon.c:140-159 | Every line but the last ends in its only line feed, unless it filled the whole buffer. |
| LineReader.TakeIsLine | src/daemon.c:140-152 | What is taken from the buffer is the first line of all that is still to come, whatever is read later. |
| LineReader.Reader.Line | src/daemon.c:140-159 | One call hands out the next line, cut to the caller's buffer, and moves the rest to the front. |
| LineReader.Reader.Fill | src/daemon.c:127-135 | One read appends its bytes to the buffer, or marks the end of the stream. |
| RegistryRuns.RunConsistent | src/registry.c:107-201 | In every reachable table each address and each Unique Number stands in at most one record, every identity is the serial number or else the Unique Number, and PGN counters agree with the message counter. |
| RegistryHistory.CountsExact | src/registry.c:84-94 | In every reachable table a record has seen exactly the messages that were counted for it; every PGN in its list has the exact number of those with that PGN, and while the list has room a PGN is listed exactly when that number is positive. |
| RegistryHistory.PlacedWhere | src/registry.c:107-201 | A message is counted for the record with its Unique Number; else for the one at its address, unless both have a Unique Number; else for a new record, while there is room. |
| RegistryHistory.LastSaid | src/registry.c:153-172 | Model, serial number, manufacturer and its code are those of the last message counted for the record that gave them. |
| RegistryHistory.UniqueIs | src/registry.c:107-150 | A record's Unique Number is that of every claim counted for it that gave one, and it has none without such a claim. |
| RegistryHistory.IdentityIs | src/registry.c:96-105 | A record is identified by its serial number, else by its Unique Number in decimal, else not at all. |
| RegistryHistory.AddressIs | src/registry.c:107-201 | A record holds an address exactly when it was heard there, and since then neither another device there nor the record elsewhere. |
| RegistryRuns.KnownDeviceMoves | src/registry.c:107-162 | A known device that claims another address holds it alone, under the identity it had; whoever held it keeps its record, without address; all other records stay as they are. |
| RegistryRuns.ClaimNamesDevice | src/registry.c:107-150 | A claim with a new Unique Number makes a record that holds the address and is named by the number; a holder under another number keeps its record, without address. |
| RegistryRuns.ProductNamesDevice | src/registry.c:165-201 | Product information makes the serial number the identity at the sender's address, and leaves all other records alone. |
| RegistryRuns.RecordKept | src/registry.c:181-201 | No message removes a record, its Unique Number, or the knowledge of its serial number. |
| RegistryRuns.SeenConserved | src/registry.c:181-201 | The counters of all records add up to the number of messages that were counted. |
| Registry.Table.Observe | src/registry.c:181-201 | The imperative table after a message, and the record it was counted for, are the specified ones. |
| Registry.Table.ClaimRecord | src/registry.c:107-150 | The branches of an address claim update the records in place as specified. |
| Registry.Table.DetachAddr | src/registry.c:52-57 | The loop takes the address from every record but one. |
| Registry.Table.Ident | src/registry.c:223-229 | The identity at an address is that of the record holding it, when it is known. |
| ArbiterSpec.Best | src/config.c:305-329 | The specific rule chosen matches, no matching rule has a longer discriminant, and no earlier one an equally long one. |
| ArbiterSpec.FirstGeneric | src/config.c:305-329 | The generic rule chosen is the first one of its PGN. |
| Arbiter.FindRule | src/config.c:305-329 | The single loop with its running best finds the most specific rule, and otherwise the first generic one. |
| Failover.AcceptedIff | src/arbiter.c:81-146 | Over any run in time order, a message of a priority rule is accepted exactly when no preferred source of its rule was heard within the timeout, and otherwise rejected by priority. |
| Routing.RouteIs | src/arbiter.c:81-137 | Told by configuration and identities alone: a message counts for place i of rule r exactly when it is not left out, r is its rule, and its sender's identity is that of a source whose first place in r is i; and for none, for each of the five reasons, exactly when that reason holds. |
| Routing.RuleIs | src/config.c:305-329 | The rule of a message is the one with the longest discriminant that the message's starts with, in any case of letters, the first of several; without any, the first one of the PGN without discriminant. |
| Routing.DecisionIs | src/arbiter.c:81-146 | From messages to decisions over any run in time order: a message that counts for a rule of combined sources is accepted, one that counts for another rule exactly when no source named before its own was heard within the timeout; any other is answered by its reason. |
| Routing.ShownIs | src/arbiter.c:148-157 | The source shown for a value is the first one named by its rule that was heard within the timeout; none for combined sources. |
| Routing.VerdictIs | src/daemon.c:610-613 | What the loser table is told of a message: its PGN, sender and time, its discriminant, and whether it was outranked or is not in its rule. |
| Failover.TakeoverWaits | src/arbiter.c:81-146 | When a source is accepted, every earlier message of a preferred source of the rule is more than the timeout old. |
| Failover.FirstAlwaysAccepted | src/arbiter.c:81-146 | The first source of a priority rule is always accepted. |
| Failover.LiveIsHeard | src/arbiter.c:65-70 | A slot is live in the table exactly when some message of the history counted for it within the timeout. |
| Failover.CurrentIs | src/arbiter.c:148-157 | The source shown as current is the first of the rule that was heard within the timeout, and none is shown only when none was. |
| Failover.AcceptedIsCurrent | src/arbiter.c:148-157 | Right after an accepted message of a priority rule, its source is the one shown as current. |
| Failover.DroppedWasOutranked | src/daemon.c:610-613 | From messages to the frame filter: a (PGN, sender) published for dropping had a last message at most 8 s old, whose sender was outranked then by a preferred source heard within the timeout, or is not in the rule; under the same premise as `DropKeys.PublishedLost`. |
| Arbiter.Table.Decide | src/arbiter.c:81-146 | The imperative decision updates the flag and time of just the message's slot and returns the specified result. |
| Arbiter.Table.LiveWinner | src/arbiter.c:73-79 | The loop returns the first live slot of the rule. |
| Arbiter.Table.Current | src/arbiter.c:148-157 | The imperative look-up returns the specified current source. |
| DropKeys.RunHolds | src/daemon.c:225-264 | Over any run whose clock does not go back, every latest verdict of a discriminant that was stored and not pushed out is in the table until it is more than 8000 ms old. |
| DropKeys.RunRows | src/daemon.c:225-264 | Over any run, the table holds nothing but latest verdicts that were stored and not pushed out, one row for a key. |
| DropKeys.FateIs | src/daemon.c:225-255 | What became of a latest verdict, in terms of the run: it was not stored exactly by the guard of the early return at the last judgement of its key, and it was pushed out exactly when a later new key, itself stored, met a full table whose oldest row was this verdict. |
| DropKeys.EvictsIs | src/daemon.c:230-250 | An eviction takes a table of 256 rows without the key, and a verdict that lost or whose pair has a row. |
| DropKeys.PushedIs | src/daemon.c:231-234 | It pushes out the first of the oldest rows. |
| DropKeys.PublishedIff | src/daemon.c:225-289 | A pair is published exactly when, of its latest verdicts of the last 8000 ms that were stored and not pushed out, there are some and all of them lost; times may be equal, and the table full. |
| DropKeys.AllLoseIff | src/daemon.c:225-289 | Only pairs all of whose recent discriminants lose are published, exactly when every recent passing verdict on a published pair was stored and not pushed out; equally, exactly when every pair with a kept losing verdict and some passing one has a kept passing one. |
| DropKeys.PublishedThoughPassed | src/daemon.c:225-289 | A pair with a recent discriminant that passed is published all the same, exactly when a recent losing verdict of it is kept and none of the passing ones. |
| DropKeys.EvictionLosesPass | src/daemon.c:244-250 | A concrete run with a strictly increasing clock in which a stored passing verdict is pushed out: the pair is published although that discriminant passed. |
| DropKeys.LatestLostIff | src/daemon.c:258-289 | A published pair has lost its latest verdict, at most 8000 ms ago, exactly when that is not a passing one that was pushed out; where it is, another verdict of the pair has the very same time. |
| DropKeys.LatestPassedIff | src/daemon.c:258-289 | A pair whose latest verdict passed is published exactly when that was pushed out and, of the pair's recent kept verdicts, there are some and all of them lost. |
| DropKeys.TieLosesPass | src/daemon.c:232-250 | A concrete run with equal times and a full table that pushes the latest, passing verdict out: the pair is published. |
| DropKeys.PublishedLost | src/daemon.c:258-289 | When no pair's latest verdict is a recent passing one that was pushed out, or no two verdicts on one pair share a millisecond, every published pair has lost its latest verdict, at most 8000 ms ago; no pair is published twice. |
| DropKeys.LosersPublishedIff | src/daemon.c:225-289 | A pair whose recent discriminants all lose is published exactly when one of these verdicts was not pushed out. |
| DropKeys.EvictionLosesLoser | src/daemon.c:244-250 | A concrete run in which a pair that lost its only verdict is not published, since enough others pushed that out. |
| DropKeys.RoomKeeps | src/daemon.c:244-250 | While at most 256 keys had a verdict stored in the last 8000 ms, no verdict of that time is pushed out. |
| DropKeys.LosersPublished | src/daemon.c:225-289 | While those keys fit, a pair whose recent discriminants all lose is published. |
| DropKeys.FitsTrusted | src/daemon.c:258-289 | While those keys fit, the premise of `DropKeys.PublishedLost` holds, whatever times are equal. |
| DropHistory.PublishedLostApart | src/daemon.c:258-289 | Whatever was evicted or pruned, a published pair has lost its latest verdict, at most 8000 ms ago, when no two verdicts on one pair share a millisecond. |
| DropHistory.PassForgotten | src/daemon.c:236-244 | A concrete run in which a pair is published although one of its discriminants passed just before. |
| DropSet.PublishedAre | src/daemon.c:270-281 | The double loop publishes a pair exactly when it has entries and all of them lose, and publishes it once. |
| DropSet.Table.Update | src/daemon.c:225-255 | The imperative update of the table, with search, eviction of the oldest and the early return, is the specified one. |
| DropSet.Table.Prune | src/daemon.c:261-264 | The compaction in place keeps exactly the entries of the last 8000 ms, in order. |
| DropSet.Table.Write | src/daemon.c:258-289 | What is written is the published pairs and then the PGNs cut for every sender. |
| CanFilter.FileRead | src/canfilter.c:90-105 | The filter reads back the pairs that the daemon wrote, in order, the first 128 when there are more. |
| CanFilter.OnlyLosersDropped | src/canfilter.c:90-113 | A frame is dropped only when its PGN is cut for every sender, or its sender lost its latest verdict for the PGN within the last 8000 ms; under the premise of `DropKeys.PublishedLost`. |
| CanFilter.Load | src/canfilter.c:90-105 | The reading loop returns the specified pairs, up to the table's size. |
| CanFilter.Has | src/canfilter.c:107-113 | The search says exactly whether the pair, or its PGN for every sender, is in the set. |
| AisDedup.RunRepresents | src/aisdedup.c:51-67 | Over any run in time order the bounded table is a part of the unbounded map of last-heard times, and what it lacks is no newer than anything it holds. |
| AisDedup.AcceptedIff | src/aisdedup.c:51-81 | While at most 2048 pairs were heard within the timeout, a message is accepted exactly when its sender has the least (rank, address) among the senders of that ship heard within the timeout. |
| AisOrder.AcceptedFrom | src/aisdedup.c:51-81 | Told by the messages: one is accepted exactly when no sender that comes before its own was heard on the ship within the timeout. |
| AisOrder.RankIs | src/aisdedup.c:35-49 | Senders whose source the fusion rule names come in its order, and before all others, which come by the lowest eight bits of their address. |
| AisOrder.OneFirst | src/aisdedup.c:69-80 | Of two senders exactly one comes before the other. |
| AisDedup.DropHasReason | src/aisdedup.c:51-81 | However full the table was, a message is never dropped without a sender that comes first and was heard within the timeout; a lone sender is always accepted. |
| AisDedup.TakeoverWaits | src/aisdedup.c:51-81 | A sender takes a ship over from one that comes before it only after the timeout. |
| AisDedup.FreshHaveRows | src/aisdedup.c:55-67 | While the pairs heard within the timeout fit the table, it holds every one of them. |
| AisDedup.Table.Accept | src/aisdedup.c:51-81 | The imperative version: the new table and the answer are the specified ones. |
| AisDedup.Table.FindRow | src/aisdedup.c:55-63 | The first loop finds the pair's own row, else the first free one, else the oldest. |
| AisDedup.Table.IsFirst | src/aisdedup.c:69-80 | The second loop says whether no fresh sender of the ship comes before this one. |
| NetSpec.WholeMessages | src/netout.c:109-147 | Over any run of connections and broadcasts, with any partial, blocked, interrupted or failed sends, a client that is still connected has received exactly the messages that went out to it entirely, one after the other. |
| NetSpec.RunValid | src/netout.c:68-147 | There are never more than 16 clients, and each is an open connection. |
| NetSpec.Send | src/netout.c:109-130 | A send ends with all of the message out, with nothing out, or with the client closed in the middle. |
| NetSpec.SendEnds | src/netout.c:109-130 | A message goes out whole exactly when calls that do not end the send take all its bytes, with at most five waits after the first byte; it is skipped exactly when the socket is full before the first byte; else the client is closed. |
| NetSpec.ServedAre | src/netout.c:132-147 | A client counts as served exactly when the message went out whole, and stays exactly when it went out whole or not at all. |
| NetSpec.OthersUntouched | src/netout.c:132-147 | A broadcast sends to the clients and to nobody else. |
| NetOut.Server.Broadcast | src/netout.c:132-147 | Despite removal by swapping, every client is offered the message exactly once, just the failed ones leave, and the result counts those that got it all. |
| NetOut.Server.SendAll | src/netout.c:109-130 | The loop over partial sends puts exactly the specified part of the message on the connection. |
| NetSpec.FirstAccepted | src/netout.c:68-97 | Of the pending connections the first are taken, as many as there is room for, with nothing sent to them yet, and no client's bytes change. |
| NetOut.Server.Accept | src/netout.c:68-97 | The loop over the pending connections takes the specified ones into the table, refuses the rest, and counts those taken. |
| NetOut.SwapRemoved | src/netout.c:137-141 | Overwriting a client by the last one takes just that client out, also of those still to come. |
| ThrottleSpec.IntervalKept | src/daemon.c:628-678 | Two batches that send a rate-limited sentence type are never closer than its interval, over any run. |
| ThrottleSpec.SentIff | src/daemon.c:628-678 | A selected sentence of a limited type goes out exactly when every batch that sent its type is at least the interval ago, and the clock has run for an interval. |
| SentenceKind.BuiltKind | src/daemon.c:170-187 | The throttle sees every built sentence, with fields or without, by the type it was begun with, never by a piece of its fields or checksum. |
| ThrottleSpec.NeverFull | src/daemon.c:190-201 | For upper-case types and at most 32 limits the table always has room for a limited type that it lacks. |
| ThrottleSpec.LastIsEmission | src/daemon.c:190-201 | The time kept for a type is that of its latest emission. |
| ThrottleSpec.EmitsIff | src/daemon.c:641-660 | A type goes out in a batch exactly when a selected sentence of it is there and its gate was open before the batch. |
| ThrottleRules.KindIs | src/daemon.c:170-187 | The type of a sentence is the last three characters of its address field, which ends at a comma, a star, a line break or the end; a shorter address or another start has none. |
| ThrottleRules.IntervalIs | src/config.c:358-365 | A type's interval is that of the first limit with its name, in any case of letters, and 0 without one. |
| ThrottleRules.SelectedIs | src/config.c:398-407 | A type goes with a PGN exactly when the PGN has no list or the type is on it. |
| ThrottleRules.OutputOrdered | src/daemon.c:628-678 | What goes out of a batch are exactly its selected sentences with an open gate, each once and in order. |
| ThrottleRules.LimitedSent | src/daemon.c:641-660 | Of a type with an interval, a sentence goes out exactly when it is selected and no batch within the interval, nor the clock's start, sent it. |
| ThrottleRules.UnlimitedSent | src/daemon.c:641-660 | A sentence of a type without interval goes out exactly when it is selected. |
| Throttle.Table.Filter | src/daemon.c:628-678 | The loop over a batch, with its list of types that passed, sends every sentence of a type or none, by the type's time before the batch. |
| Throttle.Table.Find | src/daemon.c:190-201 | The row of a type is found, or appended with time 0, or refused when the table is full. |
| Combiner.Bank.Submit | src/mapper.c:100-184 | A depth (or a log) is sent exactly when the message's sensor is, in the whole history, the first one that holds the least depth (greatest log) read within the timeout; what is sent is that value and what came with it. |
| Combiner.OneLeads | src/mapper.c:132-136 | At any moment at most one sensor is the one that sends. |
| Combiner.BestInHistory | src/mapper.c:118-131 | The arrays of values, times and flags stand for the latest reading of every sensor in the history. |
| Combiner.LeadsIs | src/mapper.c:100-184 | Told by the messages: a sensor leads exactly when its last reading is fresh and wins over every other sensor's fresh last reading, the earlier sensor among equal ones. |
| Combiner.Bank.Best | src/mapper.c:118-131 | The loop finds the first slot with the best fresh value, and none only when none is fresh. |
| PolarProofs.SpeedBetween | src/polar.c:196-228 | For every accepted table the speed lies between the least and the greatest of the four cells around it. |
| PolarProofs.SpeedSymmetric | src/polar.c:201-204 | The speed is even and 360-periodic in the angle. |
| PolarProofs.MoreWindMoreSpeed | src/polar.c:196-228 | When every row rises with the wind, so does the speed, at any angle, across columns, with duplicate columns, and beyond the table. |
| PolarProofs.TableKept | src/polar.c:196-228 | At the table's own angles and winds, on axes without duplicates, the speed is the table's own. |
| PolarProofs.SpeedInProportion | src/polar.c:196-228 | Between four neighbours the speed goes from one to the other in proportion, along both axes. |
| PolarProofs.SpeedAtEdge | src/polar.c:186-194 | Beyond the table the speed is that at its edge. |
| PolarProofs.BracketHolds | src/polar.c:186-194 | The interval found holds the value, and its weight is between 0 and 1. |
| PolarProofs.FoldIs | src/polar.c:201-204 | The folded angle is the angle without its whole turns, mirrored beyond 180 degrees, also for negative angles. |
| PolarText.Parsed | src/polar.c:108-164 | Every table that is accepted has at least one angle and one wind, both axes in order, and a speed for each pair. |
| PolarTable.TableIs | src/polar.c:64-164 | Which texts are polars and what they give, both ways: the header starts with TWA and has a separator, its numbers are the winds, 1 to 64 and in order; every line with an angle is a row, in order, and no line follows the 256th; a cell without a number is speed 0. |
| PolarTable.LeadSkipped | src/polar.c:114-124 | A byte order mark, and blanks and line breaks before the header, change nothing. |
| PolarText.PrintedReadsBack | src/polar.c:108-164 | A table that fits, printed with any of the three separators, is accepted and reads back as itself, however its numbers are shown, as long as each number of the table reads back. |
| PolarText.WholeTableReadsBack | src/polar.c:108-164 | A table of whole numbers, shown in decimal digits, reads back as itself, without further premise. |
| Polar.Reader.Parse | src/polar.c:108-164 | The imperative parser fills the table as specified, and only with accepted tables. |
| Polar.Reader.Body | src/polar.c:144-160 | The loop over the rows fills the table as specified, and fails exactly where that says so. |
| Polar.Reader.Header | src/polar.c:66-80 | The loop over the header's cells fills the wind axis, and fails exactly when it is too long or out of order. |
| Polar.FindBracket | src/polar.c:186-194 | The loop returns the interval that holds the value. |
| GsvPages.EachListedOnce | src/mapper.c:303-328 | Every satellite of the list stands in exactly one sentence, in the order of the list. |
| GsvPages.PagesNumbered | src/mapper.c:303-328 | The sentences are numbered from 1 to their number; all but the last hold four satellites, and that one to four. |
| GsvPages.ListFits | src/jsonl.c:239-258 | No line yields a list of more than 32 objects. |
| GsvPages.ListSent | src/mapper.c:303-328 | From any parsed line whose satellites' numbers fit their columns, the batch of 8 holds the sentences of all pages, each in its place. |
| GsvPages.PageFits | src/nmea0183.c:269-285 | A page whose numbers fit their columns is never too long for a sentence. |
| GsvPages.PageReadsBack | src/nmea0183.c:269-285 | A receiver of the sentence gets the page back: total, number, satellites in view, and of every satellite its number, elevation, azimuth and signal, rounded, each in its place or missing. |
| GsvPages.SatelliteIs | src/mapper.c:318-323 | A satellite's values are the numbers under their names in the list object. |
| GsvPages.InViewIs | src/mapper.c:307-313 | From 1 to the number of satellites listed the announced number is shown, else that of the list. |
| GsvPages.Gsv | src/mapper.c:303-328 | The loops over pages and satellites emit exactly the sentences of the specified pages that fit a sentence, as many as the batch holds. |
| CanId.EncodeDecode | src/ydraw.c:16-49 | Unpacking and packing gives back the 29 bits of every identifier, and unpacked fields are well formed (section 5.2 of SAE J1939-21). |
| CanId.DecodeEncode | src/ydraw.c:16-49 | Packing any four ints and unpacking gives them back exactly when they are well formed. |
| CanId.EncodedBits | src/ydraw.c:16-27 | Where the fields stand: the priority from bit 26, the PGN from bit 8, the address in place of its last byte when it is directed, the sender in the last byte. |
| CanId.EncodeInjective | src/ydraw.c:16-27 | No two well-formed sets of fields share an identifier. |
| CanId.FilterAgrees | src/canfilter.c:74-83 | The filter reads the decoder's sender always, and its PGN exactly when the extended data page bit is 0. |
| CanId.ExtendedPageMisread | src/canfilter.c:74-83 | A concrete identifier of the extended data page whose PGN the filter reads as another one. |
| CanId.FilterSeesPgn | src/canfilter.c:74-83 | Every well-formed PGN of the standard data pages, and its sender, reaches the filter as it was packed. |
| CanId.IsoRequestFields | src/cansock.c:48-56 | The identifier written out for ISO requests is the encoder's, for PGN 59904 to all at priority 6. |
| FastPacket.StreamReceived | src/ydraw_bridge.c:119-131 | From the fragments of any run of messages of at most 223 bytes, a receiver in any state gets exactly the messages. |
| FastPacket.OneFrame | src/ydraw.c:98-119 | With each frame of a message the receiver has exactly the bytes so far, and completes at the last frame and not before. |
| FastPacket.FrameBytes | src/ydraw.c:98-119 | Byte by byte: sequence number and index first, the length in the first frame, the payload from its place on, 0xFF behind it. |
| FastPacket.FramesAreLeast | src/ydraw.c:91-96 | The number of frames is the least that can carry the message. |
| FastPacket.IndexFits | src/ydraw.c:91-96 | The frame index fits its 5 bits exactly for lengths up to 223. |
| FastPacket.Padding | src/ydraw.c:98-119 | Bytes behind the payload are 0xFF in every frame. |
| FastPacket.Fill | src/ydraw.c:98-119 | The copying loops fill the 8 bytes with the specified frame. |
| FastPacket.Bridge.Send | src/ydraw_bridge.c:112-131 | A short message is one frame as it is; a longer one is all its fragments in order, and the sequence number goes up by one modulo 8. |
| YdrawLine.LineRead | src/ydraw.c:51-79 | Every line reads back as its frame: identifier, all bytes in order, and time of day. |
| YdrawLine.LineForm | src/ydraw.c:51-79 | What stands between the numbers: the separators of the time, the mark of a received frame, a blank before every byte, the line's end. |
| YdrawLine.Format | src/ydraw.c:51-79 | The loop writes the line when it fits the buffer and fails exactly when it does not; a frame of at most 8 bytes always fits. |
| Actisense.PrintedReadsBack | src/ydraw_bridge.c:40-82 | Every message of at most 223 bytes, printed behind any time and followed by a line break or nothing, is read as itself, number by number and byte by byte. |
| Actisense.ByteRead | src/ydraw_bridge.c:66-76 | A byte in two hexadecimal digits of any case, behind white space and with a prefix or not, is read as its value. |
| Actisense.Parse | src/ydraw_bridge.c:40-82 | The pointer-advancing loops return the specified message, and fail exactly where a number, a comma or the length is missing or out of range. |
| Actisense.Parsed | src/ydraw_bridge.c:40-82 | No line yields more than 223 bytes. |
| NmeaSpec.SentenceChecks | src/nmea0183.c:95-117 | A sentence built without star ends in a star, two hexadecimal digits and CR LF, and the digits are the checksum a reader computes of it. |
| NmeaSpec.CheckBits | src/nmea0183.c:95-104 | A bit of the checksum is set exactly when an odd number of characters have it. |
| NmeaSpec.ChecksumOf | src/nmea0183.c:95-104 | The checksum is taken of everything behind the start mark up to the star. |
| NmeaSpec.SentenceFits | src/nmea0183.c:19-37 | A sentence is built exactly when it is shorter than its buffer of 100. |
| NmeaSpec.OneByteDetected | src/nmea0183.c:95-104 | Two texts that differ in one byte have different checksums. |
| NmeaSpec.PutAllIs | src/nmea0183.c:19-37 | Appending is all or nothing: the whole text is there, or the sentence is rejected for good, exactly when it would not fit. |
| NmeaSpec.AngleExact | src/nmea0183.c:137-152 | Every printed angle is a comma, degrees in two or three digits, minutes below 60 with four decimals, a comma and its side, and is within 1/1200000 degree of the angle exactly when that is below 1000 degrees by more than 1/1200000. |
| NmeaSpec.ThousandLost | src/nmea0183.c:137-152 | 1000 degrees are printed as none. |
| NmeaSpec.TimeCutOff | src/nmea0183.c:170-182 | Every printed time has less than 60 seconds, is not later than the given one beyond the tolerance, and less than a hundredth earlier. |
| Nmea.Writer.Build | src/nmea0183.c:39-117 | Building a sentence character by character in the fixed buffer gives the specified sentence, or nothing exactly when it does not fit. |
| Nmea.Writer.End | src/nmea0183.c:106-117 | The trailer carries the exclusive or of everything behind the dollar sign. |
| CNumber.DecimalRead | src/sources.c:128-137 | A printed number reads back as itself, whatever follows that is no digit, and one beyond 64 bits as the end of the range. |
| CNumber.DigitsPlace | src/sources.c:55-65 | Every digit of a printed number stands for its power of ten, and no zero comes first. |
| Radix.TextRead | src/ydraw.c:60-73 | A number of fixed width in any base up to 16 reads back as itself. |
| Radix.TextPlace | src/ydraw.c:60-73 | Every digit of a number of fixed width stands for its power of the base. |

## Left out

- JsonlTree.ParseFindsMessage: the conversion of a decimal text to a double is any function that stops at the end of a number's text and reads nothing at a bracket; rounding, infinities and NaN are not modelled.
- IniMeaningTheorem.MergeKeepsMeaning: assumes that no key, value or section name of the new text was cut to one that ends in a blank; `IniMeaningTheorem.UncutReadable` shows that texts within the buffers meet this. Truncated fields beyond that are not covered.
- IniIdempotent.MergeIsIdempotent: the output buffer is taken as large enough; `IniMerge.Run` says when it is not.
- DropKeys.LosersPublished: needs the keys stored in the last 8 s to fit the table; `DropKeys.LosersPublishedIff` does not.
- DropKeys.PublishedLost: goes one way, from a premise about the run; `DropKeys.LatestLostIff` is exact.
- NetOut.Server.SendAll: an endless row of interruptions of one send is outside the model: every list of outcomes is finite, and a client without further outcome counts as gone. Waiting for a socket has no duration.
- Throttle.Table.Filter: assumes upper-case sentence types and at most 32 limits, the bound of the configuration; the statistics that the same loop feeds are left out.
- PolarSpec.Speed: cells are reals; their rounding to float is not modelled, nor is an angle or wind that is not a number. The greatest speed kept beside the table is left out.
- CanId.Encode: masks, shifts and ors are written as remainders, divisions that round down, and sums.
- NmeaSpec.TimeCutOff: hours and minutes below 100, as every caller gives them.
- SourcesRoundTrip.PublishedReadBack: a string with a line break splits its line and is not covered.
- Registry.Table.Observe: fields of the message are taken as already looked up by name.
- src/mapper.c: the other conversions (pairing of pressure and temperature, RMC) are mostly one branch each; the conversion of a log to nautical miles is left out.
- src/nmea0183.c: the individual sentences and the printing of a double with a number of decimals.
- src/config.c: the parser of the configuration; the rules, rates and lists it yields are parameters.
- src/daemon.c: signals, reloading, command line, periodic timing of publications, and the mode that prints AIS messages.
- Files, sockets, polling and renaming: their outcomes are parameters or left out.
- src/web.c, src/simulator.c, src/stats.c, src/busmap.c and the sockets of src/cansock.c are not part of this model.
