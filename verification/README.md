# CatraLibraries: verified models

Dafny models of four parts of CatraLibraries, with proofs. `dafny verify dfyconfig.toml`
checks the whole project.

## The hash table (`Probing`, `HashTable`, `HashMap`)

`my_hash_map` is an open-addressing table with double hashing, tombstones and automatic
rehashing. `HashMap.HashMap` is that class: two arrays, the counters, and the probe and rehash
loops. The result is that every run of operations from a fresh table gives the answers of a
mathematical map, for every hash function, every odd second hash, every initial size and every
resize ratio up to one half. Behind it: the probe sequence visits every cell exactly once; a
table always keeps an empty cell, although the tombstone counter only over-counts; every stored
key is reached through non-empty cells; `Resize` and `insert` call each other and still
terminate, and the threshold `Resize` leaves stale while it reinserts is exceeded exactly when
the old table held more pairs than that threshold. At the default ratio of one half no run gets there
(unless an explicit `Resize` asks for fewer than twice as many cells as there are pairs); at smaller
ratios runs do.

`FindPlace` is the probe loop that `Search`, `InsertWithoutDuplication` and `Delete` each spell
out; they differ only in what they do with the place it reports. The first probe, which the
source writes before the loop, is the first round of the loop here, so the check for a searched
table is one round stricter than in the source; it never fires.

## The configuration text format

- `ConfigModel`, `Writer`: configurations as values, and the printer.
- `ScannerTables`, `Scanner`, `Lexer`: the compressed automaton entry by entry, the match loop
  with its back-up, and the token actions, proved to return the longest matching token.
- `Grammar`, `Reader`, `Derivations`: the 19 rules with their actions, parse trees over them, and
  a left-to-right reading that is proved equivalent to the trees.
- `ParserTables`, `Parser`: the LALR(1) tables and the shift/reduce/goto/error driver, proved to
  compute that reading with at most 16 stack entries.
- `PrintedTokens`, `SavedTokens`, `Legality`, `Storable`, `RoundTrip`: saving and then loading a
  configuration gives back its normal form if and only if the configuration is storable. The
  normal form turns an item without values into one empty value and drops empty lines at the
  front of comments; it is stable. Storable is a condition on the strings alone, stated in
  `Storable`: no section dates, no `#` in comments, and names and values that are either quoted
  by the printer or scanned as one STRING. Two things a user may not expect: a printed section date is
  scanned as part of one STRING, so no dated section survives; and a comma forces quotes only for a single
  value, so a comma in a list value splits the value and a comma in an unquoted name is a syntax
  error.
- `SectionDates`: a date that is kept apart from its parentheses by blanks is loaded; which dates are accepted,
  character by character.
- `ConfigItems`, `ConfigSections`, `ConfigStore`: the objects that hold a configuration, with
  arrays that grow by whole steps and copy their elements. They behave as plain lists, and a run
  of `appendItemValue` calls behaves as a map from names to lists of values.

## Error messages (`ErrMsg`)

`ErrMsgBase::buildMessage` expands a format into a C string buffer that grows in blocks of 32
bytes. The expansion is stated on strings; the method is proved to leave exactly that string in
the buffer, with every access in bounds and the running length equal to the string length. The
argument counter counts every percent sign, also doubled and unknown ones, so such a sign
can leave a later conversion without its argument; `ServedUnlessStarved` says exactly when, and
the loop is proved to take as many arguments as that law counts.

## Session slots (`Sessions`, `SessionSlots`)

Connection slots are reused, and a start time guards reads and writes on behalf of old events.
`Sessions` states one atomic step on values, with the history of accept times beside it;
`SessionSlots` has the objects, whose methods follow those steps. The pool knows sockets by their
descriptors, which change with every connection. In every interleaving the
check lets a copy of the connection information through to an active slot exactly when the
accept times of the two connections are equal, so distinct accept times make the token safe,
and equal ones (they count whole seconds) defeat it. The comment beside the check says that it
also covers slots that are not active. That holds in every run in which no slot becomes inactive with its
socket still open and no inactive slot is copied for a new connection. `reset`, which the sweep calls, can do the first:
it clears the times of a slot whose socket may be waiting in the pool. The sweep itself is
modelled as a loop over all slots, with nothing in between; its releases and resets are also
steps of any run.

## Model

| member | source | states |
|---|---|---|
| Probing.RoundUpIsLeast | my_hash_map/my_hash_map.h:803-807 | the doubling loop yields the least power of two that is at least its argument |
| Probing.RoundUpToPowerOfTwo | my_hash_map/my_hash_map.h:803-807 | the loop terminates with that power of two |
| Probing.UnsignedConversionIsHarmless | my_hash_map/my_hash_map.h:582 | taking a negative hash modulo the size in 32-bit unsigned arithmetic gives the same cell |
| Probing.ProbesAreDistinct | my_hash_map/my_hash_map.h:158-170 | two probes closer than the size never meet, because the step is odd and the size a power of two |
| Probing.ProbesCoverTheTable | my_hash_map/my_hash_map.h:811-816 | the first maxLength probes visit every cell, each exactly once |
| HashTable.RoomIsCounted | my_hash_map/my_hash_map.h:756-767 | there is an empty cell iff VALID and DELETED cells number less than the size |
| HashTable.HoleIsReached | my_hash_map/my_hash_map.h:602-619 | with an empty cell in the table every probe sequence meets one within maxLength probes |
| HashTable.SearchNeverStopsWhenFull | my_hash_map/my_hash_map.h:602-619 | without an empty cell the search for an absent key meets neither the key nor a hole, however long it probes |
| HashTable.FillCell | my_hash_map/my_hash_map.h:835-841 | filling an empty cell or reusing a tombstone adds exactly one key and keeps every other probe path |
| HashTable.FreeCell | my_hash_map/my_hash_map.h:862-868 | a tombstone removes exactly its key; paths through the cell stay intact |
| HashTable.ReplaceCell | my_hash_map/my_hash_map.h:671-675 | replacing the pair of a stored key changes only its value |
| HashTable.StoredBelowNext | my_hash_map/my_hash_map.h:983-988 | each step of the rehash loop moves one pair that was not yet moved, out of strictly fewer than all |
| HashTable.PairsAreTheMap | my_hash_map/my_hash_map.h:497-510 | the pairs of the VALID cells, in cell order, are the map's pairs, each once |
| HashMap.GrownLength | my_hash_map/my_hash_map.h:689 | at a ratio of at most one half, the size asked for is at least twice the old one |
| HashMap.HashMap.constructor | my_hash_map/my_hash_map.h:817-833 | a new table has RoundUp(tableSize) cells and is the empty map |
| HashMap.HashMap.Search | my_hash_map/my_hash_map.h:579-622 | the cell of the key with its latest value, or end() exactly when the key is absent |
| HashMap.HashMap.FindPlace | my_hash_map/my_hash_map.h:690-768 | the probe loop finds a present key, or else the first free cell of its path, tombstone or hole; it never searches the whole table in vain |
| HashMap.HashMap.AssignToCell | my_hash_map/my_hash_map.h:835-841 | the map gains the key, the count grows by one, no tombstone appears |
| HashMap.HashMap.InsertWithoutDuplication | my_hash_map/my_hash_map.h:684-769 | inserts iff the key was absent, says so, and returns the key's cell; also when called in the middle of a rehash |
| HashMap.HashMap.Insert | my_hash_map/my_hash_map.h:664-677 | the key has the new value afterwards, whether or not it was present; returns its cell |
| HashMap.HashMap.ReinsertPair | my_hash_map/my_hash_map.h:983-987 | during a rehash a nested Resize happens only beyond the stale threshold |
| HashMap.HashMap.Resize | my_hash_map/my_hash_map.h:958-994 | keeps the map, clears all tombstones, leaves an empty cell exactly when the size asked for exceeds the number of keys or a nested resize enlarges the table, and terminates although it calls insert; no nested resize from a state in which the pairs do not exceed the threshold, and the next state is such again exactly when the new size is at least twice the number of pairs |
| HashMap.HashMap.Delete | my_hash_map/my_hash_map.h:847-910 | removes the key and says whether it was present; counts one more tombstone in the same arrays, or rehashes exactly when that reaches the threshold |
| HashMap.HashMap.IndexOrInsert | my_hash_map/my_hash_map.h:568-573 | the key's cell, holding the default value if the key was absent |
| HashMap.HashMap.AssignThrough | my_hash_map/my_hash_map.h:568-573 | table[key] = value sets the value of the key |
| HashMap.HashMap.Clear | my_hash_map/my_hash_map.h:996-1006 | the empty map, in the same arrays |
| HashMap.HashMap.SetResizeRatio | my_hash_map/my_hash_map.h:653-654 | changes the threshold and keeps the map |
| HashMap.HashMap.PostIncrement | my_hash_map/my_hash_map.h:497-510 | hands out the next stored pair and stops at the one after it, or at the end |
| HashMap.HashMap.AllPairs | my_hash_map/my_hash_map.h:487-510 | iteration from begin() to end() yields every stored pair exactly once |
| HashMap.Perform | my_hash_map/my_hash_map.h:568-910 | each operation gives the answer and the map of the mathematical operation, and keeps the recorded tombstones none or below the threshold |
| HashMap.Run | my_hash_map/my_hash_map.h:561-783 | every run from a fresh table gives the answers of a mathematical map and leaves a table that holds it; at ratio one half the pairs never exceed the threshold, so the stale threshold never fires |
| HashMap.Overtaken | my_hash_map/my_hash_map.h:684-689 | at ratio 0.4 a run reaches a table with more pairs than its threshold, so there the stale threshold does fire |
| ScannerTables.TablesDecode | ConfigurationFile/src/lex.yy.cpp:372-456 | the compressed tables encode exactly the decoded transition function |
| ScannerTables.LookupRound | ConfigurationFile/src/lex.yy.cpp:885-890 | one round down the default chain keeps the looked-up entry and shortens the chain |
| Scanner.AcceptMeaning | ConfigurationFile/src/lex.yy.cpp:372-378 | the rule a state accepts is the first rule that matches any string leading to it |
| Scanner.ReachStep | ConfigurationFile/src/lex.yy.cpp:876-894 | a transition keeps what a state says about the text read |
| Scanner.DeadEnd | ConfigurationFile/src/lex.yy.cpp:894 | where the loop stops, no longer text can be a token |
| Scanner.NextState | ConfigurationFile/src/lex.yy.cpp:885-891 | the inner loop over default states computes the decoded transition |
| Scanner.MatchToken | ConfigurationFile/src/lex.yy.cpp:862-904 | the match loop with back-up returns the longest matching token and its rule, at least one character |
| Lexer.LexStep | ConfigurationFile/src/lex.yy.cpp:917-1087 | a known longest match peels one token off the front of the text |
| Lexer.NextToken | ConfigurationFile/src/lex.yy.cpp:862-1087 | one scanner call consumes at least one character and yields the first token of the text |
| Lexer.Tokenize | ConfigurationFile/src/lex.yy.cpp:862-1087 | the scanner called to the end gives all longest-match tokens of the text |
| Derivations.DerivationIsRead | ConfigurationFile/src/y.tab.cpp:448-463 | reading the tokens of a derivation gives the value of the derivation, or fails if an action fails; so the value does not depend on the derivation |
| Derivations.ParseIsDerivation | ConfigurationFile/src/y.tab.cpp:1407-2092 | the parse gives a configuration iff the 19 rules derive the tokens by a tree with that value |
| ParserTables.ErrorTokenIsNeverShifted | ConfigurationFile/src/y.tab.cpp:2224-2251 | no state shifts the error token |
| ParserTables.TablesDecode | ConfigurationFile/src/y.tab.cpp:514-556 | the action tables encode exactly the decoded moves |
| ParserTables.GotoDecode | ConfigurationFile/src/y.tab.cpp:2116-2122 | every goto is the default goto |
| Parser.StackDepth | ConfigurationFile/src/y.tab.cpp:1246-1305 | the stack that its top state determines holds at most 16 entries; the driver keeps its stack of this form (Parser.ReduceBy and the loop invariant of Parser.YyParse) |
| Parser.StackPop | ConfigurationFile/src/y.tab.cpp:2106-2124 | popping uncovers the stack of the state below |
| Parser.ShiftStep | ConfigurationFile/src/y.tab.cpp:1364-1376 | a shift reads exactly one token |
| Parser.ReduceStep | ConfigurationFile/src/y.tab.cpp:1391-2124 | a reduction reads nothing: the outcome of the remaining tokens stays the same |
| Parser.ReduceBy | ConfigurationFile/src/y.tab.cpp:1391-2124 | pops the right side, runs the action and enters the right state; aborts only if the parse has no result |
| Parser.Recover | ConfigurationFile/src/y.tab.cpp:2224-2251 | error recovery unwinds the whole stack |
| Parser.YyParse | ConfigurationFile/src/y.tab.cpp:1238-2290 | the driver terminates and its result is the parse of the tokens |
| SectionDates.GoodDateIsValid | Configuration/src/ConfigurationSection.cpp:1500-1523 | a dddd/dd/dd text is accepted exactly if its year starts with 19 or with 2 to 9, its month is one of 01 to 12 and its day one of 01 to 31 |
| SectionDates.DatedSection | ConfigurationFile/src/y.tab.cpp:1503-1640 | the six tokens of a dated section give that section if the date is good, and abort otherwise |
| SectionDates.LoadDated | ConfigurationFile/src/y.tab.cpp:1238-2290 | the same from the text, through the scanner and the table-driven parser |
| Writer.WriteComment | Configuration/src/ConfigurationItem.cpp:1201-1307 | one prefixed line per comment line |
| Writer.WriteValues | Configuration/src/ConfigurationItem.cpp:1320-1720 | none, one or several values, with the quoting rules of each form |
| Writer.WriteItem | Configuration/src/ConfigurationItem.cpp:1189-1724 | the text of an item |
| Writer.WriteSection | Configuration/src/ConfigurationSection.cpp:1246-1497 | the text of a section |
| Writer.WriteConfig | Configuration/src/Config.cpp:2155-2178 | the text of a configuration |
| Writer.SectionTextGrows | Configuration/src/ConfigurationSection.cpp:1471-1494 | one item more adds the text of the item and a line feed; without items the text ends with the line feed of the header |
| Writer.ConfigTextGrows | Configuration/src/Config.cpp:2155-2178 | one section more adds the text of the section |
| Writer.OneItemText | Configuration/src/ConfigurationSection.cpp:1246-1497 | the whole text of a section with one item, for any unquoted names and value |
| Writer.FullSectionText | Configuration/src/ConfigurationSection.cpp:1246-1497 | the header of a section with a comment and a date |
| Writer.FullItemText | Configuration/src/ConfigurationItem.cpp:1189-1724 | the text of an item with a comment and two values, and of one without values |
| Writer.CommentLine | Configuration/src/ConfigurationItem.cpp:1201-1307 | every line break of a comment starts a new prefixed line |
| PrintedTokens.LexQuoted | ConfigurationFile/src/lex.yy.cpp:983-998 | a quoted string is scanned as one STRING up to its own closing quote |
| PrintedTokens.LexRaw | ConfigurationFile/src/lex.yy.cpp:917-1050 | an unquoted string is scanned as the words between its commas |
| SavedTokens.LexConfig | Configuration/src/Config.cpp:2155-2178 | the printed text of a legal configuration is scanned as the expected tokens and nothing else |
| Legality.LoadIsLegal | ConfigurationFile/src/lex.yy.cpp:983-1052 | whatever is loaded from any text uses only the characters tokens can carry |
| Storable.NormIsNormal | Configuration/src/ConfigurationItem.cpp:1410-1424 | the normal form is stable and keeps storable configurations storable |
| RoundTrip.FeedValues | Configuration/src/ConfigurationItem.cpp:1320-1720 | the printed values of an item are read back as they are iff they are storable |
| RoundTrip.FeedItem | Configuration/src/ConfigurationItem.cpp:1189-1724 | a printed item is read back as its normal form iff it is storable |
| RoundTrip.FeedSection | Configuration/src/ConfigurationSection.cpp:1246-1497 | a printed undated section is read back as its normal form iff it is storable |
| RoundTrip.DateIsLost | Configuration/src/ConfigurationSection.cpp:1420-1458 | a printed section date never comes back |
| RoundTrip.ReadConfig | Configuration/src/Config.cpp:2155-2178 | the tokens of a printed configuration are read back as its normal form iff it is storable |
| RoundTrip.SaveLoad | Configuration/src/Config.cpp:2155-2178 | parse(lex(write(c))) is the normal form of c iff c is storable, for every configuration |
| RoundTrip.SecondSaveLoad | Configuration/src/Config.cpp:2155-2178 | further saves and loads change nothing |
| RoundTrip.TextDeterminesConfig | Configuration/src/Config.cpp:2155-2178 | storable configurations with the same text have the same normal form |
| RoundTrip.DatesDoNotSurvive | Configuration/src/ConfigurationSection.cpp:1420-1458 | a dated section that does not come back |
| RoundTrip.CommasInListsDoNotSurvive | Configuration/src/ConfigurationItem.cpp:1616-1672 | a list value with a comma that does not come back |
| RoundTrip.SaveAndLoad | ConfigurationFile/src/y.tab.cpp:1238-2290 | the printer, the scanner and the parser run one after the other restore the normal form iff it is storable |
| ConfigItems.ConfigurationItem.InsertItemValue | Configuration/src/ConfigurationItem.cpp:264-437 | list insertion at the index, or at the end if it is larger; the capacity grows by one step exactly when it was full |
| ConfigItems.InsertedMeans | Configuration/src/ConfigurationItem.cpp:374-423 | the new value is at the index or at the end, and the others keep their order around it |
| ConfigItems.SameNameMeans | Configuration/src/ConfigurationItem.cpp:239-262 | names are compared as they are if the object is case sensitive, and otherwise letter by letter up to the case of A to Z |
| ConfigItems.ConfigurationItem.ShiftIn | Configuration/src/ConfigurationItem.cpp:374-423 | the shifting loop moves every later value up by one |
| ConfigItems.ConfigurationItem.AppendItemValue | Configuration/src/ConfigurationItem.cpp:440-445 | the value is added at the end |
| ConfigItems.ConfigurationItem.BuildByInsertions | Configuration/src/ConfigurationItem.cpp:264-437 | any run of insertions is the same run on a list, within a capacity of whole steps |
| ConfigItems.ConfigurationItem.Copy | Configuration/src/ConfigurationItem.cpp:889-1071 | same name, comment, case flag and ordered values in new storage |
| ConfigSections.ConfigurationSection.AppendCfgItem | Configuration/src/ConfigurationSection.cpp:303-454 | a copy of the item at the end, all else unchanged, growth invisible |
| ConfigSections.ConfigurationSection.FindItem | Configuration/src/ConfigurationSection.cpp:927-963 | the first item whose name is equal or, if the item is not case sensitive, equal up to the case of A to Z |
| ConfigSections.ConfigurationSection.AppendToItem | Configuration/src/Config.cpp:806-819 | a value appended through the pointer changes that item only |
| ConfigSections.ConfigurationSection.Copy | Configuration/src/ConfigurationSection.cpp:966-1176 | same name, comment, date, case flag and items in new storage |
| ConfigStore.AppendThenFind | Configuration/src/Config.cpp:598-825 | after an append, looking up two names gives what it gave, and the new value at the end exactly if they find the section and the item the append found or created, whatever rules these compare names by |
| ConfigStore.RunIsMultimap | Configuration/src/Config.cpp:598-825 | after any run of appends the values under two names are exactly those appended under matching names, in order |
| ConfigStore.RunByNames | Configuration/src/Config.cpp:598-825 | the same without the comparison function: equal names with case sensitivity, names equal up to the case of A to Z without |
| ConfigStore.OnlyValuesChange | Configuration/src/Config.cpp:598-825 | an append changes nothing but the values of one item; a created item or section has its name, the value and nothing else |
| ConfigStore.Configuration.AppendCfgSection | Configuration/src/Config.cpp:216-370 | a copy of the section at the end, all else unchanged, growth invisible |
| ConfigStore.Configuration.FindSection | Configuration/src/Config.cpp:616-623 | the first section whose name is equal or, if the section is not case sensitive, equal up to the case of A to Z |
| ConfigStore.Configuration.AppendItemValue | Configuration/src/Config.cpp:598-825 | find or create the section and the item, append the value, change nothing else |
| ConfigStore.Configuration.RemoveCfgSection | Configuration/src/Config.cpp:373-500 | the last section takes the place of the removed one; it fails with the object broken exactly when the section to remove is the last |
| ConfigStore.WithoutSectionMeans | Configuration/src/Config.cpp:436-500 | the removal leaves the last section in the removed place and the others where they were |
| ConfigStore.Configuration.Copy | Configuration/src/Config.cpp:2030-2135 | same name, case flag and sections in new storage |
| ConfigStore.Configuration.BuildByAppends | Configuration/src/Config.cpp:598-825 | the object built by any run of appends answers every lookup with the values of that run |
| ErrMsg.ExpandPlain | ErrMsg/src/ErrMsgBase.cpp:536-564 | text between percent signs is copied |
| ErrMsg.RoundTakes | ErrMsg/src/ErrMsgBase.cpp:541-616 | one round of the loop takes what the count of arguments says of its percent sign |
| ErrMsg.TakenWithinCount | ErrMsg/src/ErrMsgBase.cpp:566-616 | never more arguments are taken than were announced, whatever the mix of directives |
| ErrMsg.ServedUnlessStarved | ErrMsg/src/ErrMsgBase.cpp:541-616 | all conversions that have an argument get it iff no conversion lies beyond the count while arguments remain |
| ErrMsg.IdealUnlessStarved | ErrMsg/src/ErrMsgBase.cpp:536-957 | unless that happens the message is the one a printf-like function gives |
| ErrMsg.DoubledPercentStarves | ErrMsg/src/ErrMsgBase.cpp:566-592 | a doubled percent sign takes the place of the only argument |
| ErrMsg.Decimal64 | ErrMsg/src/ErrMsgBase.cpp:619-627 | a printed 64-bit number, signed or unsigned, fits the scratch buffer |
| ErrMsg.DigitAt | ErrMsg/src/ErrMsgBase.cpp:626 | the i-th character of a printed number from the right is its digit for the i-th power of ten |
| ErrMsg.DigitsCount | ErrMsg/src/ErrMsgBase.cpp:626 | there are as many digits as needed, without a leading zero |
| ErrMsg.DecimalIsSigned | ErrMsg/src/ErrMsgBase.cpp:626 | a minus sign exactly before a negative number, then the digits of its absolute value |
| ErrMsg.HeaderSample | ErrMsg/src/ErrMsgBase.cpp:514-532 | a whole header, character by character |
| ErrMsg.OneConversion | ErrMsg/src/ErrMsgBase.cpp:616-935 | a conversion that stands alone becomes the text of its argument |
| ErrMsg.NumberNames | ErrMsg/src/ErrMsgBase.cpp:616-790 | the letters of the integer conversions, and which are unsigned |
| ErrMsg.OtherNames | ErrMsg/src/ErrMsgBase.cpp:790-935 | the letters of the other conversions, and some that are none |
| ErrMsg.HeaderFitsExactly | ErrMsg/src/ErrMsgBase.cpp:508-532 | the header stays within the first request iff code and line are short enough; 16 digits each always are |
| ErrMsg.Reserve | ErrMsg/src/ErrMsgBase.cpp:990-1043 | room for the text and its terminator; grows exactly when the blocks are used up and leaves at most 33 bytes over |
| ErrMsg.Recognise | ErrMsg/src/ErrMsgBase.cpp:616-935 | the chain of character tests recognises exactly the known conversions |
| ErrMsg.AppendText | ErrMsg/src/ErrMsgBase.cpp:543-564 | every append stays within capacity and the running length is the string length |
| ErrMsg.ErrMsgBase.Step | ErrMsg/src/ErrMsgBase.cpp:566-935 | one percent sign becomes its text (integers read with or without a sign as the conversion says), and the format and argument positions advance as specified |
| ErrMsg.ErrMsgBase.ExpandInto | ErrMsg/src/ErrMsgBase.cpp:536-957 | the loop leaves the header followed by the expansion in the buffer, and takes exactly the counted arguments, never more than were announced |
| ErrMsg.ErrMsgBase.BuildMessage | ErrMsg/src/ErrMsgBase.cpp:440-962 | fails iff the class name or the format is missing; otherwise the message is the header and the expansion |
| Sessions.InvReachable | ConnectionsManager/src/Session.cpp:162-1400 | in every interleaving a snapshot's token is the accept time of the connection it was taken of, or zero |
| Sessions.TimesReached | ConnectionsManager/src/Session.cpp:1186 | in every interleaving an active slot has the time at which its connection was accepted, and that of its last read that answered Ok, or of its acceptance if there was none |
| Sessions.PassesExactly | ConnectionsManager/src/Session.cpp:947-971 | on an active slot the check passes iff the accept times of the two connections are equal |
| Sessions.TokenIdentifiesConnection | ConnectionsManager/src/Session.cpp:1226-1250 | with distinct accept times a read or write gets through iff its copy was taken of the current connection, even after reuse |
| Sessions.NoEmptyTokensReached | ConnectionsManager/src/ConnectionEvent.cpp:57-66 | in every careful run an open socket belongs to an active slot and no copy has an empty token |
| Sessions.InactiveSlotRefuses | ConnectionsManager/src/Session.cpp:947-953 | in every careful run the check refuses, without effect, every read and write on a slot that is not active |
| Sessions.LateCopyIsRefused | ConnectionsManager/src/Session.cpp:947-971 | a careful run that ends with the copy of a connection closed meanwhile, on a slot that is not active |
| Sessions.StaleChangesNothing | ConnectionsManager/src/Session.cpp:947-971 | a refused operation leaves everything as it was |
| Sessions.OkExactly | ConnectionsManager/src/Session.cpp:162-1400 | which steps answer Ok |
| Sessions.DescriptorChanges | ConnectionsManager/src/Session.cpp:162-851 | accepting and releasing, and nothing else, change the descriptor of a slot |
| Sessions.PoolGains | ConnectionsManager/src/Session.cpp:1060-1390 | a descriptor enters the pool exactly by a finished response or a read that timed out, with a current copy and room |
| Sessions.PoolLoses | ConnectionsManager/src/CMSocketsPool.cpp:290-420 | a descriptor leaves the pool exactly by a release that asks for it or a queued event |
| Sessions.PoolBoundedReached | Socket/src/SocketsPool.cpp:1625-1650 | in every interleaving the pool stays within its maximum |
| Sessions.EqualTimesDefeatTheToken | ConnectionsManager/src/Session.cpp:249-251 | a run in which a slot is reused with the same accept time and an old copy gets through |
| Sessions.EmptyTokenPasses | ConnectionsManager/src/Session.cpp:130-136 | a run in which a copy of a slot that was reset with its socket in the pool gets past the check |
| Sessions.OpenDistinctReached | Socket/src/SocketImpl.cpp:789-800 | in every interleaving no two slots have the same open descriptor |
| Sessions.SweptExactly | ConnectionsManager/src/CMProcessor.cpp:2084-2188 | the sweep closes exactly the idle connections that wait in the pool, clears the times of the idle ones that were free already, makes all idle slots free and leaves the others alone |
| Sessions.SweptByHistory | ConnectionsManager/src/CMProcessor.cpp:2084-2188 | the same by the history of the run: idle are the connections from which nothing was read for the given time |
| Sessions.SweepIsRun | ConnectionsManager/src/CMProcessor.cpp:2084-2188 | a sweep is a run of releases and resets, so all laws about reached states hold after it |
| SessionSlots.SocketsPool.AddSocket | Socket/src/SocketsPool.cpp:1545-1767 | refuses a descriptor that is already there and one beyond the maximum |
| SessionSlots.SocketsPool.DeleteSocket | Socket/src/SocketsPool.cpp:1770-1900 | refuses a descriptor that is not there |
| SessionSlots.Session.AcceptConnection | ConnectionsManager/src/Session.cpp:162-680 | sets both times and the descriptor on success, clears them if the setup fails, loses the descriptor if accept() fails |
| SessionSlots.Session.ReleaseConnection | ConnectionsManager/src/Session.cpp:683-851 | clears the times last, and nothing at all if the socket is not in the pool |
| SessionSlots.Session.ReadRequest | ConnectionsManager/src/Session.cpp:922-1200 | the token check, then for each outcome of the read what happens to the times and the pool |
| SessionSlots.Session.WriteResponse | ConnectionsManager/src/Session.cpp:1203-1400 | the token check, then the socket returns to the pool iff the response is finished and written |
| SessionSlots.Server.UpdateSocketStatus | ConnectionsManager/src/CMSocketsPool.cpp:102-422 | nothing if the socket is not ready or no event is free; else the event takes a snapshot and the socket leaves the pool; undone if the event cannot be queued or the socket has left the pool |
| SessionSlots.Server.Sweep | ConnectionsManager/src/CMProcessor.cpp:2084-2188 | the loop over all slots does what the sweep is specified to do, and stops at a socket that cannot be closed |
| SessionSlots.Server.Perform | ConnectionsManager/src/Session.cpp:162-1400 | every call is one step of the rules |
| SessionSlots.Drive | ConnectionsManager/src/Session.cpp:162-1400 | operations in any order lead to a state reached by the rules, to which all laws about reached states apply |

## Left out

- Resize ratios above one half: the table can then fill up, and the fallback of the insertion loop writes to the last probed cell.
- Table sizes that overflow 32 bits, and the floating-point rounding of maxLength * resizeRatio: sizes are unbounded and the ratio is a real number.
- The shipped hash functors: the hash is an arbitrary function of the key, the second hash any odd one.
- Prefix `++` of the iterator, `operator <<` and the destructor of the table.
- A NUL inside a configuration text, and characters beyond 8 bits, behave like ordinary characters; the refilling of the scanner's buffer and `yyunput` are not modelled.
- Numbering of source lines in error messages, and the messages of `yyerror` themselves.
- Allocation failures and the ownership of the parser's semantic values: the actions work on values, not on the objects of `ConfigStore`; the allocation sizes they pass as case flags are not modelled.
- Validation of dates by `sscanf` is restated for the dddd/dd/dd texts the scanner produces.
- Case-insensitive comparison folds the letters A to Z only.
- Negative indices of `insertItemValue`, the status checks (`CFG_OPERATIONNOTALLOWED`) and the mutexes of the configuration classes; an array cell whose object has not been initialised is null.
- `appendCfgItem` and the get and modify methods of `Config`: they add only easy members.
- ErrMsg.ErrMsgBase.BuildMessage: asks for arguments that agree with the conversions, no NUL character argument, and code and line short enough for the header; a floating-point argument is given by its printed text of at most 32 characters.
- The fast form of `buildMessage`, the form without arguments, user data, and the error tables.
- What the system does with descriptors: a new one is any that no slot has open; data waiting on a socket, failing polls and closes are parameters.
- Allocation failures when a closed socket is initialised again, and the statistics of the sweep (its count of free sessions).
- Locking itself (every method is one atomic step), socket input and output (their outcomes are parameters), the clock (times are parameters), and the processors that take sessions out of the free map; the sweep's use of that map is modelled.
