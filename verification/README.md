# A model of rAthena's stateful core

rAthena is a game server written in C. This project models the parts of it that keep state or
transform data in ways that are hard to get right, and proves what they are for:

- **libconfig** (`Config*.dfy`): the writer, the scanner, the table-driven LALR parser with its
  actions, the settings in memory, lookup by path, and the deep copy of `conf.c`. The parser is
  proved to decide its grammar from the packed tables, and writing and reading are proved to be
  inverse.
- **The random numbers** (`MersenneTwister.dfy`): an array overwritten in place, against an infinite
  recurrence.
- **GRF archives** (`Des.dfy`, `GrfCipher.dfy`, `GrfIndex.dfy`): a one-round DES variant, the schedule
  of enciphered and shuffled blocks, and the chained hash index, against a plain map.
- **The entry reusage system** (`Ers.dfy`): blocks, a bump counter and a list of freed entries threaded
  through the entries, with caches shared by all managers of one size.
- **Saving by difference** (`ItemSync.dfy`, `QuestSync.dfy`): rows are matched with memory and updated,
  deleted or inserted; the result is what memory asked for.
- **Auctions and mail** (`Totals.dfy`, `Auctions.dfy`, `AuctionServer.dfy`): an escrow protocol over which
  zeny and items are conserved.
- **Char server protocols** (`Party.dfy`, `GuildSaver.dfy`, `GuildLevels.dfy`, `Whispers.dfy`,
  `FameList.dfy`): derived fields kept step by step, a fair saving timer, levelling, answers collected
  from several servers, a ranking.

Code that changes state is modelled by classes and by methods on arrays. Their contracts tie the new
state to functions of the old one, and lemmas prove about those functions what the source promises.
A database statement, or the fetching of a row, either takes effect or fails, at the choice of the
environment, in `ItemSync` and `QuestSync`; in `Auctions` every statement succeeds.

Some things the code does differ from what one would expect of it. In each case the model follows the
code, a lemma gives a concrete input or the exact condition, and the results say when the expected
property holds:

- `config_lookup_from` returns the setting reached so far for a path that ends in a bare bracket
  (`ConfigLookup.BracketFindsTheRoot`, `ConfigLookup.FoundIsResolved`).
- `config_setting_copy` loses elements of arrays whose elements differ in type, or dereferences NULL
  (`ConfigCopy.MixedArrays`, `ConfigCopy.CopyIsFaithful`, `ConfigCopy.CopyFaults`).
- A quest save reports success although the old quests could not be read
  (`QuestSync.FailedReadGoesUnnoticed`, `QuestSync.Save`); an item save likewise does not count a row
  that cannot be fetched (`ItemSync.FailedFetchGoesUnnoticed`, `ItemSync.SaveRows`).
- `ers_obj_alloc_entry` computes in 32 bits, which is too little for blocks of 4 GB
  (`Ers.BlocksHoldTheirEntries`).
- `int_party` misses a level report from inside the range to beyond it (`Party.RangeGoesStale`,
  `Party.PartyData.ChangeMap`).
- An update that lowers a listed player's fame can put the player one place too low
  (`FameList.OnePlaceTooLow`, `FameList.UpdateSorts`).
- With a rate other than 100 percent a guild's share of experience depends on how the gains are split
  (`GuildLevels.RoundingLoses`, `GuildLevels.SharesAddUp`, `GuildLevels.GainedTwice`).

The comment above `ers_new` (`src/common/ers.h:141-147`) says that the aligned size of the entry is used;
the code also adds the link, and the model follows the code. The expansion and the permutations of
`Des` are those of FIPS PUB 46-3, "Enciphering" and "The Cipher Function f", in the modified form of
`des.c`; the recurrence of `MersenneTwister` is that of section 26.5.3.2 of ISO C++11.

## Model

| member | source | states |
|---|---|---|
| ConfigTables.ShiftFollowsEdge | 3rdparty/libconfig/grammar.c:603-649 | Every shift the packed tables encode follows an edge of the automaton, so that the states on the stack always spell a prefix of a sentence. |
| ConfigTables.ReduceMatches | 3rdparty/libconfig/grammar.c:564-649 | Whenever a state has a default rule, the top of the stack spells that rule's right-hand side, the goto for its left-hand side exists, and a rank falls: reductions cannot underflow the stack or go on for ever. |
| ConfigTables.LookStep | 3rdparty/libconfig/grammar.c:512-649 | A lookahead that may follow a symbol may follow whatever that symbol can end in: the lookaheads are closed under the grammar. |
| ConfigTables.LookReduces | 3rdparty/libconfig/grammar.c:584-638 | At the end of a rule every lookahead that may follow makes the driver reduce by just that rule, although the tables hold only default reductions. |
| ConfigParser.DefaultReduces | 3rdparty/libconfig/grammar.c:1392-1454 | All reductions of this automaton are default reductions. |
| ConfigParser.ReducedGood | 3rdparty/libconfig/grammar.c:1460-1808 | A reduction leaves a viable stack and lowers the measure that makes the driver terminate. |
| ConfigDerivation.Complete | 3rdparty/libconfig/grammar.c:1360-1810 | From any viable state that expects a symbol, the driver reads any text derived from it, runs exactly the actions of the derivation, and stands in the goto state; it fails only if the stack is exhausted or an action gives up. |
| ConfigDerivation.Sound | 3rdparty/libconfig/grammar.c:1360-1810 | Whenever the driver accepts, the tokens have a derivation in the grammar encoded in the tables, and the context is the effect of that derivation's actions. |
| ConfigDerivation.ParserDecidesGrammar | 3rdparty/libconfig/grammar.c:1307-1870 | The table-driven parser accepts with a context if and only if the tokens have a derivation that fits a stack of 10000 and whose actions give that context. |
| ConfigMeaning.ParserBuildsMeaning | 3rdparty/libconfig/grammar.c:1476-1784 | The parser accepts if and only if some derivation that fits the stack has a meaning (no duplicate names, one type per array), and what it has built is that meaning, with the root open again. |
| ConfigMeaning.ParsedTreeWellFormed | 3rdparty/libconfig/grammar.c:1476-1784 | Whatever is accepted is well formed: valid and distinct names in groups, no names in lists and arrays, one scalar type per array, nothing untyped. |
| ConfigSafety.ReduceUsable | 3rdparty/libconfig/grammar.c:1476-1784 | In every state in which an action can run, what it dereferences is there: an open aggregate, a setting waiting for its value, a second open aggregate to return to, a token of the right kind. |
| ConfigSafety.ReduceConsistent | 3rdparty/libconfig/grammar.c:1476-1784 | Every reduction keeps the agreement between the states on the stack and the open aggregates. |
| ConfigSafety.ShiftConsistent | 3rdparty/libconfig/grammar.c:1418-1444 | Every shift keeps that agreement. |
| ConfigText.ParsePrinted | 3rdparty/libconfig/libconfig.c:183-211 | What %d and %lld print is read back as the same number. |
| ConfigText.HexPrinted | 3rdparty/libconfig/scanner.c:1158-1170 | What %X and %llX print of a negative or positive number is read back as the same 32-bit or 64-bit number, through unsigned conversion and wrap-around. |
| ConfigLexing.LexName | 3rdparty/libconfig/scanner.c:1128-1142 | A valid name is one token: a name, or a boolean if it spells true or false in some letter case; longest match decides. |
| ConfigLexing.LexString | 3rdparty/libconfig/scanner.c:987-1050 | An escaped byte string is one token that holds the original bytes. |
| ConfigLexing.LexHex64 | 3rdparty/libconfig/scanner.c:1166-1170 | A hexadecimal number with the suffix L is one 64-bit token. |
| ConfigTokens.LexSetting | 3rdparty/libconfig/libconfig.c:634-656 | The text written for a setting, followed by anything, is scanned to the setting's tokens followed by those of the rest, at every depth and in every style. |
| ConfigTokens.CanonicalIsNormal | 3rdparty/libconfig/libconfig.c:176-257 | A tree is its own normal form if and only if its booleans are 0 or 1, its strings are present, and no number leaves its format to a default other than decimal. |
| ConfigTrees.SettingTreeRight | 3rdparty/libconfig/grammar.c:503-579 | The tokens of a written setting have a derivation that means the setting in normal form, and the stack it needs depends on the nesting only. |
| ConfigNames.StrayValue | 3rdparty/libconfig/scanner.c:1127-1140 | If some setting is called true or false, the tokens written contain an equals sign that does not follow a name. |
| ConfigRoundTrip.LexConfig | 3rdparty/libconfig/libconfig.c:660-667 | The whole text written is scanned to the tokens of the members of the root. |
| ConfigRoundTrip.ParseStray | 3rdparty/libconfig/grammar.c:512-649 | Tokens with such an equals sign are rejected. |
| ConfigRoundTrip.RoundTrip | 3rdparty/libconfig/libconfig.c:170-394 | Writing any well-formed tree without floats and reading the text back gives the tree in normal form if no name spells true or false and the nesting fits the parser's stack; otherwise reading fails. |
| ConfigRoundTrip.RoundTripExact | 3rdparty/libconfig/libconfig.c:634-667 | The very same tree comes back if and only if, moreover, the tree is its own normal form. |
| ConfigSettings.NameCompare | 3rdparty/libconfig/libconfig.c:130-152 | Names are equal if and only if they agree up to the first path separator. |
| ConfigSettings.ValidateName | 3rdparty/libconfig/libconfig.c:532-549 | A name is accepted if and only if it has the form of a name token. |
| ConfigSettings.Config.Search | 3rdparty/libconfig/libconfig.c:413-438 | The first child of that name is found, and nothing if and only if there is none. |
| ConfigSettings.Config.GetMember | 3rdparty/libconfig/libconfig.c:1476-1483 | The first member of that name, for groups only. |
| ConfigSettings.Config.GetElem | 3rdparty/libconfig/libconfig.c:1458-1472 | The element at an index, or nothing beyond the end. |
| ConfigSettings.Config.Create | 3rdparty/libconfig/libconfig.c:755-782 | A new setting becomes the last child; settings that are not aggregates are refused. |
| ConfigSettings.Config.Add | 3rdparty/libconfig/libconfig.c:1524-1546 | Adding fails, and changes nothing, if and only if the parent is no aggregate, the name is not valid, or a group has the name already; names are dropped inside lists and arrays. A NULL name may be given to a group without named children; with one it would be dereferenced. |
| ConfigSettings.Config.Set | 3rdparty/libconfig/libconfig.c:977-1036 | The typed setters, branch by branch, store what their specification says, or fail and change nothing. |
| ConfigSettings.StoredMeans | 3rdparty/libconfig/libconfig.c:977-1095 | A value is taken if and only if the setting has its type, or none yet, or is a 32-bit number given a 64-bit one, which becomes 0 if it does not fit; a format is kept. |
| ConfigSettings.Config.SetFormat | 3rdparty/libconfig/libconfig.c:1120-1130 | The format changes for numbers only. |
| ConfigSettings.Config.CheckType | 3rdparty/libconfig/libconfig.c:509-528 | An array takes only its first element's type. |
| ConfigSettings.Config.AppendElem | 3rdparty/libconfig/libconfig.c:1259-1286 | An element is appended if and only if the vector is a list or an array of that type; on failure nothing changes. |
| ConfigSettings.Config.SetElem | 3rdparty/libconfig/libconfig.c:1259-1286 | An element is overwritten if and only if it exists and its type agrees; on failure nothing changes. |
| ConfigReader.Scanner.NextToken | 3rdparty/libconfig/scanner.c:957-1215 | Token after token the scanner delivers the token sequence of the text, through comments and strings. |
| ConfigReader.ParseContext.Action | 3rdparty/libconfig/grammar.c:1476-1784 | On the settings in memory each action does what its specification on open frames says, and fails exactly when that does. |
| ConfigReader.Parser.MakeRoom | 3rdparty/libconfig/grammar.c:1315-1374 | The stacks grow without losing anything, up to 10000 states. |
| ConfigReader.Parser.DoReduce | 3rdparty/libconfig/grammar.c:1457-1810 | A reduction in place keeps the outcome of the whole run and lowers the termination measure. |
| ConfigReader.Parser.YyParse | 3rdparty/libconfig/grammar.c:1307-1870 | The loop over the two stacks ends, and accepts if and only if its specification does, with the same context. |
| ConfigReader.ReadString | 3rdparty/libconfig/libconfig.c:627-630 | Reading a string succeeds if and only if the specification reads it, and the settings in memory are then that tree. |
| ConfigPrinter.Stream.PutString | 3rdparty/libconfig/libconfig.c:247-293 | Character by character the escaped text is appended. |
| ConfigPrinter.WriteValueTo | 3rdparty/libconfig/libconfig.c:170-394 | The text appended for a value is the specified one, whatever was in the stream. |
| ConfigPrinter.WriteListTo | 3rdparty/libconfig/libconfig.c:295-351 | The loop over the elements appends the text of the list or array. |
| ConfigPrinter.WriteGroupTo | 3rdparty/libconfig/libconfig.c:353-387 | The nested loop over the members appends the text of the group. |
| ConfigPrinter.WriteSettingTo | 3rdparty/libconfig/libconfig.c:634-656 | The text of one setting is appended. |
| ConfigPrinter.Write | 3rdparty/libconfig/libconfig.c:660-667 | The whole configuration is written as specified: this links the round trip to the settings in memory. |
| ConfigCopy.CopyIsFaithful | src/common/conf.c:27-107 | A copy equals its source if and only if names are in order (valid and new in groups, none elsewhere), every element of a list or array has a type, and the scalars of every array have the type of its first element. |
| ConfigCopy.CopyFaults | src/common/conf.c:54-72 | If names are in order, copying dereferences NULL if and only if some array has a 32-bit or 64-bit number of another type than its first element with a type. |
| ConfigCopy.MixedArrays | src/common/conf.c:54-72 | The concrete cases: an array of 1 and "x" is copied without its second element, and one of "x" and 1 cannot be copied. |
| ConfigCopy.ParsedIsFaithful | src/common/conf.c:27-107 | Whatever the parser has read is copied faithfully. |
| ConfigCopy.CopySimple | src/common/conf.c:27-52 | A setting is added to an aggregate with name, type, value and format, is refused for its name, or faults on a missing one; nothing else changes. |
| ConfigCopy.CopyElem | src/common/conf.c:54-72 | An element is appended to a list or array, is dropped if it has no type or, being no number, not the type of the array, and faults if it is such a number. |
| ConfigCopy.CopyAggregate | src/common/conf.c:75-94 | The copy of an aggregate with all it contains is appended; the mutually recursive calls leave everything but the new records alone, and fault exactly when the specification says. |
| ConfigCopy.Copy | src/common/conf.c:96-107 | For every source: copying appends one subtree that is the copy of the source, and changes nothing else, also within one configuration when the destination is outside the source; a group that has the name is left as it is; it faults exactly when the specification says. |
| ConfigLookup.LookupFrom | 3rdparty/libconfig/libconfig.c:1142-1171 | The loop that advances through the path computes the recursive specification of what is found. |
| ConfigLookup.FoundIsResolved | 3rdparty/libconfig/libconfig.c:1142-1171 | The lookup finds what the path leads to, and nothing if it leads nowhere, if and only if the path does not end in a segment of a single bracket behind a path that leads to a setting without an element 0. |
| ConfigLookup.BracketFindsTheRoot | 3rdparty/libconfig/libconfig.c:1142-1171 | The concrete case: in an empty configuration the path "[" finds the root. |
| ConfigLookup.FoundAtItsPath | 3rdparty/libconfig/libconfig.c:1142-1177 | Every setting is found at the path made of the names and indices from the root down to it. |
| ConfigLookup.PrunedTree | 3rdparty/libconfig/libconfig.c:442-457 | Removing a child takes just that child out of the tree and leaves settings outside it unchanged. |
| ConfigLookup.RemoveUndoesAdd | 3rdparty/libconfig/libconfig.c:1524-1568 | Removing the child just added restores the setting. |
| ConfigLookup.Remove | 3rdparty/libconfig/libconfig.c:1550-1568 | The first member of that name goes, and the call fails if and only if there is none. |
| ConfigLookup.RemoveElem | 3rdparty/libconfig/libconfig.c:1572-1594 | The element at an index goes, and the call fails if and only if there is none. |
| MersenneTwister.Generator.Init | 3rdparty/mt19937ar/mt19937ar.c:60-73 | After seeding, the array holds the first 624 words of the seed's sequence. |
| MersenneTwister.Generator.RenewNext | 3rdparty/mt19937ar/mt19937ar.c:117-126 | In the middle of the in-place batch, replacing one more word keeps the array split into new words before and old words behind, in all three segments. |
| MersenneTwister.Generator.Batch | 3rdparty/mt19937ar/mt19937ar.c:111-129 | A batch of in-place updates moves the array 624 words further along the infinite recurrence. |
| MersenneTwister.Generator.Next | 3rdparty/mt19937ar/mt19937ar.c:105-140 | Every draw is the tempered next word of the recurrence x(k + 624) = x(k + 397) xor twist(x(k), x(k + 1)), with the default seed if none was set. |
| MersenneTwister.Generator.Draw | 3rdparty/mt19937ar/mt19937ar.c:105-140 | Any number of draws, across any number of batches, yields the outputs in order without a gap. |
| MersenneTwister.TemperInvertible | 3rdparty/mt19937ar/mt19937ar.c:133-137 | Tempering is a bijection on 32-bit words. |
| MersenneTwister.OutputsRecur | 3rdparty/mt19937ar/mt19937ar.c:105-140 | The outputs follow a recurrence of their own. |
| MersenneTwister.SameWindowSameFuture | 3rdparty/mt19937ar/mt19937ar.c:105-140 | Two generators that agree on 624 consecutive outputs agree for ever, wherever they stand in their sequences. |
| Des.TablesInverse | src/common/des.c:24-61 | The tables of the initial and the final permutation are inverse to each other. |
| Des.PermutationsInverse | src/common/des.c:20-72 | The two permutations undo each other on all blocks. |
| Des.BranchesDifferByAShift | src/common/des.c:81-112 | The disabled branch of the expansion computes the enabled one shifted left by two. |
| Des.SextetIsIndex | src/common/des.c:104-111 | Every group of the expansion is below 64. |
| Des.ExpandedIsIndices | src/common/des.c:177-181 | So no substitution box is read out of bounds. |
| Des.CipherReadsRight | src/common/des.c:187-200 | The cipher function reads the right half of the block only. |
| Des.RoundUndoesItself | src/common/des.c:189-200 | The keyless round is its own inverse. |
| Des.DecryptIsInvolution | src/common/des.c:203-208 | Deciphering a block twice gives it back, for all blocks. |
| Des.IP | src/common/des.c:20-44 | The loop over the table permutes the bits of the block in place and leaves the rest of the buffer alone. |
| Des.FP | src/common/des.c:48-72 | The same for the final permutation. |
| Des.E | src/common/des.c:77-115 | The expansion by shifts yields the groups of the expansion table as numbers. |
| Des.EByTable | src/common/des.c:81-101 | The disabled loop over the expansion table yields the same groups in the high bits. |
| Des.SBOX | src/common/des.c:148-184 | Two groups make one byte, through one of four combined boxes. |
| Des.TP | src/common/des.c:119-143 | The transposition moves the bits of the left half to the right half. |
| Des.RoundFunction | src/common/des.c:189-200 | The round changes the block in place as specified, and nothing else in the buffer. |
| Des.DesDecryptBlock | src/common/des.c:203-208 | The whole block function in place, at any offset of a buffer. |
| GrfCipher.SubstitutionIsSymmetric | src/common/grfio.c:76-102 | The byte substitution undoes itself, as its comment says. |
| GrfCipher.ShufflesInverse | src/common/grfio.c:104-135 | The disabled grf_shuffle_enc and grf_shuffle_dec undo each other. |
| GrfCipher.CounterStep | src/common/grfio.c:169-187 | The counter of plain blocks, which starts one below zero in unsigned arithmetic, selects exactly the blocks of the schedule. |
| GrfCipher.DecodingIsBijective | src/common/grfio.c:138-228 | Decoding is undone by the same schedule with the inverse shuffle, and undoes it, for every buffer length, every mode and every cycle; bytes after the last whole block are untouched. |
| GrfCipher.HeaderUndoesItself | src/common/grfio.c:138-149 | Decoding a header twice gives the data back. |
| GrfCipher.CycleTable | src/common/grfio.c:209-215 | The cycles are those of the table in the comment. |
| GrfCipher.DigitsFromBounds | src/common/grfio.c:204-207 | The number of digits is determined by the powers of ten around the length. |
| GrfCipher.GrfShuffleDec | src/common/grfio.c:121-135 | A block is unshuffled in place. |
| GrfCipher.GrfDecodeHeader | src/common/grfio.c:138-149 | In place, the first 20 whole blocks are deciphered and no more. |
| GrfCipher.GrfDecodeFull | src/common/grfio.c:152-188 | The two loops over the buffer carry out the schedule, block by block in place. |
| GrfCipher.GrfDecode | src/common/grfio.c:196-228 | The flags and the length of an entry select the mode and the cycle. |
| GrfIndex.HashIgnoresCase | src/common/grfio.c:271-279 | Names that differ only in case fall into the same bucket. |
| GrfIndex.FileHash | src/common/grfio.c:271-279 | The loop computes the hash, in 32-bit arithmetic. |
| GrfIndex.FilesAre | src/common/grfio.c:282-295 | The map an index stands for has exactly the keys and files of its entries. |
| GrfIndex.ChainIsBucket | src/common/grfio.c:282-295 | Every chain has strictly decreasing indices, so it is acyclic, and holds exactly the entries of its bucket. |
| GrfIndex.FileIndex.constructor | src/common/grfio.c:263-268 | After hashinit the index is valid and stands for the empty map. |
| GrfIndex.FileIndex.Find | src/common/grfio.c:282-295 | The walk along the chain finds the entry the map has for the name without its case, and nothing if and only if the map has none. |
| GrfIndex.FileIndex.Add | src/common/grfio.c:306-327 | A new entry extends the map by one key, also when the array has to grow. |
| GrfIndex.FileIndex.Modify | src/common/grfio.c:330-341 | The map is updated at the name: in place if it is there, as a new entry otherwise. |
| GrfIndex.FileIndex.Compact | src/common/grfio.c:344-354 | Shrinking the array changes neither entries nor map. |
| GrfIndex.LastModifyWins | src/common/grfio.c:330-341 | After any run of modifications the map holds the last file given under each name. |
| Ers.ObjectSizeFits | src/common/ers.c:259-261 | The object size is the smallest multiple of the alignment that holds the link and the entry. |
| Ers.EntriesApart | src/common/ers.c:170-193 | In blocks shorter than 4 GB distinct entries share no byte with each other or with any link word, and lie within their block. |
| Ers.BlocksHoldTheirEntries | src/common/ers.c:175-192 | A block holds all its entries if and only if it is shorter than 4 GB; otherwise its length and the offsets wrap around. |
| Ers.LiveEntriesApart | src/common/ers.c:159-219 | Whatever has been allocated, freed and destroyed through any managers, no two entries in use, of one cache or of two, share a byte. |
| Ers.LiveEntryHoldsNoLink | src/common/ers.c:159-219 | Nor does an entry in use share a byte with a link of any list of freed entries. |
| Ers.Cache.Take | src/common/ers.c:170-193 | An entry handed out is not live, the three sources of entries are tried in order, and 4096 slots a block remain accounted for; the block array grows to four times its size and three. |
| Ers.Cache.Give | src/common/ers.c:216-217 | A freed entry heads the reuse list, whose links lead through all freed entries in order. |
| Ers.SlotsConserved | src/common/ers.c:159-219 | If no manager's count has wrapped, 4096 slots a block are the unused ones, those freed, the sum of the counts of the managers, and those left behind by managers destroyed. |
| Ers.AllocEntry | src/common/ers.c:159-198 | Allocating through any manager that shares a cache yields an entry nobody has, from the three sources in order, and counts it for that manager; nothing else in the cache changes. |
| Ers.FreeEntry | src/common/ers.c:200-219 | Freeing an entry in use, through whichever manager of its cache, puts it at the head of the freed ones and takes it from that manager's count; a missing entry changes nothing. |
| Ers.System.FindCache | src/common/ers.c:108-138 | There is at most one cache for every object size; an existing one is found, a new one heads the list. |
| Ers.System.New | src/common/ers.c:254-277 | A new manager joins the cache of its size, as it is, or an unused one that heads the list, and all caches stay sound. |
| Ers.System.Alloc | src/common/ers.c:159-198 | Allocation keeps every cache of the system sound, whatever the interleaving. |
| Ers.System.Free | src/common/ers.c:200-219 | So does freeing. |
| Ers.System.Destroy | src/common/ers.c:234-252 | The manager leaves its cache, whose other managers, entries in use and freed entries stay as they are, with what it had in use left behind; the cache leaves the list if and only if that was its last manager. |
| ItemSync.FindItem | src/char/char.c:612-622 | The first item not yet matched that is the same item, by its number and its cards other than the second. |
| ItemSync.HandleRow | src/char/char.c:608-662 | One row is kept, updated or deleted by at most one statement; afterwards it holds the matched item in every column, keeps its owner and unique_id, and no other row has changed. |
| ItemSync.LeftFlagged | src/char/char.c:650-651 | Flagging an item takes one copy of it from those still to be placed. |
| ItemSync.StoredAnyOrder | src/char/char.c:572-581 | The rows hold the same items in whatever order they are listed. |
| ItemSync.Completed | src/char/char.c:671-695 | The inserted rows complete the table to exactly the items in memory and the rows not fetched. |
| ItemSync.InsertRest | src/char/char.c:671-695 | The items no row stood for are inserted with one statement. |
| ItemSync.SaveRows | src/char/char.c:549-701 | For any starting rows: the result is the number of statements that failed. If none did, the owner's rows hold, with multiplicities and over all columns but unique_id, the non-empty items in memory and what the rows hold that could not be fetched, so just the items if and only if no fetch failed; other owners' rows are untouched even on errors; every old row is changed or deleted at most once; surviving rows keep their unique_id. |
| ItemSync.InLineIfAllRead | src/char/char.c:608-662 | The owner's rows hold just the items in memory if and only if every row was fetched. |
| ItemSync.FailedFetchGoesUnnoticed | src/char/char.c:608 | The concrete case: the one row cannot be fetched, no error is counted, and it stays although memory has no items. |
| ItemSync.Database.MemItemDataToSql | src/char/char.c:549-701 | The same for the table the switch selects, with the column favorite left alone; an unknown table is an error. |
| ItemSync.Database.InventoryToSql | src/char/char.c:704-838 | The same for the inventory, with the column favorite. |
| QuestSync.FromSql | src/char/int_quest.c:24-77 | The array holds the character's quests, each once, up to where the query or a fetch failed. |
| QuestSync.Compact | src/char/int_quest.c:154-158 | Moving the tail up in place removes one quest and keeps the order of the others. |
| QuestSync.SaveOne | src/char/int_quest.c:146-161 | In the middle of the scan, the array holds exactly the quests read and not yet submitted, and the rows of those submitted are final. |
| QuestSync.Save | src/char/int_quest.c:136-174 | The answer is 1 if and only if no statement that writes failed, no quest was submitted twice, and none that is stored but could not be read. Then the stored quests are those submitted, with the time kept for existing ones, and those not read: just those submitted if and only if all were read, as they are if neither the query nor a fetch failed. Other characters' quests are untouched in any case. |
| QuestSync.FailedReadGoesUnnoticed | src/char/int_quest.c:39-55 | The concrete case: the query fails, nothing is submitted, the answer is 1 and the old quest is still stored. |
| Auctions.BidConserves | src/char/int_auction.c:411-459 | A bid, refused, accepted or buying at once, conserves zeny and items. |
| Auctions.StepConserves | src/char/int_auction.c:138-459 | Every step of the auction house and the mail conserves zeny and every kind of item. |
| Auctions.RunConserves | src/char/int_mail.c:232-281 | Over every run, what players paid in equals what is in escrow and in the mail plus what was handed back or deleted; the same holds for every item. |
| Auctions.EmptyIsHonest | src/char/int_auction.c:22 | The empty auction house satisfies the invariants and holds nothing. |
| Auctions.BidsRise | src/char/int_auction.c:417-442 | An auction that stays open changes only by a strictly higher bid of its new buyer, who is not the seller. |
| Auctions.PriceNeverFalls | src/char/int_auction.c:417-442 | Over every run the price of an open auction never falls and its item and seller stay. |
| Auctions.ClosedForever | src/char/int_auction.c:161-172 | An auction that is over never comes back. |
| Auctions.ItemLeavesOnce | src/char/int_auction.c:138-172 | The step that ends an auction, whichever it is, sends its item exactly once, to the winner, and the price to the seller if the item was sold. |
| Auctions.OldBidReturned | src/char/int_auction.c:429-438 | Whoever is outbid, or bids again, gets the old bid back by mail. |
| Auctions.NeverMoreThanFive | src/char/int_auction.c:27-41 | Over every run nobody leads or sells more than five auctions, although the limit is not checked for every bid. |
| AuctionServer.Server.CountAuctions | src/char/int_auction.c:27-41 | The loop counts the auctions a character leads or sells. |
| AuctionServer.Server.ParseRegister | src/char/int_auction.c:308-319 | The handler performs the step: an auction opens, with its number as the answer, if and only if the seller has fewer than five. |
| AuctionServer.Server.ParseCancel | src/char/int_auction.c:330-357 | The handler performs the step: result 0 and the item mailed back for the seller of an auction without a bid, otherwise results 1 to 3 and no change. |
| AuctionServer.Server.ParseClose | src/char/int_auction.c:368-399 | The handler performs the step: item to the buyer and price to the seller if the seller closes an auction with a bid, otherwise results 1 and 2 and no change. |
| AuctionServer.Server.ParseBid | src/char/int_auction.c:411-459 | The handler performs the step, branch by branch, with its result and the zeny returned at once. |
| AuctionServer.Server.EndTimer | src/char/int_auction.c:138-159 | The timer performs the step: item to the buyer and price to the seller, item back to the seller without a bid, nothing if the auction is gone. |
| AuctionServer.Server.ParseSend | src/char/int_mail.c:394-429 | Mail goes to the character of that name in another account, and is stored if and only if it has an addressee. |
| AuctionServer.Server.FromSql | src/char/int_mail.c:15-97 | Exactly the first thirty mails of a character change from new to unread. |
| AuctionServer.Server.GetAttachments | src/char/int_mail.c:255-281 | Attachments are handed out once, to the addressee, of a mail that has been read. |
| AuctionServer.Server.Delete | src/char/int_mail.c:291-306 | The mail and what it holds are gone. |
| AuctionServer.Server.Return | src/char/int_mail.c:334-373 | The mail goes back with all it holds, under a new number. |
| Party.RangeKept | src/char/int_party.c:628-632 | The range of levels does not change when the member changed was not alone at a bound and is not beyond one now. |
| Party.RangeLeft | src/char/int_party.c:677-684 | It changes when a level that counts leaves it. |
| Party.TwoAtTheBounds | src/char/int_party.c:305-308 | If the bounds differ, at least two members are online. |
| Party.RangeGoesStale | src/char/int_party.c:677-684 | The concrete case: of three members online at levels 10, 50 and 99 the second reports level 120, and the stored range is wrong. |
| Party.OneLevelIsSeen | src/char/int_party.c:677-684 | A change by one level is never missed. |
| Party.PartyData.constructor | src/char/int_party.c:492-506 | A new party satisfies the invariant. |
| Party.PartyData.CheckLv | src/char/int_party.c:36-58 | Range recomputed, and even share turned off if the range no longer allows it. |
| Party.PartyData.CalcState | src/char/int_party.c:61-109 | All derived fields recomputed from the members. |
| Party.PartyData.AddMember | src/char/int_party.c:530-565 | Refused if and only if there is no free slot; otherwise one free slot holds the member, not as leader, numbers, range and family are right, and even share is lost only if the levels do not allow it. |
| Party.PartyData.ChangeOption | src/char/int_party.c:568-586 | Even share is granted only if the levels allow it. |
| Party.PartyData.Leave | src/char/int_party.c:589-638 | The member named is removed, and a leader who leaves, or the last member, leaves the party broken and empty; otherwise numbers and range are right, the family is over, and even share is lost only if the levels do not allow it. |
| Party.PartyData.ChangeMap | src/char/int_party.c:640-694 | The member reported, and only that one, has the new map, level and state; numbers are right, even share is lost only if the levels do not allow it, and the stored range is exact if and only if it was not a report, by someone who counts and is strictly inside the range, of a level beyond it without logging in or out. |
| Party.PartyData.ShareLevelChanged | src/char/int_party.c:746-760 | After the share level changes the invariant holds for the new level, also in a party that is not recalculated. |
| Party.ParseShareLevel | src/char/int_party.c:746-760 | The loop over all parties leaves each of them with the invariant for the new level. |
| Party.PartyData.LeaderChange | src/char/int_party.c:716-738 | The named member is the only leader afterwards; if there is no such member, nobody is. |
| GuildSaver.NothingUnsavedIsUnloaded | src/char/int_guild.c:61-76 | A guild leaves memory only if it was clean or was written by this very tick. |
| GuildSaver.SaveTimer.Tick | src/char/int_guild.c:46-87 | The scan with its three stages saves the first dirty guild after the one saved last, at most one, and unloads exactly the guilds with nothing but the removal bit. |
| GuildSaver.SavedInTime | src/char/int_guild.c:46-87 | In every run of ticks between which no guild is loaded or unloaded, any parts of any guild may become dirty and the removal bit may come or go, a guild dirty at the first tick is written within one tick more than there are guilds. |
| GuildSaver.StaysDirty | src/char/int_guild.c:57-77 | A dirty guild that a tick does not save is dirty at the next one. |
| GuildLevels.LevellingAddsUp | src/char/int_guild.c:813-823 | Levelling ends below the next threshold or where there is none, each level brings a skill point, and the experience spent is the price of the levels. |
| GuildLevels.GainInParts | src/char/int_guild.c:817-823 | Experience gained in two parts has the effect of the sum. |
| GuildLevels.SharesAddUp | src/char/int_guild.c:1497-1507 | The shares of two gains add up to the share of the sum if and only if the rate is 100 percent, or the 64-bit products do not overflow together and their remainders make up no whole point. |
| GuildLevels.GainedTwice | src/char/int_guild.c:1497-1509 | Two gains leave a guild as the sum at once does, short of saturation, if and only if the shares add up. |
| GuildLevels.RoundingLoses | src/char/int_guild.c:1500-1501 | The concrete case: at half the rate two single points bring nothing. |
| GuildLevels.Guild.CalcInfo | src/char/int_guild.c:807-869 | The loop over the levels, the member limit, the average level and the number online, and the save flag exactly when something visible changed. |
| GuildLevels.Guild.GainExp | src/char/int_guild.c:1490-1515 | The gain saturates at 64 bits, and the balance of levels, skill points and skills is kept. |
| GuildLevels.Guild.SkillUp | src/char/int_guild.c:1623-1642 | A point buys one level of a skill if and only if there is one, the skill is known and below its maximum; the balance is kept. |
| Whispers.VerdictMeans | src/char/inter.c:1000-1003 | If only servers that were asked answer, each once, the verdict is 1 only if every one of them has answered 1, otherwise the first other answer; there is none only while one of them is silent. |
| Whispers.AtMostOneResult | src/char/inter.c:870-1006 | For every interleaving of requests, answers and expiries a whisper has at most one result; it has none if and only if it still waits or has expired, and otherwise the verdict on its answers. |
| Whispers.ResultMeans | src/char/inter.c:989-1006 | For every interleaving in which the servers asked reply at most once, a result of 1 means that every server asked answered 1, and another result is the first other answer. |
| Whispers.Server.ListExpired | src/char/inter.c:870-880 | Up to 256 expired whispers are listed, and all of them if the list is not full. |
| Whispers.Server.CheckTtl | src/char/inter.c:882-900 | The sweep ends and leaves exactly the whispers that have not expired, although its list is bounded. |
| Whispers.Server.ParseRequest | src/char/inter.c:913-985 | Unknown addressees and whispers to oneself are answered at once; others wait for as many answers as servers were asked. |
| Whispers.Server.ParseReply | src/char/inter.c:989-1006 | An answer to a whisper that is gone changes nothing. |
| FameList.UpdateSorts | src/char/char_mapif.c:1149-1176 | The list is sorted after an update if and only if it was not the fall of a listed player past others, with someone behind strictly below the new fame. |
| FameList.OnePlaceTooLow | src/char/char_mapif.c:1170-1173 | The concrete case: of 30, 20, 10 the first falls to 25 and lands below 20. |
| FameList.UpdateKeepsPlayersApart | src/char/char_mapif.c:1149-1176 | No player is ever listed twice. |
| FameList.TopKeptExactly | src/char/char_mapif.c:1149-1176 | A report keeps the list the top of every history it may be the top of if and only if the player finds the right place and does not fall below the last of the list. |
| FameList.RunKeepsTop | src/char/char_mapif.c:1149-1176 | From any list that is the top of what is known, over any run of such reports the list is the top of the full history. |
| FameList.RisingRunKeepsTop | src/char/char_mapif.c:1149-1176 | In particular over any run that never lowers a listed player's fame. |
| FameList.ListIsTop | src/char/char_mapif.c:1149-1176 | Any sorted list of different players, such as the one loaded at start, is the top of the fame it shows. |
| FameList.Move | src/char/char_mapif.c:1163-1172 | The rotation in place. |
| FameList.ParseUpdate | src/char/char_mapif.c:1129-1181 | The handler updates the array in place as specified. |

## Left out

libconfig:

- ConfigSettings.Config.Set: automatic conversion to and from floats (`auto_convert`), which rounds.
- ConfigSettings.Config.SetElem: the same conversion.
- ConfigReader.Scanner.NextToken: the include stack and the `@include` directive, and NUL bytes. The
  generated automaton and its buffers: the model matches the token rules themselves, longest first.
- ConfigReader.ReadString: the same, and what has been read when reading fails.
- ConfigPrinter.WriteValueTo: the text of a float is given; trees with floats are not part of the round trip.
- Pointers: a setting is an index into a sequence of records; removed records are not freed and their place is not used again.
- The growth of element lists in chunks, source line and file of settings, hooks and destructors, and the text of error messages.
- The tab width is any natural number; the source keeps four bits of it.
- Copying a setting into itself or below itself.

Other parts:

- `init_by_array` and the derived generators of `mt19937ar.c`.
- `des_decrypt` on more than one block, whose pointer never advances.
- GrfCipher.GrfDecode: entries of 10^9 bytes and more, where the counter of the first loop would overflow.
- The other 20 bytes of a `FILELIST` name buffer and names that do not fit it; GRF files themselves, zlib and the data directory.
- Failure of memory allocation everywhere.
- The doubly linked list of caches in `ers.c` is a sequence; `ers_report` and `ers_force_destroy_all` are not modelled.
- SQL text, quoting and column widths; a row is a record.
- Names, hours and time stamps of auctions; the end timer is a step that may come at any time, also after the auction is gone.
- Loading auctions from the database, and the list of auctions sent to clients.
- Failing statements in the auction house: a mail that is not stored loses what it holds.
- A mail's attachment is present or absent as a whole; an item of amount 0 attached to zeny is not modelled.
- The checks of a new party's name.
- Party.PartyData.CalcState: the look-up of families in the character table, whose result is a parameter.
- `inter_party_CharOnline` and `inter_party_CharOffline`, which have no caller here.
- The rest of the guild handlers: alliances, positions, castles.
- The text of whispers, and the loss of answers when a map server disconnects.
- Loading the ranking, and the names looked up for it, which are parameters.
- Packet layout and sockets.
