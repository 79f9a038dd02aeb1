# KBase: models and proofs

KBase is a C++ base library. This project models the parts of it that hold an algorithm or a
stateful invariant, and proves what they promise for all inputs, all runs or all interleavings.

| files | component |
|---|---|
| `Md5Spec`, `Md5Compress`, `Md5`, `Md5Example` (with `ByteOrder`) | streaming MD5 against the functional definition of RFC 1321, and a known digest computed from it |
| `Wildcard` | the goto-based wildcard matcher against the recursive matching relation |
| `Tokens` | the two tokenisers and the joining of strings |
| `Signals`, `SignalLists` | the copy-on-write slot list: every interleaving, and each critical section in place |
| `PickleFormat`, `Pickle` | the serialisation buffer, its layout, its reader and the round trip |
| `LruCache` | the list and index of the cache, recency order, bounded against unbounded |
| `FormatGrammar`, `StringFormat` | the format parser, its grammar, and filling and splicing against substitution |
| `Path` | stripping, parent, file name, components and append |
| `FileTree`, `FilePaths`, `FileWalk`, `FileLevels` | the directory iterator and recursive removal over an abstract tree, the path strings they make, and when the order is breadth first |
| `CommandLine` | argument quoting against the rules of the Windows argument parser |
| `Base64Bits`, `Base64Alphabet`, `Base64` | encoder and decoder, with their tables and bit operations, against RFC 4648 |
| `Wrappers`, `Sequences` | what several modules share |

Each method follows the branches, constants and error conditions of the function it models and is
proved against a definition that is written independently: the RFC text, a grammar, a relation, a
list of items, a tree. The lemmas then say what those definitions mean to a caller.

## How to read it

- Words and sizes. `uint32_t` and `size_t` arithmetic is written out with its modulus where it can
  wrap (the MD5 counters, `RoundToMultiple`, `npos + k` in paths). MD5 registers are `bv32`. Memory
  is little-endian and `size_t` has 64 bits (LP64).
- Text ends where the C++ code meets the terminating NUL: the end of a `string` here is that NUL,
  so patterns and formats contain none.
- A failed `ENSURE` is a result: `FormatError` where it throws, `ok == false` or `CheckFailed` where it stops the
  program. The latter, `ENSURE(CHECK, ..)`, is compiled out under `NDEBUG` (`kbase/error_exception_util.h:91-98`):
  the members of Path and FileWalk that come to one take `checked`, true in a debug build, and say what happens in
  both. Elsewhere such a check is what callers must keep, a `requires`.
- A function the solver should not look into is `hide`den locally; nothing is assumed.

## What the code does differently from what one might expect

- **The directory iterator is not always breadth first.** `kbase/file_iterator.h:41-43` says it does a BFS.
  The code takes the last pending directory first. `FileLevels.WhenByLevels` says when the order is by levels:
  exactly when no directory of the walk has two non-empty directories in it of which the later one has a non-empty
  directory in it again. `FileLevels.NotByLevels` gives a tree where it is not. What the comment promises
  from it, that the entries of one directory are returned together, always holds (`FileWalk.IterationIsComplete`).
- **Empty arguments are lost.** `QuoteArg` leaves an empty argument unquoted. Parsing a printed line
  gives the arguments back exactly when none is empty (`CommandLine.ParsePrinted`, with the smallest list that
  does not come back in `CommandLine.EmptyArgumentIsLost`).
- **A trailing separator can stay in a component.** A path without a parent keeps it (`abc/` has the one
  component `abc/`), so appending a name to it changes the first component (`Path.TrailingSeparatorStays`).
  `Path.AppendAddsName` and `Path.AppendAllAddsNames` say exactly when appending adds the names and nothing else.
- **`AppendRelativePath` can fail its own check.** When the only component of the current path is a drive
  (`C:`, but also `./C:`) and the child goes on with a root, that root is appended. `Path.WhenTheCheckFails` gives the
  exact condition, `Path.TheCheckFails` such paths. In a debug build the check in `Append` stops the program; in a
  release build the root goes into the target (`Path.UncheckedRoot`). `Path.RelativeComponents` says exactly when the
  target gets the components of the child, with a root or any other first component.
- **A backslash at an end of a file name misleads the directory iterator.** POSIX takes `\` for a character of a name,
  `AppendWith` for a separator: it cuts it off the end of a directory, so entries of `b\` get the paths of entries of
  `b`, and a debug build stops at a name that begins with one. `FilePaths.StringsAreRight` says exactly for which
  directories and names every string that is made names its entry, `FilePaths.BackslashIsCut` and
  `FilePaths.BackslashAgain` what is named otherwise; the contracts of the iterator and of `RemoveFile` ask for that
  condition (`FilePaths.WellNamed`).
- **Fill and precision outlive a placeholder.** The stream of an argument is shared by its placeholders, in the order
  in which `std::sort`, which is not stable, leaves those of equal index. `StringFormat.StringFormat` says what comes
  out for a given order. It is the plain left-to-right substitution for all arguments, specifiers and orders if and only
  if no argument has two placeholders (`StringFormat.WhenPlaceholdersStandAlone`); with two it still is when nothing
  left in the stream shows (`StringFormat.OrderDoesNotMatter`).
- **A weakly bound object is not kept alive for the call.** `Invoke` locks the weak pointer for its check only, so the
  object can go before the callback runs. `Signals.WhenASlotIsCalled` says exactly when it is there,
  `Signals.CalledThoughGone` is a run in which it is not.
- **Rounding zero relies on wrap-around.** `RoundToMultiple(0, k)` is 0 exactly when `k` divides 2^64
  (`PickleFormat.RoundsZero`), which holds for the factors in use.
- **A bounded cache that is also read** can differ from the tail of an unbounded one. `LruCache.BoundedIsSuffix`
  shows that it does as soon as a `Get` finds a key in one of them only, and not before;
  `LruCache.ReadingMakesThemDiffer` is the shortest such run.
- **Base64 text with unused bits set** decodes without error; encoding the result again gives the text
  exactly when those bits are zero (`Base64.EncodeDecode`, and `Base64.UnusedBitsAreLost` for a text where they are not).

## Model

| member | source | states |
|---|---|---|
| ByteOrder.ValueOfLittleEndian | kbase/pickle.cpp:214-224 | reading the bytes of a number least significant first gives the number back |
| ByteOrder.DigitAt | kbase/pickle.cpp:214-224 | byte k is the digit of the number that counts the multiples of 256^k |
| Md5Spec.WordHoldsBytes | kbase/md5.cpp:79-89 | byte j of word k, counted from the least significant, is byte 4k + j of the block |
| Md5Spec.BytesOfWord | kbase/md5.cpp:284-299 | the bytes of a word of a block, as the digest stores them, are those of the block |
| Md5Spec.WordOfBytes | kbase/md5.cpp:79-89 | the word at a place of a block is the one that is stored as the bytes there |
| Md5Compress.FastAuxIsAux | kbase/md5.cpp:62-65 | in every round the optimised F and G (and H and I) are those of RFC 1321 |
| Md5Compress.ShiftRotateIsRotate | kbase/md5.cpp:68-71 | the shifts and the mask of STEP are a rotation to the left |
| Md5Compress.StepIsOperation | kbase/md5.cpp:68-71 | one STEP with the scheduled word, constant and amount is one operation of section 3.4 on the rotated registers |
| Md5Compress.Round1 | kbase/md5.cpp:121-137 | the 16 unrolled steps of round 1 lead to the registers after 16 operations |
| Md5Compress.Round2 | kbase/md5.cpp:139-155 | those of round 2 lead to the registers after 32 operations |
| Md5Compress.Round3 | kbase/md5.cpp:157-173 | those of round 3 lead to the registers after 48 operations |
| Md5Compress.Round4 | kbase/md5.cpp:175-191 | those of round 4 lead to the registers after 64 operations |
| Md5Compress.CompressBlock | kbase/md5.cpp:115-199 | one pass of the loop is the compression of section 3.4 of RFC 1321 |
| Md5.ChainAppend | kbase/md5.cpp:105-207 | compressing blocks in one call or in several gives the same chaining value |
| Md5.ChainIgnoresTail | kbase/md5.cpp:248-254 | bytes that do not fill a block do not reach the chaining value |
| Md5.CounterStep | kbase/md5.cpp:226-233 | the 29/32-bit counter with its carry holds the byte count modulo 2^61 after every update |
| Md5.CounterTail | kbase/md5.cpp:233-233 | the low six bits of the counter are the number of bytes carried over |
| Md5.MD5Context.Init | kbase/md5.cpp:213-222 | a context whose fields were arbitrary holds the empty message |
| Md5.MD5Context.Transform | kbase/md5.cpp:105-207 | one call on n blocks advances the registers by the chain over them and leaves counters and buffer alone |
| Md5.MD5Context.Count | kbase/md5.cpp:226-232 | the fields count `size` more bytes |
| Md5.MD5Context.Update | kbase/md5.cpp:224-254 | the message becomes the old one followed by the data; the registers are the chain over its complete blocks and the buffer starts with the rest |
| Md5.MD5Context.FillBuffer | kbase/md5.cpp:238-246 | carried bytes and the first new ones are compressed as the next block |
| Md5.MD5Context.AbsorbBlocks | kbase/md5.cpp:248-253 | complete blocks go into the chain, the tail into the buffer, nothing is lost |
| Md5.MD5Context.Final | kbase/md5.cpp:256-302 | the digest is that of RFC 1321 for the whole message, for every residue of its length; the context is wiped |
| Md5.MD5Context.FinishPadding | kbase/md5.cpp:272-301 | with the bit count the last block completes the padded message |
| Md5.MD5Context.StoreLength | kbase/md5.cpp:273-280 | the last eight bytes are both counter words, least significant byte first |
| Md5.MD5Context.StoreDigest | kbase/md5.cpp:284-299 | the digest is a, b, c, d with the least significant byte of each first |
| Md5.LengthBytes | kbase/md5.cpp:272-280 | those bytes are 8 times the byte count modulo 2^64, although the counter holds it modulo 2^61 only |
| Md5.PaddedTail | kbase/md5.cpp:258-270 | both padding branches leave the message, 0x80 and the zeros of sections 3.1 and 3.2 |
| Md5.MD5Sum | kbase/md5.cpp:318-324 | the one-shot digest is that of the definition |
| Md5.DigestOfPieces | kbase/md5.cpp:213-302 | for every way of cutting a message into updates, empty ones included, the digest is that of the whole |
| Md5Example.DigestOfFox | tests/md5_unittest.cpp:16-16 | the definition gives the digest of the test's message, with every constant, rotation and addition of its 64 operations |
| Wildcard.StarIsAnyRun | kbase/string_util.cpp:232-240 | in the relation `*` stands for any run of characters |
| Wildcard.WithoutStars | kbase/string_util.cpp:228-230 | a pattern without stars matches exactly the texts of its length with its characters place by place, any but '.' where it has '?' |
| Wildcard.FrontFirst | kbase/string_util.cpp:224-256 | what stands before a star matches the front of the text and nothing else |
| Wildcard.LeftmostSegment | kbase/string_util.cpp:232-256 | when the text between two stars fits at the front, giving the front to it loses no match |
| Wildcard.TextIsLongEnough | kbase/string_util.cpp:247-251 | a matching text has at least as many characters as the pattern has besides stars |
| Wildcard.Mismatch | kbase/string_util.cpp:253-256 | after a mismatch only a later start behind the latest star can match, and without a star nothing can |
| Wildcard.NewStar | kbase/string_util.cpp:232-240 | forgetting all stars but the one just reached keeps the question the same |
| Wildcard.EndOfText | kbase/string_util.cpp:247-251 | when the text is used up the answer is whether only stars are left, although starts behind the star are untried |
| Wildcard.MatchPattern | kbase/string_util.cpp:219-257 | the matcher terminates and returns true exactly when the recursive relation holds |
| Tokens.RunsCut | kbase/string_util.cpp:180-202 | the runs and the gaps between them make up the text; gaps consist of delimiters, runs hold none |
| Tokens.CutIsUnique | kbase/string_util.cpp:180-202 | there is only one such cut |
| Tokens.SplitIsTheCut | kbase/string_util.cpp:180-202 | with delimiters, a list is the result of splitting if and only if it is such a cut of the text |
| Tokens.FindFirstNotOf | kbase/string_util.cpp:190-191 | the position found is the first of its kind from `pos` on; npos only if there is none or no delimiter |
| Tokens.FindFirstOf | kbase/string_util.cpp:192-192 | the position found is the first delimiter from `pos` on; npos only if there is none |
| Tokens.NextRun | kbase/tokenizer.h:98-119 | one step of either tokeniser takes exactly the next maximal run |
| Tokens.SplitStep | kbase/string_util.cpp:190-198 | going on behind the delimiter after a token, even past the end, loses no token |
| Tokens.SplitString | kbase/string_util.cpp:180-202 | returns the maximal delimiter-free runs and their number, nothing without delimiters |
| Tokens.JoinString | kbase/string_util.cpp:204-217 | the tokens with the separator between each two |
| Tokens.JoinLength | kbase/string_util.cpp:204-217 | nothing for no tokens; else all their characters and one separator fewer than tokens |
| Tokens.SplitOfJoin | kbase/string_util.cpp:180-217 | splitting a joined list of non-empty delimiter-free tokens gives the list back |
| Tokens.SplitIsStable | kbase/string_util.cpp:180-217 | splitting, joining and splitting again changes nothing, for every text |
| Tokens.TokenIterator.constructor | kbase/tokenizer.h:31-35 | a new iterator is on the first token from its offset, or at the end |
| Tokens.TokenIterator.SeekNextToken | kbase/tokenizer.h:84-120 | what remains afterwards is what was pending before |
| Tokens.TokenIterator.Advance | kbase/tokenizer.h:47-52 | one token is consumed and the offset grows |
| Tokens.Walk | kbase/tokenizer.h:151-159 | a walk from begin to end terminates and yields exactly what SplitString yields |
| Signals.KeepInv | kbase/signals.h:93-149 | every event of every call keeps the invariant: use counts are the number of owners, one call at most is in its critical section, the signal's list is the history's |
| Signals.KeepCopy | kbase/signals.h:145-147 | the copy in CopyIfNeeded keeps it |
| Signals.KeepChange | kbase/signals.h:93-137 | the change in place keeps it, as nobody else owns the list |
| Signals.ExclusiveIsUnshared | kbase/signals.h:143-148 | after the test for `unique()` or the copy no Emit holds the list about to be changed |
| Signals.RunKeepsInv | kbase/signals.h:93-149 | the invariant holds after every run of overlapping and re-entrant calls |
| Signals.ConnectedIsLive | kbase/signals.h:93-137 | the list is the slots connected and not taken back, each once, in connection order |
| Signals.LiveInOrder | kbase/signals.h:93-98 | of two slots in the list the first was connected first |
| Signals.HistoryIsUnique | kbase/signals.h:234-258 | when each connect makes a new slot, no run has the same connection twice |
| Signals.SnapshotIsIsolated | kbase/signals.h:100-119 | in no interleaving does an event change or free the list of an Emit under way |
| Signals.CourseOf | kbase/signals.h:100-119 | every Emit, wherever it stands, has its places in the run: where it was made, took its snapshot, checked and called each slot, and ended |
| Signals.EmitVisitsItsSnapshot | kbase/signals.h:100-119 | a finished Emit came to exactly the slots connected at the moment it took its snapshot, in order, one after the other; it called those and only those with no expiry of their object in the run before their check, and every check and call of it in the run is one of these |
| Signals.WhenASlotIsCalled | kbase/signals.h:109-118 | a slot whose object went before the snapshot is not called, one whose object never goes is; at the call the object is there exactly when it did not go between the check and the call |
| Signals.CalledThoughGone | kbase/signals.h:109-118 | for every slot bound to an object there is a run of a connect, an emit and an expiry after which the slot has been called and the object had gone before |
| Signals.ExpiredInRun | kbase/signals.h:109-115 | an object counts as gone exactly when its expiry is an event of the run so far |
| Signals.DisconnectIsFinal | kbase/signals.h:121-132 | no Emit that starts after a disconnect has returned comes to the slot |
| Signals.ClearIsFinal | kbase/signals.h:134-139 | no Emit that starts after all have been disconnected comes to a slot connected before |
| Signals.ConnectIsSeen | kbase/signals.h:93-98 | every Emit that starts after a connect has returned comes to the slot, unless it was taken back |
| Signals.CanProceed | kbase/signals.h:93-149 | nothing gets stuck: any call can be made at any time, a waiting one gets the mutex exactly when it is free, its owner can always take its next step, and so can every Emit that has its snapshot |
| SignalLists.SignalImpl.CopyIfNeeded | kbase/signals.h:143-148 | the list is then used by the signal alone, with the same slots; it is a new one exactly when an Invoke held it |
| SignalLists.SignalImpl.AddSlot | kbase/signals.h:93-98 | the slot is added at the end and no list held by an Invoke changes |
| SignalLists.SignalImpl.RemoveSlot | kbase/signals.h:121-132 | the first equal slot goes, if any, and no list held by an Invoke changes |
| SignalLists.SignalImpl.RemoveAllSlots | kbase/signals.h:134-139 | all slots go, and no list held by an Invoke changes |
| SignalLists.SignalImpl.TakeSnapshot | kbase/signals.h:102-106 | the current list gets one more owner |
| SignalLists.SignalImpl.ReleaseSnapshot | kbase/signals.h:100-119 | it loses one when Invoke is over |
| SignalLists.WithoutAt | kbase/signals.h:125-131 | erasing at the first equal slot is removing that slot |
| PickleFormat.RoundsUp | kbase/pickle.cpp:15-18 | the result is the least multiple of the factor that is not below the number |
| PickleFormat.RoundsZero | kbase/pickle.cpp:15-18 | zero rounds to zero if and only if the factor divides 2^64 |
| PickleFormat.AlignedIsRounding | kbase/pickle.cpp:229-229 | the rounding the buffer uses is alignment to four bytes |
| PickleFormat.SegmentsInPlace | kbase/pickle.h:139-146 | every segment starts on a multiple of four and the bytes before it, back to the segment before, are zero |
| PickleFormat.TakeSegment | kbase/pickle.cpp:69-92 | a reader at the start of a segment reads it and stands at the start of the next, or at the end |
| PickleFormat.KnownSegments | kbase/pickle.h:306-382 | sizes and lengths take eight bytes, an empty text only those, numbers come least significant byte first, characters, members of a pair and elements in their order |
| PickleFormat.ContainerTypes | kbase/pickle.h:384-476 | lists hold any elements, sets pairwise different ones, maps pairwise different keys with any values |
| PickleFormat.DecodeEncode | kbase/pickle.h:306-476 | what was written for a value of any nested type is read as that value, whatever stands before and behind it |
| PickleFormat.DecodeElements | kbase/pickle.h:384-476 | the element loops of the containers collect all elements, and inserting drops none |
| PickleFormat.RoundTrip | kbase/pickle.h:306-476 | reading all values written gives them back and ends exactly at the end, though the last segment has no padding |
| PickleFormat.ReadAsContainer | kbase/pickle.h:384-476 | a list written and read as a set or a map gives those of its elements that do not clash with an earlier one, in order |
| Pickle.AppendAllIsLayout | kbase/pickle.cpp:226-241 | writing segments one after the other leaves exactly the documented layout |
| Pickle.WrittenInPlace | kbase/pickle.cpp:203-212 | storing the data and then the padding before it extends the payload by zeros and the data |
| Pickle.Pickle.constructor | kbase/pickle.cpp:101-106 | an empty pickle; capacity is a multiple of 64 that holds header and payload |
| Pickle.BytesOfPickle | kbase/pickle.h:150-180 | the bytes of a pickle are four that spell the payload's size, least significant first, and the payload; its block is a multiple of 64 bytes |
| Pickle.Pickle.Copy | kbase/pickle.cpp:116-121 | the copy has the same bytes and its own buffer |
| Pickle.Pickle.Assign | kbase/pickle.cpp:138-149 | the target gets the bytes of the source, itself included, in a new buffer exactly when the old one is too small |
| Pickle.Pickle.ResizeCapacity | kbase/pickle.cpp:167-177 | a larger multiple of 64; every byte held before is preserved |
| Pickle.Pickle.SeekWritePosition | kbase/pickle.cpp:226-241 | the write offset is the aligned end; the bytes written before are preserved |
| Pickle.Pickle.Write | kbase/pickle.cpp:203-212 | the payload grows by zero padding up to alignment and the data |
| Pickle.Pickle.WriteBuiltIn | kbase/pickle.cpp:214-224 | the payload grows by padding and the bytes of the number |
| Pickle.Pickle.PutText | kbase/pickle.cpp:179-201 | a length and, unless it is zero, the characters |
| Pickle.Pickle.PutElements | kbase/pickle.h:306-382 | the element count and the elements in order |
| Pickle.Pickle.Put | kbase/pickle.h:306-382 | the payload grows by exactly the segments of the value |
| Pickle.Pickle.PutAll | kbase/pickle.h:306-382 | the payload depends only on the values written |
| Pickle.PickleReader.SeekReadPosition | kbase/pickle.cpp:84-92 | the position moves on by the rounded size, or by the bare size at the end |
| Pickle.PickleReader.ReadRawData | kbase/pickle.cpp:69-74 | the bytes at the position are returned |
| Pickle.PickleReader.ReadBuiltIn | kbase/pickle.cpp:76-82 | the number whose bytes stand at the position is returned |
| Pickle.PickleReader.Get | kbase/pickle.h:384-476 | reads what the format says stands there, and stops where it says |
| Pickle.WriteThenRead | kbase/pickle.h:306-476 | values of any types written by the writer and read by the reader into fresh targets are equal, and nothing is left to read |
| Pickle.CopyKeepsUp | kbase/pickle.cpp:116-121 | a copy is another pickle with its own buffer; after the same writes to both each has the original's bytes with the new segments behind them |
| LruCache.RunKeeps | kbase/lru_cache.h:113-225 | after every run of operations the list holds each key once and no more than `max_size` items |
| LruCache.RecencyOrder | kbase/lru_cache.h:113-225 | the order is least to most recently put or read, and each entry is the last one put |
| LruCache.UnboundedKeeps | kbase/lru_cache.h:113-225 | without a bound and without Evict a key is in the cache if and only if it was put and not erased since |
| LruCache.BoundedIsSuffix | kbase/lru_cache.h:113-225 | for puts and gets the bounded cache is always the tail of the unbounded one if and only if no get is answered differently |
| LruCache.PutsOnly | kbase/lru_cache.h:206-225 | after any puts the bounded cache is exactly the last n items of the unbounded one |
| LruCache.ReadingMakesThemDiffer | kbase/lru_cache.h:113-225 | with one get in between it need not be |
| LruCache.Replay | kbase/lru_cache.h:113-225 | any operations on a new cache leave the list of items the lemmas above speak of |
| LruCache.LRUCache.constructor | kbase/lru_cache.h:58-62 | an empty cache with the given bound |
| LruCache.LRUCache.TableIsIndex | kbase/lru_cache.h:227-231 | the table has exactly the keys of the list, each mapped to its own node |
| LruCache.LRUCache.Lookup | kbase/lru_cache.h:130-148 | finds the item with the key if there is one, and moves nothing |
| LruCache.LRUCache.MoveToEnd | kbase/lru_cache.h:121-121 | splicing moves one item to the end, with list and index still in agreement |
| LruCache.LRUCache.Get | kbase/lru_cache.h:113-124 | a hit becomes the most recent item, a miss changes nothing |
| LruCache.LRUCache.Erase | kbase/lru_cache.h:152-156 | the item and its key go, and the next item is returned |
| LruCache.LRUCache.Evict | kbase/lru_cache.h:160-163 | the least recent item goes |
| LruCache.LRUCache.EvictMany | kbase/lru_cache.h:165-171 | the `count` least recent items go |
| LruCache.LRUCache.Put | kbase/lru_cache.h:206-225 | the item becomes the most recent one; a new key evicts the least recent item exactly when the cache is bounded and full |
| FormatGrammar.ParseIsSound | kbase/string_format.cpp:105-171 | what is accepted is written like the input by the grammar |
| FormatGrammar.ParseIsComplete | kbase/string_format.cpp:105-171 | everything the grammar writes is accepted, with exactly these pieces |
| FormatGrammar.AcceptsTheGrammar | kbase/string_format.cpp:105-171 | accepted formats are exactly those of text, doubled braces and placeholders with digits and a brace-free specifier |
| FormatGrammar.HolesInOrder | kbase/string_format.cpp:145-153 | placeholders are recorded at strictly increasing positions, each that of a mark |
| FormatGrammar.EscapedTextIsLiteral | kbase/string_format.cpp:117-144 | any text with its braces doubled is accepted, stands for itself and has no placeholders |
| FormatGrammar.Braces | kbase/string_format.cpp:113-144 | doubled braces stand for one, single ones are errors, any other character for itself |
| FormatGrammar.OnePlaceholder | kbase/string_format.cpp:113-163 | digits in braces, with or without a colon and a specifier, are a placeholder with these digits and this specifier |
| FormatGrammar.DigitsAre | kbase/string_format.cpp:96-103 | exactly the ten decimal digits begin and continue an index |
| FormatGrammar.ValueOfDecimal | kbase/string_format.cpp:96-103 | the digits of every number stand for that number |
| FormatGrammar.LeadingZero | kbase/string_format.cpp:96-103 | zeros in front change nothing |
| FormatGrammar.IndexOfDecimal | kbase/string_format.cpp:96-103 | a number is its own index, and 2^64 - 1 is the index of all larger ones |
| StringFormat.RearrangedTable | kbase/string_format.cpp:165-168 | sorting the table does not change what it describes |
| StringFormat.Sort | kbase/string_format.cpp:165-168 | the table in key order, with the same entries |
| StringFormat.ExtractPlaceholderIndex | kbase/string_format.cpp:96-103 | the value of all digits, saturated at the largest unsigned long, and the position of the last one |
| StringFormat.AnalyzeFormat | kbase/string_format.cpp:105-171 | an error exactly where the grammar has none; else the marked text and the placeholders, sorted by index |
| StringFormat.EqualRange | kbase/string_format.h:365-368 | the range holds exactly the placeholders of one index |
| StringFormat.FillArgument | kbase/string_format.h:364-380 | exactly the placeholders of this argument get what it writes for them, one after the other, to one stream that starts afresh; no slot is lost |
| StringFormat.ReplaceOne | kbase/string_format.h:350-352 | replacing the mark left of an already expanded rest expands one piece more |
| StringFormat.Splice | kbase/string_format.h:342-354 | expanding from right to left gives the left-to-right substitution |
| StringFormat.FinishFormat | kbase/string_format.h:331-355 | an error exactly when an index is not below the argument count, else the substitution |
| StringFormat.FormatRest | kbase/string_format.h:357-383 | the recursion over the arguments ends with the substitution of all of them, or with an error exactly when a specifier throws or an index is too large |
| StringFormat.StringFormat | kbase/string_format.h:331-383 | the result is literal text and, for every placeholder, what its own argument writes to the stream left by the placeholders of this argument before it in the sorted table, or an error exactly when the format or a placeholder is invalid |
| StringFormat.WhenPlaceholdersStandAlone | kbase/string_format.h:331-383 | for all arguments, renderers, streams and sorted tables the result is the left-to-right substitution of every placeholder by the rendering of its argument alone, or an error when one of these fails, if and only if no argument has two placeholders |
| StringFormat.OnceIsAlone | kbase/string_format.h:364-380 | a format without two placeholders of one argument means that in every order of its table |
| StringFormat.OneArgument | kbase/string_format.h:331-383 | "{n:spec}" gives what argument n writes by spec, for every number n, and an error when there is no argument n or it fails |
| StringFormat.DrawnInTurn | kbase/string_format.h:364-380 | the placeholders of one argument write, in the order of the table, to one stream that starts afresh and that no other argument touches |
| StringFormat.TwiceShows | kbase/string_format.h:364-380 | with two placeholders of one argument a renderer with one bit of stream state gives another result in every order that sorting can leave |
| StringFormat.OrderDoesNotMatter | kbase/string_format.h:364-380 | with a renderer that shows nothing of what is left in a stream it is that substitution for every format and every order of its table |
| Path.Root | kbase/path.cpp:24-33 | `npos + 1`, `+ 2` and `+ 3` are the positions of a path without a drive, by wrap-around |
| Path.DriveLetters | kbase/path.cpp:24-33 | a drive is an ASCII letter of either case and a colon; backslash and slash, and no other characters, are separators |
| Path.Stripped | kbase/path.cpp:121-141 | a prefix with the same drive, not empty unless the path is; only separators go |
| Path.StrippedIsStripped | kbase/path.cpp:121-141 | what is left ends in a name, is a root, or is two separators that are all there is; a path of that form is left as it is |
| Path.StrippedTwice | kbase/path.cpp:121-141 | stripping again changes nothing, nor does it change parent or file name |
| Path.WhatIsStripped | kbase/path.cpp:121-141 | behind a name all separators go; behind a drive or at the front all but one, unless there are at most two |
| Path.ParentPath | kbase/path.cpp:161-199 | the parent of a non-empty path is strictly shorter, so taking it apart ends |
| Path.Filename | kbase/path.cpp:201-221 | the name of a non-empty path is not empty and no longer than it |
| Path.FilenameIsName | kbase/path.cpp:234-241 | where there is a parent, the name holds no separator, so the loop drops none |
| Path.NameAndParent | kbase/path.cpp:161-221 | file name and parent of every path, by what stands before and behind its last separator |
| Path.ComponentsAreShaped | kbase/path.cpp:223-259 | components are not empty; only the first, or the one behind a drive, can hold separators |
| Path.NameBehind | kbase/path.cpp:161-221 | a path built from a front and a name has that front as parent and that name as file name, but for a drive in it |
| Path.AppendAddsName | kbase/path.cpp:223-294 | appending a name adds exactly this component, if and only if a stated condition on path and name holds |
| Path.AppendAllAddsTails | kbase/path.cpp:223-294 | behind a stripped path every name appended adds one component, without the drive in front of it |
| Path.TrailingSeparatorStays | kbase/path.cpp:223-294 | `abc/` and its like: appending a name replaces the component |
| Path.AppendAllAddsNames | kbase/path.cpp:223-294 | names appended one by one come back as components behind those of the path, if and only if a stated condition on path and names holds |
| Path.PrintedNamesComeBack | kbase/path.cpp:223-294 | names appended to an empty path or the root and taken apart are the same names, if and only if none begins with a drive that is not all of it, with the two exceptions of an empty path |
| Path.OnlyTheFirst | kbase/path.cpp:331-358 | of the components appended only the first can be absolute, so the check fails before anything is appended |
| Path.WhenTheCheckFails | kbase/path.cpp:331-358 | a part appended is absolute exactly when the only component is a drive and the child goes on with a root, which then is separators only |
| Path.TheCheckFails | kbase/path.cpp:331-358 | it is for `C:` and for `./C:` with the child `C:/a` |
| Path.UncheckedRoot | kbase/path.cpp:266-294 | what a root appended without the check does to every kind of target: it becomes the path, goes behind the drive or the root there is, or is lost with the next name |
| Path.RelativeComponents | kbase/path.cpp:331-358 | the target gets exactly the child's components beyond the parent's, if and only if a stated condition on the target and these components holds; for every proper prefix, where nothing is checked also with a root |
| Path.Path.StripTrailingSeparators | kbase/path.cpp:121-141 | the loop computes the stripped path |
| Path.Path.Append | kbase/path.cpp:266-294 | in a debug build it fails and changes nothing for an absolute part; else, and in a release build always, the path becomes the appended one |
| Path.Path.GetComponents | kbase/path.cpp:223-259 | the loop collects the components in order; an empty path leaves the target alone |
| Path.Path.AppendRelativePath | kbase/path.cpp:331-358 | related exactly when the components are a proper, non-empty prefix of the child's; then the rest is appended, even when the target is one of the two paths, or the check fails, in a debug build exactly when a part is absolute, with nothing appended |
| FileTree.AboveIsDirectory | kbase/file_iterator_posix.cpp:72-84 | everything above a node is a directory of the tree |
| FileTree.DotNames | kbase/file_iterator.cpp:27-30 | the names skipped are exactly the one dot and the two dots |
| FileTree.Descend | kbase/file_iterator_posix.cpp:51-90 | opening a directory makes the walk smaller, so it ends |
| FileTree.VisitMeets | kbase/file_iterator_posix.cpp:51-101 | a walk meets an entry if and only if it is inside a directory of the stack |
| FileTree.VisitIsDistinct | kbase/file_iterator_posix.cpp:51-101 | no entry is met twice |
| FileTree.VisitIsOrdered | kbase/file_iterator_posix.cpp:51-101 | directories come before what is in them, and the entries of one directory come together |
| FileTree.VisitOne | kbase/file_iterator_posix.cpp:88-90 | without recursion the entries of the directory are met, in readdir order |
| FileTree.SameVisit | kbase/file_iterator_posix.cpp:51-101 | changes elsewhere in the tree do not change the rest of a walk |
| FileTree.WithoutIsWellFormed | kbase/file_util_posix.cpp:118-138 | removing nodes with everything in them leaves a tree |
| FileTree.WithoutTwice | kbase/file_util_posix.cpp:118-138 | removals add up |
| FilePaths.KnownStrings | kbase/file_util_posix.cpp:102-139 | what POSIX takes a name, "." and "/" for, alone and behind one another, and which of them it opens, unlinks and removes |
| FilePaths.JoinStep | kbase/file_iterator_posix.cpp:78-78 | the string AppendWith makes of a directory and a name in it names that entry, if and only if what it strips from the directory is slashes, no backslash is left at its end, and it is neither empty nor a bare drive |
| FilePaths.NameAtEnd | kbase/file_iterator_posix.cpp:78-78 | the string made can be joined again if and only if the name ends in no backslash and is not a drive right behind "." |
| FilePaths.StringsAreRight | kbase/file_iterator_posix.cpp:51-101 | every string of a walk names its entry, if and only if this holds for the directory given and for the name of every directory in which something is met |
| FilePaths.EntryIs | kbase/file_iterator_posix.cpp:78-81 | such a string ends in the name, without "." or a slash behind it, and goes on without ".." |
| FilePaths.WalkGoesOn | kbase/file_iterator_posix.cpp:87-90 | what holds for the strings of a walk holds for those of the directory pushed |
| FilePaths.BackslashIsCut | kbase/path.cpp:121-141 | for a directory whose name ends in a backslash AppendWith makes the strings of the directory without it |
| FilePaths.BackslashAgain | kbase/path.cpp:121-141 | a directory that is only a backslash in another such gets the same string again |
| FileWalk.IterationIsComplete | kbase/file_iterator_posix.cpp:42-101 | a recursive walk of the tree meets every node below the root once, directories first, one directory at a time; FileWalk.Entries says that the loop does this walk |
| FileLevels.UpperFirst | kbase/file_iterator_posix.cpp:53-58 | what is pending above is walked completely before what is pending below |
| FileLevels.WhenByLevels | kbase/file_iterator.h:41-43 | the order is breadth first if and only if no directory of the walk has two filled directories of which the later has a filled directory in it |
| FileLevels.NotByLevels | kbase/file_iterator.h:41-43 | a tree, with its dot entries, where it is not |
| FileWalk.FileIterator.constructor | kbase/file_iterator_posix.cpp:42-49 | a new iterator is on the first entry of the walk, or at the end |
| FileWalk.FileIterator.OpenNext | kbase/file_iterator_posix.cpp:54-66 | opening or skipping the last pending directory leaves the entries still to come alone |
| FileWalk.FileIterator.Entry | kbase/file_iterator_posix.cpp:78-85 | the path made with AppendWith passes the check, and lstat tells the kind of that entry |
| FileWalk.FileIterator.ReadNext | kbase/file_iterator_posix.cpp:68-101 | one readdir moves to the next entry, or leaves the entries still to come alone |
| FileWalk.FileIterator.GetNext | kbase/file_iterator_posix.cpp:51-101 | it terminates and moves to a string that names the next entry of the walk, or to the end exactly when there is none |
| FileWalk.Entries | kbase/file_iterator_posix.cpp:42-106 | the strings yielded from begin to end name exactly the entries of the walk, in its order, with the right kinds |
| FileWalk.FileGone | kbase/file_util_posix.cpp:120-129 | unlinking a file already met does not disturb the iteration |
| FileWalk.UnlinkFiles | kbase/file_util_posix.cpp:118-129 | all files below the root go, and the strings on the stack name all directories |
| FileWalk.StackOfDirectories | kbase/file_util_posix.cpp:118-123 | on that stack every directory is above its parent |
| FileWalk.TopIsEmpty | kbase/file_util_posix.cpp:131-136 | every directory handed to rmdir is empty by then |
| FileWalk.RemoveDirectories | kbase/file_util_posix.cpp:131-138 | every rmdir succeeds, but for a path that ends in "." or is the root, and the whole subtree is gone |
| FileWalk.RemoveFile | kbase/file_util_posix.cpp:102-139 | success and the tree left behind, for a path string that names nothing, a file, an empty and a full directory, with and without recursion |
| FileWalk.RemovalIsExact | kbase/file_util_posix.cpp:102-139 | a removed subtree leaves a tree with all other nodes, changed only where its root was listed |
| CommandLine.ScanEscaped | kbase/command_line.cpp:83-116 | the parser's backslash and quote rules undo the escapes of an argument, whatever follows |
| CommandLine.ScanQuoted | kbase/command_line.cpp:83-116 | a quoted argument is scanned as that argument, and the scan stops behind it |
| CommandLine.ParsePrinted | kbase/command_line.cpp:280-297 | parsing a printed list gives its non-empty arguments, and the list itself if and only if none is empty |
| CommandLine.EmptyArgumentIsLost | kbase/command_line.cpp:83-88 | the list of one empty argument is printed as nothing |
| CommandLine.PlainIsKept | kbase/command_line.cpp:83-88 | exactly the arguments without space, tab and quote stay as they are |
| CommandLine.QuoteArg | kbase/command_line.cpp:83-116 | the loop with its backslash counter computes the quoted form |
| CommandLine.TrimIsTheMiddle | kbase/string_util.cpp:55-71 | trimming is the only way to cut spaces and tabs off both ends |
| CommandLine.TrimString | kbase/string_util.cpp:55-71 | the two searches find the trimmed text, nothing for a text of separators |
| CommandLine.CommandLine.constructor | kbase/command_line.cpp:125-131 | only the trimmed program, no switches, no parameters |
| CommandLine.CommandLine.SetProgram | kbase/command_line.cpp:190-194 | the program is trimmed, switches and parameters stay as they are |
| CommandLine.CommandLine.AppendSwitch | kbase/command_line.cpp:226-241 | the switch goes behind the other switches and before the parameters, which stay as they are |
| CommandLine.CommandLine.AppendParameter | kbase/command_line.cpp:243-247 | the parameter goes last, the switches stay as they are |
| CommandLine.CommandLine.GetCommandLineStringWithoutProgram | kbase/command_line.cpp:280-297 | the line is the quoted prefixed switches and parameters with a space between each two, empty when there are none, and is parsed as these, in order, but for empty ones |
| Base64.DecodeEncode | kbase/base64.cpp:115-236 | an encoding is well formed and decodes to the bytes it was made from |
| Base64.AnswersWellFormed | kbase/base64.cpp:160-236 | a decoder answers something if and only if the input is well formed and not empty |
| Base64.EncodeDecode | kbase/base64.cpp:115-236 | encoding a decoded text gives it back if and only if its unused trailing bits are zero |
| Base64.UnusedBitsAreLost | kbase/base64.cpp:208-216 | a text with unused bits set is decoded, and not what its byte is encoded to |
| Base64.KnownVectors | kbase/base64.cpp:114-157 | the test vectors of section 10 of RFC 4648, for each length of the last group |
| Base64Bits.BitsOfNumber | kbase/base64.cpp:125-134 | the bits of a byte stand for its number |
| Base64Bits.SecondIndexIs | kbase/base64.cpp:130-130 | the index of the second letter is the low two bits and the upper four of the next byte |
| Base64Bits.ThirdIndexIs | kbase/base64.cpp:131-131 | that of the third the low four bits and the upper two of the next |
| Base64Bits.FirstByteIs | kbase/base64.cpp:198-198 | the first byte is the first code and the upper two bits of the second |
| Base64Bits.SecondByteIs | kbase/base64.cpp:199-199 | the second byte is the lower four bits of the second code and the upper four of the third; what is shifted out is lost |
| Base64Bits.ThirdByteIs | kbase/base64.cpp:200-200 | the third byte is the lower two bits of the third code and the fourth |
| Base64Bits.NoneBad | kbase/base64.cpp:193-196 | the one test on the joined codes fails exactly when one of them is bad |
| Base64Alphabet.AlphabetOfBase64 | kbase/base64.cpp:43-50 | the letters and the pad are those of section 4 of RFC 4648, by their ASCII codes |
| Base64Alphabet.Cipher0IsLetter | kbase/base64.cpp:18-41 | every entry of the first table is the letter of the upper six bits |
| Base64Alphabet.Cipher1IsLetter | kbase/base64.cpp:43-50 | every entry of the second table is the letter of its index |
| Base64Alphabet.Cipher2IsLetter | kbase/base64.cpp:52-75 | every entry of the third table is the letter of the lower six bits |
| Base64Alphabet.CodeEntryIsCode | kbase/base64.cpp:77-100 | every entry of the decoding table is the number of that letter, or 0xFF |
| Base64.EncoderLetters | kbase/base64.cpp:125-134 | the tables at these indexes give the four letters of a 24-bit group |
| Base64.DecoderOctets | kbase/base64.cpp:198-200 | the three expressions give the three bytes of a 24-bit group |
| Base64.EncodedLength | kbase/base64.cpp:103-106 | the length reserved is the length of the encoding |
| Base64.DecodedLength | kbase/base64.cpp:108-112 | the length reserved is the number of bytes decoded |
| Base64.Encode | kbase/base64.cpp:114-157 | the encoder writes the encoding of section 4 of RFC 4648 |
| Base64.Decode | kbase/base64.cpp:159-236 | the decoder returns the decoded bytes of well-formed input and nothing for any other |
| Base64.DecodeBody | kbase/base64.cpp:180-235 | without the padding: all letters decoded, or an empty result as soon as a character is none |

## Left out

- Operating system and foreign calls: registry, minidump, stack walker, debugger, environment, logging, version information. `opendir`, `readdir`, `lstat`, `unlink` and `rmdir` are operations on the modelled tree, which has no symbolic links, no permissions and no changes by others.
- A directory handle is the list of names at the time of `opendir`; what `readdir` shows of files removed meanwhile is otherwise unspecified.
- Copies of a file iterator share their position in the C++ code; copying one is not modelled.
- Signals: weak memory orders (`unique()` is read under sequential consistency), the forwarding of arguments, the destruction of a slot or of a signal during an Emit, exceptions from callbacks. A callback that calls the signal is one more overlapping call.
- SignalImpl: the class in SignalLists has no Invoke loop, because callbacks may run any other call in between; that loop is part of the step machine in Signals.
- Stream formatting: how a value, a specifier and the state of a stream become text and a new state is a parameter that may fail; what each specifier does to a stream is not modelled.
- ExtractPlaceholderIndex: the white space and sign that `strtoul` accepts do not arise, because the character before is checked to be a digit.
- Sort: `std::sort` is an insertion sort here; only order and permutation are used.
- Pickle: payloads above 2^32 - 1 bytes (refused by a debug check), construction from a raw buffer, operations on moved-from objects, reads into targets that are not empty, reads beyond the end.
- Pickle: the header's size field is a field of the class, not four bytes of the buffer; `Data` puts it in front.
- Pickle: floating-point values are the numbers of their bytes. Sets and maps are lists of distinct elements or keys in the order of their iteration.
- MD5: the byte-wise SET for other architectures and the hexadecimal text of a digest. The sine table is taken from RFC 1321 as numbers, not computed.
- LRUCache: moving a cache, and changing an entry through an iterator outside the cache.
- Path: the Windows build (case-insensitive comparison, other rule for absolute paths), extensions, conversions of encoding, MakePreferredSeparator.
- File paths: the current directory is the root of the modelled tree, so that relative and absolute paths name nodes of one tree.
- FileWalk.FileIterator.GetNext: for walks whose strings are wrong (FilePaths.StringsAreRight says which) only what goes wrong is shown, not what is met instead; in a release build that need not end (FilePaths.BackslashAgain).
- FileWalk.FileIterator.constructor: the same walks, and paths with ".." in them, which the kernel follows upwards.
- FileWalk.Entries: the same walks and paths.
- FileWalk.RemoveFile: the same paths and walks; without recursion only ".." is excluded.
- CommandLine: reading a command line into switches and parameters (trimming, prefixes, values), the lookup of switches, the quoting of the program name, which has other rules.
- Replacing in strings, case conversion and comparison: short loops without interplay.
- AutoReset, ScopeGuard, ScopedHandle, Lazy, Singleton, GUID, endian swaps, enum operators: easy members.
