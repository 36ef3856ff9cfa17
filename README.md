# dbcc flip-test converter: model builder and emitter

This project models the two core pieces of dbcc's DBC-to-flip-test converter.

**The model builder (`can.c`)** turns an already-parsed syntax tree into signals, messages and a database:

- `ast2signal` reads one signal node.
- `ast2msg` collects a message's signal children in source order. It then sorts them in place by start bit with an exchange sort.
- `ast2dbc` collects the messages. It returns NULL when there are none.

**The emitter (`2bsm.c`)** writes the flip-test document:

- `signal2bsm` writes the bit blocks of one signal. Each block has a Normal entry and a Flipped entry, and the Flipped token list is built in a 128-character buffer.
- `msg2bsm` makes two passes over the sorted signals:
  - The first pass sums covered bits and gaps, then rounds the sum up to a payload size of 8, 16, 24 or 32.
  - The second pass puts an `UNKNOWN` filler into each gap, and skips multiplexor and multiplexed signals. A second multiplexor is an error.
- `dbc2bsm` writes the head, every message in order and the suffix, stopping at the first message that fails.
- `print_escaped` and `indent` are the character-level writers.

How the model is built:

- **Syntax tree.** The tree is `Ast.Node(tag, contents, children)`. It is seen only through three lookups of the grammar library:
  - the first index at or after a bound with a given tag (`Ast.IndexFrom`);
  - the child at that index (`Ast.ChildFrom`);
  - the first child with a tag (`Ast.Child`).
- **Build errors.** A C `assert` that fires, or a NULL node the source would dereference, becomes `Err(BuildError)`.
- **Output stream.** The stream (`Output.Stream`) holds a sequence of output `Item`s. The macros of the unseen header `2bsm.h` and the generator and time comments are opaque items there. A write is accepted while the stream holds fewer than `capacity` items. Once one write fails, every later write fails too.
- **Emitter contracts.** Every emitting method is proved to leave `After(old(out), Items, capacity)`: what the stream held before, followed by as much of the intended item sequence as fits. The intended sequence (`SignalItems`, `MessageItems`, `DatabaseItems`) is a function of the model, and lemmas state what it contains.
- **Imperative code.** The loops of the source are methods with loop invariants:
  - the collection loops;
  - the exchange sort on an `array`;
  - the `strcat_s` loops on the buffer `array`;
  - the two passes of `msg2bsm`;
  - the character loops;
  - the message loop of `dbc2bsm`.

  Each method is proved equal to a function that specifies it. The properties the source promises are lemmas about those functions.

Behaviour of the code that the model keeps as written:

- **MSB token list.** In `signal2bsm` the calls `memset(szBits, sizeof(szBits), 0)` pass the fill value and the count in swapped order, so they clear nothing. The MSB list continues the LSB list: a 20-bit signal gets an MSB block of size 4 whose Flipped list holds 20 tokens (`Bsm.SignalBlocksByPart`).
- **Payload sizes.** `[0,8)` and `[16,24)` give a padding size of 24: the gap counts 8 bits and the sum 24 is already a rounding step (`Layout.GapExample`).
- **Second multiplexor.** When `msg2bsm` meets a second multiplexor it has already written the indentation, the message prefix and the blocks of the signals before it. It then returns -1 without the message suffix (`Bsm.MuxErrorOutput`).
- **No messages.** `ast2dbc` returns NULL when the tree has no "messages|>" child or it has no children. That is `Ok(None)` here.
- **Padding above 32 bits.** A sum above 32 falls through the rounding chain and is written unrounded (`Layout.RoundPadding`).
- **Numbers read with "%u".** `sscanf` accepts a sign: "+8" reads as 8 and "-1" as 4294967295. The value is stored in a 32-bit `unsigned`; with the GNU C library, which keeps the low 32 bits, "4294967297" reads as 1 and passes the start-bit check (`Decimal.PlusSpelling`, `Decimal.MinusSpelling`, `Decimal.DecimalRoundTrip`).

## Model

| member | source | states |
|---|---|---|
| Ast.IndexFrom | can.c:152 | the lookup returns -1 exactly when no child from the bound on carries the tag; otherwise the least such index at or after the bound |
| Ast.ChildFromMatch | can.c:152-154 | looking up from the index the index lookup found gives the child at that index |
| Ast.Child | can.c:90-94 | a found child carries the tag and is the child at the first index with that tag; NULL exactly when no child carries it |
| Ast.MatchingExact | can.c:151-159 | the filtered children are exactly the children with the tag, and no more than all of them |
| Decimal.SkipSpaces | can.c:96 | the conversion skips leading white space: what is left is a suffix that does not start with a space |
| Decimal.SkipSpacesDropsSpaces | can.c:96 | every character the conversion skips is white space |
| Decimal.LeadingDigits | can.c:96 | the digits converted are the longest prefix of decimal digits |
| Decimal.DecimalRoundTrip | can.c:96-99 | sscanf "%u" reads back the decimal spelling of every number below 2^32, and keeps the low 32 bits of a larger one that fits an unsigned long |
| Decimal.ParsePlain | can.c:96-99 | a digit string converts as strtoul converts it, truncated to 32 bits |
| Decimal.ParseSigned | can.c:96-99 | a sign followed by a digit string converts as strtoul converts it, negated after '-', truncated to 32 bits |
| Decimal.PlusSpelling | can.c:96-99 | "%u" reads "+" followed by a number below 2^32 as that number |
| Decimal.MinusSpelling | can.c:96-99 | "%u" reads "-" followed by a positive number below 2^32 as its 32-bit complement |
| Decimal.UnsignedRoundTrip | can.c:118 | atol reads back the decimal spelling of every natural number |
| Decimal.NegativeRoundTrip | can.c:118 | atol reads back a minus sign followed by the spelling of a negative number's magnitude |
| Decimal.SignedRoundTrip | can.c:118 | atol reads back the signed decimal spelling of every integer |
| Can.BitRange | can.c:96-99 | succeeds exactly when start bit and length both convert and neither exceeds 64; length 0 is allowed; gives the converted values |
| Can.Encoding | can.c:100-107 | succeeds exactly when the endianness character is '0' or '1' and the sign character '+' or '-'; '0' gives Motorola, '1' Intel; signed exactly when the sign is '-' |
| Can.ScalingOf | can.c:47-83 | succeeds exactly when the scaling and range nodes have children 1 and 3 and the unit node has its text child; gives the texts of children 1 and 3 and of the unit text |
| Can.MultiplexingOf | can.c:115-124 | multiplexed exactly when a multiplex value node exists, multiplexor exactly when the marker exists, never both (that case fails); the switch value is atol of the value node's child 1 when multiplexed, and 0 otherwise |
| Can.Ast2SignalMeaning | can.c:85-131 | ast2signal succeeds exactly on a well-formed node; the signal is valid (bits at most 64, flags exclusive); name, start bit, length, endianness, sign, scaling, offset, minimum, maximum, units, the two flags and the switch value each equal what the source reads from the node |
| Can.BuildEachShape | can.c:151-159 | building a list succeeds exactly when every node builds, and then gives one result per node in order |
| Can.BuildEachSucceeds | can.c:151-159 | when one node builds exactly under a condition, the collection succeeds exactly when every node meets it |
| Can.BuildEachStops | can.c:151-159 | once a prefix fails to build, the whole build fails with that error |
| Can.MessageOfMeaning | can.c:133-159 | ast2msg succeeds exactly when name, ecu, dlc and id are present, dlc and id convert, and every "signal\|>" child is well formed; name, ecu, dlc and id are the texts and values read |
| Can.SignalsOfSucceed | can.c:151-159 | the signals of a message build exactly when every "signal\|>" child is well formed |
| Can.MessageOfSignals | can.c:149-178 | a built message holds one valid signal per "signal\|>" child; they are sorted by start bit, a permutation of the signals in source order, and keep the source order among equal start bits |
| Can.BuiltSignalsValid | can.c:151-159 | every collected signal is what ast2signal built from the child at the same position, and is valid |
| Can.SortKeepsValid | can.c:164-178 | sorting keeps every signal valid |
| Can.CollectSignals | can.c:149-162 | the collection loop builds the "signal\|>" children in source order and stops at the first that fails |
| Can.SortSignals | can.c:161-178 | the sort, skipped for fewer than two signals, gives the stable sort by start bit of the collected list |
| Can.Ast2Msg | can.c:133-182 | ast2msg builds exactly the message MessageOf specifies |
| Can.DatabaseOfMessages | can.c:198-226 | the database is NULL exactly when there is no "messages\|>" child or it has no children; otherwise one message per "message\|>" child in source order, each with sorted, valid signals |
| Can.CollectMessages | can.c:213-225 | the collection loop builds the "message\|>" children in source order and stops at the first that fails |
| Can.Ast2Dbc | can.c:198-227 | ast2dbc builds exactly the database DatabaseOf specifies |
| SignalSort.InsertKeepsOrder | can.c:164-178 | inserting a signal puts it first among the signals with its start bit and keeps the order of the others |
| SignalSort.InsertElements | can.c:164-178 | inserting adds exactly that signal to the multiset |
| SignalSort.InsertSorted | can.c:164-178 | inserting into a sorted list keeps it sorted |
| SignalSort.SortByStartCorrect | can.c:164-178 | the reference sort is ascending by start bit, a permutation of its input, and stable |
| SignalSort.StableSortUnique | can.c:170 | two lists sorted by start bit that agree on the order of each start bit are equal, so a stable sort has one result |
| SignalSort.SortByStartOfSorted | can.c:166-177 | a list already in start-bit order is its own sort |
| SignalSort.SortByStartIdempotent | can.c:166-177 | sorting twice gives what sorting once gives |
| SignalSort.SwapKeepsOrder | can.c:170-174 | exchanging two neighbours with different start bits keeps the order within every start bit |
| SignalSort.PassStepSwap | can.c:169-175 | a swap happens only inside the unsettled part and keeps the pass invariant |
| SignalSort.PassSwap | can.c:169-175 | a swap keeps both the pass invariant and the order within every start bit |
| SignalSort.PassStepKeep | can.c:169-170 | passing an ordered pair keeps the pass invariant |
| SignalSort.PassEnd | can.c:167-177 | after a pass, one more element is settled, and a pass without swaps leaves the list sorted |
| SignalSort.SwapNext | can.c:171-173 | the three assignments exchange the neighbours i and i + 1 and nothing else |
| SignalSort.BubblePass | can.c:168-176 | one pass settles one more position, keeps the order within every start bit, swaps only while two or more positions are unsettled, and a swap-free pass leaves the array sorted |
| SignalSort.BubbleSort | can.c:166-177 | the do-while terminates with the array equal to the stable sort of its old contents: sorted, a permutation, and unchanged when already sorted |
| Layout.RoundPadding | 2bsm.c:172-183 | a sum of at most 32 becomes the least of 8, 16, 24, 32 that holds it; a larger sum is left unchanged; never below the sum |
| Layout.PadFoldCovers | 2bsm.c:155-170 | the running sum never falls behind last_bit, last_bit is the end of the last signal, and the sum reaches the end of every signal |
| Layout.RawPaddingCoversAll | 2bsm.c:155-170 | the raw sum reaches the end of every signal, multiplexor and multiplexed ones included |
| Layout.RawPaddingOfDisjoint | 2bsm.c:155-170 | for signals that do not overlap and run in order, the raw sum is the end of the last signal |
| Layout.Filler | 2bsm.c:204-210 | the filler is named UNKNOWN, has empty units, starts at last_bit and covers the gap, and is neither multiplexor nor multiplexed |
| Layout.PlanFailsOnSecondMux | 2bsm.c:189-198 | the second pass fails exactly when the message has two or more multiplexors, and has seen one exactly when it has at least one |
| Layout.PlanFailSticks | 2bsm.c:192-195 | after the failure no later signal changes the outcome |
| Layout.PlanRealsAreOrdinary | 2bsm.c:189-223 | a pass that does not fail emits exactly the signals that are neither multiplexor nor multiplexed, in order |
| Layout.PlanEndsInInput | 2bsm.c:202-222 | the last entry of a plan, if any, is a real signal of the message |
| Layout.WellPlacedGap | 2bsm.c:202-222 | a filler for the gap and then the signal keep the plan without holes and with every filler in place |
| Layout.WellPlacedReal | 2bsm.c:218-222 | a signal that starts no later than the plan ends keeps the plan well placed |
| Layout.PlanStepWellPlaced | 2bsm.c:189-222 | one signal of the second pass keeps the plan well placed |
| Layout.PlanWellPlaced | 2bsm.c:187-223 | each entry starts no later than the one before it ends; each filler starts where the entry before it ends, is not empty, and is followed by the real signal that starts where it ends; last_bit is where the plan ends |
| Layout.PlanStepAscending | 2bsm.c:189-222 | one step keeps the entries ascending when the signal starts no earlier than the last entry |
| Layout.PlanAscending | 2bsm.c:187-223 | for signals sorted by start bit, the entries come out in ascending bit order |
| Layout.PassesAgree | 2bsm.c:155-222 | without multiplexing, the raw padding sum is the total length of the emitted entries, fillers included, and both passes end at the same last_bit |
| Layout.SingleByteExample | 2bsm.c:155-222 | one 8-bit signal at bit 0 pads to 8 and is emitted alone |
| Layout.GapExample | 2bsm.c:155-222 | signals at [0,8) and [16,24) get a filler for [8,16) between them and pad to 24 |
| Escape.EscapeChar | 2bsm.c:23-31 | the five XML special characters become entities starting with '&'; every other character is copied unchanged |
| Escape.UnescapeEscape | 2bsm.c:22-34 | escaping loses nothing: reading the entities back gives the original string |
| Escape.EscapeClean | 2bsm.c:23-28 | escaped text holds no quote, apostrophe, '<' or '>' |
| Escape.EscapedItemsText | 2bsm.c:22-34 | the writes of print_escaped together carry exactly the escaped string |
| Escape.TabsText | 2bsm.c:41-43 | the writes of indent together carry exactly depth tab characters |
| Escape.PrintEscaped | 2bsm.c:16-36 | writes the escapes of the characters in order up to the first failed write; returns -1 exactly when a write fails, else 0 |
| Escape.Indent | 2bsm.c:38-45 | writes depth tabs up to the first failed write; returns -1 exactly when a write fails, else 0 |
| Output.Stream.Put | 2bsm.c:30 | a write is accepted exactly while the stream is below capacity, and then appends the item |
| Buffer.CharBuffer.constructor | 2bsm.c:103 | the zero-initialised buffer holds the empty string |
| Buffer.CharBuffer.Strlen | 2bsm.c:111 | strlen gives the length of the text before the first NUL |
| Buffer.CharBuffer.Memset | 2bsm.c:109 | the first count characters become the value and the rest is unchanged; with count 0 the text is unchanged |
| Buffer.CharBuffer.Strcat | 2bsm.c:112-114 | strcat_s of a string that fits appends it to the text and keeps the buffer terminated |
| Bsm.OnesText | 2bsm.c:110-115 | n tokens joined by commas are 2n - 1 characters, none for n = 0 |
| Bsm.OnesStep | 2bsm.c:111-114 | one round of the loop, a comma when the buffer is not empty and then a "1", turns n tokens into n + 1 |
| Bsm.OnesCount | 2bsm.c:110-115 | a list of n tokens holds n ones and n - 1 commas |
| Bsm.OnesFit | 2bsm.c:103 | with at most 64 tokens the list and its terminator fit the 128-character buffer |
| Bsm.AppendOnes | 2bsm.c:110-115 | count more rounds of the strcat_s loop turn done tokens into done + count |
| Bsm.FillOnes | 2bsm.c:109-115 | the swapped memset clears nothing, so the buffer afterwards holds the earlier tokens plus count more |
| Bsm.BlockCounts | 2bsm.c:140-143 | one BE element is one block whose Normal entry covers its size |
| Bsm.SignalItemsMeaning | 2bsm.c:104-143 | one block for at most 16 bits and two for more; the Normal entries together span the signal with Bits="0"; each Flipped list holds as many ones as its block is wide, except the MSB list, which holds 16 more |
| Bsm.SignalBlocksByPart | 2bsm.c:104-143 | every block is a whole BE element: opening, Normal entry, Flipped entry of the same part and size, closing; above 16 bits an LSB block of 16 bits listing 16 tokens under Bits=, then an MSB block of bitLength - 16 bits listing bitLength tokens under MultiBits=; otherwise one Whole block of bitLength bits listing bitLength tokens under MultiBits=; every entry bears the signal's name |
| Bsm.WriteBlock | 2bsm.c:140-143 | the four unchecked writes of one BE element |
| Bsm.Signal2Bsm | 2bsm.c:98-147 | writes the signal's blocks with the lists built in the buffer, and returns 0 whatever the stream accepted |
| Bsm.FlattenConcat | 2bsm.c:189-223 | the blocks of two runs of entries are the blocks of the first followed by those of the second |
| Bsm.PaddingSize | 2bsm.c:155-183 | the first pass and the rounding chain compute the rounded padding sum |
| Bsm.PlanStopsAt | 2bsm.c:191-195 | a pass that has failed after a prefix has failed for the whole message |
| Bsm.WriteOrdinary | 2bsm.c:202-222 | for an emitted signal, writes the filler's blocks and then the signal's, exactly the step of the plan |
| Bsm.WriteEntries | 2bsm.c:187-223 | the second pass writes the blocks of every plan entry in order, and reports failure exactly at a second multiplexor |
| Bsm.Msg2Bsm | 2bsm.c:149-255 | writes indentation, the prefix with name, id twice and payload size, the blocks and, unless it stopped, the suffix; returns 0 exactly when there is no second multiplexor and the suffix write succeeds |
| Bsm.MuxErrorOutput | 2bsm.c:185-195 | with two multiplexors the message prefix is written and the suffix is not |
| Bsm.PlanItemsBlocksOnly | 2bsm.c:202-222 | the second pass writes nothing but block items |
| Bsm.AbortedMeaning | 2bsm.c:276-280 | the run is aborted exactly when some message has two or more multiplexors |
| Bsm.BodyStops | 2bsm.c:276-280 | after a message stops the run, later messages add nothing |
| Bsm.BodyPrefix | 2bsm.c:276-280 | what a prefix of the messages writes is a prefix of what all of them write |
| Bsm.StoppedMessage | 2bsm.c:277-279 | a message that stops the run is the last one that writes anything |
| Bsm.OverflowedMessage | 2bsm.c:277-279 | when a message overflows the stream, nothing after it reaches the stream |
| Bsm.TimestampOnlyAddsComment | 2bsm.c:267-274 | the timestamp option adds the time comment right after BSM_PREFIX and changes nothing else |
| Bsm.WriteHead | 2bsm.c:267-274 | writes the generator comment, BSM_PREFIX and, when asked, the time comment; their results are not checked |
| Bsm.WriteMessage | 2bsm.c:277-279 | one round of the message loop: success extends the written body by the message; failure leaves what writing the whole document would |
| Bsm.WriteMessages | 2bsm.c:276-280 | the messages in index order, returning -1 at the first that fails; 0 exactly when no message stops and everything fits |
| Bsm.Dbc2Bsm | 2bsm.c:257-285 | writes the head, the messages and, unless some message failed, BSM_SUFFIX; returns 0 exactly when no message has a second multiplexor and the stream took every write before the suffix |
| Bsm.SingleSignalMessageExample | 2bsm.c:149-255 | the one-signal message of id 100 writes the prefix with size 8, one Whole block with Bits="0" Size=8 and eight flipped tokens, no filler, and the suffix |

## Left out

- The mpc grammar and the tree library are not part of this model. The tree is only its tags, texts and children, and the three lookups are their documented results.
- A C `assert` that fires, a NULL node the source dereferences, and a read of `children[1]` or `children[3]` past the end of a node's children (can.c:51-52, 63-64, 118) end the program or read out of bounds. Here they return an `Err` with the reason; the out-of-bounds read is `MissingChild`.
- Allocation, `reallocator` and freeing (`signal_new`, `signal_delete`, `can_msg_delete`, `dbc_delete`) are not modelled. The arrays that grow are sequences. The NULL dereference in `signal_delete` after its guard is outside the core.
- Can.ScalingOf: scaling, offset, minimum and maximum are read with `sscanf "%lf"` (floating point). They are kept as the text of their nodes, and a failed float conversion is not modelled.
- Decimal.ParseUnsigned: follows the GNU C library, where "%u" converts with `strtoul` into a 64-bit `unsigned long` and keeps the low 32 bits. The C standard leaves a value that does not fit `unsigned` undefined.
- Decimal.ParseLong: `atol` overflow is not modelled. The declared type of `switchval` is in `can.h`, which is not part of this model, so the value is kept as an unbounded integer.
- Can.Ast2SignalMeaning: carries the contract of `ast2signal`, so `Can.Ast2Signal` itself has no `ensures`. This keeps its unfolding cheap where messages are built.
- `debug`, `warning` and `error` logging is not modelled.
- The commented-out multiplexor output at 2bsm.c:225-250 is dead code and is not modelled.
- `pnode` is used only by that dead code and is not modelled.
- The output is a sequence of abstract items, not characters:
  - Each `fputc`, `fputs` or `fprintf` is exactly one item.
  - The fixed tab runs and attribute layout inside the format strings are not modelled; only the values that fill them are kept.
  - `comment` is one opaque item, and its own indent and failure report are not modelled.
  - The contents of `BSM_PREFIX`, `BSM_MESSAGE_PREFIX`, `BSM_MESSAGE_SUFFIX` and `BSM_SUFFIX` (from the unseen `2bsm.h`) are opaque items.
- Output.Stream.Put: write failures are modelled as a capacity. A real `FILE*` can also fail at random, or write part of a formatted line before failing.
- `time`, `localtime_s` and `asctime_s` are clock I/O. The formatted time is the parameter `stamp` of `Bsm.Dbc2Bsm`.
- Bsm.Signal2Bsm: requires `bitLength <= 64`. Every signal `ast2signal` builds meets this, and so does every `UNKNOWN` filler. A longer signal would trip the runtime-constraint handler of `strcat_s`, which is not modelled.
- Bsm.Msg2Bsm: requires a valid message, and Bsm.Dbc2Bsm a valid database. `Can.DatabaseOfMessages` proves these of what `ast2dbc` builds. `padding_size` is an unsigned 32-bit sum whose wrap-around is not modelled.
- Escape.PrintEscaped: modelled and proved, but `2bsm.c` never calls `print_escaped`. Signal and message names are written unescaped, as in the source.
