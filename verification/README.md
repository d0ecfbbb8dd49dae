# A verified model of libslax, libxi and parrotdb

This project models the parts of the repository where state, arithmetic and
pointers meet, and proves what those parts are for. Every module follows one
component; code that works in place is modelled as classes and methods over
the same fields, and each method is proved against functions and predicates
whose own properties are proved beside it.

Check it with `dafny verify dfyconfig.toml`.

## The components

**The threaded XML tree** (`XiTree`, `XiZipper`, `XiInsert`, `XiEmit`,
`XiRoundTrip`, `XiRules`). A node has no parent pointer: the last sibling's `xn_next`
leads to the parent and `xn_depth` tells the two apart. `XiInsert.Insert`
holds the node store, the stack and the depth. A ghost shape says which
recursive tree the store stands for, and the zipper in `XiZipper` says what a
token sequence means without any store. Every insertion is proved to keep the
store well threaded and to do to the zipper what the token asks. Emission, one
loop without a stack, is proved to end and to give the events of the recursive
walk; reading those events back gives the tokens, `<a></a>` being the same as
`<a/>`, each under the tag that its rule asks for (`XiRules`).

**The allocator** (`PaMath`, `PaArbSize`, `PaArb`). Memory is a map from word
addresses to words, so that headers, free links and client data share it.
`PaArb.Sound` says that the free lists are finite, acyclic, disjoint, of the
right slot, and that a chunk is on a list exactly when its header says free.
It holds after every allocation, free and client write.

**The bitmaps** (`PaBits`, `PaFixed`, `PaBitmap`, `PaBitmapFind`). Tables and
bit blocks come from one pool whose free chain runs through the blocks
themselves. Membership is read off the words; set, clear and test act on a
family of independent sets. The search with its `restart` label is proved
against the least member, its wrap-around included.

**Expressions** (`SlaxString`, `SlaxConcat`, `SlaxRewrite`, `SlaxRender`,
`SlaxWrap`, `SlaxTemplate`, `SlaxTernary`, `SlaxConditional`). `SlaxRewrite` and
`SlaxConditional` relink segments in memory; `SlaxConcat` says what becomes of
the token sequences of a concatenation. `SlaxRender`
copies tokens into a buffer of the computed size with the marks beside them.
`SlaxWrap` breaks the result into lines. `SlaxTemplate` prints and splits
attribute value templates. `SlaxTernary` gives meaning both to conditionals and
to the instructions they are expanded to, and compares the two.

**Quoting** (`SlaxQuote`): the printer, the lexer over a buffer refilled line
by line, and the decoder writing into an array.

**State over runs**: `SlaxDampen`, the rate limiter over its log, and
`SlaxMvar`, mutable variables over a store of nodes that only grows.

**Smaller parts**: `SlaxJson`, the JSON writer against the lexer's grammar,
`SlaxJsonTree`, JSON through XML and back, and
`SlaxHumanize` with `SlaxDigits`, numbers with unit prefixes.

## Where the code does less than it seems to promise

In each case the code is modelled as it is, an input is given or a whole family
of them is, and the exact condition is proved, with one exception named below.

- `pa_log2` takes 32 bits: a request served from a free list fits its chunk
  exactly up to 2^32 bytes (`SmallSlotFits`, `HugeRequestTruncates`).
- The page count of a large block has 16 bits: it is recovered exactly up to
  2^28 - 4096 bytes (`LargeSizeRecovered`); beyond, freeing gives back zero
  bytes and the pages are lost (`Arb.Free`). A large block's header is not
  marked when it is freed (`FreeTwice`): a free of an atom that is no block any
  more hands pages back once more exactly if the word read there is still the
  header of a large block (`Arb.Free`).
- `find_next` starts over at zero past chunk 255: the end is reported exactly
  when that chunk is unallocated or the last number of all is set (`EndsIff`),
  and with nothing set a call never returns (`RunsForever`). From a number whose
  chunk is not allocated, members below the kept mask are skipped in the next
  chunk that is (`KeptMaskSkips`, `KeptMaskMisses`).
- Two empty literals on either side of `_` make the token list a cycle, and the
  next search for its end never ends (`TwoEmptiesLoop`, `CycleNeverEnds`).
- A printed literal is scanned whole exactly when the flags escape each
  delimiter in it (`QuoteRoundTrip`); the flags chosen for text content always
  do (`ContentQuote`).
- `\u+XXXX` and `\u-XXXXXX` also consume the byte after the digits, where
  doc/concepts.rst:533 only promises the digits. The string keeps its meaning if
  there is no such byte, or it is one of an odd number of backslashes before a
  byte that stands for itself, and only then
  (`UnicodeEscapeTakesOneMore`, `UnicodeEscapeLosesByte`); the one exception,
  named under "Left out", can go either way (`TangledEitherWay`). Surrogates and
  numbers beyond 10FFFF do not give UTF-8 (`Utf8IsUtf8`).
- An operand that starts with a literal and goes on is written into an
  attribute value template as text, without braces; all other operands are
  read back as they were (`TemplateRoundTrip`, `ComparisonLosesBraces`).
- A token list that ends in an axis token loses its last character in
  `slaxStringCopyMarked`. A list of nothing but a dropped pair of parentheses
  writes nothing, not even a NUL (`CopyMarked`).
- `slaxWrite` loses a character when a text fills the buffer to its last byte
  (`SlaxWrap.Writer.Write`). Trimming the space before a line break moves the
  count but not the NUL, so the space is still sent. Were three indents more
  than half the width, wrapping would try the same line for ever
  (`SpinsForever`).
- A conditional expanded to a variable keeps its value exactly for non-empty
  strings, no nodes, and roots of trees that are not a single text
  (`ThroughKeeps`); used as a condition it keeps its truth exactly unless it is
  false(), a zero, or nodes of which nothing is copied (`TruthKept`). An
  expression keeps its value and evaluations exactly if each chosen value is one
  of the first kind (`MeaningKeptIff`). A conditional inside the condition of a
  `c ? t : f` puts a variable where section 9.2 of XSLT 1.0 allows none: an
  expansion runs exactly if no such conditional is met in the branches that are
  chosen (`RunsIff`, `UnchosenIsHarmless`).
- A clock that is set back makes the rate limiter forget what it counted: up to
  the first record from the future every call keeps the limit, and the call
  that meets one breaks it exactly if max successes lie within the window
  (`WarpForgets`, `PromiseKeptIff`, `WarpBreaksLimit`). A window then holds at
  most max successes for each stretch between such calls (`WindowOnAnyClock`).
  Its window is the larger of the period and the period rounded to whole seconds
  (`TwoTests`).
- After setting a mutable variable, a copy is listed twice exactly when a plain
  node stood before a tree in the value (`SetListedOnce`). Appending a container
  to itself never ends exactly if one of its children is no text
  (`SelfAppendNeverEnds`).
- libxml2 merges a text node added behind a text node and frees it: the copies
  in a container are those of the value exactly if no texts meet
  (`OneByOneIff`), and the value of the variable names a node that is gone
  exactly if they meet among the nodes it names (`SetGoodIff`, `AppendGoodIff`,
  `TwoTextsMerge`).
- A JSON document is read back as its tree exactly if typed scalars hold text
  of their type, strings hold no quote, backslash or unusual control character
  (which are not escaped), names without quotes are letters, digits and
  underscores, no `member` is found outside arrays, and after the last element
  of a group there is nothing but text (`DocumentReads`, `EscapeMeans`,
  `OptionalQuotes`, `MemberNeedsArray`, `CommentLeavesComma`). A JSON document
  made into XML and written again is the same document exactly if its strings
  can be written and no object in it is empty: `{}` inside becomes `""`
  (`JsonRoundTrip`, `EmptyObjectLost`).
- The check for room before a number is formatted allows for one digit, so
  that longer whole numbers are cut (`CutIff`, `DigitsCut`).
- Negative numbers are scaled as unsigned ones and always get the largest unit
  (`NegativeScale`).

## Model

| member | source | states |
|---|---|---|
| XiInsert.Insert.constructor | libxi/xiparse.c:50-128 | a new store holds the root alone, which is the open node |
| XiInsert.Insert.Push | libxi/xiparse.c:145-155 | the node just hung becomes the open one: the finished children of its parent lose it, and a new frame with its name opens |
| XiInsert.Insert.Pop | libxi/xiparse.c:157-166 | the innermost open element becomes a finished child of the one around it |
| XiInsert.Insert.InsertNode | libxi/xiparse.c:168-216 | one leaf is appended to the innermost open element, everything else in the tree as before; `xi_maxdepth` is the greatest depth reached |
| XiInsert.Insert.InsertAttribs | libxi/xiparse.c:352-378 | the attribute string becomes a child of the open node and the node is flagged as having attributes |
| XiInsert.Insert.InsertText | libxi/xiparse.c:746-768 | one text leaf is appended to the innermost open element |
| XiInsert.Insert.InsertOpen | libxi/xiparse.c:645-707 | an element is opened, with its attribute string as first child exactly when one is given and the action keeps it |
| XiInsert.Insert.InsertClose | libxi/xiparse.c:709-744 | closes the innermost element if the name is the one it was read with; else reports a failure and leaves the tree as it was |
| XiInsert.Insert.HandleRule | libxi/xiparse.c:770-801 | one element is opened inside what was open: under the tag the rule asks for, or else the one read, with the attribute string only where the rule keeps it; its close tag must carry the name that was read |
| XiInsert.Insert.Parse | libxi/xiparse.c:803-950 | after any token sequence, balanced or not, the store is well threaded and stands for the zipper that a run over recursive trees gives; the failures counted are the close tags that matched nothing |
| XiInsert.NodeParent | libxi/xiparse.c:265-281 | following sibling links until the depth drops gives the tree parent, and nothing for the root |
| XiInsert.LinkedThreaded | libxi/xiparse.c:168-216 | hanging a node keeps the store well threaded: the chain of the open node still ends at it, depths are parent plus one |
| XiInsert.LinkedStack | libxi/xiparse.c:168-216 | and the stack is still the rightmost open path |
| XiInsert.LinkedZip | libxi/xiparse.c:168-216 | the new tree is the old one with one leaf appended to the innermost open element |
| XiInsert.MoreText | libxi/xiparse.c:746-768 | adding to the text pool changes no tree |
| XiInsert.PushOk | libxi/xiparse.c:145-155 | pushing the last child keeps the store well threaded and the stack its rightmost path |
| XiInsert.PushZip | libxi/xiparse.c:145-155 | and moves that child from the finished ones to a frame of its own |
| XiInsert.PopOk | libxi/xiparse.c:157-166 | popping keeps the store well threaded and closes one frame |
| XiInsert.FlagKeepsState | libxi/xiparse.c:352-378 | flagging an element changes no tree |
| XiInsert.RenameOk | libxi/xiparse.c:795-799 | remembering the name read changes only the name a close must carry |
| XiInsert.PathUpClosed | libxi/xiparse.c:145-216 | the open nodes form a path: each one's parent is open too |
| XiInsert.FinishedOffPath | libxi/xiparse.c:145-216 | no finished child of an open node is itself open |
| XiTree.NextOf | libxi/xiparse.c:265-281 | `xn_next` is the next sibling at the same depth, or the parent after the last |
| XiTree.ForestAt | libxi/xiparse.c:168-216 | the i-th child list entry is the i-th subtree |
| XiTree.TreeOfUnchanged | libxi/xiparse.c:168-216 | growing the store below one node changes no subtree that does not contain that node |
| XiTree.ForestUnchanged | libxi/xiparse.c:168-216 | the same for the first children of any node |
| XiEmit.Emit | libxi/xiparse.c:1184-1286 | the stackless loop ends on every well-threaded store and gives exactly the events of a recursive walk |
| XiEmit.StepDown | libxi/xiparse.c:1197-1283 | the events written on reaching a node, followed by what is left where the loop goes next, are what was left before |
| XiEmit.StepUp | libxi/xiparse.c:1204-1225 | the same for coming back up to a node, where the close is written; the loop ends only at the root |
| XiEmit.StepRoot | libxi/xiparse.c:1229-1231 | the walk of the document is the root event, what is left at its first child, and the end |
| XiEmit.FollowNext | libxi/xiparse.c:1218-1225 | a drop in depth along `xn_next` tells a parent from a sibling, so the link leads to what follows the subtree |
| XiEmit.BeforeKid | libxi/xiparse.c:1197-1283 | before the i-th child there are left the walks of the children from i on and the parent's close |
| XiRoundTrip.StoreIsPlug | libxi/xiparse.c:145-216 | the tree in the store is the zipper with its open elements closed |
| XiRoundTrip.ReadWalkTree | libxi/xiparse.c:1184-1286 | reading the events of a tree gives the tokens of that tree |
| XiRoundTrip.ReadDocument | libxi/xiparse.c:1184-1286 | the same for a whole document |
| XiRoundTrip.RunAgrees | libxi/xiparse.c:803-950 | the zipper after any token sequence and the independent account in tokens agree |
| XiRoundTrip.PlugAgrees | libxi/xiparse.c:803-950 | closing what is open agrees as well |
| XiRoundTrip.EmitGivesTokensBack | libxi/xiparse.c:803-950 | for every token sequence, emitting the tree built gives the kept tokens, bad closes dropped, open elements closed and an element with nothing in it shown as an empty tag |
| XiRoundTrip.TidyRoundTrip | libxi/xiparse.c:803-950 | a balanced document without empty pairs, read with its attributes, comes back token for token |
| XiRoundTrip.BalancedRoundTrip | libxi/xiparse.c:803-950 | any balanced document, read with its attributes, comes back with comments and the like dropped and each empty pair as one empty tag |
| XiRules.CloseHasOpen | libxi/xiparse.c:709-744 | every close tag of a balanced document ends an element opened before it by the same name, with everything between them balanced, and comes back under that element's stored tag |
| XiRules.RetaggedMeans | libxi/xiparse.c:770-801 | token by token: an open or empty tag is the one its rule asks for, or else the one read; attributes stay only under a rule that saves them; a close tag is the one of the element it ends; text is untouched |
| XiRules.RuledRoundTrip | libxi/xiparse.c:770-950 | any balanced document, read under any rules, comes back as those tokens, with comments dropped and each empty pair as one empty tag |
| XiRules.RuledTidyRoundTrip | libxi/xiparse.c:770-950 | a tidy document, read under any rules, comes back with exactly as many tokens, each the one its rule asks for |
| XiRules.NoFailuresIff | libxi/xiparse.c:709-744 | no close tag of a run fails iff each carries the name of the innermost open element as it was read, whatever tags the rules stored |
| XiRoundTrip.ParseAndEmit | libxi/xiparse.c:1184-1286 | parse then emit on the actual store gives those tokens |
| PaArbSize.Log2 | parrotdb/palog2.h:30-43 | the shifting loop returns the position of the highest bit: 2^(idx-1) <= size < 2^idx |
| PaArbSize.BitLengthBounds | parrotdb/palog2.h:30-43 | the bit length of n bounds n by powers of two on both sides |
| PaArbSize.SlotIsLeast | parrotdb/paarb.c:30-37 | a slot's chunk holds a size up to 2^32 iff the slot is at least the one chosen: the chosen slot is the least that fits |
| PaArbSize.SmallSlotFits | parrotdb/paarb.c:30-37 | a request sent to a free list fits its chunk iff it is at most 2^32 bytes, because the logarithm takes 32 bits |
| PaArbSize.HugeRequestTruncates | parrotdb/paarb.c:30-37 | 2^32 + 101 bytes are served from the 128-byte slot |
| PaArbSize.LargeSizeRecovered | parrotdb/paarb.c:147-167 | the recorded page count gives back the size obtained iff the full size is at most 2^28 - 4096; above that the 16-bit field holds zero |
| PaArbSize.SlotFacts | parrotdb/paarb.c:39-57 | the chunks of a slot tile the pages asked for exactly |
| PaArbSize.ChunkOffset | parrotdb/paarb.c:39-74 | chunk offsets stay below 256 units, divide back to the chunk number, and the chunk ends inside its pages |
| PaArbSize.AtomRoundTrip | parrotdb/paarb.h:129-156 | decoding an atom gives the page, offset, chunk number and header address it was built from |
| PaArbSize.AtomsDistinct | parrotdb/paarb.c:59-74 | two atoms of a slot are equal iff page and chunk are |
| PaArb.BlockInRegion | parrotdb/paarb.c:39-74 | every block lies inside its run of pages and its atom fits 32 bits |
| PaArb.BlocksDisjoint | parrotdb/paarb.c:39-74 | no two blocks share a word |
| PaArb.WriteKeepsOthers | parrotdb/paarb.c:94-105 | a write inside one block changes no header and no free link of another |
| PaArb.PopSound | parrotdb/paarb.c:139-145 | taking the head of a list keeps the allocator sound and makes that chunk, and no other, live |
| PaArb.PushMarked | parrotdb/paarb.c:186-193 | freeing a live chunk keeps the allocator sound and ends the life of that chunk alone |
| PaArb.ClientSound | parrotdb/paarb.c:116-174 | a client may write any word of a live block but its header: lists, pages and live blocks stay sound |
| PaArb.PageSound | parrotdb/paarb.c:76-108 | a carved page keeps the allocator sound, adds free chunks only, and leaves every older block word for word |
| PaArb.LargeSound | parrotdb/paarb.c:147-167 | a large block keeps the allocator sound and is the one new live block |
| PaArb.ReleaseSound | parrotdb/paarb.c:200-205 | giving back, or losing, the pages of a large block keeps the rest sound |
| PaArb.OldBlocksKept | parrotdb/paarb.c:76-108 | writes inside fresh pages leave every older block as it was |
| PaArb.CarvePage | parrotdb/paarb.c:88-105 | the carving loop writes a free header and the next link in every chunk of the page, and nothing outside it |
| PaArb.Arb.constructor | parrotdb/paarb.c:231-236 | an empty database is sound, whatever its memory holds |
| PaArb.Arb.MakePage | parrotdb/paarb.c:76-108 | an empty list becomes the chunks of the new page in order; without pages nothing changes |
| PaArb.Arb.TakeFirst | parrotdb/paarb.c:139-145 | the first free chunk of a slot leaves its list and becomes live; every other block is untouched |
| PaArb.Arb.AllocSmall | parrotdb/paarb.c:125-145 | a small request gets the head of its slot's list, carved first if empty; failure changes nothing |
| PaArb.Arb.AllocLarge | parrotdb/paarb.c:147-167 | a large request gets whole pages as one live block; failure changes nothing |
| PaArb.Arb.Alloc | parrotdb/paarb.c:116-174 | soundness in every state; a request at most as large as the largest chunk succeeds exactly if the list of the least slot that holds it has a chunk or pages were granted, and gets a chunk of that slot; a larger one below 2^28 bytes succeeds exactly if pages were granted, and gets them whole; a result is a block that was not live and holds header and request iff they are at most 2^32 bytes; other blocks stay as they were word for word; zero leaves the whole state as it was |
| PaArb.LeastSlot | parrotdb/paarb.c:30-37 | the slot is s for the sizes above 8 * 2^s and up to 16 * 2^s bytes, header included (any size up to 16 for s = 0) |
| PaArb.Arb.Free | parrotdb/paarb.c:176-229 | a live chunk goes to the head of its slot's list; a second free of a chunk on a list, or of nothing, changes nothing; a large block's pages are given back, or lost where the recorded size is zero; an atom that is no block any more changes nothing, and is noticed iff the word where its header was is not that of a large block; other blocks keep their life and their words |
| PaArb.FreeTwice | parrotdb/paarb.c:200-205 | a large block freed twice at once gives its pages back twice |
| PaArb.Arb.ClientWrite | parrotdb/paarb.c:116-174 | client writes inside a live block keep everything sound and touch no other block |
| PaArb.FreeThenAlloc | parrotdb/paarb.c:116-229 | freeing a chunk and asking for its size again gives the same chunk back and restores lists and live blocks |
| PaArb.StoreThenAlloc | parrotdb/paarb.c:116-174 | a word that a client stored in a live block is still there after another block was given out |
| PaArb.StoreThenFree | parrotdb/paarb.c:176-229 | and after another block was freed |
| PaBits.OrBit | parrotdb/pabitmap.h:176 | the bits of a bitwise or are the bits of either |
| PaBits.AndNotBit | parrotdb/pabitmap.h:201 | masking with the complement leaves the bits of w that m lacks |
| PaBits.LowestFound | parrotdb/pabitmap.h:277-282 | a word has a lowest set bit below 32 iff it is not zero |
| PaFixed.FillPage | parrotdb/pafixed.c:41-47 | the loop chains the blocks of a page one to the next and leaves other pages alone |
| PaFixed.FirstUnset | parrotdb/pafixed.c:61-66 | the first page table entry without a page |
| PaFixed.Pool.constructor | parrotdb/pafixed.c:102-145 | a new pool has no page and number 1 as its first free block |
| PaFixed.Pool.SetupPage | parrotdb/pafixed.c:29-68 | a page extends the chain by its blocks, the last of the last page ends it |
| PaFixed.Pool.Alloc | parrotdb/pafixed.c:29-68 | hands out a new, zeroed block each time and changes none handed out before; zero only if the pool is used up or no memory came |
| PaBitmap.NumberParts | parrotdb/pabitmap.h:76-96 | a number is rebuilt from its chunk, unit and bit |
| PaBitmap.PartsOf | parrotdb/pabitmap.h:76-96 | and every chunk, unit and bit in range are the parts of their number |
| PaBitmap.FreshBlock | parrotdb/pabitmap.h:99-104 | a block newly handed out belongs to no bitmap |
| PaBitmap.EmptyBitmap | parrotdb/pabitmap.h:99-104 | a zeroed block is an empty bitmap |
| PaBitmap.EnterBlock | parrotdb/pabitmap.h:163-170 | entering a zeroed block in a table changes no bitmap |
| PaBitmap.UnitRewritten | parrotdb/pabitmap.h:172-201 | rewriting one unit changes the numbers of that unit in that bitmap and no others |
| PaBitmap.BitWritten | parrotdb/pabitmap.h:149-202 | writing one bit adds or removes one number of one bitmap |
| PaBitmap.Bitmaps.constructor | parrotdb/pabitmap.h:288-302 | a new pool holds no bitmap |
| PaBitmap.Bitmaps.Alloc | parrotdb/pabitmap.h:99-104 | a new bitmap is a new identifier with no members; the others keep theirs; it is refused only when the pool is used up or its memory is not there |
| PaBitmap.Bitmaps.Test | parrotdb/pabitmap.h:124-146 | true iff the number is a member |
| PaBitmap.Bitmaps.NeedChunk | parrotdb/pabitmap.h:163-170 | a chunk's block is made on demand; no bitmap changes |
| PaBitmap.Bitmaps.Set | parrotdb/pabitmap.h:149-176 | adds exactly this number to this bitmap, and nothing to any other; not stored only out of range or when a block was needed and none came |
| PaBitmap.Bitmaps.Clear | parrotdb/pabitmap.h:179-202 | removes exactly this number from this bitmap, and nothing from any other |
| PaBitmapFind.TripMoves | parrotdb/pabitmap.h:231-285 | one trip from the restart label returns the least member from here on, or moves on past non-members only, or finds no chunk left |
| PaBitmapFind.TakeTrip | parrotdb/pabitmap.h:231-285 | the imperative trip is that trip |
| PaBitmapFind.WrapsToZero | parrotdb/pabitmap.h:91-97 | past the last chunk the chunk number is masked to zero, so the search starts again at number zero |
| PaBitmapFind.SearchStep | parrotdb/pabitmap.h:231-285 | each trip of a search that ends gets closer to its answer and keeps it |
| PaBitmapFind.FindNext | parrotdb/pabitmap.h:204-286 | from any 32-bit number: the least later member, or the end; starts over at zero where the masking wraps; in a chunk that is not allocated the mask of the lower bits is kept for the next one that is |
| PaBitmapFind.PastTheLast | parrotdb/pabitmap.h:77-97 | a number past the last is looked for modulo the count of numbers |
| PaBitmapFind.NextFromAllocated | parrotdb/pabitmap.h:213-246 | from a number whose chunk is allocated, a member in particular, the call gives the least later member and skips none |
| PaBitmapFind.KeptMaskSkips | parrotdb/pabitmap.h:217-246 | from a number whose chunk is not allocated the answer is that of a search from the next number iff no member is below the kept mask in the next allocated chunk, or the search starts over and comes to the same |
| PaBitmapFind.KeptMaskMisses | parrotdb/pabitmap.h:217-246 | with 8192 the only member, the call from 30 reports the end |
| PaBitmapFind.RunsForever | parrotdb/pabitmap.h:231-275 | with nothing set and chunk 255 allocated no number of trips ends the call |
| PaBitmapFind.EndsIff | parrotdb/pabitmap.h:204-286 | the call after the last member reports the end iff chunk 255 is not allocated or the last number of all is a member; otherwise it starts over, or never returns |
| PaBitmapFind.MemberAllocated | parrotdb/pabitmap.h:124-146 | a member's chunk is allocated, so a returned number may be passed back in |
| PaBitmapFind.Iterate | parrotdb/pabitmap.h:204-286 | iterating from the start marker visits every member once, in increasing order, and ends, whenever chunk 255 is unallocated or the last number is set |
| SlaxString.QFlags | libslax/slaxstring.c:31-54 | which quotes a text holds, though the loop stops at the second kind |
| SlaxString.Strings.Literal | libslax/slaxstring.c:261-278 | a new segment of its own with this text and its quote flags; all others as before |
| SlaxString.Strings.LastOf | libslax/slaxstring.c:1025-1037 | the walk along `ss_next` ends at the last segment of the list |
| SlaxString.Strings.Link | libslax/slaxstring.c:1025-1037 | hanging a list on another gives one list with the tokens of both |
| SlaxString.LinkLists | libslax/slaxstring.c:1025-1037 | two separate lists become one by one assignment to the last `ss_next` |
| SlaxRewrite.Fuse | libslax/slaxstring.c:926-959 | one segment with the joined text and its quote flags, or nothing iff there is no text |
| SlaxRewrite.FuseTwo | libslax/slaxstring.c:989-1006 | two literals, not both empty, become one with their texts joined |
| SlaxRewrite.BuildCall | libslax/slaxstring.c:1008-1040 | `a _ b` becomes `concat(a, b)`, with the chain through its comma to its closing parenthesis |
| SlaxRewrite.ExtendCall | libslax/slaxstring.c:1052-1077 | `concat(...) _ b` gets another argument: its closing parenthesis becomes a comma and the chain one longer |
| SlaxRewrite.ConcatRewrite | libslax/slaxstring.c:975-1086 | in the linked memory: the tokens and the chain that the rewriting of token sequences gives, which FoldBuilds is about |
| SlaxRewrite.JoinNext | libslax/slaxstring.c:975-1086 | one application of the operator joins the next operand and leaves those behind it as they were |
| SlaxRewrite.FoldOperands | libslax/slaxstring.c:975-1086 | in the linked memory, the operator applied to n operands: the tokens and the chain of `concat(e1, ..., en)` |
| SlaxRewrite.RetagCommas | libslax/slaxwriter.c:4239-4250 | commas at nesting level one become underscores, in place |
| SlaxRewrite.RedoConcat | libslax/slaxwriter.c:4229-4257 | a call of `concat` loses its name and has its top-level commas turned back; anything else is refused unchanged |
| SlaxRewrite.RemoveParens | libslax/slaxwriter.c:4269-4296 | outer parentheses are unlinked iff they enclose the whole expression |
| SlaxRewrite.CycleNeverEnds | libslax/slaxstring.c:998-1036 | along two segments that link to each other no number of steps reaches an end |
| SlaxRewrite.TwoEmptiesLoop | libslax/slaxstring.c:989-1036 | two empty literals are linked before fusing is declined; the list is then a cycle and the search for its end never ends |
| SlaxConcat.FoldBuilds | libslax/slaxstring.c:975-1086 | folding the operator over n operands, the first two not both empty literals, gives `concat(e1, ..., en)` over the operands left after fusing, with its chain |
| SlaxConcat.NeverStuck | libslax/slaxstring.c:989-1006 | where the first two operands are not both empty literals no rewriting on the way meets two empty literals |
| SlaxConcat.OperandsJoinText | libslax/slaxstring.c:989-1006 | fusing replaces a run of leading literals by their joined text and keeps every other operand |
| SlaxConcat.FusesFront | libslax/slaxstring.c:989-1006 | the literals at the front that hold the same kinds of quotes are fused into one, all of them and no others, unless both of two are empty |
| SlaxConcat.CallSpelled | libslax/slaxstring.c:1012-1040 | `a _ b` is rewritten to the tokens of `concat(a, b)` |
| SlaxConcat.JoinLevel | libslax/slaxstring.c:1012-1077 | in a join of balanced operands the commas at level zero are exactly the separators |
| SlaxConcat.ChainVisitsTopCommas | libslax/slaxstring.c:1012-1077 | the chain visits exactly the n-1 top-level commas in order, and then the closing parenthesis |
| SlaxConcat.OperandsBalanced | libslax/slaxstring.c:989-1006 | fusing keeps operands balanced |
| SlaxConcat.RedoRestores | libslax/slaxwriter.c:4229-4296 | turning `concat(e1, ..., en)` back and dropping its parentheses gives `e1 _ ... _ en` |
| SlaxConcat.UnwrapsIff | libslax/slaxwriter.c:4269-4296 | the outer parentheses go iff the first is closed by the last token and by none before it, and something stands between them |
| SlaxConcat.FoldThenRedo | libslax/slaxwriter.c:4229-4296 | fold and turn back: the operands come back, up to leading literals that were fused |
| SlaxQuote.Writer.constructor | libslax/slaxwriter.c:444-462 | nothing written yet |
| SlaxQuote.Writer.WriteEscapedChar | libslax/slaxwriter.c:465-511 | appends the one or two bytes that stand for a byte under these flags |
| SlaxQuote.Writer.WriteEscaped | libslax/slaxwriter.c:514-526 | appends the escaped form of the whole text |
| SlaxQuote.EscapedLine | libslax/slaxwriter.c:465-528 | what is printed holds no carriage return, and no line feed where the flags say so |
| SlaxQuote.Writer.ContentQuote | libslax/slaxwriter.c:1317-1326 | the quote chosen never occurs bare in the text as it will be printed; it is single iff a double quote comes first |
| SlaxQuote.Writer.WriteText | libslax/slaxwriter.c:1330-1348 | appends a fenced literal |
| SlaxQuote.Lexer.constructor | libslax/slaxlexer.c:578-673 | all input is still to be read |
| SlaxQuote.Lexer.GetInput | libslax/slaxlexer.c:578-673 | reads a line, discarding what was used: the text from the token on and the place in it are as before; fails iff all is read |
| SlaxQuote.FlatBytes | libslax/slaxlexer.c:578-673 | the text that the lexer is proved against holds each byte of each line behind all the lines before it |
| SlaxQuote.Lexer.MoveCur | libslax/slaxlexer.c:681-704 | moves one byte on over line ends; fails iff the input ends there |
| SlaxQuote.Lexer.ScanTurn | libslax/slaxlexer.c:1178-1207 | one turn of the scan: over a byte, an escaped pair, to the closing quote, or to the end |
| SlaxQuote.Lexer.ScanQuoted | libslax/slaxlexer.c:1178-1207 | the token ends at the first bare closing quote of the whole input, however it is cut into lines; fails iff there is none |
| SlaxQuote.ReadToken | libslax/slaxlexer.c:1178-1207 | a text read in lines: the token ends where the scan of the whole text says |
| SlaxQuote.Utf8IsUtf8 | libslax/slaxstring.c:218-238 | the bytes written for a number are its UTF-8 form (section 3 of RFC 3629) iff it is below D800 or from E000 to 10FFFF |
| SlaxQuote.DecodeFits | libslax/slaxstring.c:113-246 | the decoded token is never longer than the quoted text: the buffer suffices |
| SlaxQuote.XPathVerbatim | libslax/slaxstring.c:161-165 | inside an XPath expression a string is its bytes, backslashes included |
| SlaxQuote.HexReads | libslax/slaxstring.c:56-66 | a byte is the digit n of base 16, in either case, exactly if its value is n |
| SlaxQuote.UtfWordReads | libslax/slaxstring.c:70-100 | four or six digits of base 16 are read as the number they spell |
| SlaxQuote.LetterEscapes | libslax/slaxstring.c:172-183 | a backslash before n, r or t is the byte 10, 13 or 9; before any other byte but u and x it is that byte |
| SlaxQuote.HexEscape | libslax/slaxstring.c:185-202 | `\\xHH` is the UTF-8 form of the character with that number, for every number |
| SlaxQuote.UnicodeEscape | libslax/slaxstring.c:204-238 | `\\u` with a plus and four digits, or a minus and six, is the UTF-8 form of the number spelled iff that is a Unicode scalar value |
| SlaxQuote.PutUtf8 | libslax/slaxstring.c:218-238 | all bytes of a code point, the last left to the common path |
| SlaxQuote.DecodeEscape | libslax/slaxstring.c:170-240 | one escape: bytes written and place reached |
| SlaxQuote.DecodeOne | libslax/slaxstring.c:159-244 | one turn of the decoding loop |
| SlaxQuote.DecodeQuoted | libslax/slaxstring.c:113-246 | the loop over the buffer writes exactly what decoding means, ends it with NUL and reports errors, never beyond len + 1 bytes |
| SlaxQuote.DecodeEscaped | libslax/slaxstring.c:153-246 | decoding the escaped form of any text under any flags gives the text back |
| SlaxQuote.ScanEscaped | libslax/slaxlexer.c:1178-1207 | the scan stops at the closing delimiter iff the text is fenced, else earlier |
| SlaxQuote.QuoteRoundTrip | libslax/slaxwriter.c:465-526 | for every text without NUL, flags and delimiter: print, scan, decode gives the text, and consumes exactly what was printed iff the flags escape each delimiter in the text |
| SlaxQuote.ReadBack | libslax/slaxlexer.c:1178-1207 | the lexer and decoder as they run, on input cut into lines in any way |
| SlaxQuote.UnicodeEscapeTakesOneMore | libslax/slaxstring.c:204-244 | a `\u` escape also consumes the byte after its digits; the string keeps its documented value if there is none, or it is one of an odd number of backslashes before a byte that stands for itself, and only then unless the bytes that follow are tangled |
| SlaxQuote.TangledEitherWay | libslax/slaxstring.c:153-244 | a tangled text can keep its documented value and can lose it |
| SlaxQuote.SwallowedByte | libslax/slaxstring.c:159-244 | decoding from any place and from the byte after it gives the same under that condition only, unless the bytes there are tangled |
| SlaxQuote.UnicodeEscapeLosesByte | libslax/slaxstring.c:204-244 | the escape for 0x41 followed by B decodes to A alone |
| SlaxRender.LengthCheck | libslax/slaxstring.c:321-385 | the sum of the room each token needs, plus one; parentheses are reported iff they enclose the whole list |
| SlaxRender.EnclosedDrops | libslax/slaxstring.c:332-355 | for a well-nested list that reported flag holds iff what is left without the outer pair is well nested |
| SlaxRender.RenderFits | libslax/slaxstring.c:357-381 | the room for a token covers its rendering and the space behind it, under any flags |
| SlaxRender.LiteralCost | libslax/slaxstring.c:357-381 | the room for a literal: its text and a space, and by the style two quotes and one place for each double quote, brace, tab, line break or backslash |
| SlaxRender.EscapedReads | libslax/slaxstring.c:575-595 | an escaped text, read with backslash n, r and t as control characters, is the text |
| SlaxRender.EscapedOneLine | libslax/slaxstring.c:575-595 | it holds no tab and no line break |
| SlaxRender.TrimSpace | libslax/slaxstring.c:414-470 | whether the space before a token goes depends on the text and the two tokens, as the rule says |
| SlaxRender.JoinedSnoc | libslax/slaxstring.c:502-703 | the text, and in parallel the marks, grow by a separator and one token |
| SlaxRender.WordsStayApart | libslax/slaxstring.c:414-470 | two names, numbers or literals in a row stay separated, unless all before is a minus sign |
| SlaxRender.OperatorKeepsSpaces | libslax/slaxstring.c:414-470 | an operator between two words has one space on either side, also before a parenthesis |
| SlaxRender.DotInNumber | libslax/slaxstring.c:448-452 | a number has no space on either side of its dot |
| SlaxRender.CommaThenSpace | libslax/slaxstring.c:427-430 | a comma follows a word or a closing bracket at once and has one space behind it |
| SlaxRender.PathIsTight | libslax/slaxstring.c:443-447 | slashes, at signs and opening brackets have no space on either side between words, unless a comma ends what precedes |
| SlaxRender.BehindCloser | libslax/slaxstring.c:457-470 | a closing bracket follows at once; a word, an operator or a parenthesis behind it is set off by a space, a slash, a predicate or another closing bracket is not |
| SlaxRender.LoneMinus | libslax/slaxstring.c:454-455 | a minus sign at the very start has no space behind it |
| SlaxRender.AxisIsTight | libslax/slaxstring.c:676-684 | neither an axis nor its colons have a space behind them |
| SlaxRender.ShortConditional | libslax/slaxstring.c:440-441 | `?` and `:` stand together |
| SlaxRender.UnderscoreApart | libslax/slaxstring.c:424-442 | an underscore is set off on both sides whatever stands there, and one predicate follows another at once |
| SlaxRender.MarkPlaces | libslax/slaxstring.c:636-671 | a mark stands under the first character of a slash, a comma, an underscore, a sign of two characters, and of what follows a closing bracket without being one; nowhere else, and earlier marks are kept |
| SlaxRender.MarksMatch | libslax/slaxstring.c:477-490 | every mark is a blank or repeats the character it stands under |
| SlaxRender.Copier.constructor | libslax/slaxstring.c:502-520 | nothing written, the counter at the write position |
| SlaxRender.Copier.Mark | libslax/slaxstring.c:477-490 | writes a mark and moves on, before or after |
| SlaxRender.Copier.PutChar | libslax/slaxstring.c:587-590 | one character and a blank mark |
| SlaxRender.Copier.PutText | libslax/slaxstring.c:592-596 | a text and as many blank marks |
| SlaxRender.Copier.PutEscaped | libslax/slaxstring.c:576-591 | an escaped text: no escape is dropped while the counter leaves room |
| SlaxRender.Copier.PutDoubled | libslax/slaxstring.c:607-624 | a text with its braces doubled |
| SlaxRender.Copier.PutQuoted | libslax/slaxstring.c:552-605 | a literal in the quote that fits it |
| SlaxRender.Copier.PutVar | libslax/slaxstring.c:626-632 | a variable in braces |
| SlaxRender.Copier.PutPlain | libslax/slaxstring.c:634-676 | any other token as it is |
| SlaxRender.Copier.ChooseMark | libslax/slaxstring.c:636-662 | the mark a token gets, and where |
| SlaxRender.Copier.MarkToken | libslax/slaxstring.c:664-675 | the marks row of one token |
| SlaxRender.Copier.Tighten | libslax/slaxstring.c:544-550 | drops the space exactly where none is wanted |
| SlaxRender.Copier.Lead | libslax/slaxstring.c:544-550 | after that the text ends in the separator that belongs there |
| SlaxRender.Copier.PutToken | libslax/slaxstring.c:552-676 | text and marks of one token, counter and position in step |
| SlaxRender.Copier.Space | libslax/slaxstring.c:678-684 | a space after a token unless it is an axis |
| SlaxRender.Copier.AddToken | libslax/slaxstring.c:522-687 | one turn of the loop: one more token rendered and marked, within the room set aside |
| SlaxRender.DoneStep | libslax/slaxstring.c:525-532 | only a first opening and a last closing parenthesis are passed over, and only under the flag |
| SlaxRender.CopyTurn | libslax/slaxstring.c:522-687 | the same, or an unwanted parenthesis passed over |
| SlaxRender.Copier.Finish | libslax/slaxstring.c:689-703 | the NUL takes the place of the last character: the trailing space, or the last character of an axis |
| SlaxRender.CopyMarked | libslax/slaxstring.c:502-703 | in a buffer of the computed length, under any flags: the tokens joined by single spaces or none, marks parallel, nothing dropped but the last character where the last token is an axis |
| SlaxRender.AsChar | libslax/slaxstring.c:728-756 | the rendering of a list, its outer parentheses dropped only when they enclose the whole |
| SlaxWrap.Writer.constructor | libslax/slaxwriter.c:3841-3855 | nothing written |
| SlaxWrap.Writer.Write | libslax/slaxwriter.c:274-304 | appends the text unless it fills the buffer to the last byte, where one character is lost |
| SlaxWrap.Writer.Newline | libslax/slaxwriter.c:172-206 | sends the line and starts the next; does nothing before the first write |
| SlaxWrap.NotFilled | libslax/slaxwriter.c:274-304 | a text that stays below the size of the buffer is not cut, and the buffer never shrinks |
| SlaxWrap.GrownDoubles | libslax/slaxwriter.c:215-240 | the first buffer has 2048 bytes; one of at least that size is doubled when a text does not fit |
| SlaxWrap.WriteLine | libslax/slaxwriter.c:989-1004 | a line, its end and the next indentation are written, and a character is lost exactly if one of the two texts fills the buffer to the last byte |
| SlaxWrap.Memrnchr | libslax/slaxwriter.c:128-146 | the last place before a limit that is not blank |
| SlaxWrap.Memnchr | libslax/slaxwriter.c:148-170 | the first place that is not blank |
| SlaxWrap.TurnCuts | libslax/slaxwriter.c:1037-1085 | each turn cuts at a mark or just after a marked comma, as late as the width allows, too long only if no earlier cut exists |
| SlaxWrap.ChooseTurn | libslax/slaxwriter.c:1038-1074 | the loop body makes that choice |
| SlaxWrap.EmitTurn | libslax/slaxwriter.c:1037-1085 | one turn of the loop keeps what is written a correct wrapping, and gets further or goes back to the place for later lines, once |
| SlaxWrap.SpinsForever | libslax/slaxwriter.c:1037-1066 | for every start beyond half of the width some expression is tried again without end |
| SlaxWrap.OneMoreLine | libslax/slaxwriter.c:1068-1085 | each broken line extends a correct wrapping |
| SlaxWrap.LastLine | libslax/slaxwriter.c:1041-1056 | and the last completes it |
| SlaxWrap.LinesMeasured | libslax/slaxwriter.c:1037-1085 | every line but the first starts at a mark, or behind a marked comma and not in front of one; no line leaves out a mark that it could reach, and a line is too long only where there is no mark within its room |
| SlaxWrap.EmitLines | libslax/slaxwriter.c:1037-1085 | the loop ends when three indents fit half the width, and the slices make up the whole expression |
| SlaxWrap.EmitExpression | libslax/slaxwriter.c:989-1088 | the lines written concatenate to exactly the expression, each cut at a mark or behind a marked comma and as full as the marks allow; later lines are indented by three indents iff the start is past half the width; it is written whole with TRUE exactly if the start is within three of the width and the text is shorter than the width; nothing is lost while every line stays below the size of the buffer |
| SlaxTemplate.SplitDoubled | libslax/slaxwriter.c:1198-1212 | a text with doubled braces is read back as that text |
| SlaxTemplate.SplitExpr | libslax/slaxwriter.c:1224-1279 | an expression in braces is read back whole, closing braces inside its literals included |
| SlaxTemplate.PrintedSplits | libslax/slaxwriter.c:1177-1311 | printing pieces and splitting the result gives the pieces, neighbouring texts merged (section 7.6.2 of XSLT 1.0) |
| SlaxTemplate.VariableIsExpr | libslax/slaxstring.c:625-633 | where braces are asked for, a variable is written as an expression of the template, elsewhere as it is |
| SlaxTemplate.Collapse | libslax/slaxwriter.c:1199-1212 | the in-place shift drops one brace of a pair and keeps all else |
| SlaxTemplate.ScanExpr | libslax/slaxwriter.c:1243-1254 | the scan stops at the first closing brace outside all literals |
| SlaxTemplate.ReadPair | libslax/slaxwriter.c:1199-1212 | a doubled brace becomes one brace of the text |
| SlaxTemplate.ReadExpr | libslax/slaxwriter.c:1214-1279 | the text so far and the expression become pieces, and what is left still makes up the whole |
| SlaxTemplate.MakeAttribValueTemplate | libslax/slaxwriter.c:1177-1311 | every well-formed template is split into exactly its pieces, in place and within the buffer |
| SlaxTemplate.TemplateLength | libslax/slaxstring.c:769-813 | the sum of the room for the operands |
| SlaxTemplate.OperandCopy | libslax/slaxstring.c:833-848 | one operand, braces around it unless it is a literal, within its room |
| SlaxTemplate.CostCovers | libslax/slaxstring.c:321-385 | the room for a list covers its text |
| SlaxTemplate.TemplateCopy | libslax/slaxstring.c:815-877 | the operands' texts in order, within the length computed |
| SlaxTemplate.TemplateIsPrinted | libslax/slaxstring.c:815-877 | what is written is the printed form of pieces: an operand that starts with a literal as text, any other as an expression |
| SlaxTemplate.TemplateRoundTrip | libslax/slaxstring.c:769-878 | operands written as a template and split again are the same pieces, literals as text and all else as expressions, iff no operand of several tokens starts with a literal |
| SlaxTemplate.ComparisonLosesBraces | libslax/slaxstring.c:860-875 | the operand `"a" = $b` is written as the text `a = $b` |
| SlaxTemplate.AsValueTemplate | libslax/slaxstring.c:891-921 | a lone number or literal is written as it is, everything else as a template |
| SlaxTemplate.ValueRoundTrip | libslax/slaxstring.c:891-921 | and is split into what it is meant as, a lone number as text, iff no operand of several tokens starts with a literal |
| SlaxTemplate.LoneIsText | libslax/slaxstring.c:899-903 | a lone number or literal is text in the template, with no braces around it |
| SlaxConditional.TernaryRewrite | libslax/slaxstring.c:1095-1147 | in the linked memory: the terms, question mark and colon become one list between two new segments, `ss_concat` leads from the first over the question mark and the colon to the last, nested conditionals keep their links, and the list shows the layout that the expansion takes apart |
| SlaxConditional.JoinTerms | libslax/slaxstring.c:1095-1147 | whatever the terms show: the order of the segments, the three new links, every other segment as it was |
| SlaxConditional.ThreadedLayout | libslax/slaxstring.c:1117-1126 | terms that share no conditional keep their threads when they are joined |
| SlaxConditional.FollowsThread | libslax/slaxstring.c:1117-1126 | from the segment of a conditional ss_concat leads to its `?`, from there to its `:` and to its end, and these segments hold the variable's value and the two signs |
| SlaxTernary.Builder.constructor | libslax/slaxtree.c:771-786 | the stack of open nodes |
| SlaxTernary.Builder.Push | libslax/slaxtree.c:771-786 | a new element opens below the one on top |
| SlaxTernary.Builder.PushVar | libslax/slaxtree.c:693-735 | a variable opens that belongs to the element around the context node, or around the call it is a parameter of; it is a parameter iff it goes in front of a parameter of a template |
| SlaxTernary.Builder.Pop | libslax/slaxtree.c:810-814 | the element on top is added to the one it belongs to |
| SlaxTernary.Builder.SetTest | libslax/slaxtree.c:579-590 | a test attribute, nothing else changed |
| SlaxTernary.Builder.SetSelect | libslax/slaxtree.c:579-590 | a select attribute, nothing else changed |
| SlaxTernary.TakePart | libslax/slaxtree.c:873-883 | cutting the list at a marker gives the part before it |
| SlaxTernary.Terms | libslax/slaxtree.c:852-883 | the parts of a conditional are found whatever conditionals they hold |
| SlaxTernary.AttribAdd | libslax/slaxtree.c:409-471 | an attribute gets the expression with references, its variables go in front of the context node |
| SlaxTernary.CopyBlock | libslax/slaxtree.c:921-923 | a copy-of of an expression, after its variables |
| SlaxTernary.WhenBlock | libslax/slaxtree.c:911-918 | the when of a full conditional, after the variables of its condition |
| SlaxTernary.CondBlock | libslax/slaxtree.c:893-900 | the variable that holds a condition |
| SlaxTernary.ShortWhenBlock | libslax/slaxtree.c:903-909 | the when that looks at that variable |
| SlaxTernary.OtherwiseBlock | libslax/slaxtree.c:920-924 | the otherwise with the other branch |
| SlaxTernary.ChooseBlock | libslax/slaxtree.c:902-925 | the whole choose |
| SlaxTernary.BodyBlock | libslax/slaxtree.c:893-925 | what goes inside the variable of one conditional |
| SlaxTernary.ExpandOne | libslax/slaxtree.c:831-940 | one conditional becomes one variable |
| SlaxTernary.TernaryExpand | libslax/slaxtree.c:831-940 | every conditional of an expression, nested to any depth, becomes a variable in front, and a reference in the expression; for a parameter of a call the variables go in front of the call and nothing is added to it; a template whose parameters come first still has them first |
| SlaxTernary.VarsPlaced | libslax/slaxtree.c:700-720 | what is added stands last in one open element, is a parameter only inside a template, and never puts anything before a parameter of a template (section 5.3 of XSLT 1.0) |
| SlaxTernary.FetchRefs | libslax/slaxtree.c:928-934 | the references fetch the values of the conditionals in order |
| SlaxTernary.VarsRun | libslax/slaxtree.c:831-940 | under every environment, where no nested condition is met, running the variables binds each to its conditional's value and evaluates what the meaning evaluates, in that order |
| SlaxTernary.CopyRuns | libslax/slaxtree.c:913-923 | a branch's variables and copy give the branch's value, where no nested condition is met |
| SlaxTernary.ExpandPreserves | libslax/slaxtree.c:831-940 | running the expansion, where it runs at all (RunsIff), gives the value of the operators under every environment, each value passed through its variable, and evaluates only the chosen branches (section 9.2 of XSLT 1.0) |
| SlaxTernary.VarRunsIff | libslax/slaxtree.c:902-918 | the variable of a conditional runs iff no conditional with three terms is met, in the branches chosen and to any depth, that has another in its condition |
| SlaxTernary.RunsIff | libslax/slaxtree.c:831-940 | the same for all variables of an expression, under every environment |
| SlaxTernary.UnchosenIsHarmless | libslax/slaxtree.c:902-918 | a nested condition in a branch that is not chosen does no harm |
| SlaxTernary.PlainCondsRun | libslax/slaxtree.c:902-918 | whatever the conditions give, the expansion runs where no conditional stands in the condition of one with three terms |
| SlaxTernary.ThroughTwice | libslax/slaxext.c:3342-3400 | what `slax:value` gives is kept by a second variable |
| SlaxTernary.ThroughKeeps | libslax/slaxext.c:3342-3403 | a value passes through a variable unchanged iff it is a non-empty string, no node, or the root of a tree that is not just one text |
| SlaxTernary.TruthKept | libslax/slaxext.c:3342-3400 | its truth is kept iff it is not false() or a zero, nor nodes of which nothing is copied |
| SlaxTernary.MeaningKeptIff | libslax/slaxtree.c:831-940 | the expansion gives the value the operators promise, from the same evaluations, iff each value that is chosen passes through a variable unchanged |
| SlaxDampen.TimeDiff | libslax/slaxext.c:2569-2585 | the exact difference in microseconds, normalised; its seconds are negative iff the second time is later |
| SlaxDampen.TimeCompare | libslax/slaxext.c:2588-2595 | true iff the time is below the limit |
| SlaxDampen.TwoTests | libslax/slaxext.c:2732-2733 | the two tests of the loop are one test against the larger of the period and its rounding |
| SlaxDampen.WindowIsMinutes | libslax/slaxext.c:2632-2634 | a record counts exactly if it is less than sixty million microseconds old for each minute of a whole period; for others the window is at most half a second more |
| SlaxDampen.ParseFormat | libslax/slaxext.c:2705-2737 | a record that was written is read back as it was |
| SlaxDampen.StrtolReads | libslax/slaxext.c:2712-2713 | a number is read behind blanks and tabs, with a sign or without, up to the first character that is no digit |
| SlaxDampen.ParseMeans | libslax/slaxext.c:2703-2713 | a line is no record iff it is a remark or has no dot; else the seconds stand before its first dot and the microseconds behind |
| SlaxDampen.FormatShape | libslax/slaxext.c:2621 | a record is written as the seconds, a dot, six digits and a line break |
| SlaxDigits.DecimalValue | libslax/slaxext.c:2715-2737 | digits written for a number stand for that number |
| SlaxDampen.Judge | libslax/slaxext.c:2722-2749 | whether a record is from the future, or still in the window |
| SlaxDampen.CopyRecent | libslax/slaxext.c:2704-2752 | the loop copies exactly the records within the window, up to the first from the future, which sets the count to zero |
| SlaxDampen.DampenFile.constructor | libslax/slaxext.c:2655-2666 | no file: no record |
| SlaxDampen.DampenFile.Dampen | libslax/slaxext.c:2608-2773 | succeeds iff fewer than max records count; rewrites the file to the records kept and, on success, the new one; bad arguments change nothing |
| SlaxDampen.LogIsRecent | libslax/slaxext.c:2703-2773 | under a clock that does not go back the log is the successes of the run that lie within the window, oldest first |
| SlaxDampen.SucceedsIff | libslax/slaxext.c:2703-2773 | in every run, a call succeeds iff fewer than max earlier successes lie within the window before it |
| SlaxDampen.LogBounded | libslax/slaxext.c:2703-2773 | the log never holds more than max records |
| SlaxDampen.WindowBounded | libslax/slaxext.c:2703-2773 | no window, wherever it starts, holds more than max successes |
| SlaxDampen.WarpForgets | libslax/slaxext.c:2722-2731 | a call decides as the records within the window demand iff it is not the case that a record is from the future while max of them are in the window |
| SlaxDampen.PromiseKeptIff | libslax/slaxext.c:2703-2773 | in every run on any clock up to the first record from the future: the next call succeeds exactly when fewer than max successes lie within the window, iff it does not meet a record from the future while max of them do |
| SlaxDampen.WindowOnAnyClock | libslax/slaxext.c:2703-2773 | on any clock no window holds more than max successes for each stretch of calls between those that met a record from the future |
| SlaxDampen.SinceBounded | libslax/slaxext.c:2703-2773 | no window holds more than max successes since the last call that met one |
| SlaxDampen.StraightIff | libslax/slaxext.c:2722-2731 | a run is straight iff no call met a record from the future |
| SlaxDampen.StraightLog | libslax/slaxext.c:2703-2773 | as long as no record is from the future the log tells as much as all successes of the run would, even if the clock went back |
| SlaxDampen.LogHoldsFewer | libslax/slaxext.c:2703-2773 | on any clock the log holds no more recent times than the successes of the run: no call is refused without max of them |
| SlaxDampen.OrderedIsStraight | libslax/slaxext.c:2722-2731 | a clock that does not go back meets no record from the future |
| SlaxDampen.WarpBreaksLimit | libslax/slaxext.c:2722-2731 | with a limit of one per minute, calls at 100 and then at 50 seconds both succeed |
| SlaxMvar.Mvar.constructor | libslax/slaxmvar.c:1091-1210 | without a value given: the tree its instructions made, or an empty string |
| SlaxMvar.Mvar.Init | libslax/slaxmvar.c:1091-1210 | with a value given: copies of its nodes in a first container, whole and in order where no texts meet |
| SlaxMvar.Mvar.GetSvarRoot | libslax/slaxmvar.c:344-382 | the first container of the shadow variable, made if there is none |
| SlaxMvar.Mvar.NewContainer | libslax/slaxmvar.c:384-417 | one more container at the end |
| SlaxMvar.Mvar.LastContainer | libslax/slaxmvar.c:419-432 | the newest container, made if there is none |
| SlaxMvar.Mvar.AddCopy | libslax/slaxmvar.c:434-445 | one copy behind a container's children, or, of a text behind a text, more text in the last child and no copy; nothing else |
| SlaxMvar.Mvar.AddTree | libslax/slaxmvar.c:447-473 | copies of all children of a tree |
| SlaxMvar.Mvar.AddNext | libslax/slaxmvar.c:447-473 | one node, or a tree's children, after which the set is not looked at further |
| SlaxMvar.Mvar.CloneNodeset | libslax/slaxmvar.c:447-473 | the nodes before the first tree and that tree's children are copied; the new set names the copies of the plain nodes, and the container for the tree |
| SlaxMvar.Mvar.TakeNodes | libslax/slaxmvar.c:478-553 | the value becomes the copies in a new container |
| SlaxMvar.Mvar.Set | libslax/slaxmvar.c:478-553 | a scalar is taken as it is; a node set is copied into one new container, with the same contents where no texts meet; nothing older is lost |
| SlaxMvar.Mvar.AddNodes | libslax/slaxmvar.c:726-741 | the loop over a set: the copies and their places |
| SlaxMvar.Mvar.AddText | libslax/slaxmvar.c:704-718 | a text element for a non-empty scalar |
| SlaxMvar.Mvar.AddBlock | libslax/slaxmvar.c:720-724 | copies of the children of a block |
| SlaxMvar.Mvar.AddSet | libslax/slaxmvar.c:726-741 | copies of the nodes of a set |
| SlaxMvar.Mvar.AddArg | libslax/slaxmvar.c:704-741 | whatever the argument adds |
| SlaxMvar.Mvar.Grow | libslax/slaxmvar.c:668-741 | what is added goes to the newest container, made if there is none |
| SlaxMvar.Mvar.Append | libslax/slaxmvar.c:584-744 | scalars are joined; otherwise, where no texts meet, the listing of the variable is its old contents followed by copies of the new, no copy listed twice if none was; in any case nothing older is lost but that a text may get more text behind it |
| SlaxMvar.Mvar.AppendNodes | libslax/slaxmvar.c:658-741 | the same for anything but a string to a string |
| SlaxMvar.AddedSound | libslax/slaxmvar.c:434-445 | adding copies keeps each node the child of one tree, once, and keeps all older nodes |
| SlaxMvar.AddedContents | libslax/slaxmvar.c:434-445 | copies read like the nodes copied |
| SlaxMvar.AppendListing | libslax/slaxmvar.c:696-741 | after an append the listing is the old one and the new copies |
| SlaxMvar.AppendResult | libslax/slaxmvar.c:584-744 | contents, distinctness and history of an append together |
| SlaxMvar.SetListedOnce | libslax/slaxmvar.c:447-473 | after a set no copy is listed twice iff no plain node stood before a tree in the value |
| SlaxMvar.HistoryExtends | libslax/slaxmvar.c:478-744 | over a history containers are only added and never lose nodes |
| SlaxMvar.HistoryKept | libslax/slaxmvar.c:478-744 | every node held in a history is a container or a child of one and stays so |
| SlaxMvar.RunIsHistory | libslax/slaxmvar.c:478-744 | every run of set and append in which no texts meet, with nodes made elsewhere in between, is such a history |
| SlaxMvar.RunKeeps | libslax/slaxmvar.c:478-744 | over every such run: a node ever held by the variable stays a container or a child of one, with its content, and containers lose no child |
| SlaxMvar.RunGrows | libslax/slaxmvar.c:434-744 | over every run, whatever texts meet: children of containers stay, and read as they did but for text that came behind a text |
| SlaxMvar.Perform | libslax/slaxmvar.c:478-744 | a run of calls goes through these states |
| SlaxMvar.AppendMeans | libslax/slaxmvar.c:584-744 | appending nodes, or to nodes, gives the old contents followed by the new, where no texts meet |
| SlaxMvar.OneByOneIff | libslax/slaxmvar.c:434-445 | in the store, copies stand in the container one by one iff no text is added behind a text, which `xmlAddChild` merges |
| SlaxMvar.HungAllOk | libslax/slaxmvar.c:434-445 | whatever texts meet, adding copies keeps each node the child of one tree, once, and older nodes, but that a text may get more text |
| SlaxMvar.SetGoodIff | libslax/slaxmvar.c:447-553 | after a set the value names only nodes that are there iff no texts met among the plain nodes it names |
| SlaxMvar.AppendGoodIff | libslax/slaxmvar.c:696-741 | after an append the value names only nodes that are there iff its container was named already, or no texts met |
| SlaxMvar.TwoTextsMerge | libslax/slaxmvar.c:434-473 | two text nodes set as a value: one copy with both texts, and a second one named that is gone |
| SlaxMvar.SelfAppendNeverEnds | libslax/slaxmvar.c:720-736 | appending a container to itself: after any number of turns there is a next child, iff one of its children is no text |
| SlaxJson.Escape | libslax/jsonwriter.c:100-128 | the escaped text, ended by NUL, in a buffer that it fits into |
| SlaxJson.EscapedFits | libslax/jsonwriter.c:151-153 | a text gets at most twice as long, so the room set aside always suffices |
| SlaxJson.EscapeText | libslax/jsonwriter.c:151-161 | what is made of a name or a value in that room |
| SlaxJson.EscapeMeans | libslax/jsonwriter.c:100-128 | what is written for a string means that string (section 2.5 of RFC 4627) iff it holds no quote, backslash or control character other than those escaped |
| SlaxJson.EscapesRead | libslax/jsonwriter.c:103-134 | the reader against which this is proved takes the escapes of section 2.5 of RFC 4627 and no others |
| SlaxJson.ReadShow | libslax/jsonlexer.c:17-25 | by the grammar, the tokens of a value whose strings, names and numbers are legal are read as that value whatever follows |
| SlaxJson.JsonWriter.WantsComma | libslax/jsonwriter.c:89-98 | true iff a sibling other than text follows |
| SlaxJson.JsonWriter.WriteName | libslax/jsonwriter.c:139-218 | the name and colon, outside arrays |
| SlaxJson.JsonWriter.WriteGroup | libslax/jsonwriter.c:139-218 | brackets around what the children give |
| SlaxJson.JsonWriter.WriteValue | libslax/jsonwriter.c:139-218 | literal, array, object or string by the element's type |
| SlaxJson.JsonWriter.WriteNode | libslax/jsonwriter.c:139-218 | an element's tokens, and a comma if a sibling other than text follows |
| SlaxJson.JsonWriter.WriteChildren | libslax/jsonwriter.c:220-233 | the tokens of all children in order |
| SlaxJson.JsonWriter.WriteDocument | libslax/jsonwriter.c:235-255 | the tokens of the document |
| SlaxJson.CommaBetween | libslax/jsonwriter.c:89-98 | behind an element a comma is written exactly where a value follows, iff no other nodes follow without an element |
| SlaxJson.NodeShows | libslax/jsonwriter.c:139-218 | a legal and well placed element is written as the tokens of its JSON value, or of its member |
| SlaxJson.KidsShow | libslax/jsonwriter.c:220-233 | the children's tokens are the list of their values, commas exactly between |
| SlaxJson.DocumentReads | libslax/jsonwriter.c:235-255 | for every tree: what is written is read by the grammar as the value of the tree, with nothing left, iff typed scalars hold text of their type, strings and names are legal, no `member` is outside arrays, and no other node but text follows the last element of a group |
| SlaxJson.ValueReads | libslax/jsonwriter.c:139-218 | an element, whatever it holds, is read back whole or not at all, and as its value iff it is legal and well placed inside |
| SlaxJson.GroupReads | libslax/jsonwriter.c:220-233 | the same for the children of an array or an object |
| SlaxJson.ScalarReads | libslax/jsonwriter.c:156-170 | a typed scalar is read as a value of its type iff its text, blanks aside, is that keyword or a number (section 2.4 of RFC 4627) |
| SlaxJson.NameReads | libslax/jsonwriter.c:143-174 | a name is read back iff it is legal within quotes, or without them is made of letters, digits and underscores with no digit in front |
| SlaxJson.LexWord | libslax/slaxlexer.c:1147-1279 | the first token of a text that starts with a letter or an underscore: a keyword, or a bare word and where it ends |
| SlaxJson.BareNameIff | libslax/slaxlexer.c:402-420 | a name in front of a colon is one bare word to the lexer iff it is made of letters, digits and underscores with no digit in front, keywords included: the colon keeps them from being taken as such |
| SlaxJson.KeywordIff | libslax/slaxlexer.c:402-420 | true, false and null are taken as keywords iff no letter, digit, underscore, colon, dot, minus or byte above 127 comes right behind |
| SlaxJson.OptionalQuotes | libslax/jsonwriter.c:76-88 | where quotes may be left out, a name of XML is kept iff it has no other characters: `a-b` is written bare and not read back |
| SlaxJson.LegalPrintable | libslax/jsonwriter.c:156-162 | a document that is legal can be printed: every typed scalar has a text |
| SlaxJson.MemberNeedsArray | libslax/jsonwriter.c:184-187 | a `member` element under an object is not read back |
| SlaxJson.CommentLeavesComma | libslax/jsonwriter.c:89-98 | a comment after the last element is not read back, one in front of it does no harm |
| SlaxJsonTree.TreeMeans | libslax/slaxparser.y:3520-3633 | the tree that the parser builds for a value, names that XML does not allow as attributes, means that value iff no object in it is empty |
| SlaxJsonTree.TreeLegal | libslax/slaxparser.y:3520-3633 | its texts are legal iff the value's strings and names can be written, and no element of type member is out of place |
| SlaxJsonTree.JsonRoundTrip | libslax/jsonwriter.c:234-256 | an object or an array made into XML and written again is read as the same value: iff its strings and names can be written, where no object inside is empty, and iff no object inside is empty, where they can |
| SlaxJsonTree.EmptyObjectLost | libslax/jsonwriter.c:191-222 | `[{}]` comes back as `[""]` |
| SlaxHumanize.DividedByUnit | libslax/slaxhumanize.h:159-161 | dividing step by step, rounding down, is dividing by the power |
| SlaxHumanize.ScaleOf | libslax/slaxext.c:920-933 | the scale is the whole part of the logarithm of the number taken as unsigned, and at most 6 |
| SlaxHumanize.NegativeScale | libslax/slaxext.c:920-933 | every negative number gets the largest unit |
| SlaxHumanize.RoundTenths | libslax/slaxhumanize.h:163-174 | the one-decimal form is within half of its last digit |
| SlaxHumanize.RoundWhole | libslax/slaxhumanize.h:175-180 | the whole form is within half of a unit |
| SlaxHumanize.HumanizeNumber | libslax/slaxhumanize.h:60-183 | for scales without the automatic bits: the text of a value within half of its last displayed digit, cut to the buffer; one decimal iff below 9.95 units, with a single leading digit; refused iff the scale is too large or the room not enough for one digit |
| SlaxHumanize.CutIff | libslax/slaxhumanize.h:145-180 | a value with one decimal is never cut; a whole number is not cut iff its digits, the letter and the NUL fit |
| SlaxHumanize.LetterUnit | libslax/slaxhumanize.h:95-113 | the letter shown stands for exactly the unit divided by, 1000 or 1024 to its power |
| SlaxHumanize.TextReads | libslax/slaxhumanize.h:145-180 | whoever reads the text, sign, digits, decimal and letter, gets exactly the value shown times its unit |
| SlaxHumanize.DigitsCut | libslax/slaxhumanize.h:145-180 | 12345 in a buffer of four is shown as 123 |
| SlaxHumanize.HumanizeValue | libslax/slaxext.c:889-942 | for non-negative numbers the scale is the logarithm and the value shown, within half of its last digit, is at least one unit and at most the next; nothing is cut in a buffer of eight bytes more than the suffix |
| SlaxHumanize.LeadingDigit | libslax/slaxext.c:920-942 | in its own unit a value shows as at least one and at most a full next unit |

## Left out

- XiInsert.Insert.Parse: attribute strings that declare a namespace, attribute extraction and the discard and emit actions are not modelled; rules arrive with the tokens; nesting stays below `XI_DEPTH_MAX`.
- XiInsert.Insert.InsertOpen: names are strings and not atoms of a name pool, and prefixes are dropped.
- XiEmit.Emit: the writing of XML text from the events is not modelled, only the events.
- PaArb.Arb.Alloc: what `pa_mmap_alloc` answers is a parameter, constrained to pages not in use; its own bookkeeping and the mapping of segments are left out.
- PaArb.Arb.Free: an atom that is no block, where the word read is the header of a small chunk in use, is not covered; what the memory map does with pages handed back twice is not modelled.
- PaFixed.Pool.Alloc: the header that hands out blocks is not part of this model; it is taken to unchain the first free block and clear it, setting up a page when needed.
- PaBits.OrBit: words are natural numbers below 2^32 with the bitwise operations written out, and an atom's page and offset are joined by addition, as they share no bit.
- SlaxRewrite.ConcatRewrite: two empty literals are excluded (TwoEmptiesLoop), memory always suffices, and nothing is freed.
- SlaxRewrite.Fuse: the new segment's `ss_concat`, which the source leaves unset, is taken to be null.
- SlaxTernary.TernaryExpand: cutting the list is modelled on the sequence of its segments, whose links SlaxConditional.TernaryRewrite accounts for.
- SlaxTernary.AttribAdd: styles, and the text node made of a literal with both kinds of quote, are left out.
- SlaxRender.CopyMarked: the token list is a sequence here, and the buffer is as long as the length check says.
- SlaxRender.AsChar: says nothing of the result for a list that ends in an axis token, nor for one that is empty once its parentheses are dropped, whose buffer is returned unset.
- SlaxTemplate.MakeAttribValueTemplate: of templates with a brace left over it states nothing; the source then reads past its text or moves a negative length, shown by the flag `overrun`. The expressions inside are kept as text: parsing and rewriting them is left out.
- SlaxTemplate.TemplateRoundTrip: a literal with both kinds of quotes inside an expression, which XPath cannot write, is excluded, as are quotes and braces outside literals.
- SlaxTemplate.TemplateCopy: the walk along `ss_concat` from operand to operand is replaced by a given list of operands.
- SlaxQuote.UnicodeEscapeTakesOneMore: whether the value is kept is not decided where the lost byte is one of the backslashes before an `x` without two digits, or before a second `\u` escape that gives the very byte it would be compared with; it can be kept there and can be lost (TangledEitherWay).
- SlaxWrap.EmitExpression: the indentation that the write callback adds in front of each line is not part of the text; three indents fit in half the width, or the start does.
- SlaxTernary.ExpandPreserves: variables are numbered rather than named, adjacent text nodes are not merged, copied nodes are compared by what they hold, and a conditional inside a predicate is evaluated where it is moved to.
- SlaxTernary.Builder.Push: elements live on the stack until they are closed; line numbers and namespaces are left out.
- SlaxDampen.DampenFile.Dampen: opening, locking, writing errors and renaming are left out, periods are reals, and records are times that the function itself could have written.
- SlaxMvar.Mvar.Set: looking up the shadow variable, error returns and freeing are left out.
- SlaxMvar.Mvar.Append: a container appended to itself, even one of texts alone, is excluded (SelfAppendNeverEnds); numbers of nodes that were freed are not used again.
- SlaxJson.JsonWriter.WriteDocument: spaces, line breaks and pretty printing are left out; what libxml2 takes for a name of XML is a parameter.
- SlaxJson.DocumentReads: texts are read token by token, as the writer puts them; what the pieces of a text broken by its own quotes would be read as is not followed further.
- SlaxJsonTree.JsonRoundTrip: the parser's options to leave out types, to clean names and to repeat the array's name are not modelled, nor is its tolerance of missing and doubled commas.
- SlaxHumanize.HumanizeValue: reading the number is left out; the decimal point is a dot.
- SlaxHumanize.HumanizeNumber: choosing a scale by itself, asked for by two bits of the scale, is left out.
- SlaxQuote.Lexer.GetInput: the file behind the lexer is a sequence of non-empty lines; a byte order mark or a `#!` line at the start of a file is left out.
- Out-of-memory paths, other than that a failed allocation leaves the allocator and the bitmaps as they were.
- The bison grammars, the debugger, profiler, logging, sockets and configuration: user interface and plumbing.
- XML source buffering, whiffling and the XPath layer of libxi; libxml2 and libxslt themselves.
- Base64, the data lists, the node set header, the string table and the pattern tree: easier members than those here.
