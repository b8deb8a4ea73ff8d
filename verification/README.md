# Verification model of the route compiler and matcher

The repository compiles a list of route patterns into a read-only router in three forms. A builder inserts the patterns
one by one into a tree of linked segments and refuses conflicts. The compiler lays that tree out in one array of 16-bit
words, beside two sorted symbol lists and a dictionary of terminals. A dispatcher walks the array along the segments of
a request, which a lexer cuts off one at a time. This project models all three forms, as imperative code over the same
state, and proves that the meaning of the list survives them.

## How it is built

- `Bytes`, `Tokens`, `Permutations`: bytes, C strings, tokens, error codes, rearrangements.
- `Prelexer`, `Lexer`: the two lexers, each a class with a cursor, and what whole runs of them return.
- `Spelling`: the pattern syntax, byte by byte and without the lexer, and that the lexer accepts exactly that.
- `Arena`, `SymbolTable`, `Symbols`: the bump allocator, the intern table, its sorted compiled form.
- `RouteTree`, `Insertion`, `Compatibility`, `Regularity`, `Acceptance`: the immutable tree, insertion as a function on
  it, and the laws of single insertions and of whole lists.
- `Refusals`: which error every addition is answered with, read off the list that it comes behind.
- `Capacity`, `HalfMade`, `Limits`: what the limits of the tables and nodes mean for whole lists, which lists leave a
  half-made segment, and lists that fill a table to the last entry.
- `Segments`, `SegmentWalks`, `Builder`: linked segments that stand for the tree, and the builder's loop over them.
- `GraphLayout`, `GraphStats`, `EdgeSort`, `Terminals`, `Router`, `Known`, `Conservation`, `Compiler`: sizes, offsets and
  node words, the counting pass, and the recursive compilation into the array.
- `GraphWords`: the number of words and the range check, read off the list.
- `Resolution`, `ParamBounds`, `ListBounds`, `Examples`, `Sizes`, `Matching`, `Dispatcher`: the scan of the list, the walk
  of the tree, the walk of the array, the slots that parameters take against the slots reserved, and the size of a graph
  in whatever order its patterns came.
- `Requests`: which request texts an accepted list answers, with which route and which values.
- `Params`, `Copies`: the packed copy of parameters, and copies of what a match has recorded.
- `Ledger`, `Lifetime`, `EndToEnd`: the retain and release callbacks over whole lives, and the whole way from patterns to
  an answer.

The heap is tied to values. A builder's segments stand for a ghost `Tree` (`Segments.Linked`): the layout maps each path
of the tree to one segment, and each segment's fields are what the tree says. A graph stands for a tree at an offset
(`GraphLayout.Encodes`). The tree, the list of registrations and the naive scan of the list are the common reference
that methods are specified against:

- `Builder.Valid` says that the state is `Acceptance.AddAll` of every registration so far, refused ones included.
- `Router.Serves` says that the graph encodes a tree that holds exactly the pairs of pattern and route of the list.
- `Dispatcher.Match` says that the answer is what `Resolution.Scan` says of the list, and nothing else, unless a write has
  left the parameter buffer; and it says of which paths that happens (`ListBounds.Overruns`).

`EndToEnd.BuildAndServe` puts the three together for any list, any earlier requests and any path, and so also shows that
what each method requires is what the one before it establishes.

## What was found

- The wildcard fallback is taken only when a literal token finds no way on. A path that ends on a segment without a route
  is not found, also below a wildcard. `Resolution.Scan` says so: the list leads along a path as far as it can, and only
  when a segment is left over do the wildcards count.
- Parameters recorded below the remembered wildcard stay in front of the wildcard's own. So a wildcard match can carry
  parameters that its pattern does not have: `ParamBounds.OwnCapturesOnlyIff` says exactly when it carries its own only,
  and `Examples.ForeignParamIsRecorded` gives three patterns and a path for which it does not.
- For the same reason a match can take one slot more than `max_params`, the number that the dispatcher allocates, and
  nothing checks. The model's buffer has that many slots
  and notes whether a write has left it; nothing is promised of what follows such a write. `ListBounds.OverrunsIff` says
  for every request when it happens: the patterns lead to a place as deep in parameters as the whole reserve, the request
  goes on from there with a segment that none of them takes, and a wildcard catches it. `ParamBounds.PeakExceedsReserveIff`
  shows that one slot is all. `ListBounds.SomeRequestOverrunsIff` says for which lists a request of legal length can do it,
  and `Examples.OneMoreIsRecorded` gives two patterns and a path.
- The pattern lexer accepts an unclosed `{a` and reads it as a parameter, and it accepts `{a}b`, `{a}{b}` and `{a}*`, where
  a step begins without a slash. `Spellings.ParseIff` says exactly which texts are accepted. Rendering what was lexed does
  not give such a text back. `Prelexing.LexThenRenderIff` says exactly when it does: every parameter in brackets is
  closed, and a slash or the end follows it. Lexing what was rendered always gives the pattern back.
- A parameter name that the full symbol table refuses leaves a segment marked as having a parameter without one. Such a
  builder is corrupted and cannot be compiled, and releasing its contexts is outside the conservation theorem.
  `HalfMade.HalfMadeIff` says, of the list alone, which additions lead there, and `Limits.HalfMadeSegment` gives two
  pattern texts that do.
- A second wildcard at the same place is answered with a duplicate route before it is looked at whether the wildcard is
  final; `Refusals.RefusalIff` gives every error, also for texts that are no patterns.
- The interning function refuses at 65535 entries even a text that is there already. So with exactly 65535 distinct texts
  the order of a list matters: it is refused if some pattern needs a new segment once the table is full.
  `Limits.OrderMatters` gives two pattern texts that are accepted in one order and refused in the other.
  `Capacity.AcceptedIff` says for every list, at any limit, whether it is accepted. A list with more distinct texts is
  refused in every order; one with fewer is accepted, in every order, iff its patterns are pairwise compatible and no node
  gets too many children (`Capacity.AcceptedIffCompatible`).

## Model

| member | source | states |
|---|---|---|
| EndToEnd.BuildAndServe | src/router.c:27-198 | For every list of registrations, every series of earlier requests and every path: compilation succeeds iff all were accepted, they are at most 65535, and so are the words that the list says its graph takes; the route count is the length of the list, some write leaves the parameter buffer iff the list says so of one of the paths, and otherwise the match returns exactly what a naive scan of the list says |
| EndToEnd.AllOrdersCompileAlike | src/compiler.c:49-57 | All accepted orders of a list have the same graph size and reserve: one fits iff the others do |
| Lifetimes.Live | src/compiler.c:17-120 | Over every run of additions, compilations (also out of range) and frees in any order, each context is released as often as it was retained, unless a refused parameter has left a half-made segment in a builder with callbacks |
| HalfMade.HalfMadeIff | src/builder.c:104-110 | The tree has a half-made segment iff, behind an acceptable list, some addition's first step without room is a new parameter, and the patterns before admit the steps up to it |
| Limits.HalfMadeSegment | src/builder.c:104-110 | Two pattern texts of which the second leaves a half-made segment: the first has 65535 distinct parameters, the second one more segment with a parameter |
| Prelexing.Prelexer.Load | src/prelexer.c:17-37 | Null, empty and slashless patterns leave the lexer empty and its syntax reset; others are loaded whole |
| Prelexing.Prelexer.NextToken | src/prelexer.c:45-134 | One call's token and cursor, for the three syntaxes |
| Prelexing.RenderThenLex | src/prelexer.c:45-134 | Rendering any well-formed pattern in any syntax and lexing it to the end returns that pattern |
| Prelexing.ParsedIsWellFormed | src/prelexer.c:76-121 | Whatever is accepted has legal nonempty literals, proper parameter names, lengths within the limit, and a trailing slash only behind a step |
| Prelexing.LexThenRenderIff | src/prelexer.c:65-123 | Lexing an accepted text and rendering it again gives the text back iff every parameter that opens behind a slash is closed, and a slash or the end follows it |
| Prelexing.LexThenRenderFails | src/prelexer.c:93-98 | An unclosed parameter, for which it does not |
| Spellings.ParseIff | src/prelexer.c:17-134 | Exactly the texts that spell a pattern are accepted, each as that pattern: plain literals and names of at most 4080 bytes behind slashes; a parameter may stay unclosed before a slash or the end, and what follows a closed one may come without a slash |
| Spellings.StepsIff | src/prelexer.c:45-134 | The steps that are read of any text are the most that it begins with |
| Spellings.NotFinalIff | src/prelexer.c:82-85 | A run comes to a wildcard that is not final iff a star, where a step could be, has a slash behind it |
| Lexing.Lexer.Load | src/lexer.c:11-33 | Null, empty, slashless and over-long requests leave the lexer empty |
| Lexing.Lexer.Next | src/lexer.c:35-72 | One call's token and cursor; the cursor rests on a slash or at the end |
| Lexing.SegmentsLie | src/lexer.c:59-71 | Every literal of a run is a nonempty legal slice of the request behind a slash |
| Lexing.RunConsumesSegments | src/lexer.c:35-72 | The literals of a run, each behind a slash, concatenate to exactly the consumed prefix |
| Lexing.LastSaysWhatIsLeft | src/lexer.c:44-53 | A run ends in END iff nothing is left or the request is the root, in TRAILING iff one slash is left of another request |
| Lexing.RunStaysAtRest | src/lexer.c:40-57 | END, TRAILING and ILLEGAL are fixed points |
| Lexing.JoinThenLex | src/lexer.c:35-72 | Legal segments joined behind slashes are lexed back as they were, up to where no further segment can be read, with the right ending |
| Lexing.LexThenJoin | src/lexer.c:35-72 | Every loaded request is the segments that are read of it behind slashes, and then what no segment can be read of |
| Lexing.SegmentStarts | src/lexer.c:59-71 | Each segment starts right behind the segments before it and its own slash |
| Arenas.ClearBelow | src/arena.c:36 | Masking with a power of two rounds down to a multiple, by less than it |
| Arenas.Arena.NewBlock | src/arena.c:6-23 | A new block at least as large as asked, apart from all live blocks |
| Arenas.Arena.AllocAligned | src/arena.c:25-54 | Aligned, inside its block, disjoint from everything ever returned; at most one new block; what is used grows by the size and less than the alignment |
| Arenas.Arena.Alloc | src/arena.c:56-59 | With alignment 1 what is used grows by exactly the size |
| Arenas.Arena.ArenaUsed | src/arena.c:78-91 | The sum of what all blocks have used |
| SymbolTables.SymbolTable.NextSlot | src/symbol.c:11-30 | The slots reserved are the next ones, and the capacity covers them |
| SymbolTables.SymbolTable.Append | src/symbol.c:32-66 | Interns: entries stay distinct, a text that is there is found, a full table refuses everything; the arena has used exactly the strings and their terminators |
| SymbolLists.Symbols.CompareBounded | src/symbol.c:81-102 | Comparing an unterminated key with a stored string realises the order of unsigned bytes |
| SymbolLists.Symbols.Compare | src/symbol.c:104-118 | So does comparing two C strings |
| SymbolLists.SortTexts | src/symbol.c:155-156 | Sorts a permutation of the texts |
| SymbolLists.CompileSymbols | src/symbol.c:133-176 | The texts of the table, distinct and strictly ascending, stored in a region exactly as large as what the table's arena has used |
| SymbolLists.Symbols.NResolve | src/symbol.c:178-194 | Bisection with a bounded key finds the place of the text plus one, or 0 iff it is not interned |
| SymbolLists.Symbols.Resolve | src/symbol.c:196-208 | Bisection with a C string finds the same symbol |
| SymbolLists.Symbols.ResolveThenLookup | src/symbol.c:196-216 | Looking a text's symbol up gives the text; symbols of interned texts lie in 1 to 65535 |
| Segments.AppendChild | src/segment.c:30-46 | The list gets one more segment at its end and the tree one more child, or at 4095 children nothing changes |
| Segments.AttachParam | src/builder.c:104-110 | The segment gets a parameter segment, the tree a parameter edge |
| Segments.MarkHalfParam | src/builder.c:106-110 | What a refused parameter symbol leaves behind |
| Segments.StoreRoute | src/builder.c:55-158 | Storing a route in a segment stores it in the tree, nothing else changes |
| SegmentWalks.FindChild | src/segment.c:51-62 | Walking the list finds the child with exactly this text, or none iff there is none |
| SegmentWalks.SegmentRelease | src/segment.c:97-126 | Every route at or below a segment has its context released as often as it occurs |
| Insertion.InsertAddsOne | src/builder.c:51-164 | An accepted insertion adds exactly the new pair of pattern and route, which was not there, and disturbs no other |
| Insertion.UnderEnter | src/builder.c:51-120 | One turn of the loop keeps what the whole insertion comes to |
| Compatibility.InsertKeepsSound | src/builder.c:68-158 | Accepted insertions keep the trie invariant: distinct nonempty siblings, at most 4095, no parameter beside children or a wildcard, something below every segment |
| Compatibility.SomeRouteBelow | src/builder.c:68-158 | In such a tree every segment that bears something has a route at or below it |
| Compatibility.AcceptedIsCompatible | src/builder.c:51-164 | What an accepted pattern is inserted beside is compatible with it |
| Compatibility.RefusedHasConflict | src/builder.c:51-164 | A refusal, unless for range, has a pattern in the tree that conflicts |
| Regularity.InsertKeepsRegular | src/builder.c:51-164 | Also refused insertions keep siblings distinct and countable, and parameters without siblings |
| Regularity.InsertLeavesNoHalfIff | src/builder.c:104-110 | An insertion leaves a half-made segment iff it comes to a parameter that a full table refuses |
| Regularity.InsertSum | src/builder.c:51-164 | An accepted insertion adds the weight of its route to the tree, a refused one nothing, for every weight |
| Refusals.RefusalIff | src/builder.c:37-165 | Behind any accepted list, for any text: a duplicate, a wildcard beside a parameter, a literal beside a parameter, a parameter beside a wildcard, beside a literal or beside another name, or no room, each iff the list says so; an illegal pattern, a wildcard that is not final, or success iff none of these is and the text's ending is such |
| Refusals.ParsedRefusalIff | src/builder.c:37-165 | The same for a well-formed pattern: a duplicate iff it is in the list, and never an illegal pattern or a wildcard that is not final |
| Refusals.CorruptedIff | src/builder.c:45-46 | An addition is answered with a corrupted builder iff an earlier one was refused, and then changes nothing |
| Acceptance.AcceptedTreeHolds | src/builder.c:51-164 | The tree of an accepted list is sound and holds exactly the list's pairs |
| Capacity.AcceptedIff | src/builder.c:51-164 | For every list, in any order and at any limit: it is accepted in full iff its patterns are well-formed, pairwise compatible, leave every node room, and bring no new segment once its table is full |
| Capacity.RefusedForRangeIff | src/symbol.c:32-37 | An insertion without a conflict is refused for range iff some step needs a new segment for which its table or its node has no room |
| Capacity.AcceptedIsAtMostFull | src/symbol.c:32-37 | A list accepted in full has at most 65535 distinct literals and parameter names, and at most 4095 literal children at every node |
| Capacity.AcceptedIffCompatible | src/builder.c:51-164 | A list is accepted in full iff its patterns are well-formed, pairwise compatible, at most fill tables and nodes, and, if a table comes out exactly full, bring no new segment too late |
| Capacity.OrderDoesNotMatter | src/builder.c:51-164 | Unless a table comes out exactly full, every permutation is accepted or rejected alike; if one does, a permutation of an accepted list is accepted iff nothing in it comes too late; accepted ones hold the same routes in either case |
| Limits.OrderMatters | src/symbol.c:32-37 | Two pattern texts with 65535 distinct literals between them that are accepted in one order and refused in the other |
| Capacity.AcceptedOrdersHoldAlike | src/builder.c:51-164 | Two orders that are both accepted hold the same routes, whatever the capacity |
| Builders.Builder.constructor | src/builder.c:187-217 | A builder of no registrations; the fallback's context is retained |
| Builders.Builder.EnterLiteral | src/builder.c:68-92 | The turn for a literal does to segments and table what the specification does to the tree |
| Builders.Builder.EnterParam | src/builder.c:94-120 | The turn for a parameter, with all its conflicts |
| Builders.Builder.Finish | src/builder.c:55-162 | The final tokens: terminal, wildcard, trailing slash, and their conflicts |
| Builders.Builder.InsertPattern | src/builder.c:37-165 | The loop over the tokens on the linked segments comes to the recursive insertion |
| Builders.Builder.AddRoute | src/builder.c:258-268 | The new state and the error are those of the specification; any error corrupts the builder; a context is retained iff the route was accepted |
| Builders.Builder.Free | src/builder.c:276-293 | Releases the fallback's context and each route's, if the callback is set |
| GraphLayout.NodeWordUnpacks | src/graph.h:9-16 | The count and each flag come back from the packed word, which fits 16 bits |
| GraphLayout.FlagsBuildNodeWord | src/graph.c:93-140 | Setting the flags one after the other builds that word |
| GraphLayout.ExtentsTile | src/graph.c:147-190 | The children's extents, the special subtree's and the trailing node's are contiguous, disjoint and fill the node's own |
| GraphLayout.TerminalsIncrease | src/graph.c:110-190 | Terminal refs come out strictly increasing and inside the subtree's extent, from the order of emission alone |
| GraphLayout.TerminalsSum | src/graph.c:110-190 | The emitted terminals weigh what the tree's routes weigh, for every weight |
| GraphLayout.TerminalsCount | src/graph.c:42-57 | A subtree emits as many terminals as are counted for it |
| GraphLayout.EncodesKept | src/graph.c:147-162 | Writing elsewhere and appending terminals disturbs no subtree that is already compiled |
| GraphLayout.NodeAssembled | src/graph.c:86-193 | Head, literal edges, special and trailing parts written in turn make the node |
| GraphWords.SizeIsListWords | src/graph.c:38-84 | The graph of an accepted list takes one word, three for each distinct nonempty beginning of its patterns' steps, and two for each wildcard and each trailing slash |
| GraphStats.Stats.Count | src/graph.c:38-84 | Adds the exact size and number of terminals, leaves the depth as it was, and raises the reserve to the maximum, one at a time |
| EdgeSort.SortEdges | src/graph.c:165 | Sorts the pairs of symbol and offset in place; the pairs are a permutation, nothing else changes |
| EdgeSort.SortedIsAscending | src/graph.c:17-27 | Sorted edges of distinct symbols are strictly ascending |
| TerminalDictionary.Terminals.Append | src/terminal.c:27-31 | One more entry at the end |
| TerminalDictionary.Terminals.Lookup | src/terminal.c:33-64 | Bisection above 16 entries and linear search below find the same: a route of the ref, or none iff there is none |
| TerminalDictionary.RefHasOneRoute | src/terminal.c:33-64 | In an increasing dictionary a ref has one route |
| Routers.Router.WriteHead | src/graph.c:92-140 | The node word, the parameter's symbol, the node's own terminal, and room for the edges |
| Routers.Router.CompileKids | src/graph.c:157-162 | Children are compiled one behind the other and the edges patched; only this extent and the edges change |
| Routers.Router.CompileLiterals | src/graph.c:142-166 | The literal edges are the children's, strictly ascending, and every child is encoded |
| Routers.Router.CompileSpecial | src/graph.c:168-181 | The special edge leads to the encoded parameter subtree or to the wildcard's node |
| Routers.Router.CompileTrailing | src/graph.c:183-190 | The trailing edge leads to the trailing node |
| Routers.Router.CompileTail | src/graph.c:168-190 | The special part and the trailing node, one behind the other |
| Routers.Router.GraphCompile | src/graph.c:86-193 | From a blank extent: the cursor advances by exactly the size, only the extent changes, it encodes the subtree, its terminals are appended in order, and each context is retained once for each route |
| Routers.Router.Free | src/router.c:211-230 | Releases the fallback's context and every terminal's |
| KnownTexts.AcceptedIsCompilable | src/graph.c:132-154 | Every text of an accepted tree has a symbol in the compiled lists |
| Conservation.AcceptedSum | src/builder.c:51-164 | The tree of an accepted list weighs what the list weighs |
| Conservation.AcceptedCount | src/compiler.c:51 | The compiled route count is the number of accepted additions |
| Compiler.Start | src/compiler.c:38-53 | A router with the builder's options and exact counts, the fallback's context retained |
| Compiler.Discard | src/compiler.c:82-91 | Freeing a router that has no terminals yet releases its fallback and nothing else |
| Compiler.Fill | src/compiler.c:59-79 | Symbols, dictionary and graph: both arrays are filled exactly, and the router serves the list |
| Compiler.Compile | src/compiler.c:17-92 | The error for null, corrupted and out-of-range builders, exactly, the range being that of the list; a refused router releases the fallback that it retained; a router serves the list |
| Compiler.Consume | src/compiler.c:97-120 | Compiles and frees the builder in every case |
| Resolution.WalkIsScan | src/router.c:42-197 | The greedy walk of a sound tree is what the scan of its list says, and the only thing it says |
| ParamBounds.WildcardCaptures | src/router.c:186-194 | A wildcard match begins with its own pattern's parameters and ends with `_` for the path from the segment read at the wildcard to its end; between them are the parameters recorded below the wildcard |
| ParamBounds.OwnCapturesOnlyIff | src/router.c:135-194 | A wildcard match carries its own pattern's parameters and the rest of the path, and nothing more, iff the list leads past no parameter below the wildcard |
| Examples.ForeignParamIsRecorded | src/router.c:135-194 | Three pattern texts and a path that stays inside the buffer: the wildcard's match carries another pattern's parameter |
| Requests.OwnRequestIsFound | src/router.c:27-198 | A pattern of an accepted list that ends without a wildcard is found by every request made from it, the lone slash included, with any plain texts for its parameters and at most 4080 bytes; the parameters are bound to those texts |
| Requests.WildcardTakesRest | src/router.c:186-197 | A wildcard of an accepted list takes every request that begins with its steps and goes on with a plain segment that no pattern has there; `_` is bound to the whole rest |
| Requests.FoundIsOwn | src/router.c:27-198 | Whatever is found is found for a loaded request that is some pattern's own, or that begins with the steps of a wildcard's pattern, whose last parameter reaches from behind the slash there to the end |
| Resolution.WalkCapturesSlices | src/router.c:135-146 | Every captured value is a slice of the path |
| Resolution.AllOrdersResolveAlike | src/router.c:42-197 | All accepted orders of a list resolve every path to the same one result |
| ParamBounds.ReserveIsMaximum | src/graph.c:54-73 | The reserve is exactly the maximum over the tree of the parameter depth, plus one at a wildcard |
| ParamBounds.PeakExceedsReserveIff | src/router.c:138-191 | For every request, also one that ends not found: the slots in use exceed the reserve iff the walk sticks below a wildcard at a parameter depth equal to the reserve, and then by one |
| ParamBounds.FoundAtPeak | src/router.c:186-197 | A match that is found leaves as many entries as it had slots in use |
| ListBounds.ReserveIsListReserve | src/graph.c:54-73 | The reserve is the most that any pattern of the list takes: its parameters, and one for a wildcard |
| ListBounds.OverrunsIff | src/params.c:123-126 | For every request, more slots are in use than reserved iff the list of patterns says that the request overruns |
| ListBounds.SomeRequestOverrunsIff | src/dispatcher.c:88-89 | Some request overruns iff the patterns go on below a wildcard's prefix to a place as deep as the reserve, and a request of legal length can leave them there |
| ParamBounds.ShallowReserveSuffices | src/router.c:186-191 | With no parameter below a wildcard the reserve suffices for every request |
| Examples.OneMoreIsRecorded | src/dispatcher.c:88-89 | Two pattern texts that are accepted and reserve two slots, and a path that takes three |
| Sizes.SameSize | src/graph.c:38-84 | Trees that hold the same routes have the same size |
| Matching.HeadSays | src/router.c:51-74 | What is read off a compiled node is what the tree says |
| Matching.EdgeFindsKid | src/router.c:84-132 | An edge with a text's symbol leads to the child with exactly that text, and there is one iff there is such a child |
| Matching.FindEdge | src/router.c:96-128 | Bisection above 16 edges and linear scan below find the edge with a symbol, or none iff there is none |
| Matching.FollowLiteral | src/router.c:83-132 | A literal leads to the child with its text iff there is one |
| Matching.RouteOf | src/router.c:196-197 | Every terminating offset finds its own route |
| Dispatchers.Dispatcher.ParamNext | src/params.c:123-126 | Takes the next slot of a buffer of `max_params` slots; the write leaves the buffer iff none is left |
| Dispatchers.Dispatcher.AtLiteral | src/router.c:79-154 | A literal token at a node: child, parameter, wildcard or nothing, as in the tree |
| Dispatchers.Dispatcher.AtWildcard | src/router.c:186-197 | Takes one more slot for the rest of the path, and finds the wildcard's route |
| Dispatchers.Dispatcher.AtRest | src/router.c:156-197 | Any other token: the node's own route, its trailing node's, or none |
| Dispatchers.Dispatcher.Turn | src/router.c:46-175 | One step of the flat walk and of the tree walk agree on the next state, the remembered wildcard, the parameters written, the slots in use and the route; path cursor and graph offset strictly advance |
| Dispatchers.Dispatcher.RouteMatch | src/router.c:27-198 | A write leaves the buffer iff the tree walk needs more slots than there are; otherwise the flat walk comes to exactly the tree walk, and no route means no parameters |
| Dispatchers.Dispatcher.Match | src/dispatcher.c:63-68 | Fresh or reused: a write leaves the buffer iff the list says that the path overruns; until then what is matched is what the scan says, and every value is a slice of the path |
| Dispatchers.Dispatcher.Resolve | src/dispatcher.c:63-73 | The context of the route, or of the fallback, unless a write has left the buffer |
| Dispatchers.Dispatcher.Dispatch | src/dispatcher.c:31-43 | The handler and context that would be called, or none for a null handler, unless a write has left the buffer |
| ParamSnapshots.Measure | src/params.c:48-66 | The packed size, or a refusal iff something is null or the size exceeds 65535 |
| ParamSnapshots.Pack | src/params.c:79-97 | The copies fill exactly the measured size, each terminated, one right behind the other |
| ParamSnapshots.ParamsCopy | src/params.c:27-104 | Copied iff the parameters are given, nothing used is null and the total fits 16 bits |
| ParamSnapshots.ReadBack | src/params.c:84-95 | Reading the copy gives every name, and every value up to its first NUL: the whole value iff it holds none |
| ParamSnapshots.StringsTile | src/params.c:79-97 | The first name is at the region's start, each string and its terminator are followed by the next, the last by the region's end |
| ParamSnapshots.StringsApart | src/params.c:79-97 | Each name ends before its value, each value before any later parameter's name and the region's end |
| Copies.MatchAndCopy | src/params.c:27-104 | Unless the path overruns the buffer, copying what a match has recorded is refused only for its size, and reading the copy gives the names, and the values up to their first NUL, of the match that the scan of the list calls for; a wildcard's last value reads as the rest of the path |
| ParamSnapshots.FindParam | src/params.c:151-158 | The first parameter of a name, or none iff there is none |

## Left out

- Allocation failure (`WROUTER_ERR_NO_MEMORY`) everywhere: allocation succeeds.
- Bindings, examples, error messages, the destroy wrappers that only null a pointer, `segment_free` and the other frees of
  memory without callbacks.
- The call of the handler: `Dispatch` returns what would be called; a handler is a number, 0 for null.
- Handlers' and contexts' addresses, and strings as pointers: texts are byte sequences, tokens carry indices, arena blocks
  carry addresses but no bytes. An interned string is a sequence in the table beside an arena that accounts for its bytes.
- What happens after a write past the dispatcher's parameter buffer: the model notes that it happened and promises no more.
  The dispatcher's free is not modelled.
- A graph pointer that is null: a compiled router has at least one word.
- A null error output, for which compilation returns at once.
- `qsort` and `bsearch`: written out as insertion sort and bisection over the same comparisons.
- The locale's character classes: those of the C locale on unsigned bytes.
- `wrouter_iparam`, and the variants that measure a NUL-terminated path first.
- Overflow of `size_t` counters; counts that are stored in 16 bits are bounded explicitly.
- The builder's own unused arena and preroute table.
- Live: freeing a builder with a half-made segment is excluded where the release callback is set, since the release would
  follow a null pointer; so it is for Builder.Free and Compiler.Consume.
