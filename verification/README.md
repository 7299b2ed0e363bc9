# Cangjie frontend: a verified model of its search index, tree algorithms, demangler, codecs and diagnostics

This project models five parts of the Cangjie compiler frontend in Dafny and proves what they are for. Every loop and every
object of the source that is updated in place is an imperative method or a class here, proved against a functional
specification; the main results are lemmas about these specifications.

| files | what they model |
|---|---|
| `Symbols`, `Strings`, `PositionKeys`, `Tries`, `PosSearch`, `InvertedIndexes`, `Queries`, `QueryParsing`, `AcceptedQueries`, `QueryText`, `Searching`, `SearchCache` | symbol search: tries that carry ids, fixed-width position keys, range queries that walk upwards, the inverted index, the query language and the result cache |
| `Walkers`, `Cloner`, `SuperDecls`, `InitOrder` | algorithms on the syntax tree: the marking walk, cloning with redirected references, all super declarations, the order of initialization |
| `Base62`, `Decompression`, `MangledTypes`, `MangledDecls`, `AcceptedNames`, `Demangler` | demangling: numbers, back references, the grammars of mangled types and declarations, the grammar of what is accepted at all, the descent parser |
| `Numbers`, `IntLiteralTexts`, `IntLiterals`, `StringConvertor`, `Escapes`, `SourceMap` | literals as text and as words, fast exponentiation, UTF-8 and escape sequences, lines and offsets |
| `Diagnostics`, `DiagnosticTransactions`, `DiagnosticCounts`, `DiagnosticRepeats`, `MacroCalls` | diagnostics: transactions of threads, counting by category, repeated reports, macro calls by position |

`Wrappers` holds an optional value and a pointer that may be null. `dafny verify dfyconfig.toml` checks everything.

## How the model stands for the source

- Trie nodes are addressed by their paths, so `nodes[p]` is the node that the source reaches along `p`. Symbols are objects;
  tree nodes are numbers with lists of children and reference fields. The long switches over node kinds of the walker and the
  cloner are these lists.
- Ghost fields record what an object was given so far (the words and entries of a trie, the live symbols of an index, the calls
  of a walker, the registered macro calls); they only occur in specifications.
- The demangler's methods take a ghost value `expected`: the type, name, declaration or list that stands at the cursor, if one
  does. With it they promise to accept it and exactly how far they read. With it or without, they promise for every text that
  what they accept belongs to the wider grammar of `AcceptedNames`, progress, and that a rejection is absorbing.
- Threads are steps. In `DiagnosticTransactions` a step is what happens under one lock or one call of the handler, and during a
  commit, which calls the handler under the lock, each call is a step; in `DiagnosticCounts` counting an error is three steps
  and a reset is two, and in `DiagnosticRepeats` telling whether a diagnostic repeats another one is three, so that threads
  interleave between them.
- A set or hash map that the source iterates over is taken apart in an arbitrary order, and nothing depends on the order, but
  for the fallback of the position test, which has its order as a parameter. Words of 64 bits wrap around explicitly, octets and code points are bit vectors.

## Where the code does not do what it is meant to

In each case the code is modelled as it is, with an input that shows the difference and the exact condition.

- A range query compares only keys that share the file digits and one more digit, the leading one of the line
  (`PosSearch.PlainReading`, `PosSearch.RangeMissesAcrossLeadingDigit`).
- The comment at `src/AST/Searcher.cpp:458` excludes symbols that end at the position, the defaults at
  `include/cangjie/AST/Searcher.h:223-224` include them (`Searching.HalfOpenIff`, `Searching.FoundWhereItEnds`). Where no symbol
  ends at or after the position, the fallback finds symbols that do not cover it (`Searching.AroundIff`).
- Deleting a symbol sets a mark that indexing does not take back (`InvertedIndexes.HistoryKeepsIntended`,
  `InvertedIndexes.ReindexedSymbolStays`).
- The cache key holds only the first eight digits of each file hash (`SearchCache.CollidingFilters`,
  `SearchCache.ShortHashCollision`).
- Redundant parentheses are refused, but for a single pair around a term (`QueryParsing.RedundantParentheses`, and
  `QueryParsing.ClosedAtOnce` for any clause), and what follows a chain of
  clauses is ignored (`QueryParsing.ParseOfChain`). The end of a query is taken for an empty value (`QueryParsing.ParseOfTerm`).
- The order of initialization looks for dependencies it already passed (`InitOrder.Merge` with the exact
  condition, `InitOrder.NamedAfterBroughtForward`).
- The mangler writes numbers with the least significant digit first, the demangler reads them the other way
  (`Base62.ManglerReadBackIff`, `Base62.SixtyThreeComesBackAsTwo`).
- A fixed-size array swallows the types behind it (`Demangling.Demangler.DemangleVArray`, `Demangling.ReadArrayAndNeighbour`),
  and some pairs of primitive types before an `H` are taken for an operator (`Demangling.Demangler.DemangleGenericTypes` with
  `MangledTypes.MisreadIff`, `Demangling.ReadLessThan`).
- A wrapper is cut at its first `$`, which may be that of a file: the wrapper of a private declaration is refused, and one of a good
  declaration without a `$` is accepted (`Demangling.RefusePrivateWrapper`, `Demangling.RefuseWrappedFoo`,
  `Demangling.Demangler.DemangleWrappedFunction`).
- Exponentiation with the limit 0 and the exponent 0 reports no overflow for the power 1 (`IntLiterals.QuickPow`,
  `IntLiterals.ZerothPowerAboveZero`).
- The table of octet ranges ends four-octet sequences at 0x10FFFF, where section 2 of RFC 2279 ends them at 0x1FFFFF; what lies
  between is encoded in five octets and still read back (`StringConvertor.OctetsIff`, `StringConvertor.FiveOctetsTooMany`).
- A position in column 0 has offset 0 on every line (`SourceMap.SliceIff`, `SourceMap.BeginInColumnZero`,
  `SourceMap.EndInColumnZero`).
- A reset between the steps of counting, or counting between the steps of a reset, leaves the counters inconsistent
  (`DiagnosticCounts.ResetKeepsIff`, `DiagnosticCounts.ResetBeforeCounting`, `DiagnosticCounts.CountingDuringReset`).
- Two threads that report one message at one place can both count it, unless both reports are saved and agree in range,
  category and severity (`DiagnosticRepeats.TakenOnceIff`, `DiagnosticRepeats.RaceTakesBoth`).
- Macro calls that touch from the left or are nested hide each other (`MacroCalls.AlwaysRightIff`,
  `MacroCalls.LaterCallHides`), and beyond line 65535 a call is found for a position of another file
  (`MacroCalls.RightEverywhereIff`, `MacroCalls.LineOfOtherFile`).
- A gate has room for one symbol of its scope name (`InvertedIndexes.AllGatedIff`,
  `InvertedIndexes.GateLost`).
- The escapes for JSON leave control characters as they are that have no escape of their own (`Escapes.JsonReadBackIff`,
  `Escapes.VerticalTabStays`).
- When the fields of position keys grow, symbols indexed before are no longer removed from the position tries
  (`InvertedIndexes.GoneAfterGrowthIff` with `PositionKeys.GrownKey`, `InvertedIndexes.StaysAfterGrowth`).

## Model

| member | source | states |
|---|---|---|
| `Tries.Trie.Insert` | src/AST/Searcher.cpp:51-69 | A word is added to the stored words and nothing else changes; every node keeps the ids and suffixes that the stored words and entries call for. |
| `Tries.Trie.InsertWithId` | src/AST/Searcher.cpp:71-93 | The word and the entry (key, symbol) are added, and the ids at every node below the root are again exactly the symbols with a key that starts like the path to the node. |
| `Tries.Trie.InsertedCanBeDeleted` | src/AST/Searcher.cpp:95-106 | Every key that was ever inserted can be followed to its last node, so deleting it never meets a missing child. |
| `Tries.DeleteKeepsGrouping` | src/AST/Searcher.cpp:95-106 | Erasing a symbol along the path of a key leaves each node the exact group of the remaining entries if and only if the symbol has no other key with a common start. |
| `Tries.Trie.Delete` | src/AST/Searcher.cpp:95-106 | The entry is removed, the words stay, and all nodes again group the remaining entries; the precondition is the exact one of `DeleteKeepsGrouping`. |
| `Tries.Trie.GetPrefixRootNode` | src/AST/Searcher.cpp:108-119 | Finds the node of a prefix exactly if some stored word has it. |
| `Tries.Trie.PrefixMatch` | src/AST/Searcher.cpp:121-138 | Lists the stored non-empty words with the prefix, all of them, once each, in lexicographic order. |
| `Tries.Trie.SuffixMatch` | src/AST/Searcher.cpp:140-156 | Lists the stored words that end in the suffix and are longer than it, all of them, once each, in the lexicographic order of what comes before the suffix; an empty suffix finds nothing. |
| `PositionKeys.FillZeroPads` | include/cangjie/Utils/Utils.h:78-89 | A number that fits its field is written with all digits of the field. |
| `PositionKeys.PosToStrIsOrderEmbedding` | src/AST/Searcher.cpp:178-184 | Keys of positions that fit have one length and are ordered and equal exactly as the positions are by file, line and column. |
| `PositionKeys.SameBucket` | src/AST/Searcher.cpp:213-236 | Two keys agree on the file digits and one more digit if and only if file and leading line digit agree as numbers. |
| `PosSearch.PosSearchApi.UpdatePosLimit` | src/AST/Searcher.cpp:162-176 | Fields only grow, to the width that is needed, and the position fits afterwards. |
| `PositionKeys.GrownKey` | src/AST/Searcher.cpp:162-184 | After fields grew, the key of a position is another one, and the old key is its beginning if and only if every part of the position that grew or moved is 0. |
| `PosSearch.PosSearchApi.FindCommonRootInPosTrie` | src/AST/Searcher.cpp:186-211 | The deepest node whose path starts the key. |
| `PosSearch.PosSearchApi.GetIDsGreaterThanPos` | src/AST/Searcher.cpp:213-236 | The upward walk returns exactly the symbols whose key shares the file digits and the leading line digit with the query key and lies above it, or on it for a closed query. |
| `PosSearch.PosSearchApi.GetIDsLessThanPosOfDepth` | src/AST/Searcher.cpp:238-253 | One level: the children before the digit, with the child of the digit itself while a closed end is pending, and the end stays pending exactly while no child is at or after the digit. |
| `PosSearch.PosSearchApi.GetIDsLessThanPos` | src/AST/Searcher.cpp:255-270 | The mirror image of the query above, including a closed end that survives several levels. |
| `PosSearch.PosSearchApi.GetIDsWithinPosXByRange` | src/AST/Searcher.cpp:272-282 | The intersection of both range queries, empty for positions in the wrong order. |
| `PosSearch.RangeQueryIsScan` | src/AST/Searcher.cpp:213-270 | Over a trie that indexes the live symbols, a range query is a linear scan of these by file, leading line digit and position. |
| `PosSearch.PlainReading` | src/AST/Searcher.cpp:213-270 | A symbol of the same file after the query position is found if and only if its line has the same leading digit; in particular always if both lines leave that digit zero. |
| `PosSearch.PlainReadingBeneath` | src/AST/Searcher.cpp:238-270 | The same for the symbols before the position. |
| `PosSearch.RangeMissesAcrossLeadingDigit` | src/AST/Searcher.cpp:158-160 | With the default widths a symbol on line 10000 is not found from line 9999 of the same file. |
| `InvertedIndexes.GroupInsert` | src/AST/ASTContext.cpp:252-265 | Inserting into one slot of an index map keeps the map the grouping of the live symbols by the attribute. |
| `InvertedIndexes.GroupErase` | src/AST/ASTContext.cpp:272-288 | Erasing from one slot keeps the grouping. |
| `InvertedIndexes.WithoutTailIs` | include/cangjie/AST/ScopeManagerApi.h:28-41 | A scope name loses what stands behind its last split character, with the character, and nothing where there is none. |
| `InvertedIndexes.AllGatedIff` | src/AST/ASTContext.cpp:252-291 | Where every live symbol of a scope name with a tail is found through its gate, indexing or deleting a symbol keeps this for the others if and only if no other live symbol has its scope name: a gate has room for one. |
| `InvertedIndexes.GateLost` | src/AST/ASTContext.cpp:252-291 | Two symbols of one scope name are indexed and the second is deleted: the first one is live and has no gate. |
| `InvertedIndexes.InvertedIndex.constructor` | include/cangjie/AST/ASTContext.h:32-52 | An empty index over fresh tries, valid for no symbols. |
| `InvertedIndexes.InvertedIndex.Reset` | src/AST/ASTContext.cpp:235-250 | Nothing is indexed any more; the scope trie knows the top level and the kind trie all kinds. |
| `InvertedIndexes.InvertedIndex.Index` | src/AST/ASTContext.cpp:252-270 | The live symbols grow by the symbol, the tries too if asked for, and every map and trie again groups them, whatever the position; this is the indexing step of the histories below. The gate of its scope name, if it has a tail, is the symbol from now on, and no other gate changes. A null symbol changes nothing. Keys stay uniform if the position fits the fields. |
| `InvertedIndexes.InvertedIndex.IndexedCanBeDeleted` | src/AST/ASTContext.cpp:272-291 | A symbol that was indexed with tries meets what deleting asks for. |
| `InvertedIndexes.InvertedIndex.Delete` | src/AST/ASTContext.cpp:272-291 | The symbol leaves every map and trie, which group the others as before, and no path is lost; the gate of its scope name goes, whoever it led to; a null or already marked symbol changes nothing, so deleting is idempotent. This is the deleting step of the histories below. |
| `InvertedIndexes.GoneAfterGrowthIff` | src/AST/ASTContext.cpp:272-292 | If fields grew after a symbol was indexed, erasing it along the path of its new position key removes it from every node if and only if every part of the position that grew or moved is 0; for lines and columns from 1 on, if and only if the widths did not change. |
| `InvertedIndexes.StaysAfterGrowth` | src/AST/ASTContext.cpp:272-292 | A symbol at line 1, column 1 of file 1 is not removed after the field of lines grew from five digits to six. |
| `InvertedIndexes.HistoryKeepsIntended` | src/AST/ASTContext.cpp:272-291 | The mark on a deleted symbol is never taken back. After any history of indexing and deleting, the index holds what the history intended if and only if no symbol was deleted, indexed again and deleted again. |
| `InvertedIndexes.ReindexedSymbolStays` | src/AST/ASTContext.cpp:272-291 | The shortest history that leaves a deleted symbol in the index. |
| `QueryParsing.QueryParser.ParseQuery` | src/AST/Query.cpp:39-42 | The cursor-driven parser computes the reading that the next lemmas are about. |
| `QueryParsing.QueryParser.ParseBooleanClause` | src/AST/Query.cpp:44-99 | Query, cursor and parenthesis flag after the loop are those of the functional reading, from every position and with either flag. |
| `QueryParsing.QueryParser.ParseParenClause` | src/AST/Query.cpp:101-112 | The same for a parenthesised clause, which always leaves the flag off. |
| `QueryParsing.QueryParser.ParseComparator` | src/AST/Query.cpp:114-130 | The comparison sign and the cursor behind it. |
| `QueryParsing.QueryParser.ParsePositionTerm` | src/AST/Query.cpp:132-186 | A position term with its seven tokens, or where the reading fails. |
| `QueryParsing.QueryParser.ParseNormalTerm` | src/AST/Query.cpp:188-232 | A key and a value, with a star before or behind the value. |
| `QueryParsing.OperandOfRender` | src/AST/Query.cpp:44-244 | Wherever a rendered query stands, and unless a star follows, exactly it is read back. |
| `QueryParsing.ParseOfRender` | src/AST/Query.cpp:39-112 | Parsing the fully parenthesised rendering of any query that the parser can produce gives the query back. |
| `QueryParsing.ParseOfChain` | src/AST/Query.cpp:44-99 | A chain without parentheses is read from left to right with equal precedence; what follows a chain is not looked at, what follows a single query is an error. |
| `QueryParsing.ParseOfTerm` | src/AST/Query.cpp:188-244 | A value of any kind of token is looked for by its text: all of it, or its beginning or its end where a star stands behind or before it; a wildcard behind the star is part of the text, and no value at all is the empty one. |
| `QueryParsing.ClosedAtOnce` | src/AST/Query.cpp:44-112 | A clause that starts with a parenthesised clause is refused if a closing parenthesis follows that at once; within parentheses it is accepted only if an operator follows. |
| `AcceptedQueries.OnlyClauses` | src/AST/Query.cpp:39-244 | Nothing is accepted but operands with operators between them, read to the left, and nothing as an operand but a text term, a position term with its sign, four marks and three numbers, or a parenthesised clause; no operator follows, and nothing at all where there is none within. |
| `QueryParsing.RedundantParentheses` | src/AST/Query.cpp:44-112 | Within any number of redundant pairs of parentheses a query is read exactly if there is none, or a single pair around a term, because an inner clause clears the flag. |
| `QueryText.PrettyPrintInjective` | src/AST/Query.cpp:246-267 | On queries whose words avoid the structuring characters, printing is injective. |
| `QueryText.UncleanQueriesCollide` | src/AST/Query.cpp:246-267 | A value that ends in a star prints like a prefix query. |
| `QueryText.SameCacheKey` | src/AST/Searcher.cpp:35-48 | Two clean searches share a cache key if and only if query, order and the short hashes of the file filters agree. |
| `Searching.AnswerIsFilter` | src/AST/Searcher.cpp:513-534 | If everything live is in the tries and lines leave the leading digit zero, the answer computed from the indexes is the plain filter of the live symbols by the query, for every comparison sign; `=`, `<=` and `>=` under the guard of the next row. |
| `Searching.AroundIff` | src/AST/Searcher.cpp:455-485 | `=` finds exactly the symbols that cover the position if and only if some symbol ends at or after it or none begins at or before it; otherwise the fallback is taken, which always finds something although no symbol covers the position. |
| `Searching.HalfOpenIff` | src/AST/Searcher.cpp:455-470 | Where no fallback is taken, what is found is half open, as the comment in the source has it, if and only if no symbol that began by the position ends at it. |
| `Searching.FoundWhereItEnds` | src/AST/Searcher.cpp:455-470 | Every symbol is found at its own end. |
| `Searching.Searcher.GetIDsByPosEQ` | src/AST/Searcher.cpp:451-485 | The symbols that began by the position and end at or after it; if none ends there, of those that began, in the order of their addresses, one more than the scope level of the first. |
| `Searching.Searcher.GetIDsByPos` | src/AST/Searcher.cpp:536-554 | Each comparison sign is its combination of range queries. |
| `Searching.Searcher.GetIDsByName` | src/AST/Searcher.cpp:556-570 | A name query, exact, by prefix or by suffix, is the filter of the live symbols by their names. |
| `Searching.Searcher.GetIDsByScopeLevel` | src/AST/Searcher.cpp:572-596 | A level query is the filter by level: equal, below, or at most, by the loop over levels for the latter two; empty for a value that is no level. |
| `Searching.Searcher.GetIDsByScopeName` | src/AST/Searcher.cpp:598-615 | A scope query, exact or by prefix, is the filter by scope name. |
| `Searching.Searcher.GetIDsByASTKind` | src/AST/Searcher.cpp:617-632 | A kind query, exact or by suffix, is the filter by kind. |
| `Searching.Searcher.PerformSearch` | src/AST/Searcher.cpp:513-534 | AND, OR and NOT are intersection, union and difference of the answers of the parts, down to the terms. |
| `SearchCache.FilterAndSort` | src/AST/Searcher.cpp:328-341 | The result lists exactly the symbols of the wanted files, once each, in the order asked for, where order is told by file, line and column: ascending, no symbol begins before the one listed before it, of those that begin together the one that ends later comes first, and of those that also end together the kinds do not descend; descending, the mirror image. |
| `SearchCache.ListsInOrder` | src/AST/Searcher.cpp:285-341 | A listing in the order of the comparators is one by begin, then end, then kind, told by files, lines and columns alone, for both orders. |
| `SearchCache.FilterKeepsListing` | src/AST/Searcher.cpp:307-326 | Filtering a cached listing by files lists the filtered set, still in order. |
| `SearchCache.KeysIdentify` | src/AST/Searcher.cpp:35-48 | Clean searches over files with different short hashes meet in the cache only if they are the same search. |
| `SearchCache.CollidingFilters` | src/AST/Searcher.cpp:307-326 | If two file filters share a key, the entry of the first answers the second if every file of the second is one of the first, and only then where each file of the second holds a result. |
| `SearchCache.ShortHashCollision` | src/Utils/FileUtil.cpp:974-978 | Two hashes with the same first eight digits: the second search gets the entry of the first and finds nothing. |
| `SearchCache.ASTContext.AddSymbol` | src/AST/ASTContext.cpp:252-270 | Collecting a symbol changes the index, for any position, and leaves the cache alone. |
| `SearchCache.ASTContext.InvalidateCache` | include/cangjie/AST/Searcher.h:204-208 | Nothing stays cached, so what is cached is current again. |
| `SearchCache.ASTContext.DeleteInvertedIndexes` | src/AST/ASTContext.cpp:35-48 | After a walk that deletes symbols in any order and any number of times, with or without tries, the index holds the others, and the cache is current. Asked for is only that the paths of the symbols lead to no null child. |
| `SearchCache.ASTContext.FindInSearchCache` | src/AST/Searcher.cpp:307-326 | A hit is the cached listing, filtered again by the wanted files, and lists the answer of the search that the entry was made for. |
| `SearchCache.ASTContext.SearchAfresh` | src/AST/Searcher.cpp:359-372 | A miss lists the answer from the indexes and stores it; everything cached is still the answer of the search it was made for. |
| `SearchCache.ASTContext.Search` | src/AST/Searcher.cpp:343-372 | With a current cache, every search returns the sorted listing of the fresh answer for the cached search of its key, filtered once more, and its order by begin, end and kind is that asked for, from the cache as well; for clean searches over files with different short hashes this is the fresh answer of the search itself, and under the conditions of `AnswerIsFilter` the sorted plain filter of the live symbols. The cache stays trustworthy. |
| `Walkers.Walker.Walk` | src/AST/Walker.cpp:39-75 | For any visitors and any finite graph, shared or cyclic: the walk ends, and the calls made are properly nested, enter each newly marked node once, and cover the reached nodes; whenever a node is entered below another one, every child listed before it is null, was marked before the walk or was entered earlier, so children are taken in the order of their list; a visitor that answers STOP_NOW is the last one to be called, and its answer is the result. Modifiers are called but never marked. |
| `Walkers.WalkOn` | src/AST/Walker.cpp:39-75 | Two walks after each other, the first of which did not stop, make up a walk of both starts. |
| `Walkers.MarkedIffReached` | src/AST/Walker.cpp:39-75 | A finished walk marks exactly the nodes to which a path of unmarked nodes leads that no visitor pruned; a skipped node prunes its own edges and no others. |
| `Walkers.OrdinaryWalk` | src/AST/Walker.cpp:39-75 | With visitors that always ask for the children and a fresh mark, each reachable node is entered and left exactly once and no other node is. |
| `Walkers.WalkerIDs.GetNextWalkerID` | src/AST/Walker.cpp:25-32 | Walker numbers follow each other and skip 0 when they wrap around. |
| `Walkers.NthIDIs` | src/AST/Walker.cpp:25-32 | The n-th number handed out, in closed form. |
| `Walkers.SharedMarkIff` | src/AST/Walker.cpp:25-32 | Two walkers share a number if and only if a multiple of 2^32 - 1 numbers was handed out between them. |
| `Cloner.ASTCloner.TargetAddrMapInsert` | include/cangjie/AST/Clone.h:48-59 | If the collected fields of a node were recorded up to this one, each with the same field of the copy and besides what was recorded before, they are recorded up to the next one: the step of the invariant by which `Collect` gathers exactly the fields that the second pass needs. |
| `Cloner.ASTCloner.Collect` | src/AST/Clone.cpp:1553-1686 | A node is recorded with its copy, and each collected field of it with the field of the copy. |
| `Cloner.ASTCloner.CloneNode` | src/AST/Clone.cpp:1516-1549 | The copy owns a tree of new nodes that mirrors the tree of the original node by node; existing nodes stay as they were, and exactly the nodes of the tree are paired. |
| `Cloner.ASTCloner.Rearrange` | src/AST/Clone.cpp:1687-1694 | In whatever order the fields come up, every collected reference to a recorded node is redirected to its copy, and no other reference and no child changes. |
| `Cloner.ASTCloner.CloneWithRearrange` | src/AST/Clone.cpp:1551-1695 | The result mirrors the source tree, the source is untouched, and every reference of the copy is what the second pass makes of that of the original. |
| `Cloner.LeaksIff` | src/AST/Clone.cpp:1551-1695 | A reference of the copy leads back into the original tree if and only if its value was copied and either its field is not collected or its target is of a kind that is not recorded; so no collected reference to a recorded node leaks. |
| `Cloner.OutsideUnchanged` | src/AST/Clone.cpp:1551-1695 | References out of the tree are taken over, and null stays null. |
| `Cloner.ReferencesCorrespond` | src/AST/Clone.cpp:1551-1695 | A reference joins two copies if and only if it was to be redirected and joins their originals. |
| `Cloner.FollowCommutes` | src/AST/Clone.cpp:1551-1695 | Following any path of redirected references, cyclic ones included, and copying commute. |
| `SuperDecls.GetAllSuperDecls` | src/AST/Node.cpp:541-568 | On any inheritance graph, cyclic ones included, the result has no repetitions, holds exactly the class-like declarations reachable through inherited types (and the declaration itself if it is class-like), and is ordered by distance; each declaration stands where the first inherited type that names it has its turn: everything that those before it, or earlier inherited types of the same one, name is listed before. |
| `InitOrder.SortByPosition` | src/AST/Utils.cpp:598-620 | Sorted by position, and the same variables. |
| `InitOrder.NewlyNamed` | src/AST/Utils.cpp:626-636 | The specific dependencies that were not named before, and all that were named by now. |
| `InitOrder.BringForward` | src/AST/Utils.cpp:638-646 | Specific variables are appended up to the last one that is needed, or one is needed that is not among those left. |
| `InitOrder.Merge` | src/AST/Utils.cpp:622-654 | The merge yields the initialization order exactly if the two lists are orderly, and otherwise runs past the end of the specific variables. |
| `InitOrder.GetVarsInitializationOrderWithPositions` | src/AST/Utils.cpp:598-656 | The same from the members of a declaration, with the common fields in member order and the specific ones sorted; the positions given are 0, 1 and so on, each once, and of two fields the one that comes earlier among the members has the smaller one. |
| `InitOrder.OrderKeepsBoth` | src/AST/Utils.cpp:598-656 | Both lists come out whole and in their own order. |
| `InitOrder.EveryFieldOnce` | src/AST/Utils.cpp:598-656 | Exactly the instance variables among the members are initialized, each once. |
| `InitOrder.OrderNumbered` | src/AST/Utils.cpp:598-656 | In the order that the two lists are merged to, every field keeps its number among all fields, counted over the members that are instance variables and no others. |
| `InitOrder.DependenciesFirst` | src/AST/Utils.cpp:598-656 | A specific variable comes before every common variable that depends on it. |
| `InitOrder.BroughtForReason` | src/AST/Utils.cpp:598-656 | Nothing is brought forward in vain: the last specific variable before a common one is needed there and was not needed before. |
| `InitOrder.NamedAfterBroughtForward` | src/AST/Utils.cpp:634-650 | Two dependencies, sorted, that are named in the opposite order of their positions: the compiler looks for the first one in vain. |
| `Base62.GetNumber` | demangler/DeCompression.cpp:66-82 | The right-to-left decoder reads the number, modulo 2^64, that the digits denote, plus one, and nothing as 0. |
| `Base62.CompressionDecimalToManglingNumber` | src/Mangle/Compression.cpp:21-47 | The encoder of the compressor writes base-62 digits, the most significant first; for a text that is no decimal number of 32 bits it writes nothing. |
| `Base62.DecimalToManglingNumber` | src/Mangle/BaseMangler.cpp:149-173 | The encoder of the mangler writes the same digits the other way round, and nothing for the same texts. |
| `Base62.DecimalNumberIff` | src/Mangle/BaseMangler.cpp:149-173 | A text is a number to both encoders if and only if it has decimal digits and nothing else, and its value is at most 2^31 - 1; the number is that value. |
| `Base62.CompressorReadBack` | demangler/DeCompression.cpp:66-82 | Every number that the compressor wrote is read back. |
| `Base62.ManglerReadBackIff` | src/Mangle/BaseMangler.cpp:149-173 | A number that the mangler wrote is read back if and only if its digits are a palindrome. |
| `Base62.OneDigitReadsBack` | src/Mangle/BaseMangler.cpp:149-173 | Numbers below 63 have at most one digit and read the same both ways. |
| `Base62.SixtyThreeComesBackAsTwo` | src/Mangle/BaseMangler.cpp:149-173 | The smallest number that is not read back. |
| `Base62.WrittenByCompressorIff` | demangler/DeCompression.cpp:66-82 | Digits are what the compressor writes for their number if and only if they have no superfluous leading zero. |
| `Decompression.DeCompression.ForwardNumber` | demangler/DeCompression.cpp:490-500 | The end of a number: behind the `_` after the letters and digits. |
| `Decompression.DeCompression.UpdateCompressedName` | demangler/DeCompression.cpp:829-856 | References at the cursor are replaced as long as one follows another. If all closed entries lie before the cursor, the result, the count and the new cursor are those of a functional substitution, and every entry of the table still has its text; open entries are never expanded. |
| `Decompression.DeCompression.UpdateCompressedNames` | demangler/DeCompression.cpp:858-892 | The same for a range: the string is rewritten while it is scanned, the pass ends although the string grows, and the result is a one-pass substitution with the bound that holds until the first replacement. |
| `Decompression.DeCompression.HasDuplicates` | demangler/DeCompression.cpp:245-259 | Whether the text of a part is already in the table. |
| `Decompression.DeCompression.TreeIdMapPushBack` | demangler/DeCompression.cpp:561-572 | A part is added if and only if it is open or says something new, so texts never repeat. |
| `Decompression.DeCompression.TreeIdMapPop` | demangler/DeCompression.cpp:543-550 | Exactly the entries of a failed attempt are dropped. |
| `Decompression.PassStartsWithFront` | demangler/DeCompression.cpp:829-892 | The two overloads agree: a whole pass begins with the chain at the front. |
| `Decompression.DecompressesWhatWasMeant` | demangler/DeCompression.cpp:858-892 | One pass over plain pieces and references written by the compressor gives the texts that were meant. |
| `MangledTypes.OperatorFirst` | demangler/Demangler.cpp:236-246 | A list of types starts with what looks like an operator if and only if it consists of two types that do, before an `H`. |
| `MangledTypes.MisreadIff` | demangler/Demangler.cpp:933-979 | A list of types comes to a place that looks like an operator if and only if its last two types look like one and an `H` follows; `DemangleGenericTypes` below stops exactly there. |
| `MangledTypes.LessThanIsMisread` | demangler/Demangler.cpp:236-246 | `Int64` and `UInt16` before an `H` are such a list: they read like the operator `<`. |
| `Demangling.Demangler.Reject` | demangler/Demangler.cpp:1400-1411 | After a rejection the cursor is at the very end. |
| `Demangling.Demangler.DemangleLength` | demangler/Demangler.cpp:260-291 | The length is valid only behind a digit, at most 2^32 - 1, and 0 if not; a length above 0 is that of all the digits that stand there, the first of which is no zero; a well-formed name yields its length. |
| `Demangling.Demangler.DemangleStringName` | demangler/Demangler.cpp:747-763 | Valid exactly behind digits and as many characters as they say, or rejected; a well-formed name is read to its end. |
| `Demangling.Demangler.DemangleManglingNumber` | demangler/Demangler.cpp:805-852 | The cursor-driven decoder: valid behind the closing `_` with the number of the digits before it modulo 2^64 (a NUL counts as a digit of value 62), and the same number as `GetNumber` on letters and digits. |
| `Demangling.Demangler.DemangleArgTypes` | demangler/Demangler.cpp:933-979 | A well-formed list of types is read to its end; whatever is accepted before an `E` is units, each with an underscore before it or not. |
| `Demangling.Demangler.DemangleGenericTypes` | demangler/Demangler.cpp:1295-1316 | Every well-formed list of types is read to its end, or up to its last two types exactly where these are taken for an operator; whatever is accepted is a list of units. |
| `Demangling.ReadLessThan` | demangler/Demangler.cpp:1295-1316 | Of `Int64` and `UInt16` before an `H`, the parser reads nothing. |
| `Demangling.Demangler.DemangleNextUnit` | demangler/Demangler.cpp:1412-1420 | The mangled form of a good type is consumed exactly, and nothing is accepted that is not a unit by the grammar of `AcceptedNames`; on every text a unit either stays valid with the cursor strictly further and in the name, or ends rejected with the cursor at the very end, and rejection is absorbing. |
| `Demangling.Demangler.DemangleByPrefix` | demangler/Demangler.cpp:1422-1476 | The dispatch on the first character, with the same promises for a good type and for any text. |
| `Demangling.Demangler.DemangleFunction` | demangler/Demangler.cpp:1104-1112 | The mangled form of a function type is consumed exactly; whatever is accepted has its prefix, its parts and its end. |
| `Demangling.Demangler.DemangleTuple` | demangler/Demangler.cpp:1114-1126 | The mangled form of a tuple is consumed exactly; whatever is accepted has its prefix, its parts and its end. |
| `Demangling.Demangler.DemangleRawArray` | demangler/Demangler.cpp:1128-1139 | The mangled form of a raw array is consumed exactly; whatever is accepted has its prefix, its parts and its end. |
| `Demangling.Demangler.DemangleVArray` | demangler/Demangler.cpp:1141-1149 | A fixed-size array takes the types to its right for its own, up to two that are taken for an operator; it ends where it should if and only if it has none, or just those two. |
| `Demangling.ReadArrayAndNeighbour` | demangler/Demangler.cpp:1141-1149 | An array of `Int64` before a `UInt16`: five characters are read instead of four. |
| `Demangling.Demangler.DemangleClass` | demangler/Demangler.cpp:1081-1092 | The mangled form of a class, struct or enum with its package and arguments is consumed exactly; whatever is accepted is a declaration, with an `E` behind it or not. |
| `Demangling.Demangler.DemangleGenericType` | demangler/Demangler.cpp:1258-1278 | A generic parameter is read to the end of its number and is valid if and only if there is no list of names or the number is within it. |
| `Demangling.Demangler.DemangleFileNameNumber` | demangler/Demangler.cpp:854-889 | A file is read to its `$`, or to the end of its 13 digits; nothing else is accepted. |
| `Demangling.Demangler.DemanglePackageName` | demangler/Demangler.cpp:706-742 | The mangled form of a package, standard, named or none, with its file or without, is consumed exactly; nothing else is accepted, but for a superfluous zero behind a standard package. |
| `MangledDecls.MisreadTypesAt` | demangler/Demangler.cpp:981-1079 | Where type arguments are misread, the reader stops before their last two types, and what stands there reads as an operator with the parameters of the declaration. |
| `MangledDecls.PartRead` | demangler/Demangler.cpp:981-1079 | Reading one part of a declaration comes to a place where the rest of its parts stands, led by that operator if the part was misread, and the end of the whole declaration stays the same. |
| `MangledDecls.DeclarationStands` | demangler/Demangler.cpp:1161-1195 | A declaration of the context-free grammar can be seen to end where it does, in any name that it stands in. |
| `Demangling.Demangler.DemangleCommonDecl` | demangler/Demangler.cpp:1161-1195 | A good declaration in its package, a chain of names with counters, type arguments and parameters, extensions and lambdas, is accepted and read exactly to its end. Whatever is accepted is a package and at least one part, up to the end of the name or an `E`. |
| `Demangling.Demangler.DemangleNestedDecls` | demangler/Demangler.cpp:980-1079 | Good parts are accepted and read to their end, misread type arguments included; whatever is accepted is parts by the grammar of `AcceptedNames`, up to the end of the name or an `E`. |
| `Demangling.Demangler.DemangleDecl` | demangler/Demangler.cpp:1198-1233 | The mangled form of a good declaration is accepted and read to its end; nothing is accepted without `_C` and a declaration; the loop over further parameter types is never entered by a valid one. |
| `Demangling.Demangler.DemangleGlobalInit` | demangler/Demangler.cpp:593-622 | The initializer of a package or a file is accepted and its package read exactly, if the name ends in one of the six suffixes; no other name is. |
| `Demangling.Demangler.DemangleParamInit` | demangler/Demangler.cpp:624-645 | The initializer of a default parameter is accepted, with its package and its parts read exactly; nothing else is accepted. |
| `Demangling.Demangler.DemangleWrappedFunction` | demangler/Demangler.cpp:1387-1397 | The name is replaced by that of the wrapped function, up to the first `$`; a wrapper of a good declaration is accepted, and read to the end of what it wraps. |
| `Demangling.Demangler.Demangle` | demangler/Demangler.cpp:666-704 | The mangled form of a good type is accepted whole, and the name of every good declaration, wrapper, package, file or parameter initializer is accepted up to the end of its mangled form. Nothing is accepted that is not such a name by the grammar of `AcceptedNames`. On every name demangling ends with the cursor in the name, and at its end if the name is not valid. |
| `Demangling.ReadMember` | demangler/Demangler.cpp:1036-1047 | `_CN1A3fooIlE3barHl`, a member function of a generic type, is accepted whole. |
| `Demangling.RefusePackageAlone` | demangler/Demangler.cpp:1161-1184 | `_CN1A`, a package with nothing in it, is refused. |
| `Demangling.RefusePrivateWrapper` | demangler/Demangler.cpp:1387-1397 | No wrapper of a declaration in a file whose name ends in a `$` is accepted, because the name is cut at that `$`. |
| `Demangling.RefuseWrappedFoo` | demangler/Demangler.cpp:1387-1397 | `_CVN1AUf$3fooHv`, the wrapper of a private function, is refused. |
| `IntLiterals.QuickPow` | src/AST/IntLiteral.cpp:331-351 | With words that wrap around and the deferred flag, overflow is reported exactly when the mathematical power exceeds the limit if and only if the limit is at least 1 or the exponent is not 0; without overflow the result is the power. |
| `IntLiterals.ZerothPowerAboveZero` | src/AST/IntLiteral.cpp:331-351 | The one exception: the power 1 for the exponent 0 exceeds the limit 0, which is not reported. |
| `IntLiterals.DivisionTest` | src/AST/IntLiteral.cpp:331-351 | The division tells whether the product would exceed the limit. |
| `IntLiterals.TruncatedIs` | src/AST/IntLiteral.cpp:244-271 | Truncation keeps the remainder, lands in the range of the type, and changes nothing in the range. |
| `IntLiterals.ClampedIsNearest` | src/AST/IntLiteral.cpp:274-321 | A number out of the range of a type is saturated to the number of the range that is nearest to it, on the side that the flag for the maximum tells. |
| `IntLiterals.IntLiteral.FromUint64` | include/cangjie/AST/IntLiteral.h:29-34 | A constant computed in unsigned words keeps them, and has its wrapping and saturating values ready if it left its type. |
| `IntLiterals.IntLiteral.FromInt64` | include/cangjie/AST/IntLiteral.h:36-41 | The same for signed words, with the sign of the value. |
| `IntLiterals.IntLiteral.InitIntLiteral` | src/AST/IntLiteral.cpp:172-212 | Byte literals give their byte; of other texts the words hold the number that is read, with its sign, and the literal is out of range if and only if there is no number or no 64-bit word of its sign holds it. |
| `IntLiterals.IntLiteral.FromText` | include/cangjie/AST/IntLiteral.h:24-27 | However a literal is written, with sign, prefix, separators and suffix, it denotes the number of its digits, out of range exactly if that is beyond 64 bits. |
| `IntLiteralTexts.ReadOfWritten` | src/AST/IntLiteral.cpp:133-170 | The text is taken apart into base and digits such that a written literal is read as the value of its digits without the separators, with its sign. |
| `Numbers.StrtoOf` | src/AST/IntLiteral.cpp:172-212 | The conversion of the library: white space and one sign are skipped, and without a digit behind them there is no number. |
| `IntLiteralTexts.WrittenReadBack` | src/AST/IntLiteral.cpp:133-170 | A number written in base 2, 8, 10 or 16, with separators anywhere between its digits and any suffix, is read back. |
| `IntLiteralTexts.ByteReadBack` | src/AST/IntLiteral.cpp:106-131 | A byte in quotes stands for its character, an escaped one for what the escape means, or for nothing. |
| `IntLiteralTexts.EscapesStandFor` | src/AST/IntLiteral.cpp:76-102 | Each escape stands for the character of its name, and there are ten of them. |
| `IntLiteralTexts.CodePointReadBack` | src/AST/IntLiteral.cpp:106-131 | A byte given as a code point is read back from its hexadecimal digits. |
| `IntLiteralTexts.RefusedByte` | src/AST/IntLiteral.cpp:106-131 | Nothing between the quotes, two characters without a backslash, more of them without a `u` or without digits in braces are no byte. |
| `IntLiterals.IntLiteral.SetOutOfRange` | src/AST/IntLiteral.cpp:214-242 | A literal fitted to a type is out of range if and only if it was before or lies outside the range of the real type. |
| `IntLiterals.RealRange` | src/AST/IntLiteral.cpp:214-242 | Native integers have the range of 64 bits on targets of 64 bits and that of 32 bits on others; other types keep theirs. |
| `IntLiterals.IntLiteral.CalcWrappingAndSaturatingVal` | src/AST/IntLiteral.cpp:274-297 | For a literal out of range, the wrapping values are truncations and the saturating ones bounds; otherwise nothing changes. |
| `IntLiterals.IntLiteral.SetWrappingValue` | src/AST/IntLiteral.cpp:299-309 | The literal becomes its truncation in the range of the type, in both words. |
| `IntLiterals.IntLiteral.SetSaturatingValue` | src/AST/IntLiteral.cpp:311-321 | The literal becomes the bound on the side where it left the range, in both words. |
| `IntLiterals.IntLiteral.GetAbsValue` | src/AST/IntLiteral.cpp:353-360 | The absolute value, that of the least 64-bit number included. |
| `StringConvertor.CodepointToUTF8` | src/Basic/StringConvertor.cpp:210-259 | One to six octets by the ranges of the source, and nothing beyond 31 bits; the next row compares the ranges with the standard. |
| `StringConvertor.OctetsIff` | include/cangjie/Lex/Lexer.h:36-41 | A code point is written in as many octets as section 2 of RFC 2279 says if and only if it is not between 0x110000 and 0x1FFFFF, where it takes one more. |
| `StringConvertor.FiveOctetsTooMany` | include/cangjie/Lex/Lexer.h:36-41 | 0x110000 is written in five octets instead of four. |
| `StringConvertor.OctetsLieAsInRFC2279` | src/Basic/StringConvertor.cpp:210-259 | Each octet lies where section 2 of RFC 2279 has it: the first one tells how many there are, and all others begin with the bits 10. |
| `StringConvertor.UTF8ToCodepoint` | src/Basic/StringConvertor.cpp:294-343 | The loop reads code points off the front, by the first octet of each. |
| `StringConvertor.FrontOfEncoded` | src/Basic/StringConvertor.cpp:210-343 | Decoding takes exactly the octets of a code point off the front and gives the code point back, whatever follows. |
| `StringConvertor.DecodedOfEncoded` | src/Basic/StringConvertor.cpp:210-343 | Decoding an encoded sequence gives the code points of at most 31 bits in it. |
| `StringConvertor.RoundTripIff` | src/Basic/StringConvertor.cpp:210-343 | Encoding and decoding is the identity if and only if all code points have at most 31 bits. |
| `StringConvertor.RecodedIff` | src/Basic/StringConvertor.cpp:210-343 | Octets come back from decoding and encoding if and only if they are the encoding of something. |
| `Escapes.EscapeString` | src/Basic/StringConvertor.cpp:261-277 | The loop over the characters computes the escaped string. |
| `Escapes.Recover` | src/Basic/StringConvertor.cpp:280-285 | The same with the table for source strings. |
| `Escapes.EscapeToJsonString` | src/Basic/StringConvertor.cpp:287-292 | The same with the table for JSON. |
| `Escapes.GetUnicodeAndToUTF8` | src/Basic/StringConvertor.cpp:150-169 | Hexadecimal digits are consumed to their end and their value is encoded. |
| `Escapes.Normalize` | src/Basic/StringConvertor.cpp:175-208 | The loop with its escapes, raw mode and line ends computes the normalized string. |
| `Escapes.NormalizedOfEscaped` | src/Basic/StringConvertor.cpp:175-285 | Normalizing an escaped string gives the string back, octet by octet, for every string, with backslashes before `u{`, NUL and carriage returns included. |
| `Escapes.UnescapedIs` | src/Basic/StringConvertor.cpp:120-208 | What each escape stands for. |
| `Escapes.HexDigitIff` | src/Basic/StringConvertor.cpp:150-169 | The hexadecimal digits are the ten decimal ones and six letters in either case, and nothing else. |
| `Escapes.UnicodeReadBack` | src/Basic/StringConvertor.cpp:150-208 | Backslash, `u{`, the hexadecimal digits of a code point in either case and a closing character read as the octets of the code point, whatever follows. |
| `Escapes.LiteralReadBack` | src/Basic/StringConvertor.cpp:175-208 | A literal made of plain characters, escapes, code points, carriage returns with or without line feeds and stray backslashes reads as the meanings of its pieces, one after another: line ends become line feeds, and a backslash that escapes nothing is dropped but for one at the very end. In raw literals only the line ends change. |
| `Escapes.EightDigitsCount` | src/Basic/StringConvertor.cpp:150-169 | Of more than eight digits only the last eight count. |
| `Escapes.EscapedIsSafe` | src/Basic/StringConvertor.cpp:261-285 | What is written for the source has no quote, line end or control character of the table but as an escape. |
| `Escapes.JsonReadBackIff` | src/Basic/StringConvertor.cpp:287-292 | What is written for JSON is read back by section 7 of RFC 8259 if and only if the string has no control character but the five with an escape of their own. |
| `Escapes.VerticalTabStays` | src/Basic/StringConvertor.cpp:287-292 | A vertical tab is written as it is, which makes no JSON string. |
| `Escapes.RawIff` | src/Basic/StringConvertor.cpp:175-208 | A raw string is unchanged if and only if it has no carriage return. |
| `SourceMap.Source.constructor` | src/Basic/SourceManager.cpp:45-67 | The loop over the buffer collects exactly the starts of the lines. |
| `SourceMap.LineStartsAre` | src/Basic/SourceManager.cpp:45-67 | Line starts are 0 and the offsets behind line feeds, in increasing order. |
| `SourceMap.LineEndIs` | src/Basic/Utils.cpp:120-132 | A line ends where its text does, before a line feed or before a carriage return and a line feed, of which the terminator is one or two characters long. |
| `SourceMap.NextLine` | src/Basic/Utils.cpp:120-132 | The next line starts behind the terminator of a line, and the last line ends with the text. |
| `SourceMap.Source.PosToOffset` | src/Basic/SourceManager.cpp:21-43 | The scan along the line computes the offset of a position. |
| `SourceMap.OffsetMonotone` | src/Basic/SourceManager.cpp:21-43 | For positions counted from 1, later positions have no smaller offsets, and all are in the buffer. |
| `SourceMap.OffsetReached` | src/Basic/SourceManager.cpp:21-43 | Every offset of a line is that of a position on it. |
| `SourceMap.SlicesConcatenate` | src/Basic/SourceManager.cpp:171-203 | content(a, b) + content(b, c) = content(a, c). |
| `SourceMap.LinesRebuildText` | src/Basic/SourceManager.cpp:171-203 | The slices of the whole lines, one after another, are the buffer. |
| `SourceMap.SliceIff` | src/Basic/SourceManager.cpp:171-203 | A slice is what lies between the places its ends stand for if and only if, told by lines and columns: its begin is located and its end is, or the end is in column 0 of an empty last line behind a begin that is not the start of the text; or neither is located and both are on one line. Only columns below 1 on lines after the first are not located. |
| `SourceMap.BeginInColumnZero` | src/Basic/SourceManager.cpp:171-203 | From line 2, column 0 to line 2, column 2 of two lines: the slice starts with the text. |
| `SourceMap.EndInColumnZero` | src/Basic/SourceManager.cpp:171-203 | From line 1, column 2 to line 2, column 0: the slice goes on to the end of the text. |
| `SourceMap.SourceManager.GetFileId` | src/Basic/SourceManager.cpp:69-104 | Known paths keep their numbers and get their text replaced or extended; other files are untouched; without files of common parts, new paths get new numbers. |
| `SourceMap.SourceManager.GetContentBetween` | src/Basic/SourceManager.cpp:165-203 | The slice of the text of the file, or of imported content where that is empty; empty for the file 0 and positions out of order. |
| `DiagnosticTransactions.HandlerReceives` | src/Basic/DiagnosticEngine.cpp:517-578 | However threads are interleaved, between the calls of the handler within a commit as well, the handler gets from each thread, in order and once each, what that thread reported outside of transactions or in committed ones and what was not suppressed, but for what it is about to hand over. |
| `DiagnosticTransactions.SaidIff` | src/Basic/DiagnosticEngine.cpp:511-530 | What is suppressed, told by the options alone: everything while diagnostics are off, and of the rest only warnings, all of them, those of a suppressed group, and unused mains; only grouped warnings are changed, by a note. |
| `DiagnosticTransactions.ErrorsGetThrough` | src/Basic/DiagnosticEngine.cpp:511-546 | In every interleaving, whatever is suppressed, a thread that opens no transaction gets all its errors to the handler, in order, unchanged and once each, but for one it may be about to hand over. |
| `DiagnosticTransactions.ClearedLeavesNoTrace` | src/Basic/DiagnosticEngine.cpp:548-578 | A transaction that is dropped leaves no trace: whatever other threads did in the meantime, the state is the one without its beginning, its reports and its end. |
| `DiagnosticTransactions.DiagnosticEngineImpl.HandleDiagnostic` | src/Basic/DiagnosticEngine.cpp:511-546 | Reporting is the step of the model: suppressed, kept in the transaction, or handed over. |
| `DiagnosticTransactions.DiagnosticEngineImpl.Prepare` | src/Basic/DiagnosticEngine.cpp:548-556 | Opening a transaction is the step of the model. |
| `DiagnosticTransactions.DiagnosticEngineImpl.Commit` | src/Basic/DiagnosticEngine.cpp:558-569 | The loop under the lock hands the kept diagnostics over one by one and in order, and the transaction is gone: the steps of the model from the beginning of a commit to its end. |
| `DiagnosticTransactions.DiagnosticEngineImpl.ClearTransaction` | src/Basic/DiagnosticEngine.cpp:571-578 | Dropping a transaction is the step of the model. |
| `DiagnosticCounts.StepKeepsConsistent` | src/Basic/DiagnosticEngine.cpp:427-479 | Every step of counting keeps the first category the least one seen and the totals equal to the sums, up to the errors still being counted, whoever else is in between. |
| `DiagnosticCounts.RunsAreConsistent` | src/Basic/DiagnosticEngine.cpp:427-479 | So does every run in which resets begin when nobody counts an error and nobody begins to count one before they end; between the two sections of a reset nothing is counted. |
| `DiagnosticCounts.QuietCounts` | src/Basic/DiagnosticEngine.cpp:427-479 | When nobody is counting, the first category is the least with an error and the counts of the categories add up to the totals. |
| `DiagnosticCounts.ResetKeepsIff` | src/Basic/DiagnosticEngine.cpp:686-697 | Both sections of a reset, with any steps of other threads in between, leave the counters consistent if and only if nobody is in the middle of counting an error at the first one and nobody comes to order one before the second. |
| `DiagnosticCounts.FirstSectionIff` | src/Basic/DiagnosticEngine.cpp:686-692 | The first section clears everything that is counted if and only if nobody is in the middle of counting an error. |
| `DiagnosticCounts.SecondSectionIff` | src/Basic/DiagnosticEngine.cpp:693-695 | The second section leaves the counters consistent if and only if no error was counted by then and none is being counted. |
| `DiagnosticCounts.ResetBeforeCounting` | src/Basic/DiagnosticEngine.cpp:427-453 | An error ordered before a reset and counted after it: one error, no first category. |
| `DiagnosticCounts.CountingDuringReset` | src/Basic/DiagnosticEngine.cpp:686-697 | An error counted between the two sections: one error, no first category. |
| `DiagnosticCounts.ClearErrorKeepsIff` | src/Basic/DiagnosticEngineImpl.h:217-220 | Forgetting the total alone keeps the counters consistent if and only if it was 0. |
| `DiagnosticCounts.CompilerDiagnosticHandler.IncreaseErrorCount` | src/Basic/DiagnosticEngine.cpp:427-438 | One more error of the category and in total, and the first category moves down to it if it may be emitted. |
| `DiagnosticCounts.CompilerDiagnosticHandler.IncreaseWarningCount` | src/Basic/DiagnosticEngine.cpp:440-446 | One more warning of the category and in total. |
| `DiagnosticCounts.CompilerDiagnosticHandler.HandleDiagnose` | src/Basic/DiagnosticEngine.cpp:937-983 | Over any sequence of diagnostics and resets, the counters are those of what was taken since: for each category its errors and its warnings, notes and hints in neither, and the first category the least one of an error. A diagnostic is taken if and only if it repeats no other one, neither by message and begin nor, if it is saved, by category, range and severity, and its stage is not past the first error; it is printed at once if besides that its stage is sequential and the limit is not reached; what is remembered of it is exact. |
| `DiagnosticCounts.TakenNext` | src/Basic/DiagnosticEngine.cpp:958-983 | One more diagnostic, counted by its severity, keeps the counters those of what was taken. |
| `DiagnosticCounts.WarningAfterNote` | src/Basic/DiagnosticEngine.cpp:937-983 | A note and then a warning of the same category at the same range, with another message: the warning is counted. |
| `Diagnostics.SameRangeIff` | include/cangjie/Basic/DiagnosticEngine.h:545-576 | Of two diagnostics with different messages at one range the second repeats the first if and only if category and severity agree. |
| `Diagnostics.RepeatsIff` | src/Basic/DiagnosticEngine.cpp:937-956 | A diagnostic repeats another one if and only if they agree in begin and message, or in category, severity, begin and the line and column of the end; the latter counts only with a range, and not for queries. |
| `DiagnosticRepeats.AloneIff` | src/Basic/DiagnosticEngine.cpp:937-956 | Looking, entering and saving without other threads in between takes a diagnostic for new if and only if it repeats none, and remembers it. |
| `DiagnosticRepeats.EveryRunSavesOnce` | src/Basic/DiagnosticEngine.cpp:937-956 | However threads are interleaved between the three sections, of the saved diagnostics of one range, category and severity only one is taken for new. |
| `DiagnosticRepeats.TakenOnceIff` | src/Basic/DiagnosticEngine.cpp:937-956 | A message reported twice at one place is taken for new once in every interleaving if and only if both reports are saved and agree in range, category and severity; without a range, one and the same can be taken twice. |
| `DiagnosticRepeats.RaceTakesBoth` | src/Basic/DiagnosticEngine.cpp:937-956 | Two threads that both look before either enters: both reports are taken for new. |
| `DiagnosticCounts.CompilerDiagnosticHandler.EmitDiagnose` | src/Basic/DiagnosticEngine.cpp:985-1017 | Printed and counted as printed, unless nothing is to be printed or enough errors were. |
| `DiagnosticCounts.CompilerDiagnosticHandler.GetWarningCount` | src/Basic/DiagnosticEngine.cpp:455-467 | The warnings of the stages up to the first one with an error, or all. |
| `DiagnosticCounts.CompilerDiagnosticHandler.GetErrorCount` | src/Basic/DiagnosticEngine.cpp:469-479 | The errors of the first stage that has any, and 0 if and only if no error was counted. |
| `MacroCalls.Hash64IsOrderEmbedding` | include/cangjie/Basic/Position.h:71-75 | Where line and column are below 65536, the key of 64 bits is equal and ordered as file, line and column are. |
| `MacroCalls.SameKey` | include/cangjie/Basic/Position.h:71-75 | Every position shares its key with one of another file, 65536 lines further on or back. |
| `MacroCalls.DiagnosticEngineImpl.RegisterMacroCallDiagInfo` | src/Basic/DiagnosticEngine.cpp:869-880 | The table is that of all calls registered so far, in their order. |
| `MacroCalls.DiagnosticEngineImpl.FindMacroCallInfo` | src/Basic/DiagnosticEngine.cpp:859-867 | The entry at the greatest key not past that of the position, or nothing; for lines and columns below 65536 the call that spans the position if the calls leave each other alone. |
| `MacroCalls.EntryIs` | src/Basic/DiagnosticEngine.cpp:859-880 | An entry is what the last call that begins or ends at its key made it. |
| `MacroCalls.AlwaysRightIff` | src/Basic/DiagnosticEngine.cpp:859-880 | With lines and columns below 65536 the table finds the right call for every position if and only if the last call that begins at a position spans it, and no call goes on where a call ended last. |
| `MacroCalls.RightEverywhereIff` | src/Basic/DiagnosticEngine.cpp:859-880 | For calls that begin and end in one file and positions of every line, the table always finds the right call if and only if it is empty. |
| `MacroCalls.LineOfOtherFile` | src/Basic/DiagnosticEngine.cpp:859-880 | A call in line 4464 of file 2 is found for line 70000 of file 3. |
| `MacroCalls.LaterCallHides` | src/Basic/DiagnosticEngine.cpp:859-880 | A call registered after its right neighbour hides it, and an inner call hides the rest of the outer one. |

## Left out

- Searching.Searcher.GetIDsByPosEQ: the order of the addresses that the fallback goes by is a parameter.
- Searching.Searcher.GetIDsByScopeLevel: asks that a bound fits into the 32 bits of the loop variable; the loop of the source does not end for others.
- Searching.AnswerIsFilter: says nothing of a position test that takes the fallback, because there the answer is not the filter.
- PosSearch.PosSearchApi.UpdatePosLimit: the methods of an index take its widths as fixed; what growth does to symbols already indexed is stated of keys and entries (`PositionKeys.GrownKey`, `InvertedIndexes.GoneAfterGrowthIff`), not carried out on the tries.
- Decompression.DeCompression.UpdateCompressedName: without the condition that the closed entries lie before the cursor only the part before the cursor is described, because entries behind it change their text with every replacement; the same holds for `Decompression.DeCompression.UpdateCompressedNames`.
- Demangling.Demangler.DemangleNestedDecls: only the cursor is modelled, not the joined text; whether a name renders as something is chosen arbitrarily where that depends on the text, which it does not for good declarations.
- Demangling.RefusePrivateWrapper: says nothing of a `$` within a name or of a file further inside.
- Demangling.Demangler.Demangle: what is accepted beside the mangled forms is bounded by the grammar of `AcceptedNames`, not told name by name.
- Walkers.Walker.Walk: visitors answer, but do not change the graph, and children come as a list, not by the switch over node kinds.
- Cloner.ASTCloner.CloneNode: fields are copied or left null by a flag per field; the resets of single fields, the second cloner inside generic instantiation and the visitor's own effects are not modelled.
- IntLiterals.IntLiteral.InitIntLiteral: the characters of byte literals are ASCII, so that none is negative as a character.
- StringConvertor.UTF8ToCodepoint: asks for the octets that a first octet announces; the source reads past the end without them.
- DiagnosticTransactions.DiagnosticEngineImpl.HandleDiagnostic: switching diagnostics off and the list of stored ones are not modelled, nor the note that names the option for a warning.
- DiagnosticCounts.CompilerDiagnosticHandler.HandleDiagnose: runs without other threads in between; `DiagnosticRepeats` and the runs of `DiagnosticCounts` interleave its sections.
- MacroCalls.DiagnosticEngineImpl.FindMacroCallInfo: the search in the ordered map is a pass over its keys.
- Clearing the cache except for one query, sort orders other than by position, and negative positions.
- Missing queries and symbols without a node.
- The flattening of patterns (`src/AST/Utils.cpp:277-300`), a plain worklist.
- Parsing of paths in the decompressor with its saved copies, and the branch that takes entries back, as no compressor for them is part of this model.
- Rendering: printing of trees, demangled text, colours, columns, JSON.
- Input and output, processes, signals, code pages, display widths and floating-point literals.
- Hash functions, addresses, memory and the timing of locks: numbers, objects and atomic steps.
