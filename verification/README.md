# Verified models of the algorithms in xe_mysql

Dafny 4.11 models, with proofs, of the places in xe_mysql where algorithms are written out:
inline functions and macro bodies of the MySQL headers, and the variable dumper of the crash
report. Check everything with `dafny verify dfyconfig.toml`.

| file | subject |
|---|---|
| WordPrefixes.dfy, Trie.dfy, TrieExample.dfy | the Aho-Corasick matcher: words and prefixes as values, then the linked nodes and the methods that walk them, and an example |
| Atomics.dfy | atomic add, fetch-and-store, load and store built from compare-and-swap: a step system with any number of threads, and the retry loops under interference |
| Outline.dfy, OutlineText.dfy, DumpTree.dfy, DumpRules.dfy, EntryText.dfy, NestingLimit.dfy, DumpExample.dfy, Dumper.dfy | the recursive type dumper: indented outlines and their characters, the recursion as a tree, what it shows of each kind of type, the text of a line, the depth, an example, and the class that writes that tree with a visited set, a stack and a buffer changed in place |
| SkipSpace.dfy | the word-at-a-time `skip_trailing_space` against the plain loop |
| Bitmap.dfy | a bitmap as a set of indices |
| Bits.dfy | logarithm, rounding up, clearing, counting and reversing bits |
| Codec.dfy, Rint.dfy | byte formats and `rint` |

Each state-changing routine is a method proved against a function or predicate with an
independent meaning; the lemmas then prove what that meaning promises over all inputs, all
runs or all interleavings.

What the models assume:

- Trie: the bodies of `trie_insert`, `ac_trie_prepare` and `ac_trie_init` are not in the
  repository. `Trie.Valid` states what the field comments promise of them (nodes are exactly the
  prefixes of the words, siblings have distinct labels, `leaf` is the depth of a word and 0
  otherwise, `fail` is the node of the longest proper suffix that has one). Words have fewer than
  65536 characters because `leaf` is a 16-bit field, and a state starts at the root.
- Atomics: a compare-and-swap is one indivisible step as the header comment says; values are
  32 bits read as unsigned; the first read of a loop may return any value at all.
- Dumper: the debugging library and the memory it reads are an arbitrary `Debugger`. An output
  that a failed query leaves unset is an arbitrary value as well. Addresses have 64 bits, and
  the buffer and the file are strings without a size limit.
- Bitmap: the mask covers exactly the unused bits of the last word (the function that computes
  it is only declared), and a map has at least one bit.
- Bits: the two byte tables are only declared; they are taken to hold the number of bits of a
  byte and the byte reversed.

Where the code and its comments disagree, the models follow the code:

- `my_bit_log2` is commented as the smallest X with 2^X >= value, but computes the floor of the
  logarithm. `Bits.LogIsCeilingExactly` says for which values the two agree.
- `ac_trie_next` is commented to return the length of the matched word or 0. It looks at the
  node reached only, so a shorter word ending at the same place can be missed:
  `WordPrefixes.MissedOccurrence` and `TrieExample.MatchExample` are an instance and `WordPrefixes.CompleteExactly` says for
  which sets of words none is.
- `skip_trailing_space` is commented to return the last non-space character; it returns the
  position after it.

## Model

| member | source | states |
|---|---|---|
| Trie.AcTrieNext | xe_mysql/include/mysql/my_trie.h:82-92 | from a state whose node spells the longest suffix of the text that is a prefix of some word, reading `c` leads to such a state for the longer text, and the value returned is `Report`; the number of `trie_goto` calls is at least 1 and at most one more than the old depth, and the state keeps calls + depth <= 2 * characters, so a run on n characters makes at most 2n - final depth calls |
| Trie.AcTrieState.constructor | xe_mysql/include/mysql/my_trie.h:40-50 | a new state is at the root: no text, no calls, valid |
| Trie.TrieGoto | xe_mysql/include/mysql/my_trie.h:55-65 | the sibling list is searched for the label: the child spelling the node's string plus `c`, else the root when the node is the root, else null |
| Trie.FailStep | xe_mysql/include/mysql/my_trie.h:28-28 | a `fail` link from a node without a child for `c` exists, is a node, is strictly less deep, and loses no suffix that could extend by `c` |
| Trie.Reached | xe_mysql/include/mysql/my_trie.h:82-91 | where the retry loop stops, the state's node spells the longest suffix of the node's string plus `c` that has a node, and its leaf is its depth or 0 |
| Trie.TrieSearch | xe_mysql/include/mysql/my_trie.h:116-136 | true exactly when the key is a stored word |
| Trie.NotAPrefix | xe_mysql/include/mysql/my_trie.h:126-132 | a walk that runs out of children or siblings proves that the key is not a word |
| WordPrefixes.LongestIsLongest | xe_mysql/include/mysql/my_trie.h:22-29 | the string of the state's node is a suffix of the text, labels a node, and no longer suffix of the text does |
| WordPrefixes.LongestExtend | xe_mysql/include/mysql/my_trie.h:82-92 | the node alone determines the next node: suffixes of the text longer than the node's string can never become nodes again |
| WordPrefixes.LongestFail | xe_mysql/include/mysql/my_trie.h:89-90 | one step along a failure link preserves the longest match of the node's string plus `c` |
| WordPrefixes.ReportIsLongestWord | xe_mysql/include/mysql/my_trie.h:78-91 | a nonzero result r means that the last r characters are a word and no longer word ends there; 0 means that the node reached is not a word |
| WordPrefixes.ReportedOccurrence | xe_mysql/include/mysql/my_trie.h:78-91 | a word ending here is the one reported if and only if no longer suffix of the text is a prefix of a word |
| WordPrefixes.CompleteExactly | xe_mysql/include/mysql/my_trie.h:78-91 | every occurrence of every word is reported on every text if and only if no word occurs inside a word at an offset other than 0 |
| WordPrefixes.MissedOccurrence | xe_mysql/include/mysql/my_trie.h:78-91 | with the words 1 and 2 1 3, after the text 2 1 the result is 0 although the word 1 ends there |
| TrieExample.ExampleTrie | xe_mysql/include/mysql/my_trie.h:22-38 | a trie with the words 1 and 2 1 3 that has all the links and fields the comments promise |
| TrieExample.MatchExample | xe_mysql/include/mysql/my_trie.h:82-92 | the matcher run on it over 2 1 3 returns 0, 0 and 3: the word 1 is missed where it ends |
| WordPrefixes.LookupIsFullReport | xe_mysql/include/mysql/my_trie.h:116-136 | a nonempty key is a word exactly when matching it from the root reports its whole length on the last character |
| Atomics.Linearizable | xe_mysql/include/mysql/my_atomic.h:64-85 | in every run of any number of threads over the compare-and-swap bodies, the operations in the order they took effect, executed one at a time by the sequential specification, give each its returned value and the variable its value; each operation appears at most once, every one that returned appears, and an operation that returned before another was invoked comes first; ABA and a first read of any value do not matter |
| Atomics.SoloRun | xe_mysql/include/mysql/my_atomic.h:16-35 | an operation that runs alone succeeds at its first attempt, returns the value found (a store nothing) and leaves the sum modulo 2^32, the value stored, or for a load what was there |
| Atomics.FasTotals | xe_mysql/include/mysql/my_atomic.h:71-76 | in every run of fetch-and-stores alone, the values returned and the one left are, with their numbers of occurrences, the first value and the values stored |
| Atomics.AddTotals | xe_mysql/include/mysql/my_atomic.h:66-70 | in every run of adds alone the variable ends at the first value plus everything added, modulo 2^32 |
| Atomics.LastEffect | xe_mysql/include/mysql/my_atomic.h:66-85 | in every run the variable holds what the operation that took effect last leaves: the value stored, the sum, or for a load the value returned |
| Atomics.ConsistentNext | xe_mysql/include/mysql/my_atomic.h:66-85 | every single step of every thread keeps the linearizability invariant |
| Atomics.ReplayExtend | xe_mysql/include/mysql/my_atomic.h:26-29 | a success of the compare-and-swap extends the sequential replay by one operation |
| Atomics.RealTime | xe_mysql/include/mysql/my_atomic.h:66-85 | an operation that returned took effect before any operation invoked later |
| Atomics.Tickets | xe_mysql/include/mysql/my_atomic.h:66-70 | when every operation is add(1), the k-th to take effect returns the start value plus k modulo 2^32, and up to 2^32 of them return pairwise different values |
| Atomics.TicketOf | xe_mysql/include/mysql/my_atomic.h:66-70 | the k-th add(1) in the order of effect gets ticket a0 + k |
| Atomics.LockFree | xe_mysql/include/mysql/my_atomic.h:66-76 | failed attempts are at most (threads - 1) * successful ones, plus one for each first read that was out of date when made |
| Atomics.LockFreeWhenCurrent | xe_mysql/include/mysql/my_atomic.h:66-76 | when every first read returns the value of that moment, failed attempts are at most (threads - 1) * successful ones, in every run |
| Atomics.AttemptsAreCounted | xe_mysql/include/mysql/my_atomic.h:66-76 | the two counters are exactly the attempts after which the thread tries again and those after which it does not |
| Atomics.ProgressNext | xe_mysql/include/mysql/my_atomic.h:66-76 | each success makes at most threads - 1 pending expected values stale, and each failure repairs one |
| Atomics.StaleUpdate | xe_mysql/include/mysql/my_atomic.h:66-76 | changing one thread changes the number of stale threads by that thread alone |
| Atomics.AtomicCas | xe_mysql/include/mysql/my_atomic.h:26-29 | stores and answers true when the variable holds the expected value, otherwise fetches the variable and answers false |
| Atomics.AtomicAdd | xe_mysql/include/mysql/my_atomic.h:66-70 | under any interference before each attempt the loop stops at the first attempt that finds the value it expects, returns that value, and leaves it plus `v` modulo 2^32, as the step system's operation does |
| Atomics.AtomicFas | xe_mysql/include/mysql/my_atomic.h:71-76 | the same for fetch-and-store: returns the value replaced at its own success and leaves `v`, as the step system's operation does |
| Atomics.AtomicLoad | xe_mysql/include/mysql/my_atomic.h:77-81 | one compare-and-swap of 0 with 0: returns the value and never changes it, even when it is 0 |
| Atomics.AtomicStore | xe_mysql/include/mysql/my_atomic.h:82-85 | leaves `v` in the variable |
| Dumper.WheatyExceptionReport.DumpTypeIndex | xe_mysql/xe_mysql/test.cpp:872-935 | for arbitrary, possibly cyclic types and memory the recursion ends; the stack is afterwards the entry stack plus one if `newSymbol` and of unchanged size otherwise, everything below the top is logged, and the lines written, the visited pairs, `bHandled` and the number of calls are those of the tree recursion `Dump` |
| Dumper.WheatyExceptionReport.TakeName | xe_mysql/xe_mysql/test.cpp:893-927 | a std::string is filled in at once and ends the call; otherwise type and name are set as far as they are known |
| Dumper.WheatyExceptionReport.SwitchOnTag | xe_mysql/xe_mysql/test.cpp:937-1102 | the switch continues as `DumpBody` does in every case and on every missing answer of the debugger |
| Dumper.WheatyExceptionReport.PointerCase | xe_mysql/xe_mysql/test.cpp:940-1005 | a pointer is dumped with its target as `DumpPointer` says, whose texts and values `DumpRules.PointerShows` spells out |
| Dumper.WheatyExceptionReport.PointerHeader | xe_mysql/xe_mysql/test.cpp:943-969 | the pointer's own entry is filled in, and its target is looked into only when it can be read and the limit is not reached |
| Dumper.WheatyExceptionReport.PointerEnd | xe_mysql/xe_mysql/test.cpp:974-1003 | NULL and unreadable targets, targets that are not structures, and otherwise the children of the pointer type, as `PointerRest` says and `DumpRules.RestShows` spells out |
| Dumper.WheatyExceptionReport.DataCase | xe_mysql/xe_mysql/test.cpp:1006-1035 | a variable or field is dumped through its structure, pointer or array type, as `DumpRules.DataShows` spells out; by its precondition, and that of the other cases, a name that is not empty equals the one in the top entry whenever it is read again, so for a named entry passing the name or a pointer to it is the same |
| Dumper.WheatyExceptionReport.ArrayCase | xe_mysql/xe_mysql/test.cpp:1036-1088 | an array gets its size in the suffix, no value of its own, and its elements or its text |
| Dumper.WheatyExceptionReport.ElementsCase | xe_mysql/xe_mysql/test.cpp:1066-1084 | the loop fills in `DumpElements`, whose elements `DumpTree.ElementsAreListed` describes, unless they are characters |
| Dumper.WheatyExceptionReport.Element | xe_mysql/xe_mysql/test.cpp:1077-1081 | pushing, filling in and popping one element adds one finished child and restores the stack |
| Dumper.WheatyExceptionReport.Children | xe_mysql/xe_mysql/test.cpp:1097-1192 | the loop over the children gives the result of `DumpMembers`; `DumpRules.ChildrenShow` spells out which children appear and where they are read |
| Dumper.WheatyExceptionReport.Member | xe_mysql/xe_mysql/test.cpp:1151-1188 | one child is dumped in a new entry at the address of the parent plus its offset modulo 2^64, completed when it is not a structure, and popped: its parent gains exactly its subtree |
| Dumper.WheatyExceptionReport.FormatSymbolValue | xe_mysql/xe_mysql/test.cpp:796-865 | writes the characters of the variable's tree, starting at one tab, leaves the stack empty, answers false without output for functions and register variables, and makes at most one call of DumpTypeIndex, one per pair added and one per child that the types of those pairs list |
| Dumper.WheatyExceptionReport.EnumerateSymbolsCallback | xe_mysql/xe_mysql/test.cpp:764-781 | from any state, even one that an interrupted call left behind, the file grows by exactly the characters of the variable's tree, the stack is empty, and the calls of DumpTypeIndex are at most one plus one for each pair visited and one for each child that its type lists |
| Dumper.WheatyExceptionReport.EnumerateSymbols | xe_mysql/xe_mysql/test.cpp:751-752 | over all variables of a frame the file grows by the characters of the whole report |
| Dumper.WheatyExceptionReport.PrintSymbolDetail | xe_mysql/xe_mysql/test.cpp:1357-1373 | when the top entry is not logged and has a value or children, the buffer grows by a tab for each entry of the stack, the entry's text and a line break, and the entry is logged; otherwise nothing changes |
| Dumper.WheatyExceptionReport.PushSymbolDetail | xe_mysql/xe_mysql/test.cpp:1342-1348 | logs the top entry and then adds a new one |
| Dumper.WheatyExceptionReport.PopSymbolDetail | xe_mysql/xe_mysql/test.cpp:1350-1355 | logs the top entry and removes it; the stack must not be empty |
| Dumper.WheatyExceptionReport.StoreSymbol | xe_mysql/xe_mysql/test.cpp:1330-1333 | adds the pair and answers whether it is new |
| Dumper.WheatyExceptionReport.ClearSymbols | xe_mysql/xe_mysql/test.cpp:1335-1340 | forgets all pairs and all entries |
| Dumper.PrintFreezes | xe_mysql/xe_mysql/test.cpp:1357-1373 | printing the top entry is freezing its node of the tree: afterwards it is logged and what is written of it is the finished node |
| Dumper.ChildClosed | xe_mysql/xe_mysql/test.cpp:1350-1355 | popping a finished child leaves its parent, logged, with one more subtree, and the characters of that subtree at the end of the buffer |
| DumpTree.Dump | xe_mysql/xe_mysql/test.cpp:929-935 | visited pairs only grow, and the calls made are at most one, plus one for each pair added, plus one for each child that the types of the added pairs list, each pair counted once; listing the children of one pair twice would exceed it |
| DumpTree.DumpMembers | xe_mysql/xe_mysql/test.cpp:1097-1192 | the same for the loop over the children of one type, with one call more for each child of that type |
| DumpTree.WorkAdd | xe_mysql/xe_mysql/test.cpp:929-935 | the bound on the work grows with a new pair by one and the children its type lists |
| DumpTree.DumpSymbol | xe_mysql/xe_mysql/test.cpp:841-861 | the bound for the whole of one variable depends on the debugger's answers for the visited pairs alone |
| DumpTree.ElementsAreListed | xe_mysql/xe_mysql/test.cpp:1075-1082 | n rounds of the loop add exactly the trees of the elements 0 to n - 1, in order, below what was there; the loop makes min(count, 10) rounds |
| DumpTree.ElementIsOneEntry | xe_mysql/xe_mysql/test.cpp:1077-1081 | the tree of an element is one entry with its index and its value, and nothing when the value is empty |
| DumpRules.UnknownShowsNothing | xe_mysql/xe_mysql/test.cpp:889-891 | a type without a tag changes nothing and is not done |
| DumpRules.StringShows | xe_mysql/xe_mysql/test.cpp:895-911 | a std::string shows its text under the type name std::string and is not visited |
| DumpRules.NamesOnly | xe_mysql/xe_mysql/test.cpp:913-935 | a pair seen before and an enumeration only get their names, the type name cut to 199 characters; of these only a base class seen before is done |
| DumpRules.MembersAreShown | xe_mysql/xe_mysql/test.cpp:1124-1192 | when children are wanted, the new subtrees are, in order, those of exactly the children that are no functions, enumerations, type definitions or tables and not static, each dumped at the parent's address plus its own offset modulo 2^64 and completed with type and value when it is not a structure |
| DumpRules.ChildrenShow | xe_mysql/xe_mysql/test.cpp:1097-1192 | the same for the end of a call, with the cases of no children and of children that are not wanted |
| DumpRules.StructureShows | xe_mysql/xe_mysql/test.cpp:1089-1102 | structures, base classes, base types and types with nothing below them show their names and their own children |
| DumpRules.DataShows | xe_mysql/xe_mysql/test.cpp:1006-1035 | a variable or field is shown as its structure, pointer or array type at the same address, a structure opened below nesting level 5 |
| DumpRules.StructureIsOpened | xe_mysql/xe_mysql/test.cpp:1015-1020 | a field of structure type below level 5 has the trees of all children of the structure below it |
| DumpRules.PointerShows | xe_mysql/xe_mysql/test.cpp:940-1005 | the value of a null pointer is NULL and that of an unreadable one says so; any other pointer to something that is not a structure shows the value at its target; the target is shown in the pointer's entry with a mark * or &, opened below level 5 |
| DumpRules.ArrayShows | xe_mysql/xe_mysql/test.cpp:1036-1088 | an array shows its size, no value of its own, and its first ten elements with index and value at the address plus index times length; an array of characters shows its text |
| DumpRules.VariableShows | xe_mysql/xe_mysql/test.cpp:796-865 | the tree of a variable: its prefix, its address, which variables are not reported, and the value of one that is not a structure |
| DumpRules.ScalarsShow | xe_mysql/xe_mysql/test.cpp:1123-1189 | below a structure of fields of base types there is one line for each field, in order: type, name, and the value at the address of the structure plus the offset of the field |
| DumpExample.VariableLines | xe_mysql/xe_mysql/test.cpp:764-1193 | a whole report: the lines for a local structure with a number, a function that is passed over, a null pointer and a structure inside |
| EntryText.TextOfEntry | xe_mysql/xe_mysql/test.h:114-127 | the text of an entry with a value is that without it, " = " and the value; the rest is prefix, type and suffix, a blank when both sides are there, and the name |
| EntryText.EntryReadsBack | xe_mysql/xe_mysql/test.h:114-127 | type, name and value can be read back from the text when type and name hold no equals sign and the name no blank |
| EntryText.DigitsAreDecimal | xe_mysql/xe_mysql/test.cpp:1050-1078 | sizes and indices are written in decimal without leading zeros |
| DumpTree.Plus | xe_mysql/xe_mysql/test.cpp:1161-1161 | an address plus an offset wraps around at 2^64 |
| NestingLimit.TreeIsShallow | xe_mysql/xe_mysql/test.cpp:964-972 | when every child that is dumped is a pointer, an array, an enumeration, a variable of structure type or without children of its own, the tree of a variable has at most 7 levels, whatever the pointers do |
| NestingLimit.DumpFits | xe_mysql/xe_mysql/test.cpp:1007-1030 | the levels that a dump adds at a given nesting level: at the limit one, for the elements of an array |
| NestingLimit.BasesPassTheLimit | xe_mysql/xe_mysql/test.cpp:1163-1165 | the limit does not hold for other children: a chain of n + 1 base classes gives n + 1 levels, for every n |
| NestingLimit.TameBases | xe_mysql/xe_mysql/test.cpp:1163-1165 | such a chain meets the condition of the limit exactly when it has at most two classes |
| DumpTree.ReportIsOutline | xe_mysql/xe_mysql/test.cpp:1342-1373 | whatever the debugger answers, the lines of the report start at one tab, never go below it, never indent by more than one more than the line before, and their indentation alone gives back the tree of every variable in order; the characters of the file do so if and only if no text holds a line break or starts with a tab |
| DumpTree.BeforeIsStrictTotal | xe_mysql/xe_mysql/test.h:99-103 | two pairs are equivalent in the ordered set only if they are equal |
| Outline.RenderIsOutline | xe_mysql/xe_mysql/test.cpp:1357-1373 | a printed forest is an outline |
| Outline.ParseRender | xe_mysql/xe_mysql/test.cpp:1357-1373 | reading a printed forest gives it back |
| Outline.OutlineIsRendering | xe_mysql/xe_mysql/test.cpp:1357-1373 | a list of lines is an outline if and only if it is some printed forest |
| OutlineText.SplitText | xe_mysql/xe_mysql/test.cpp:1366-1370 | reading the characters of printed lines gives the lines back if and only if no text holds a line break or starts with a tab |
| OutlineText.ForestReadsBack | xe_mysql/xe_mysql/test.cpp:1366-1370 | under exactly that condition the characters of a printed forest give the forest back |
| OutlineText.WriteIsText | xe_mysql/xe_mysql/test.cpp:1366-1370 | writing lines one after the other at the end of a buffer appends their text |
| SkipSpace.SkipTrailingSpace | xe_mysql/include/m_string.h:264-288 | for every buffer, address and word size 4 or 8 the result is that of the plain backward loop; all reads are inside the buffer and word reads are aligned; for more than 20 bytes all loops together run at most 2(W - 1) + len / W rounds |
| SkipSpace.SkipWords | xe_mysql/include/m_string.h:281-282 | skipping whole words of spaces keeps the plain result and leaves at most W - 1 spaces to skip |
| SkipSpace.PlainEndSpec | xe_mysql/include/m_string.h:285-287 | everything from the result on is spaces, and the result is the start or follows another character |
| SkipSpace.WordOfSpaces | xe_mysql/include/m_string.h:221-228 | a word equals SPACE_INT exactly when each of its bytes is a space |
| SkipSpace.SpaceWord | xe_mysql/include/m_string.h:281-282 | a word equal to SPACE_INT can be skipped as a whole |
| SkipSpace.LastWord | xe_mysql/include/m_string.h:281-286 | in a word different from SPACE_INT the plain loop stops within W - 1 rounds |
| SkipSpace.WordZone | xe_mysql/include/m_string.h:268-280 | for more than 20 bytes both inner guards always hold |
| Bitmap.MyBitmap.SetBit | xe_mysql/include/mysql/my_bitmap.h:99-100 | adds exactly the named index to the set |
| Bitmap.MyBitmap.FlipBit | xe_mysql/include/mysql/my_bitmap.h:101-102 | changes the membership of exactly the named index |
| Bitmap.MyBitmap.ClearBit | xe_mysql/include/mysql/my_bitmap.h:103-104 | removes exactly the named index |
| Bitmap.MyBitmap.IsSet | xe_mysql/include/mysql/my_bitmap.h:105-106 | nonzero exactly for members, and exactly when bit (index mod 8) of byte index / 8 is 1 |
| Bitmap.BitIsShifted | xe_mysql/include/mysql/my_bitmap.h:99-106 | bit k of a byte is the one of weight 2^k |
| Bitmap.WordsHoldBits | xe_mysql/include/mysql/my_bitmap.h:95-97 | the number of words is the least that holds all bits |
| Bitmap.BitmapCmp | xe_mysql/include/mysql/my_bitmap.h:150-155 | true exactly when the two sets are equal; neither set changes although the last words are written |
| Bitmap.FilledEqual | xe_mysql/include/mysql/my_bitmap.h:150-155 | with the unused bits filled, the bytes are equal exactly when the sets are, and the set is kept |
| Bitmap.FilledBits | xe_mysql/include/mysql/my_bitmap.h:152-153 | or-ing the mask into the last word sets exactly the unused bits |
| Bitmap.MaskUnique | xe_mysql/include/mysql/my_bitmap.h:25-39 | the mask covering exactly the unused bits is determined by the number of bits |
| Bitmap.MembersUpdate | xe_mysql/include/mysql/my_bitmap.h:99-104 | a byte that differs in one bit only changes the membership of one index |
| Bits.BitLog2 | xe_mysql/include/mysql/my_bit.h:16-21 | the loop computes `Log2` |
| Bits.LogIsFloor | xe_mysql/include/mysql/my_bit.h:16-21 | for v >= 1, 2^Log2(v) <= v < 2^(Log2(v) + 1): the floor of the logarithm |
| Bits.LogIsCeilingExactly | xe_mysql/include/mysql/my_bit.h:11-14 | the result is the smallest X with 2^X >= value, as the comment says, if and only if the value is 0 or a power of two |
| Bits.LogOfThree | xe_mysql/include/mysql/my_bit.h:11-14 | 3 is a value for which the comment does not hold |
| Bits.RoundUpToNextPower | xe_mysql/include/mysql/my_bit.h:70-79 | for 1 <= v <= 2^31 the result is the least power of two that is at least v; for 0 and above 2^31 it is 0 |
| Bits.RoundUpIsLeast | xe_mysql/include/mysql/my_bit.h:58-79 | for 1 <= v <= 2^31 the result is a power of two at least v; for 0 and above 2^31 it is 0 |
| Bits.RoundUpBelow | xe_mysql/include/mysql/my_bit.h:58-79 | no power of two at least v is smaller than the result |
| Bits.RoundUpIsLog | xe_mysql/include/mysql/my_bit.h:16-79 | for 2 <= v <= 2^31 the result is 2^(Log2(v - 1) + 1) |
| Bits.ClearHighestBit | xe_mysql/include/mysql/my_bit.h:81-90 | the result is v - 2^Log2(v), and 0 for 0 |
| Bits.ClearHighestSubtracts | xe_mysql/include/mysql/my_bit.h:81-90 | for v >= 1 the result is v - 2^Log2(v) |
| Bits.ClearedBit | xe_mysql/include/mysql/my_bit.h:81-90 | what is cleared is one bit that was set, the power of two 2^Log2(v) |
| Bits.ClearHighestCount | xe_mysql/include/mysql/my_bit.h:23-90 | clearing the highest bit lowers the sum of the byte table by exactly one |
| Bits.CountIsClearings | xe_mysql/include/mysql/my_bit.h:23-36 | for every 64-bit value the count is the number of times the highest bit can be cleared in its two halves until nothing is left; the cast to a byte drops nothing |
| Bits.Count32IsClearings | xe_mysql/include/mysql/my_bit.h:23-36 | for a 32-bit value the count is the number of clearings that bring it to 0 |
| Bits.CountDropsLowestBit | xe_mysql/include/mysql/my_bit.h:23-36 | the count of 0 is 0, and for every other 64-bit value taking away the lowest set bit lowers it by one |
| Bits.HalvesOfWord | xe_mysql/include/mysql/my_bit.h:28-36 | the two halves that are counted make up the whole word |
| Bits.ReverseMovesBit | xe_mysql/include/mysql/my_bit.h:92-99 | bit k goes to bit 31 - k |
| Bits.ReverseInvolution | xe_mysql/include/mysql/my_bit.h:92-99 | reversing twice changes nothing |
| Bits.ReverseClear | xe_mysql/include/mysql/my_bit.h:81-99 | between two reversals, clearing the highest bit clears the lowest: v & (v - 1) |
| Codec.LoadStore | xe_mysql/include/my_global.h:1056-1208 | loading n bytes after storing x gives x modulo 2^(8n), for every n |
| Codec.StoreLoad | xe_mysql/include/my_global.h:1056-1208 | storing what was loaded restores the bytes |
| Codec.StoreFrame | xe_mysql/include/my_global.h:1094-1208 | a store changes no other byte |
| Codec.StoredBytes | xe_mysql/include/my_global.h:1180-1208 | byte i of a stored word is x / 256^i modulo 256 |
| Codec.Int2Store | xe_mysql/include/my_global.h:1180-1183 | the portable byte stores leave the memory as the 2-byte word store does, for negative values too |
| Codec.Int3Store | xe_mysql/include/my_global.h:1184-1188 | the portable byte stores leave the memory as the 3-byte word store does, for negative values too |
| Codec.Int4Store | xe_mysql/include/my_global.h:1189-1192 | the portable byte stores leave the memory as the 4-byte word store does, for negative values too |
| Codec.Int5Store | xe_mysql/include/my_global.h:1193-1198 | the portable byte stores leave the memory as the 5-byte word store does, for negative values too |
| Codec.Int6Store | xe_mysql/include/my_global.h:1199-1205 | the portable byte stores leave the memory as the 6-byte word store does, for negative values too |
| Codec.Int8Store | xe_mysql/include/my_global.h:1206-1208 | two stores of four bytes are one word store of eight |
| Codec.ShortReads | xe_mysql/include/my_global.h:1151-1159 | the portable reads of 2, 3 and 4 bytes equal the word loads of the x86 forms |
| Codec.LongReads | xe_mysql/include/my_global.h:1160-1179 | so do those of 5, 6 and 8 bytes |
| Codec.FourthByteIsDropped | xe_mysql/include/my_global.h:1072-1079 | the x86 read of three bytes equals the portable one whatever the fourth byte is |
| Codec.SignedRoundTrip | xe_mysql/include/my_global.h:1136-1150 | the signed load of a word restores every value of the signed range of its width |
| Codec.SignedReads | xe_mysql/include/my_global.h:1136-1150 | the byte sums of sint2korr, sint4korr and sint8korr are the signed word loads of the x86 forms |
| Codec.SignedRoundTrips | xe_mysql/include/my_global.h:1136-1150 | sint2korr, sint4korr and sint8korr restore every value of their types after a store |
| Codec.Sint3RoundTrip | xe_mysql/include/my_global.h:1057-1064 | sint3korr after int3store restores every x with -2^23 <= x < 2^23 |
| Codec.NetIsReversed | xe_mysql/include/my_global.h:1272-1279 | int4net is uint4korr of the reversed bytes, as a signed value |
| Rint.Rint | xe_mysql/include/my_global.h:1439-1456 | the result is the nearest integer, ties to even, for every value without a fraction beyond MAX_EXACT_INTEGER |
| Rint.NearestIsUnique | xe_mysql/include/my_global.h:1432-1437 | within 1/2 and even on ties determines the result (roundTiesToEven, section 4.3.1 of IEEE 754-2008) |
| Rint.ExactBelowLimit | xe_mysql/include/my_global.h:1425-1437 | every value below 2^53 in magnitude is covered, and every larger one is an integer |
| Rint.NearestIsOdd | xe_mysql/include/my_global.h:1439-1456 | rint(-x) == -rint(x) |
| Rint.NearestIsMonotone | xe_mysql/include/my_global.h:1439-1456 | x <= y implies rint(x) <= rint(y) |
| Rint.NearestIsIdempotent | xe_mysql/include/my_global.h:1439-1456 | rounding twice is rounding once |

## Left out

- Building a trie (`trie_insert`, `ac_trie_prepare`), the lock-free lists and hashes, trees, decimals, XML and network routines: only declared here, their bodies are not part of this model.
- Output links of the automaton: `ac_trie_next` has none, so shorter words at the same place are not reported and no claim is made that they are.
- Weak memory ordering, the rwlock fallback, and the 8-bit, 16-bit and pointer widths of the atomics: the model has one indivisible compare-and-swap on 32 bits.
- Dumper.WheatyExceptionReport.DumpTypeIndex: normal returns only; exceptions that unwind out of a query, the size limits of the text buffers, and more than 2049 children of one type (beyond the fixed array) are not modelled.
- Dumper.WheatyExceptionReport.DataCase: for an entry without a name the pointer passed would show the name set later (or dangle when that name needs new memory); the model passes the empty name.
- DumpTree.Dump: the nesting level is unbounded instead of a wrapping unsigned, and a type name of 200 characters or more is cut by characters, not by the multibyte conversion.
- Dumper.WheatyExceptionReport.EnumerateSymbolsCallback: the message printed when an exception is caught is not modelled.
- The text of values (`FormatOutputValue`) and of basic type names: arbitrary strings.
- Dereferencing a pointer (`DereferenceUnsafePointer`): an arbitrary function of the address.
- `WheatyExceptionReport.cpp`: an older, smaller form of the same dumper without the detail stack.
- Stack walking, registers, module lists, minidumps, log files, registry and version strings: calls into the operating system.
- SkipSpace.SkipTrailingSpace: words are read low byte first, and the assertion that the pointer is at least one word is not needed.
- `bitmap_clear_all`, `bitmap_set_all`, `bit_is_set` and its companions, and the mutex of a bitmap: they would only add easy members.
- Bits.LogIsFloor: `ulong` is modelled with 32 bits, its width in the Windows build.
- `my_count_bits_ushort`: indexes a table of 256 entries with a 16-bit value; no claim is made.
- Codec.SignedReads: the shift of the highest byte into the sign bit is taken to wrap around.
- Codec.Int4Net: the bitwise or of bytes in different positions is written as their sum.
- Codec.ShortReads: the x86 forms are word loads and stores of a little-endian machine, so only the portable forms are written out.
- Reading and storing `float` and `double` bytes: copies of machine representations.
- Rint.Rint: NaN, infinities and the sign of zero; doubles are reals without a fraction beyond MAX_EXACT_INTEGER.
- `IO_CACHE` macros, `CDBClass`, `CLock`, timespec macros, configuration and error tables: thin wrappers or plain declarations.
