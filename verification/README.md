# Verified models of Unix textbook programs

This project models, in Dafny, the algorithms and protocols in a collection of Unix
programming examples, and proves what they are for. One file holds one component:

- `Smi.dfy`, `SmiProofs.dfy`: the simple messaging interface over shared memory, in its
  POSIX and its System V form. A server and any set of clients are interleaved step by step.
  A step is one semaphore operation or one access to a shared location, down to single
  characters of a message.
- `SegmentCache.dfy`: the server's least-recently-used cache of attached segments.
- `Lexer.dfy`, `Pipeline.dfy`, `Shell.dfy`: the shell's tokenizer with pushback, how a command
  line is read from any tokens, mistakes included, and the recursive pipeline launcher with
  the descriptor table of every process.
- `BinTree.dfy`: binary search trees in memory, and traversals with an explicit stack.
- `RecordFile.dfy`: a linked list of records in a file, and a writer and a reader that share
  it under a semaphore.
- `Cwd.dfy`: finding the working directory's path by walking up the tree.
- `TraversalList.dfy`: a list with many traversals in progress.
- `BubbleSort.dfy`: bubble sort with an interchange counter.
- `BufferedIo.dfy`: buffered input and output over partial reads and writes, and two copy
  programs.
- `Barrier.dfy`: a parent and its children synchronised over two pipes.
- `MakeArgv.dfy`: two-pass tokenizing into an argument array, and freeing it.
- `Environ.dfy`: the environment array as a map.
- `Sets.dfy`: two facts about finite sets.

System calls are nondeterministic: schedules are arbitrary sequences of processes, reads and
writes transfer any positive part of what is asked for, new descriptors are the lowest free
ones, and a new attachment gets any free address.

Four properties turn out not to hold on all inputs. Each has the exact condition under which
it holds: `RecordList.WhenStoreKeepsOrder`, `Shell.WhenDescriptorsLeak`,
`EnvList.UnsetNamed`, and the failed attach in `SegmentCache.Cache.GetAddr`.

## Model

| member | source | states |
|---|---|---|
| `Smi.FindClient` | Advanced_Unix_Programming/c7/smi_pshm.c:111-139 | One loop over the slot table finds the client's slot, or claims the first free one, or fails exactly when the client is unknown and no slot is free. |
| `Smi.GetClientClaims` | Advanced_Unix_Programming/c7/smi_pshm.c:111-139 | A known client keeps its slot, a new one gets the first free slot, no other slot changes, and there is no slot exactly when the client is unknown and none is free. |
| `Smi.UpperLaws` | Advanced_Unix_Programming/c7/smsg_server_smi_a.c:39-41 | Small letters become capitals, order kept from a to z; every other character, and every result, is left alone. |
| `SmiSafety.RepliesAreOwnRequestsUpperCased` | Advanced_Unix_Programming/c7/smi_pshm.c:241-319 | For any clients that fit the slot table (any number in the System V form) and any interleaving, the replies a client has read answer its own first requests, in order: each has its request's length, no small letter, the capital in the same place of the alphabet for every small letter, and every other character unchanged. |
| `SmiSafety.OneTokenPerSegment` | Advanced_Unix_Programming/c7/smi_shm.c:274-353 | In every reachable state and for every segment, write semaphore + read semaphore + processes between getaddr and release is one. |
| `SmiSafety.ServerNeverBlocksOnClient` | Advanced_Unix_Programming/c7/smsg_server_smi_a.c:35-44 | Once it has a request, the server can always step: a client's write semaphore never makes it wait and the slot table never runs out. |
| `SmiSafety.InitInv` | Advanced_Unix_Programming/c7/smi_pshm.c:168-191 | The semaphores' initial values (also those of the System V form) with any bytes in the message areas satisfy the invariant. |
| `SmiSafety.ClientStepInv` | Advanced_Unix_Programming/c7/smsg_client_smi_a.c:43-51 | Every step of a client keeps the invariant that ties the two segments and the message contents together. |
| `SmiSafety.ServerStepInv` | Advanced_Unix_Programming/c7/smsg_server_smi_a.c:35-44 | Every step of the server keeps it, although the server segment is released before the client's reply is announced. |
| `SmiSafety.SlotAvailable` | Advanced_Unix_Programming/c7/smi_pshm.c:116-125 | A table that holds only clients has room for each of them. |
| `SmiProgress.SomebodyCanStep` | Advanced_Unix_Programming/c7/smi_pshm.c:241-319 | While any client has requests left, some process can step. |
| `SmiProgress.RunConsumesMeasure` | Advanced_Unix_Programming/c7/smi_pshm.c:241-319 | Every step of every process uses up exactly one unit of a measure. |
| `SmiProgress.EveryMaximalRunDelivers` | Advanced_Unix_Programming/c7/smi_pshm.c:241-319 | No schedule is longer than fifteen steps per request and four per character, and one that cannot be continued has exactly that length and has delivered to every client the capitals of every one of its requests. |
| `SegmentCache.Cache.GetAddr` | Advanced_Unix_Programming/c7/smi_shm.c:97-150 | The address returned is a currently attached one of the segment asked for. The cache holds the most recently used segments and exactly those are attached. What stays cached stays where it is. Cleanup detaches everything. A failed attach leaves the cache coherent exactly when nothing had to be evicted. |
| `SegmentCache.Cache.Search` | Advanced_Unix_Programming/c7/smi_shm.c:122-130 | The slot of the segment, or the knowledge that it is not cached and the first free slot, if any. |
| `SegmentCache.Cache.Oldest` | Advanced_Unix_Programming/c7/smi_shm.c:131-137 | The scan that starts from -1 finds a slot with the smallest time. |
| `SegmentCache.MostRecentUnique` | Advanced_Unix_Programming/c7/smi_shm.c:97-150 | For any history of calls there is only one set of most recently used segments, so the cache's contents are determined by it. |
| `SegmentCache.HoldsMostRecent` | Advanced_Unix_Programming/c7/smi_shm.c:121-145 | The slots' times make the cached segments the most recently used ones, at most twenty, with no more segments attached than cached. |
| `SegmentCache.EvictOk` | Advanced_Unix_Programming/c7/smi_shm.c:131-145 | Reusing the slot with the smallest time keeps every other segment and drops exactly the least recently used one. |
| `Lexer.GetToken` | Advanced_Unix_Programming/c6/sh3.c:63-141 | The four-state loop with pushback returns the token, the text in the word buffer and the rest of the input that the recursive definition gives, for every input and every buffer size. |
| `Lexer.StoreChar` | Advanced_Unix_Programming/c6/sh3.c:48-58 | A character is stored exactly when the buffer has room. |
| `Tokenizing.SymbolTokens` | Advanced_Unix_Programming/c6/sh3.c:70-101 | Which token each of the symbol characters is, and how one `>` is told from two. |
| `Tokenizing.WordTokens` | Advanced_Unix_Programming/c6/sh3.c:92-132 | An unquoted word is what stands before the first of the eight characters that end it, which is left for the next call; it is an error exactly when it and its terminator do not fit, reading then stops at the character that did not fit, and at the end of the file the word is lost. |
| `Tokenizing.QuotedTokens` | Advanced_Unix_Programming/c6/sh3.c:102-115 | A quotation is the text between the quotes whatever is escaped in it, an error exactly when it does not fit, and never a word without its closing quote. |
| `Tokenizing.StartsAndContinues` | Advanced_Unix_Programming/c6/sh3.c:92-131 | A character that is a word by itself continues any word there is room for. |
| `Tokenizing.LexConsumes` | Advanced_Unix_Programming/c6/sh3.c:63-141 | Every call that does not meet the end of the file consumes input, the pushed-back character notwithstanding. |
| `Tokenizing.LexQuoted` | Advanced_Unix_Programming/c6/sh3.c:102-115 | Reading on in a quotation, with any characters escaped beside the quotes and backslashes that must be, gives the text if it fits, an error exactly when it does not. |
| `Tokenizing.LexPlain` | Advanced_Unix_Programming/c6/sh3.c:116-132 | The same in an unquoted word, whose terminating character is pushed back. |
| `Tokenizing.RoundTrip` | Advanced_Unix_Programming/c6/sh3.c:63-141 | Any token sequence written down with spaces between the tokens, words quoted wherever necessary or wanted, is read back as that sequence, whatever follows. |
| `Shell.Redirect` | Advanced_Unix_Programming/c6/sh3.c:218-249 | The child ends with exactly descriptors 0, 1 and 2: input from the pipe, the file, or /dev/null in the background; output to the pipe or the file; and the shell's standard error. It goes on only if descriptors 3 to 19 are closed. |
| `Shell.Shell.Invoke` | Advanced_Unix_Programming/c6/sh3.c:251-294 | What the new process execs with, what the parent closes, and that an empty or builtin command closes nothing and launches nothing. |
| `Shell.Shell.ReadStage` | Advanced_Unix_Programming/c6/sh3.c:307-354 | From any tokens, mistakes included: the items read, what they leave in the variables, the token that ended them and the tokens left. |
| `Shell.Shell.Command` | Advanced_Unix_Programming/c6/sh3.c:296-385 | From any tokens: the token that ended the pipeline, the tokens left, the shell's descriptors afterwards and, when all stages are external commands with named files, every process launched and the pid of the last stage. At the end of the file and after a word too long nothing has been launched. |
| `Shell.Plumbing` | Advanced_Unix_Programming/c6/sh3.c:345-374 | Every process execs with descriptors 0, 1 and 2 and no others and has a pid of its own. Neighbouring stages share one pipe, and no other process has an end of it. |
| `Shell.RunsItsWords` | Advanced_Unix_Programming/c6/sh3.c:269-276 | The words of a stage are its process's arguments, in order and up to the 49th; the first is the path, of which the program sees what follows the first slash. |
| `Shell.RunsWithItsFiles` | Advanced_Unix_Programming/c6/sh3.c:218-242 | The first process reads from the file of the last `<`, the last one writes to the file of the `>` or `>>`, appending exactly for `>>`; without them they have the shell's own, or /dev/null to read in the background. |
| `Shell.RunLine` | Advanced_Unix_Programming/c6/sh3.c:389-408 | One round from any tokens: a bad command launches nothing; the shell is left with extra descriptors exactly when there are two or more stages and one of them has no argument or begins with an assignment, `set` or `cd`; otherwise `fd_check` is content, and the process waited for is the last stage, or none in the background. |
| `Shell.WhenDescriptorsLeak` | Advanced_Unix_Programming/c6/sh3.c:257-284 | The shell is left with extra descriptors exactly when a pipeline of two or more stages has an empty or builtin one. |
| `Shell.BuiltinLeaks` | Advanced_Unix_Programming/c6/sh3.c:257-258 | `cd` before a bar is such a case. |
| `Pipelines.TypedPipeline` | Advanced_Unix_Programming/c6/sh3.c:296-348 | The characters of a legal pipeline, with any quoting, are tokenized and read as that pipeline, and what is typed after it is left for the next one. |
| `Pipelines.ArgvLength` | Advanced_Unix_Programming/c6/sh3.c:309-320 | All arguments are taken, up to the 49th. |
| `Pipelines.ArgvAt` | Advanced_Unix_Programming/c6/sh3.c:309-320 | Each argument is in the place given by the number of arguments before it. |
| `Pipelines.LastRedirection` | Advanced_Unix_Programming/c6/sh3.c:321-344 | The input file is that of the last `<`, the output file and the append flag those of the last `>` or `>>`. |
| `Pipelines.ExternalStage` | Advanced_Unix_Programming/c6/sh3.c:143-164 | A stage starts a process exactly when it has an argument and the first one is no assignment, `set` or `cd`. |
| `Pipelines.ProgramNameIs` | Advanced_Unix_Programming/c6/sh3.c:269-275 | The program sees its whole path, or what follows the first slash. |
| `Pipelines.ReadLegalPipeline` | Advanced_Unix_Programming/c6/sh3.c:307-360 | The tokens of a pipeline the grammar allows are read as that pipeline. |
| `Pipelines.MalformedIsDropped` | Advanced_Unix_Programming/c6/sh3.c:321-354 | Recovery: `<` in a later stage, and `>`, `>>` or a bar after output is redirected, are as if they were not there; a redirection with no word after it disappears together with the token after it. |
| `Pipelines.PipelineReadIsAllowed` | Advanced_Unix_Programming/c6/sh3.c:307-360 | Whatever the tokens, what is read is a pipeline the grammar allows. |
| `Descriptors.PipeEnds` | Advanced_Unix_Programming/c6/sh3.c:361-365 | The two lowest free descriptors are distinct, unused and above 2. |
| `Trees.LeftHeightAtMostHeight` | Misc/bin_tree.c:98-105 | The slots pre-order and in-order need are at most the tree's height, so 30 slots suffice up to height 30. |
| `BinTree.PreOrderNoRec` | Misc/bin_tree.c:95-113 | On every tree the explicit stack prints what the recursion prints, and the most slots it uses is exactly the left height. |
| `BinTree.InOrderNoRec` | Misc/bin_tree.c:125-143 | The same for in-order. |
| `BinTree.PostOrderNoRec` | Misc/bin_tree.c:155-183 | On every tree without shared nodes the `have_visited` test prints what the recursion prints, and the stack gets exactly as deep as the tree is high. |
| `BinTree.TestOk` | Misc/bin_tree.c:169-180 | The pointer test succeeds exactly when the top node's right subtree is finished. |
| `BinTree.InsertNode` | Misc/bin_tree.c:24-66 | The nodes in memory become the tree with the value inserted as a leaf, or stay as they are when the value is present; no node gets shared. |
| `BinTree.CreateBinarySearchTree` | Misc/bin_tree.c:68-83 | The tree in memory is the given one with all values inserted in order. |
| `SearchTrees.InsertKeepsOrder` | Misc/bin_tree.c:39-65 | Insertion adds exactly the value and keeps the search order. |
| `SearchTrees.BuildSorts` | Misc/bin_tree.c:68-83 | In-order over the tree built from any array gives exactly its values, strictly ascending. |
| `SearchTrees.AscendingUnique` | Misc/bin_tree.c:125-143 | Only one sequence has given values in strictly ascending order. |
| `SearchTrees.PreOrderRebuilds` | Misc/bin_tree.c:85-93 | What pre-order prints of a search tree, inserted again in that order, builds the same tree. |
| `SearchTrees.PostOrderRebuilds` | Misc/bin_tree.c:145-153 | So does what post-order prints, read backwards. |
| `BinTree.PrintSorted` | Misc/bin_tree.c:185-203 | Building and then printing in order with the explicit stack prints the distinct values ascending. |
| `RecordFile.File.FindPrev` | Advanced_Unix_Programming/c7/f2.c:70-78 | The search returns the record the code inserts after: the header, or the record after which the first larger key has been passed. |
| `RecordFile.File.Store` | Advanced_Unix_Programming/c7/f2.c:65-95 | On any file that is a list, the file becomes a list with exactly the key added: in front when the first key is above it or none is, otherwise right behind the first key above it; taking it out gives the old keys back. |
| `RecordList.InsertStores` | Advanced_Unix_Programming/c7/f2.c:70-87 | The new keys are the old ones and the stored one, which is at the place so described. |
| `RecordList.StoredUniquely` | Advanced_Unix_Programming/c7/f2.c:70-87 | The description fits only one place and one result. |
| `RecordList.WhenStoreKeepsOrder` | Advanced_Unix_Programming/c7/f2.c:73-78 | A sorted list stays sorted exactly when it is empty, the key is below the first one, or all keys equal it. |
| `RecordList.AscendingKeysGoWrong` | Advanced_Unix_Programming/c7/f2.c:77 | Storing 2 after 1 gives 2, 1. |
| `RecordList.LinkIn` | Advanced_Unix_Programming/c7/f2.c:81-87 | Linking a new last record in keeps the file an in-bounds, acyclic list. |
| `RecordRace.FreeFileIsSortedList` | Advanced_Unix_Programming/c7/f2.c:80-88 | For descending non-negative keys and any interleaving, no process meets a short record or reports a sorting error, and whenever the semaphore is free the file is an ascending list of exactly the keys stored. |
| `RecordRace.WriterStepInv` | Advanced_Unix_Programming/c7/f2.c:65-110 | Every step of the writer keeps this, although the link is written before the record. |
| `RecordRace.ReaderStepInv` | Advanced_Unix_Programming/c7/f2.c:135-147 | Every step of the reader keeps it. |
| `RecordRace.ReaderChecks` | Advanced_Unix_Programming/c7/f2.c:135-147 | Left alone with any file that is a list, the reader gets to the end of its walk and reports a sorting error exactly when the records are not in order. |
| `RecordRace.EveryMaximalRunFinishes` | Advanced_Unix_Programming/c7/f2.c:109-147 | Runs are bounded, and one that cannot be continued has stored every key and made every walk. |
| `Cwd.Process.GetCwd` | Advanced_Unix_Programming/c3/cwd.c:80-131 | It terminates; the path, if there is one, resolves from the root to the directory it started in, is one slash and one name after another and contains neither "." nor ".."; there is one exactly when every directory on the way is listed in its parent; the working directory is restored. |
| `Cwd.Process.FindChild` | Advanced_Unix_Programming/c3/cwd.c:104-117 | The name of an entry that is the child, exactly when the directory lists one. |
| `Cwd.Process.GetPathlist` | Advanced_Unix_Programming/c3/cwd.c:56-75 | The path fills the buffer sized by the first loop exactly: a slash and a name's length for every name. |
| `Directories.PathSplits` | Advanced_Unix_Programming/c3/cwd.c:56-75 | Splitting the path at its slashes gives the names back, and its length is that of the names and a slash for each. |
| `Directories.EntryOfChild` | Advanced_Unix_Programming/c3/cwd.c:106-112 | The entry that matches the child's device and inode is never "." or "..", and its name in front makes the path start one directory higher. |
| `TraversalList.List.AccessData` | UNIX_Systems_Programming/chapter02/listlib.c:18-46 | The first free slot, a new table or a doubled one: what the abstract list does. |
| `TraversalList.List.AddData` | UNIX_Systems_Programming/chapter02/listlib.c:48-65 | The item is appended and every traversal is where it was. |
| `TraversalList.List.GetData` | UNIX_Systems_Programming/chapter02/listlib.c:67-90 | The next item, the end of the list, or an error, and the pointer moved accordingly. |
| `TraversalList.List.Free` | UNIX_Systems_Programming/chapter02/listlib.c:92-99 | The key is freed if it is in range. |
| `Traversals.EveryRunOk` | UNIX_Systems_Programming/chapter02/listlib.c:18-99 | Over any sequence of calls the list is exactly the items callers added, in order; every live traversal has returned exactly the first of them, and is at the end exactly when the last item it returned was the tail when it was read. |
| `Traversals.AccessGivesFreshKey` | UNIX_Systems_Programming/chapter02/listlib.c:25-45 | A new key is one no live traversal has, across slot reuse and table doubling, and the other traversals are untouched. |
| `Traversals.AccessGivesLowestKey` | UNIX_Systems_Programming/chapter02/listlib.c:25-45 | It is the lowest free key; the table starts with eight slots and doubles exactly when all are taken. |
| `Traversals.DeadKeys` | UNIX_Systems_Programming/chapter02/listlib.c:67-99 | A freed key is no longer live, a key out of range cannot be freed, and a key that is not live cannot be read. |
| `Traversals.OthersUndisturbed` | UNIX_Systems_Programming/chapter02/listlib.c:18-99 | Only calls naming a key change its traversal. |
| `Traversals.ReadsToTheEnd` | UNIX_Systems_Programming/chapter02/listlib.c:67-90 | Left alone, a traversal returns all that is left, then the end, then its key is invalid. |
| `BubbleSort.Sorter.OnePass` | UNIX_Systems_Programming/chapter02/bubblesort.c:3-17 | The array after the pass, the interchanges counted, and whether there were any. |
| `BubbleSort.Sorter.Sort` | UNIX_Systems_Programming/chapter02/bubblesort.c:27-32 | The first n elements are a sorted permutation, the rest is untouched, and the counter has grown by the number of inversions they had. |
| `BubbleSort.SwapRemovesOne` | UNIX_Systems_Programming/chapter02/bubblesort.c:9-14 | Exchanging neighbours in the wrong order removes exactly one inversion. |
| `BubbleSort.SortedIffNoInversions` | UNIX_Systems_Programming/chapter02/bubblesort.c:27-32 | Sorted sequences are exactly those without inversions. |
| `BubbleSort.QuietPass` | UNIX_Systems_Programming/chapter02/bubblesort.c:30-31 | A pass without an interchange covered a sorted part, which justifies the early exit. |
| `BufferedIo.Input.Getc` | Advanced_Unix_Programming/c2/bufio.c:138-151 | The next byte of the stream, or -1 at its end and only there, whatever the reads return. |
| `BufferedIo.Output.Putc` | Advanced_Unix_Programming/c2/bufio.c:153-163 | The byte is appended to the stream and there is room for one more. |
| `BufferedIo.Output.WriteBuf` | Advanced_Unix_Programming/c2/bufio.c:121-136 | The flush loop writes the buffer exactly once and in order, whatever the writes accept. |
| `BufferedIo.Output.Close` | Advanced_Unix_Programming/c2/bufio.c:165-179 | Everything put is in the file. |
| `BufferedIo.Copy3` | Advanced_Unix_Programming/c2/x2.c:319-339 | The destination equals the source, for buffers of any size. |
| `BufferedIo.Copy2` | Advanced_Unix_Programming/c2/x2.c:248-275 | The destination equals the source. |
| `Barrier.NobodyReturnsEarly` | Advanced_Unix_Programming/c6/pcsync.c:35-50 | For any number of children and any interleaving, a child that has returned shows that all have announced themselves and that every other one can return. |
| `Barrier.EveryMaximalRunReturns` | Advanced_Unix_Programming/c6/pcsync.c:52-74 | A run that cannot be continued has 3n + 2 steps and every process has returned. |
| `Tokens.AllAreTheMaximalRuns` | UNIX_Systems_Programming/chapter02/makeargv.c:22-23 | The tokens successive calls find are exactly the maximal runs free of delimiters, in order. |
| `Tokens.SkipLeading` | UNIX_Systems_Programming/chapter02/makeargv.c:17 | Skipping leading delimiters changes no token and puts the first one at the buffer's base. |
| `MakeArgv.Memory.StrTok` | UNIX_Systems_Programming/chapter02/makeargv.c:22-39 | One call: the token, the terminator written, and where the next call continues. |
| `MakeArgv.Memory.Count` | UNIX_Systems_Programming/chapter02/makeargv.c:21-23 | The counting pass counts the tokens. |
| `MakeArgv.Memory.Fill` | UNIX_Systems_Programming/chapter02/makeargv.c:36-39 | The filling pass finds as many, and each pointer is to its token as a string of its own. |
| `MakeArgv.Memory.MakeArgv` | UNIX_Systems_Programming/chapter02/makeargv.c:5-43 | For every string and delimiters, NULL included: the count, a NULL-terminated array of exactly the tokens, and which blocks are allocated. |
| `MakeArgv.Memory.FreeMakeArgv` | UNIX_Systems_Programming/chapter02/freemakeargv.c:3-9 | Every block released is live and released at its base. |
| `MakeArgv.Memory.RoundTrip` | UNIX_Systems_Programming/chapter02/freemakeargv.c:3-9 | Making an array and freeing it leaves exactly the blocks there were. |
| `Environ.Process.SetEnv` | Advanced_Unix_Programming/c5/setenv.c:43-78 | The array in memory holds the list with the variable set: overwritten in place, replaced, appended to a larger array, or left alone; -1 exactly for NULL or an illegal name. |
| `Environ.Process.UnsetEnv` | Advanced_Unix_Programming/c5/setenv.c:80-99 | The array holds the list without the variable's last entry; -1 exactly for NULL or an illegal name. |
| `Environ.Process.SetNew` | Advanced_Unix_Programming/c5/setenv.c:29-41 | A new string at a place, all others as before. |
| `Environ.Process.ReplaceValue` | Advanced_Unix_Programming/c5/setenv.c:69-75 | The entry has the new value, whether or not the old buffer was long enough, and no other string changes. |
| `EnvList.MatchesOwnNameOnly` | Advanced_Unix_Programming/c5/setenv.c:56-57 | The test holds for an entry's own name and no other, in particular for no prefix of it. |
| `EnvList.SetGet` | Advanced_Unix_Programming/c5/setenv.c:43-78 | Setting changes the named variable, as `overwrite` says, and no other. |
| `EnvList.UnsetOther` | Advanced_Unix_Programming/c5/setenv.c:80-99 | Unsetting changes no other variable. |
| `EnvList.UnsetNamed` | Advanced_Unix_Programming/c5/setenv.c:90-97 | The variable is gone exactly when it did not occur twice. |
| `EnvList.SetChangesOneEntry` | Advanced_Unix_Programming/c5/setenv.c:55-77 | Setting writes one entry, over the first of that name or behind the last entry, and all others stay in their places. |
| `EnvList.UnsetRemovesOneEntry` | Advanced_Unix_Programming/c5/setenv.c:90-97 | Unsetting takes out the last entry of that name and nothing else. |
| `EnvList.DuplicateSurvives` | Advanced_Unix_Programming/c5/setenv.c:90-97 | With two entries, unsetting uncovers the first. |
| `EnvList.RunRepresents` | Advanced_Unix_Programming/c5/setenv.c:43-99 | From unique names, any run of calls keeps names unique and the array a faithful map. |

## Left out

- The `ux/` classes, the socket, pty, terminal and signal examples and the other messaging back ends: thin wrappers over system calls.
- Kernel modules, drivers, version probes and the Java and Win32 samples: no logic to model.
- Programs that are wrong on purpose and unlocked first versions: the locked or fixed version is modelled.
- Failing system calls (except the attach of a segment), malloc failure, error tracing, counter overflow, timing, and the creation and removal of semaphores and segments.
- The shell's signal handling, the effect of its builtins and its messages.
- `Shell.Shell.Command`: the processes are described for stages that are external commands and files with non-empty names; for any pipeline the descriptors are. A redirection whose file name does not fit its buffer, which leaves the buffer unterminated, is taken to leave no name.
- `Smi.UpperLaws`: upper case is that of the C locale.
- `RecordRace.FreeFileIsSortedList`: starts after the header record has been written, with strictly descending non-negative keys, as the program stores them.
- `TraversalList.List.AccessData`: slots added by `realloc` are taken to be NULL, which the search for a free slot relies on.
- `Environ.Process.SetEnv`: the entries are taken to lie in different buffers, as they do when names are unique.
- `BufferedIo.Input.Getc`: does not model the select timeout.
- The two client identifiers of the System V form are stored in one step.
- `BinTree.PostOrderNoRec`: trees with shared nodes are not covered; the pointer test is not meant for them.
