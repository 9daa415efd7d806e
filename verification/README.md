# KB-PM in Dafny

A verification project for KB-PM, a process supervisor written in C. It models the two parts of
the program where a mistake is hardest to see, and the file that joins them:

- the JSON engine (`lib/cJSON.c`): the parser on a character cursor, the printer that composes
  pieces and the printer that fills a growing buffer, the string escaper and the UTF-16 to UTF-8
  transcoder, the in-place minifier, and the doubly linked node tree;
- the supervisor (`src/server.c`, `src/process.c`): the request thread and the reaper thread over a
  table of apps, the kernel's children, and the saved file.

## How it is built

What the C code computes is written once as functions; the methods, which have the loops, cursors,
buffers and pointer writes of the source, are proved against them; the properties are lemmas
about the functions, and hold of the methods for that reason.

| files | contents |
|---|---|
| `CText`, `Literal`, `Json` | C strings, literals and values: what the parser, the printers and the escaper compute |
| `LiteralProofs`, `RoundTrip` | literal, UTF-8, number and value round trips |
| `Spelling`, `Syntax`, `Grammar`, `Faults` | every way to write a literal, a value and a text, what it means, and where a text goes wrong: a grammar that does not mention the parser, and the parser proved against it in both directions |
| `Layout` | how printed text looks, by scans of the text that do not mention the printers |
| `Safety`, `Domain`, `Parser` | which texts the parser reads inside its memory, and the recursive-descent parser with its cursors and output buffers |
| `Printer`, `BufferedPrinter`, `PowerOfTwo` | the two printers with their length sums, `ensure`, `update`, `pow2gt` |
| `Minifier`, `MinifyProofs`, `Squeezing` | the in-place minifier, why it keeps the meaning, and what it leaves of any spelling with comments |
| `Nodes`, `Ownership`, `Duplicate`, `References` | child chains and strings in a C heap, `cJSON_Delete`, `cJSON_Duplicate`, references |
| `ProcessTree` | `kill_process_by_pid` over the kernel's process forest |
| `ProcessList`, `Loading`, `AppFields` | the slots of the table, its JSON text, loading, deleting, and what a text says about an app |
| `Supervisor`, `SupervisorProofs`, `SupervisorRuns` | the supervisor as a state machine over all its slots, its invariant, and whole runs |
| `NewApps`, `StaleSlots`, `Leftovers` | runs that end with two live instances of an app, and exactly which files allow one |
| `Requests`, `Lifecycle` | what each request, the start of the service and each death change, field by field, and what they leave alone |
| `Replies`, `Answers` | that what a client is told is true, and exactly what it is |
| `Service` | the supervisor's handlers over an array of slots, each proved to be a step of the machine |

A C string is the bytes (characters 1 to 255) before its terminator, and a pointer into it is a
suffix. An access outside the text or the output is the outcome `Overrun`, and what is proved of a
method includes that it never reads or writes outside its arrays, follows a dead pointer or frees a
node or a string twice. `Safety.Safe` is the condition on a parsed text: every literal of its first
value has complete escapes. It can be wrong in any other way, and unclosed.

A step of the supervisor is one request or one handling of a reaped pid, each under the mutex. A
child's death, the reaper's `wait` outside the lock, the clock, and forks made elsewhere are steps of
their own, so they fall between the others in every order. The state holds the slots behind the count
too, because saving and deleting scan the array for the first slot without a name. A process id is a serial number of
forks: ids are only compared for equality, and an id is never used twice, so nothing is lost.

## Assumptions

- Memory allocation succeeds; `fork` succeeds and returns an id never used before; `kill` takes
  effect at once; no process forks while its tree is being killed.
- The text that was read of the file ends in a NUL. It has no more apps than there are slots, and a
  new app finds a slot.
- The invariant, and what follows from it, is of services started from an orderly file with distinct
  names (`Loading.Orderly`, which every file the service writes is), to which only apps with a name are
  added, fewer than 256. The handlers are proved for every other file as well. One live instance per app
  is proved of exactly the files that allow no other run, among those that leave the last slot free; for
  the same files stopped apps stay stopped, restarts are counted, removals are exact and responses are true.
- The startup loop ends before the first request. The clock does not move within one locked step.
- `parse_process_cJSON` falls off its end when it succeeds (src/process.c:267-268): that is success.
- A parsed text is safe as above; a minified one has closed literals and comments. A value that is
  copied with `strcpy` is a string.
- Printed integers are those of C's `int`. The text of a buffered print stays 21 bytes under 2^30,
  above which `pow2gt` would overflow.
- `(int)` of a number that does not fit is what x86-64 makes of it, and `atoi` saturates at 64 bits
  and is cut to 32, as in glibc.

## What the proofs found

- `print_value` on a non-empty formatted object with a print buffer returns a pointer to the index of
  the buffer that is the object's depth, and not to where its text starts, because the variable that
  holds the start is reused to count tabs (lib/cJSON.c:605-607). At the top level both are 0, so
  `cJSON_PrintBuffered` is right; the results of nested calls are dropped (lib/cJSON.c:462, 594).
  `BufferedPrinter.ReturnedAt` says which index is returned.
- `cJSON_Duplicate` copies a constant key with `strdup` and keeps the flag that says it is constant, so
  `cJSON_Delete` of the copy leaves that string allocated. Deleting a duplicate restores the heap if
  and only if no node of the tree has a constant key (`Duplicate.DeleteUndoesDuplicate`;
  `Duplicate.LeakedKey` is a tree that has one).
- `get_child_pids` passes over ids above 32767 (src/proc_status.c:42), so a tree is killed whole if
  and only if no descendant has such an id (`ProcessTree.KillsAllIffVisible`; `ProcessTree.HiddenChildSurvives` is such a tree).
- A file whose loading gives up halfway leaves apps in the slots that the count, then 0, does not
  include. The count fits the slots, at the start and in every state of every run from there, if and
  only if the file is orderly (`Loading.CountFitsIffOrderly`, `SupervisorRuns.TidyAlwaysIffOrderly`).
- No run ever has two live instances of an app, or one that no running entry tracks, if and only if the
  loaded apps have distinct names and no name is left behind the count from the third slot on
  (`Leftovers.NeverTwoIffNoLeftovers`). A name in a later slot lets `remove` close the gap there and drop a
  live app from the count: four requests are enough (`StaleSlots.TwoInstances`). A name left in one of the
  first two slots does no harm (`Leftovers.HarmlessLeftover`): while it is behind the count there is at most
  one app, and what drops out of the count is the app being removed. Removing an app without a name drops
  the last app instead.
- A new app without a name is counted but not found by a scan (`Loading.NewAppFitsIffNamed`).
- The reaper never saves. An app that it stops for good is still marked as running in the file until
  the next request (`SupervisorRuns.MarksKeptUnlessTooQuick`).
- The empty argument is a number to `is_number`, and `atoi` makes it 0: it addresses the first app
  (`StaleSlots.EmptyAddressesFirst`).
- Beyond JSON the parser takes one more leading zero, a minus without digits, a power without digits, any
  byte from 1 to 32 as a blank, a backslash before any character, `\u` escapes that are no character (dropped), and a
  literal that only the end of the text closes; nothing else (`Grammar.ParserIsGrammar`).
- The lookup of keys ignores case and takes the first match, and an object works as a list of apps.

## Model

| member | source | states |
|---|---|---|
| LiteralProofs.LiteralRoundTrip | lib/cJSON.c:193-309 | parsing the printed literal of any NUL-free byte string gives back its bytes and stops just past the closing quote, whatever follows |
| LiteralProofs.EscapeTaken | lib/cJSON.c:284-307 | both passes of the string parser take the escaper's output back byte for byte, and the count of the first covers the bytes |
| LiteralProofs.SecondPassFits | lib/cJSON.c:198-246 | with complete escapes, surrogates dropped or not, the decoding pass writes no more bytes than the counting pass found room for, and both stop at the same quote |
| LiteralProofs.LiteralIsLocal | lib/cJSON.c:204-244 | what a closed literal decodes to does not depend on what follows it |
| LiteralProofs.Utf8Inverse | lib/cJSON.c:230-238 | the bytes emitted for a scalar value are mapped back to it by a strict decoder written from section 4 of RFC 3629 |
| LiteralProofs.Utf8Unique | lib/cJSON.c:230-238 | no other byte sequence is: overlong forms and surrogates are not emitted |
| LiteralProofs.EscapeTranscodes | lib/cJSON.c:217-239 | a `\u` escape of any scalar value but 0, in any case of hexadecimal digits, decodes to its UTF-8 |
| LiteralProofs.PairTranscodes | lib/cJSON.c:222-238 | the surrogate pair of a supplementary character (section 2.1 of RFC 2781) decodes to its UTF-8 |
| LiteralProofs.DecodeCString | lib/cJSON.c:204-245 | no escape produces a NUL inside the decoded string |
| Spelling.SpelledLiteral | lib/cJSON.c:193-246 | the table of escapes: a literal written as plain bytes, a backslash before any character but `u` (five letters stand for control characters, all others for themselves), `\u` escapes in digits of either case, surrogate pairs, and escapes that are dropped, is decoded to the bytes that these stand for, and the first pass counts 1, 5 or 10 for each |
| Spelling.PiecesOf | lib/cJSON.c:193-246 | every text with complete escapes is such a literal |
| Spelling.EscapeChosen | lib/cJSON.c:284-307 | of all spellings the printer chooses, for each byte, the letter of a control character that has one, else four small digits, a backslash before quote and backslash, and the byte itself otherwise |
| RoundTrip.IntRoundTrip | lib/cJSON.c:96-115 | `parse_number` of a printed `int` gives it back and stops at its end, if the next character cannot extend a number |
| AppFields.DigitIs | lib/cJSON.c:102-102 | the ten digits are read and printed as their values; each further digit adds its value to ten times what is before it (`RoundTrip.DenotesAppend`) |
| RoundTrip.ValueRoundTrip | lib/cJSON.c:358-659 | parsing the print of any tree at any depth, formatted or not, before any text that cannot extend a number, gives the equal tree and exactly that text as what is left |
| RoundTrip.TextRoundTrip | lib/cJSON.c:325-351 | `cJSON_Parse` of `cJSON_Print` or `cJSON_PrintUnformatted` gives the tree back, also when the end of the text is required |
| Syntax.NumeralTaken | lib/cJSON.c:96-115 | a numeral with any sign, digits, fraction and power is read whole, as all its digits times ten to the power less the places after the point |
| Syntax.ValueSpelled | lib/cJSON.c:358-548 | any spelling of any value, with any blanks between its tokens, is parsed to what it means, with exactly what follows left |
| Syntax.TextSpelled | lib/cJSON.c:325-341 | the same of whole texts; when the end is required and more follows, the error pointer stands at the first byte that is no blank |
| Grammar.ParserIsGrammar | lib/cJSON.c:358-548 | in a safe text the parser returns a value and a cursor if and only if the text up to the cursor is a spelling of the value |
| Faults.FaultFound | lib/cJSON.c:358-548 | a text well spelled up to where no value, key, colon, comma or closing bracket goes on fails with the error pointer there, at every depth |
| Parser.SkipAt | lib/cJSON.c:322-322 | the cursor passes exactly the blanks |
| Parser.ParseNumberAt | lib/cJSON.c:96-115 | the cursor loops compute sign, digits, point and exponent as an exact decimal, which the source then rounds to a double, and end where the number does |
| Parser.ParseHex4At | lib/cJSON.c:178-189 | the value of four hexadecimal digits, or 0, without reading past the first that is none |
| Parser.MasksAreRemainders | lib/cJSON.c:227-235 | the masks and shifts on 32-bit words are the remainders and quotients of the model |
| Parser.MarksAreAdded | lib/cJSON.c:236-236 | the first byte's mark shares no bit with the character, so or is addition |
| Parser.WriteUtf8 | lib/cJSON.c:230-238 | the bytes written backwards, falling through the cases, are the UTF-8 form, inside the output |
| Parser.CountLoop | lib/cJSON.c:198-198 | the counting loop returns the count of the first pass |
| Parser.ParseStringAt | lib/cJSON.c:193-250 | in a safe text the two passes, inside the text and inside their buffer of `len + 1` bytes, compute the decoded string and the cursor after it; what that is for every spelling is `Spelling.SpelledLiteral` |
| Parser.ParseValueAt | lib/cJSON.c:358-370 | in a safe text the recursive descent stays inside its memory and computes the value and the cursor, or the error pointer |
| Parser.ParseArrayAt | lib/cJSON.c:407-432 | the same of the loop over elements and commas, with every failure |
| Parser.ParseObjectAt | lib/cJSON.c:515-548 | the same of the loop over keys, colons and values, with every failure |
| Parser.ParseTextAt | lib/cJSON.c:325-339 | the whole parse of any safe text, with or without the demand that nothing follows |
| Safety.SafeString | lib/cJSON.c:193-250 | where a literal may stand in a safe text, neither pass leaves the text and the second fits what the first allocated |
| Safety.SafeValue | lib/cJSON.c:358-548 | no value of a safe text makes the parser leave its memory, and inside an array or object what follows a value is safe again |
| Safety.SafeText | lib/cJSON.c:325-341 | a text whose literals have complete escapes is parsed inside its memory, whatever else is wrong with it |
| Safety.PrintSafe | lib/cJSON.c:373-659 | printed text is safe before any safe text, and at the top level before any text at all |
| Domain.SpelledText | lib/cJSON.c:325-341 | every spelling of every value, with blanks around it and anything after it, is a safe text when its escapes have four digits: all that is proved of the parser's cursors and buffers holds of it |
| Printer.LiteralLength | lib/cJSON.c:266-280 | the counting pass finds the length of the literal, and its flag is off only when nothing needs an escape |
| Printer.PrintStringPtr | lib/cJSON.c:253-309 | the literal is written into exactly the `len + 3` bytes that were computed |
| Printer.ComposeArray | lib/cJSON.c:476-510 | the length summed over the entries covers every byte written, terminator included |
| Printer.PrintArray | lib/cJSON.c:435-512 | the composed text of an array of any children is its print |
| Printer.ComposeObject | lib/cJSON.c:620-655 | the length summed over names and entries covers every byte written, at every depth and both formats |
| Printer.PrintObject | lib/cJSON.c:551-659 | the composed text of an object is its print, which `Layout.PrintLaid` and `Layout.PrintCompact` fix to the byte |
| Printer.PrintValue | lib/cJSON.c:373-404 | the composing printer writes the print of any tree without leaving its buffers |
| Layout.PrintLaid | lib/cJSON.c:373-659 | by a scan of the text: in a formatted print each colon is followed by one tab, each comma of an array by one space, each opening brace and each member by a newline, each newline by as many tabs as brackets are open, one fewer before a closing brace, and no other blank stands outside literals |
| Layout.PrintCompact | lib/cJSON.c:373-659 | by a scan of the text: in an unformatted print no blank stands outside literals |
| PowerOfTwo.SmearStep | lib/cJSON.c:117-117 | one shift-and-or doubles the run of ones below the top bit |
| PowerOfTwo.Pow2Gt | lib/cJSON.c:117-117 | the least power of two that is not below `x`, for 1 <= x <= 2^30 |
| BufferedPrinter.PrintBuffer.Ensure | lib/cJSON.c:121-136 | the space asked for is there, by a buffer of the least power of two that holds it if there was too little, and every byte already written is kept |
| BufferedPrinter.PrintBuffer.Update | lib/cJSON.c:138-144 | the offset, however far it lagged, ends after the text |
| BufferedPrinter.PrintBuffer.PrintArray | lib/cJSON.c:447-474 | an array is appended as its print, each write inside what `ensure` granted |
| BufferedPrinter.PrintBuffer.PrintObject | lib/cJSON.c:566-608 | an object is appended as its print, of the same layout; the returned pointer is the start except where the start was overwritten |
| BufferedPrinter.PrintBuffer.PrintValue | lib/cJSON.c:373-390 | any tree is appended as its print, through any number of reallocations |
| BufferedPrinter.PrintBuffered | lib/cJSON.c:347-354 | for every positive first size and both formats, the text is that of the composing printer |
| BufferedPrinter.PrintCString | lib/cJSON.c:373-659 | the text of a printable tree holds no NUL |
| Minifier.MinifyInPlace | lib/cJSON.c:747-762 | the in-place loop leaves the minified text; the write cursor never overtakes the read cursor |
| Minifier.CopyLiteral | lib/cJSON.c:757-757 | the literal branch copies exactly up to the quote at which the parser's counting pass stops |
| Minifier.MinifyCString | lib/cJSON.c:747-762 | the result is a C string no longer than the text |
| MinifyProofs.SkipMinify | lib/cJSON.c:750-756 | minifying and skipping blanks commute |
| MinifyProofs.NumberMinify | lib/cJSON.c:96-115 | minifying moves no boundary of a number: the same number is read, and what follows it minified |
| MinifyProofs.ValueMinify | lib/cJSON.c:358-548 | a value followed by a separator is parsed from the minified text as the same value |
| MinifyProofs.MinifyPreservesMeaning | lib/cJSON.c:747-762 | a well-quoted text that parses fully still does when minified, to the same tree |
| MinifyProofs.MinifyKeepsMeaning | lib/cJSON.c:747-762 | what the in-place loop leaves in the buffer parses to the value the text parsed to |
| MinifyProofs.WellQuotedSafe | lib/cJSON.c:747-762 | every text in the minifier's domain is safe for the parser, at every depth |
| MinifyProofs.WellQuotedParses | lib/cJSON.c:325-341 | so the parser stays inside its memory on it |
| MinifyProofs.PrintMinify | lib/cJSON.c:344-345 | the print of a tree before any text is minified to the unformatted print before the minified text |
| MinifyProofs.MinifiedPrintIsUnformatted | lib/cJSON.c:344-345 | minifying `cJSON_Print` gives byte for byte `cJSON_PrintUnformatted` |
| Squeezing.ValueSqueezed | lib/cJSON.c:747-762 | any spelling of any value, with any blanks and comments of both kinds between its tokens, is minified to the same tokens with nothing between them but the blanks it does not know (bytes other than space, tab and line ends), and what follows is minified after it |
| Squeezing.CommentedMeaning | lib/cJSON.c:755-756 | so a text with comments, which the parser refuses, is parsed when minified to the value that was written |
| Nodes.Heap.Walk | lib/cJSON.c:663-663 | the walk by a count ends on the item at that position, or on null past the end, without following a dead link |
| Nodes.Heap.GetArraySize | lib/cJSON.c:662-662 | the length of the abstract sequence |
| Nodes.Heap.AddItemToArray | lib/cJSON.c:683-683 | append; the chain stays acyclic with next and prev inverse |
| Nodes.Heap.DetachItemFromArray | lib/cJSON.c:689-690 | removal at the head, inside or at the tail, the item left detached; nothing past the end |
| Nodes.Heap.InsertItemInArray | lib/cJSON.c:696-697 | insertion at a position, or an append past the end |
| Nodes.Heap.SwapItemInArray | lib/cJSON.c:698-700 | replacement in the sequence; the old item left detached |
| Nodes.DetachCorrect | lib/cJSON.c:690-690 | the four pointer writes of a detach turn the chain of `s` into that of `s` without one item and touch nothing else |
| Nodes.InsertCorrect | lib/cJSON.c:697-697 | the same of an insertion |
| Nodes.ReplaceCorrect | lib/cJSON.c:699-700 | the same of a replacement |
| Ownership.Delete | lib/cJSON.c:81-93 | frees exactly the nodes a chain of trees owns and the strings those own under their flags, each once and while still allocated; the rest of the heap is untouched |
| Ownership.FreeNode | lib/cJSON.c:88-90 | a node's value unless it is a reference, its key unless that is constant, and the node |
| Ownership.ReplaceItemInArray | lib/cJSON.c:698-700 | replaces the item and frees exactly the nodes and strings it owned |
| Ownership.ReferencesSurvive | lib/cJSON.c:87-88 | deleting a container with reference nodes leaves the referenced tree as it was: nodes, links and strings |
| References.CreateReference | lib/cJSON.c:680-680 | the heap with one fresh detached node, which shares the children and the value string, has no key, and owns only itself |
| References.NotBelowItself | lib/cJSON.c:735-743 | a whole tree has no cycle |
| References.AddItemReferenceToArray | lib/cJSON.c:686-686 | appends a reference to any item, even the list itself or what contains it; all strings stay, a list that could be deleted still can, and the referenced tree stays when neither the list nor another of its children is part of it |
| References.ReferenceOwned | lib/cJSON.c:680-686 | the list owns what it did and the new node, no node or string twice |
| References.DeleteWithReference | lib/cJSON.c:81-93 | deleting the list with the reference leaves exactly the heap that deleting it without would have left, whatever the item is |
| References.ItemSurvives | lib/cJSON.c:81-93 | after the reference is added and the list deleted, an item of another tree is as before both: nodes, links, contents and strings |
| Duplicate.Duplicate | lib/cJSON.c:720-745 | a recursive copy is an equal tree, numbers included, of fresh nodes and fresh strings, each string in one node only; a shallow one a single such node |
| Duplicate.DeleteUndoesDuplicate | lib/cJSON.c:81-93 | deleting a recursive copy frees every node again and leaves over exactly its copies of constant keys: the heap is as before if and only if no node of the tree has a constant key |
| Duplicate.LeakedKey | lib/cJSON.c:685-685 | an object with one constant key, as the CS variant of adding makes it, whose deleted duplicate never restores the heap |
| ProcessTree.Kernel.GetChildPids | src/proc_status.c:32-54 | the live children with an id from 1 to 32767, each once |
| ProcessTree.Kernel.KillProcessByPid | src/process.c:63-77 | terminates and kills exactly the process and the descendants its listings connect to it, though every kill gives children to init; of its children exactly those with an id from 1 to 32767 |
| ProcessTree.TreeSurvives | src/process.c:67-75 | killing others leaves the tree below a process intact, so the list taken before the kill is still right after it |
| ProcessTree.ChildrenApart | src/process.c:72-75 | the trees of two children share nothing, so no process is killed twice |
| ProcessTree.KillsAllIffVisible | src/proc_status.c:41-42 | every descendant dies if and only if none has an id above 32767 |
| ProcessTree.PathKilled | src/process.c:63-77 | a descendant dies if and only if every id on its way up, below the process killed, is from 1 to 32767; if not, it lives on, as a child of init if its parent died |
| ProcessTree.ChildSurvivesIff | src/proc_status.c:41-42 | a child survives the kill of its parent if and only if its id is above 32767 or not positive |
| ProcessTree.StopsOneChild | src/process.c:63-77 | killing one child's tree takes just that child from the children of its parent: the others keep their whole trees, and nothing that the listing connects to the one killed is left |
| ProcessTree.HiddenChildSurvives | src/proc_status.c:41-42 | a child with id 40000 outlives the kill of its parent |
| ProcessList.Strcasecmp | lib/cJSON.c:39-44 | equality up to the case of ASCII letters |
| ProcessList.GetItem | lib/cJSON.c:664-664 | the first member whose key matches without regard to case |
| AppFields.LowerSame | lib/cJSON.c:39-44 | two strings are equal after lowering if and only if each pair of characters is the same character or the two cases of one ASCII letter |
| AppFields.ItemIsFirst | lib/cJSON.c:664-664 | the item found is the first whose key has the same letters, and none is found if there is none |
| ProcessList.ParseProcessCJSON | src/process.c:234-268 | the four fields copied in turn until a key is missing, the rest of the slot kept |
| AppFields.FilledSays | src/process.c:234-268 | the slot takes the strings that the object says under the four keys, in order and none after one that is missing, and the mark when all are there |
| AppFields.IntIs | lib/cJSON.c:112-114 | the mark of a number is the integer towards zero from it when that fits in 32 bits; that of `true` is 1, of anything else 0 |
| ProcessList.ParseProcessList | src/process.c:151-181 | fills the slots in place from an array or object root and returns the size, or -1 at the first broken item |
| ProcessList.CreateProcessListJson | src/process.c:330-361 | the formatted text of the array of the first `count` apps |
| AppFields.SavedText | src/process.c:330-361 | the file to the byte: a list of objects with the lines `app_name`, `cmd`, `dir` and `is_running` in this order |
| ProcessList.ProcessRoundTrip | src/process.c:422-428 | reading a written process back restores its four saved fields and no others |
| AppFields.WrittenSays | src/process.c:422-428 | what is written of an app says its name, command, directory and mark under these keys |
| ProcessList.TableRoundTrip | src/process.c:133-181 | reading a saved table back restores names, commands, directories and running marks in order, whatever garbage follows the file in the buffer |
| ProcessList.GetProcessListCount | src/process.c:79-87 | the index of the first nameless slot |
| ProcessList.DelProcessByAppName | src/process.c:106-131 | the last match is closed over in place, every later id one lower; -1 and no change when there is none |
| ProcessList.ShiftRemoves | src/process.c:123-128 | the scanned table after the shift is the old one without that app |
| ProcessList.ParsedText | lib/cJSON.c:325-341 | every string and key of a parsed tree is NUL-free |
| Loading.FilledSlots | src/process.c:165-178 | loading fills every slot up to the first broken item, and that one in part |
| Lifecycle.LoadedExact | src/process.c:151-181 | what the 256 slots and the count are after loading a text with up to 256 items |
| Loading.CountFitsIffOrderly | src/server.c:144-148 | after loading, the count and the slots agree if and only if every app is complete and named, or nothing named was loaded before giving up |
| Loading.HalfLoaded | src/process.c:173-177 | a concrete file without a command leaves a named slot that the count does not include |
| Loading.NewAppFitsIffNamed | src/server.c:549-551 | a scan finds a new app if and only if it has a name |
| SupervisorProofs.StartKeeps | src/server.c:555-587 | a start keeps the invariant when no child of the entry is alive and the count is the one due |
| SupervisorProofs.StopKeeps | src/server.c:589-602 | a stop keeps it and leaves the entry stopped |
| SupervisorProofs.RestartKeeps | src/server.c:604-609 | a restart keeps it |
| SupervisorProofs.RemoveKeeps | src/server.c:611-621 | a removal keeps the invariant and takes out exactly entry `i` |
| SupervisorProofs.DeletedHere | src/process.c:106-131 | among tidy slots the deletion by name takes out the very entry that was addressed and leaves the slots tidy |
| SupervisorProofs.StepSound | src/server.c:183-327 | every possible step keeps all slots printable, whatever the file left in them |
| SupervisorProofs.StartWithCmdKeeps | src/server.c:545-553 | a new app keeps it |
| SupervisorProofs.ResolvedHere | src/server.c:364-402 | whatever entry an argument resolves to, by id or by name, `get_pos_in_process_list` returns to that same entry |
| SupervisorProofs.HandleFinds | src/server.c:199-224 | the reaper's loop revives or stops the one entry with the pid, and going on finds no other |
| SupervisorProofs.HandleKeeps | src/server.c:193-225 | handling a reaped pid keeps the invariant, and names, commands and directories |
| SupervisorProofs.SavedReloads | src/server.c:322-322 | with tidy slots the saved text is that of the table, and is loaded as exactly the four saved fields of every app |
| SupervisorProofs.StepKeeps | src/server.c:183-327 | names are distinct, entry `i` has id `i`, running entries have distinct positive pids and stopped ones 0, every live child is tracked, every dead one awaited, counts are right, the slots behind the table are nameless, and the file holds the same apps: every step keeps this |
| SupervisorProofs.RunKeeps | src/server.c:183-327 | so does every run of requests, deaths, reaps and handlings in any order |
| SupervisorRuns.StartupKeeps | src/server.c:142-181 | a service started from an orderly file satisfies the invariant and runs exactly the apps that the file marks |
| Lifecycle.StartupExact | src/server.c:139-181 | whatever table is loaded: the marked apps and no others are started, in order, under the first pids, each with its name, command and directory, its place as id, count 0 and the clock; nothing else changes |
| SupervisorRuns.Reached | src/server.c:127-327 | the invariant holds in every state that a service reaches from an orderly file |
| SupervisorRuns.TidyAlwaysIffOrderly | src/server.c:144-327 | the count and the slots agree in every state of every run if and only if the service was started from an orderly file |
| SupervisorRuns.SavedIsOrderly | src/process.c:133-147 | every file the service saves in its invariant is orderly, with distinct names |
| SupervisorRuns.KillMatchesTree | src/process.c:56-77 | over every process forest, what `Kill` does to the live children is what killing the tree of the pid does to the children of the server |
| SupervisorRuns.OneChildPerApp | src/server.c:184-226 | while the table is in order, no app has two live children, and each live child is the pid of exactly one running entry |
| SupervisorProofs.RemoveOnly | src/server.c:611-621 | removing the only entry keeps the table in order whatever names the first two slots hold |
| SupervisorProofs.StepClear | src/server.c:183-327 | every step keeps the table in order and the slots from the third on clear behind the count, whether or not a scan finds the count |
| SupervisorRuns.NeverTwoChildren | src/server.c:127-327 | from a file that leaves no name behind the count from the third slot on, no run ever has two live instances of an app, or a live instance that no running entry tracks |
| SupervisorRuns.ReachedClear | src/server.c:127-327 | every state reached from such a file has its table in order and the slots from the third on clear behind the count |
| SupervisorRuns.OrderlyNoLeftovers | src/server.c:144-148 | orderly files with distinct names are such files |
| Leftovers.NeverTwoIffNoLeftovers | src/server.c:127-327 | among the files that leave the last slot free, exactly those: every other one has a run that fails |
| Leftovers.NamesakesTwice | src/server.c:623-637 | two entries of one name, and `startall`: two live instances |
| Leftovers.NamelessLoses | src/server.c:516-543 | an entry without a name, a new app, and the removal of the nameless one: the new app is alive in no entry |
| Leftovers.NamelessStays | src/process.c:106-131 | when no new app fits, removing the first app makes room and leaves a nameless entry |
| Leftovers.HarmlessLeftover | src/process.c:173-177 | a file that is not orderly and still among them |
| StaleSlots.EmptyAddressesFirst | src/server.c:349-362 | the empty argument resolves to the first app |
| StaleSlots.LastDropped | src/process.c:106-131 | a removal whose gap is in no entry leaves the last app out of the table without stopping it |
| StaleSlots.StaleTwice | src/server.c:127-327 | for a name in any slot from the third on: new apps up to that slot, the first under its name, the removal of that first one and the last one again leave two live instances, one in no entry |
| StaleSlots.TwoInstances | src/server.c:144-327 | a file of three apps for which that run has four requests |
| NewApps.AddsFill | src/server.c:545-553 | new apps fill the slots from the first on and leave the later ones as they were |
| SupervisorRuns.DownUntilReached | src/server.c:193-327 | a step makes a stopped app run if and only if it is a start that reaches it |
| SupervisorRuns.NoResurrection | src/server.c:193-225 | a stopped app stays stopped, with no live child, through every run without such a start, even when its old pid was reaped before the stop and is handled after it |
| SupervisorRuns.StaysDown | src/server.c:127-327 | the same of every run of a service whose file left no name behind the count from the third slot on |
| SupervisorRuns.StopsAreDown | src/server.c:460-486 | `stop` of an app and `stopall` leave it stopped |
| Requests.StopExact | src/server.c:460-486 | `stop` of an app takes its pid from the live children and clears its mark, pid, count and start time, if it runs; every other entry and every other child is as before |
| Requests.StartExact | src/server.c:439-450 | `start` of an app that is stopped gives it one new child, the mark, count 0 and the clock; nothing else changes |
| Requests.RestartExact | src/server.c:488-514 | `restart` of an app that runs replaces its child by one new one and sets the count to 1; nothing else changes |
| Requests.RemoveExactly | src/server.c:516-543 | `remove` takes the app and its child and nothing else, and lowers the later ids |
| Requests.NewExact | src/server.c:427-438 | `start` with a text that describes an app under a new name appends exactly that app, with its own name, command and directory, its place as id, a new pid, the mark, count 0 and the clock; every earlier entry and child is as before |
| Requests.SpelledNewExact | src/server.c:427-438 | so it is for every spelling of the description |
| Requests.PrintedNewExact | src/server.c:545-553 | so it is for what is printed of any savable app |
| Requests.NothingNew | src/server.c:427-434 | `start` with a text that describes no app, or one under a name that is taken, changes nothing |
| Requests.NothingElse | src/server.c:404-414 | nor do the other requests that find no app |
| Requests.ListedEnabled | src/server.c:266-325 | any request for a listed app is possible while the table is in order |
| Requests.FileExact | src/process.c:133-147 | after every request, in every state, the file is to the byte that of the named slots before the first nameless one, whatever the count is |
| Requests.StartAllExact | src/server.c:623-637 | `startall` starts each stopped entry in order, pids being dealt in order, and leaves the running ones and their children alone |
| Requests.StopAllExact | src/server.c:639-652 | `stopall` clears each running entry and leaves the stopped ones as they are; no child is left alive |
| SupervisorRuns.CrashHandled | src/server.c:202-222 | a dead process is replaced by one new child and a count one higher if and only if it was not started this second; no other entry changes |
| Lifecycle.HandleExact | src/server.c:199-224 | the entry and the children afterwards, field by field: the count one higher and the clock for a revived app, mark and pid cleared for one that was too quick |
| Lifecycle.CrashRun | src/server.c:193-225 | the death, the wait, the clock at any second, forks made elsewhere and the handling, as one run: exactly the entry and the child change |
| SupervisorRuns.StaleHandled | src/server.c:199-224 | a pid whose app was stopped, restarted or removed meanwhile changes nothing |
| SupervisorRuns.RemoveExact | src/server.c:516-543 | `remove` deletes exactly the addressed app: the others keep everything but an id one lower after the gap, and no child of it is left |
| SupervisorRuns.RequestPersists | src/process.c:133-147 | after every request the file is read back as the current names, commands, directories and running marks, in order |
| SupervisorRuns.ServiceRestart | src/server.c:144-181 | a service started from the file after a request has the same table and the invariant, with the marked apps running again, each with a live child |
| SupervisorRuns.MarksKeptUnlessTooQuick | src/server.c:210-216 | handling a pid makes the file's running marks stale if and only if it stops an app for good |
| SupervisorRuns.RestartsMeans | src/server.c:217-220 | the count kept by the invariant is the number of automatic restarts after the last explicit start or restart, plus one if that was a restart |
| SupervisorRuns.CountsRestarts | src/server.c:217-220 | while the table is in order that is the `restart_times` of each running app |
| SupervisorRuns.AlwaysCounts | src/server.c:127-327 | so it is in every state reached from such a file |
| Replies.ReplyTruthful | src/server.c:266-320 | every response is true of the states around the request: an app said to be started or restarted runs with a live child of that pid, one said to be stopped or removed has none, an error or a refusal changed nothing |
| Replies.StartCmdTrue | src/server.c:427-438 | a duplicate name is refused without a change, and exactly then |
| Answers.NumberIs | src/server.c:349-362 | an argument is an id if and only if it is all digits: its decimal value, stopped at 64 bits and cut to 32, when that is below the count |
| Answers.EntryReply | src/server.c:416-543 | the response to each of the four requests for a listed app, running or stopped |
| Answers.MissingReply | src/server.c:404-414 | what finds nothing is called an id if it is all digits and a name otherwise |
| Answers.NewReply | src/server.c:427-438 | a new app is answered with its name and the next pid, or refused under a name that is taken |
| Answers.OtherReplies | src/server.c:266-320 | the other commands have their own responses, and anything else is an error |
| Service.Server.StartProcess | src/server.c:555-587 | one fork; pid, running mark, count 0 and start time set |
| Service.Server.StopSlot | src/server.c:589-602 | the child killed and the fields cleared, only if it is marked as running; the descendants follow by `SupervisorRuns.KillMatchesTree` |
| Service.Server.RestartSlot | src/server.c:604-609 | a stop, a start, and a count of 1 |
| Service.Server.RemoveSlot | src/server.c:611-621 | a stop, the deletion by name among the scanned slots, and a count one lower, whatever the slots hold |
| Service.Server.StartWithCmdSlot | src/server.c:545-553 | the new app in the first free slot with its own name, command and directory, its place as id, a new pid, the mark, count 0 and the clock; no other slot changes |
| Service.Server.StartAll | src/server.c:623-637 | the loop starts each entry that is not running |
| Service.Server.StopAll | src/server.c:639-652 | the loop stops each entry that is |
| Service.Server.FindName | src/server.c:392-402 | the first entry with the name |
| Service.Server.ParseProcessAndType | src/server.c:364-390 | resolution by id, then by name, then as JSON |
| Service.Server.StartRequest | src/server.c:416-458 | the start handler is the start of the machine with its response, a duplicate name refused; no two slots change |
| Service.Server.StopRequest | src/server.c:460-486 | the stop handler and its response: the machine's stop, which `Requests.StopExact` states field by field; no two slots change |
| Service.Server.RestartRequest | src/server.c:488-514 | the restart handler and its response; no two slots change |
| Service.Server.RemoveRequest | src/server.c:516-543 | the remove handler, whose response is decided on a copy made before the removal |
| Service.Server.HandleRequest | src/server.c:266-325 | one request from lock to unlock is one step of the machine, saving included, with its response, whatever the slots hold |
| Service.Server.HandlePending | src/server.c:194-225 | the reaper's loop under the lock is one step of the machine |
| Service.Server.ReviveSlot | src/server.c:217-220 | the count is saved across the start that zeroes it |
| Service.Server.ServiceStart | src/server.c:139-181 | loading any file, halfway or whole, numbering and starting is the start of the machine |
| Service.Server.Interleave | src/server.c:183-327 | over every run that C defines, the server's state is the machine's |
| Service.RunService | src/server.c:127-327 | from any file on, every run that C defines leaves the server in the machine's state |
| Service.RunOrderly | src/server.c:127-327 | from an orderly file, with every new app named, the invariant holds as well |
| Service.Server.CountIsScan | src/process.c:79-87 | with tidy slots `process_count` is what a scan for the first nameless slot finds |

## Left out

- Floating point: fractions and exponents are kept as exact decimals, not rounded to doubles, and only the integer branch of `print_number` is modelled.
- The parser builds values, not linked nodes; the node tree is modelled apart from it.
- Sockets, daemonising, signals, `exec`, opening files and reading `/proc`: the kernel is the state of the machine, and `/proc` a map of parents.
- The wording of responses and of syslog, and the memory figures of the `status` answer; responses are values.
- The client, the command line, and the drawing of tables.
- Fixed buffer sizes (512, 4096 and 40960 bytes), the limit of 4096 children in `kill_process_by_pid`, and the width of ids, counts and times.
- The first bytes that `pong_and_receive_data` clears: a command and its argument are C strings of their own.
- Requests during the startup loop; starts of one request that read different seconds.
- Faults.FaultFound: a literal that the end of the text cuts off inside a bracket is not among the faults.
- Malformed or truncated escapes inside the first value of a parsed text; unterminated literals or comments in a minified one: preconditions.
- More loaded apps than slots, and a new app when all 256 are taken: preconditions.
- Key arguments that are null, `cJSON_CreateIntArray` and its like, the object variants of detach and replace, allocation hooks and allocation failures: simple variants of what is here.
- Supervisor.Kill: concerns the server's own child only; `SupervisorRuns.KillMatchesTree` ties it to the killing of the tree below it.
