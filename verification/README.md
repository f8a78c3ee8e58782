# L4OS: paging, line editing and file bookkeeping, verified in Dafny

L4OS is a small operating system: a root server, SOS, on the L4 microkernel, and user programs.
This project models the parts of it where the most state is changed in place and proves what
they keep.

* **The demand pager** (`sos/pager.c`). Faults enter a queue of requests. Each answer of the file
  system moves the request at the head one stage on: open, seek, read, close for a page coming in,
  open, write, close for a page going out. A page coming in may put a page going out in front of
  itself; the page that goes out is chosen by second chance; a frame budget limits how many pages
  are resident. Proved: over every sequence of events user programs see plain memory; the budget
  equation holds in every state, so the assertions of the code never fail; waiting processes are
  answered once each, in order, and with answers from the file system the queue always empties.
  The second-chance queue is followed as a clock over whole runs: which page enters where, which is
  marked and mapped, which is the next victim.
  Files: `PagerState`, `PagerLemmas`, `PagerQueue`, `PagerClock`, `PagerStart`, `PagerFinish`,
  `PagerContinue`, `PagerExit`, `PagerRun`.
* **Copies between user memory and buffers** (`sos/pager.c`), one page at a time with the size and
  the offset packed in one word: `CopyBuffer`.
* **The free lists, and the list type** behind the pager: `FreeList`, `SwapFile`, `FrameTable`,
  `LinkedList`.
* **ed's line buffer** (`bin/.ed`). A circular doubly linked list is edited by relinking; its undo
  stack holds only node pointers and relies on removed nodes keeping their old links. Proved: undo
  restores the buffer exactly and a second undo redoes, pointer by pointer; freeing the undo stack
  frees exactly the nodes off the buffer, once each; the position cache always agrees with a walk;
  global commands visit exactly the marked lines that no earlier visit has named, in order, once each,
  and only while they are on the buffer. Files: `EdLinks`, `EdStack`, `EdUndo`, `EdBuffer`, `EdActive`,
  `EdEdit`, `EdSubst`, `EdHistory`, `EdFree`, `EdCommand`, `EdSession`.
* **VFS and NFS bookkeeping** (`sos/vfs.c`, `sos/nfsfs.c`): descriptor tables and reference counts
  with opens in flight, the list of open vnodes, the queue of NFS requests, directory listings: `Vfs`,
  `VnodeList`, `Nfs`.

The whole-run theorems (`PagerRun.Serve`, `EdSession.UndoRedo`, `EdSession.ExecGlobal`, `Vfs.Serve`,
`Nfs.Serve`) are about every sequence of inputs. They return the states the run went through as ghost
results, with a relation that says what each input did to them: `PagerRun.Happens`,
`EdCommand.Executed`, `Vfs.Step`, `Nfs.Logged`.

`SeqUtil`, `Options` and `Words` hold facts about sequences, optional values and words in memory.

The state of the pager, of ed and of the VFS tables is one record each. The operations are methods
that take the record and return the changed one, with ghost parameters for what the record stands
for; a class on top of them (`VirtualPager`, `Editor`) changes its state in place.

Where the code does not do what it is meant to do, the code is modelled as it is:

* Deleting a process gives back no swap slot, because the test compares the wrong word with the mark
  for "all" (`PagerExit.ProcessDelete`; `PagerRun.LostSlotExample` is an instance).
* `frames_free` reports one frame less than there are (`FrameTable.Table.FramesFree`).
* `swapslot_alloc` does not notice that the swap file is full; the head of its list is then not a
  slot (`SwapFile.Swapfile.Exhausted`).
* A copy whose running size passes sixteen bits is cut short, or goes on from page to page until it
  leaves the memory of the process, which is then killed; the exact conditions are
  `CopyBuffer.AppendExact`, `CopyBuffer.FirstExact`, `CopyBuffer.NeverDone` and `CopyBuffer.CopyInRun`.
* A page touched for the first time holds zeros only if a page had to go out for it; otherwise it
  shows what its frame held last (`PagerStart.PagerMap`, `PagerFinish.GiveHead`).
* Duplicating a descriptor onto itself closes it, and if another descriptor names the file its count
  is wrong from then on: `Vfs.Dup` has the exact condition, `Vfs.SelfDupExample` an instance.
* A vnode can be freed while the file system still works on its first open: when another process
  opens and closes the file in between, or is refused by the limits of the vnode. `Vfs.Perform` has the
  exact condition, `Vfs.CloseStrands` and `Vfs.OpenStrands` an instance each.
* Removing a vnode that is not on the global list drops the whole list (`VnodeList.GlobalVnodes.Remove`).
* NFS tokens repeat where the 32-bit counter wraps: `Nfs.CollideIff` and `Nfs.QueueCollides` say exactly
  when two queued requests share a token. The order of completion does not depend on it.

## Model

| member | source | states |
|---|---|---|
| `PagerQueue.DeleteAllocList` | sos/pager.c:279-313 | Terminates; the page taken is the first unreferenced one in queue order, or the original head if all are referenced; the queue is left as the matching rotation with exactly the skipped reference bits cleared; every page keeps its contents |
| `PagerStart.StartSwapin` | sos/pager.c:1051-1085 | The first free frame is pinned, which always exists; the invariant of the pager holds with the open outstanding, and nobody's place in the queue changes |
| `PagerStart.StartSwapout` | sos/pager.c:1098-1152 | With the budget used up a victim exists; it is the second-chance victim; it gets the first free slot, is marked and mapped no more, and its swap-out stands in front of the swap-in that needs the frame; no page changes contents |
| `PagerStart.VictimSwept` | sos/pager.c:279-313 | The loop is one sweep of the clock: the pages passed over go to the end, unmarked and unmapped, and the first unmarked one, or the first of all, is taken |
| `PagerStart.PagerFrameAlloc` | sos/pager.c:315-333 | Yields 0 exactly when the budget is used up, and otherwise the first free frame, which always exists |
| `PagerStart.BudgetFrame` | sos/pager.c:318-324 | The budget is never negative and never above the total, and while any of it is left a free frame exists |
| `PagerStart.PagerMap` | sos/pager.c:610-651 | A page that is resident or can have a frame ends up mapped and marked as used; a new one is last in the second-chance queue and takes the first free frame, whose bytes it shows; no other page's entry and no byte of memory changes |
| `PagerStart.PagerAction` | sos/pager.c:580-652 | Maps the page, as the last of the second-chance queue if it is new, exactly when it is not on disk and a frame is at hand; otherwise the fault is queued behind all that wait, and a slot is taken exactly if that starts a swap-out |
| `PagerStart.QueueRequest` | sos/pager.c:811-825 | Appends to the queue of waiting processes and starts an empty queue; an active queue and the clock are not touched; keeps the invariant (so the assertions on the active flag hold) |
| `PagerStart.StartRequest` | sos/pager.c:1154-1175 | From a quiet state with requests waiting, ends in the invariant with answers and waiting processes in unchanged order, the pages of those answered mapped in that order and the clock swept if a swap-out was started; the chain of calls terminates by the length of the queue; a slot is taken exactly if the request that runs out of frames first is for a page not on disk |
| `PagerStart.StartPagerRequest` | sos/pager.c:1177-1205 | Swap-in, immediate service or swap-out; each keeps the invariant, the contents of all pages and the order of answers |
| `PagerStart.PagerServe` | sos/pager.c:654-666 | A fault is answered at once and mapped, or queued last; then the queue goes on; every page waited for is mapped or still waited for |
| `PagerFinish.SwapslotsFree` | sos/pager.c:495-507 | The loop over the slots handed out takes back exactly the named slot of the process, and nothing when asked for "all" |
| `PagerFinish.DequeueRequest` | sos/pager.c:794-809 | The served request leaves the queue, the next is started, order and contents are kept |
| `PagerFinish.FinishSwapin` | sos/pager.c:880-933 | The page read in leaves its slot; it is in its frame and its process answered, or a swap-out is started with its bytes held in the pin; its contents are those of the slot |
| `PagerFinish.FinishServe` | sos/pager.c:855-877 | The page gets a frame with its bytes; its process is answered next and the queue goes on |
| `PagerFinish.GiveHead` | sos/pager.c:855-874 | The page is mapped, marked as used and last in the second-chance queue; its frame holds the pinned bytes, or zeros if the page was never touched; the pin is given back and no other page changes |
| `PagerFinish.FinishSwapout` | sos/pager.c:827-878 | The victim's frame returns to the budget only once its slot holds the same bytes; then the waiting page is served |
| `PagerContinue.ContinueSwapin` | sos/pager.c:960-1010 | Each answer moves the request to its next stage on the descriptor that the open answered, with reads as short as one byte, keeps the pin equal to the part of the slot read so far, and strictly decreases the work left |
| `PagerContinue.SwapinRead` | sos/pager.c:984-1001 | The bytes read follow those already in the pin; at the end of the page the pin equals the slot and the file is closed |
| `PagerContinue.ContinueSwapout` | sos/pager.c:1012-1049 | Each answer moves the request to its next stage on the descriptor that the open answered, keeps the slot equal to the part of the page written so far and every other page as it was, and strictly decreases the work left |
| `PagerContinue.SwapoutWrite` | sos/pager.c:1025-1040 | The next piece of the page is written, as large as the buffer allows, until all is written and the file is closed |
| `PagerContinue.ContinueElfload` | sos/pager.c:699-783 | A load is opened, checked for being executable, its header read, and closed, in that order; a bad answer ends it early; either way the process that asked is answered once |
| `PagerContinue.FinishElfload` | sos/pager.c:668-679 | The process that asked is answered next and the queue goes on with order and contents kept |
| `PagerContinue.VfsHandler` | sos/pager.c:1207-1229 | Every answer of the file system moves the request at the head to its next stage or ends it; keeps the invariant, every page's contents and the order of answers, maps the pages of the processes answered, and brings the queue nearer to empty; the free slots afterwards are exactly stated, and an answer is said to need a slot if and only if it uses one up |
| `PagerLemmas.WriteApart` | sos/pager.c:1033-1037 | Writing inside one slot of the swap file leaves every other slot as it was |
| `PagerExit.FreeFrames` | sos/pager.c:192-212 | Exactly the frames of the process return to the budget; the other pages stay in queue order with their contents, and frames in flight are untouched |
| `PagerExit.ProcessDelete` | sos/pager.c:513-551 | The entries, mappings and contents of the pages of other processes are unchanged and nothing is left of its own; the frames of the process are back; the swap slots handed out are exactly those handed out before, so one slot is lost for each page the process had on disk |
| `PagerRun.LostSlotExample` | sos/pager.c:536-540 | A process with one page on disk ends: its slot stays handed out, to nobody |
| `PagerRun.PageFault` | sos/pager.c:1265-1268 | An illegal access ends the process and nothing else; a legal one is answered at once with its page mapped and marked, or queued last with the page waited for; it takes a slot exactly if it is said to need one |
| `PagerRun.UserWrite` | sos/pager.c:644-649 | A write through a mapping changes that byte of that page and nothing any other process sees |
| `PagerRun.UserRead` | sos/pager.c:644-649 | A read through a mapping yields the byte the process last had there |
| `PagerRun.ProcessCreate` | sos/pager.c:1338-1356 | Without a process number the caller is answered at once; otherwise a load that begins with its open is queued last; the invariant, the clock and all contents are kept |
| `PagerRun.Dispatch` | sos/pager.c:1252-1378 | Every event keeps the invariant and does what is stated for it: a fault is answered with its page mapped or queued last, an access reads or changes one byte, an answer brings the queue nearer to empty, a load is queued or refused, an end removes the pages of one process and changes no other |
| `PagerRun.HappensAgrees` | sos/pager.c:1252-1378 | Whatever an event does, what processes have observed stays consistent with what their pages hold |
| `PagerRun.StartedInv` | sos/pager.c:350-360 | The initial state satisfies the invariant |
| `PagerRun.PagerInit` | sos/pager.c:350-369 | All frames and slots are free, in order, and the budget is whole |
| `PagerRun.Serve` | sos/pager.c:1238-1381 | Main theorem: every sequence of faults, reads, writes, file-system answers, process starts and ends is a run in which each event does what it should; every read in it sees the byte last written to, or seen in, its cell; the invariant and the budget equation hold in every state of it; and swap slots handed out are exactly the pages on disk as long as no process ends |
| `PagerRun.CoreBudget` | sos/pager.c:192-198 | In every reachable state what is left of the budget, the resident pages and the page on its way out sum to the total; resident pages are listed once and have different frames |
| `PagerRun.Drain` | sos/pager.c:794-809 | Liveness: with answers from the file system the queue empties and the waiting processes are answered once each in the order they came; only a full swap file can stop it, and then the answer that comes next needs a slot |
| `PagerRun.VirtualPager.constructor` | sos/pager.c:350-369 | The pager starts valid with nothing observed |
| `PagerRun.VirtualPager.Handle` | sos/pager.c:1252-1378 | One message handled in place does what is stated for its event, keeps the invariant and the consistency of all observations; answers are only added |
| `CopyBuffer.CopyInContinue` | sos/pager.c:1387-1435 | One page's share is copied, to the end of the page or of the request; the packed word records it; done exactly when all is copied |
| `CopyBuffer.CopyInRun` | sos/pager.c:1433-1435 | The chain of continuations terminates: it ends, as one flat copy, if and only if the offset is not past the size and all its bytes are in pages of the process; otherwise the process is killed at the first page it does not have |
| `CopyBuffer.CopyIn` | sos/pager.c:1437-1458 | A copy starts at the front of the buffer, an append where the last copy ended; it is the flat copy or the process is killed |
| `CopyBuffer.CopyInAll` | sos/pager.c:1443-1453 | A copy and any number of appends whose running sizes meet the exact condition concatenate all parts, cut off at the end of the buffer |
| `CopyBuffer.AppendExact` | sos/pager.c:1443-1453 | An append copies the right number of bytes if and only if the running size fits sixteen bits or its remainder still fills the buffer |
| `CopyBuffer.FirstExact` | sos/pager.c:1448-1453 | The same for a copy that does not append |
| `CopyBuffer.NeverDone` | sos/pager.c:1412-1434 | The offset is past the size if and only if the running size wraps to below its base; then each continuation copies nothing, is not done and leaves exactly the same word |
| `CopyBuffer.WrapExample` | sos/pager.c:1446-1453 | A concrete append whose size wraps |
| `CopyBuffer.CopyOutContinue` | sos/pager.c:1460-1504 | One page's share is copied out of the buffer into the page |
| `CopyBuffer.CopyOutRun` | sos/pager.c:1494-1504 | The chain of continuations terminates: it ends, as one flat copy into user memory that changes no other byte, if and only if the offset is not past the size and all its bytes have a page; otherwise the process is killed at the first page it does not have, with exactly the bytes before it written |
| `CopyBuffer.CopyOut` | sos/pager.c:1506-1527 | A copy-out takes bytes from the front of the buffer, an append from where the last copy ended; it is the flat copy or the process is killed |
| `CopyBuffer.CopyOutAll` | sos/pager.c:1512-1522 | A copy-out and any number of appends whose running sizes meet the exact condition hand out the buffer part by part, up to its end |
| `CopyBuffer.Scattered` | sos/pager.c:1512-1522 | Parts that do not overlap are all in memory in the end |
| `CopyBuffer.Transfer` | sos/pager.c:1437-1527 | Copied in from one place and out to another, bytes arrive unchanged, for every alignment of the two |
| `FreeList.Acyclic` | sos/swapfile.c:109-128 | A list read along its links has no item twice |
| `FreeList.ThreadedSame` | sos/swapfile.c:109-128 | The links determine the list |
| `FreeList.ThreadedPush` | sos/swapfile.c:125-126 | Linking an item in front gives the list with that item in front |
| `SwapFile.InitThreaded` | sos/swapfile.c:47-54 | The initial links thread all slots in order |
| `SwapFile.Swapfile.constructor` | sos/swapfile.c:40-59 | All slots are free, none is out, the usage is 0 |
| `SwapFile.Swapfile.SwapslotAlloc` | sos/swapfile.c:109-117 | Hands out a slot nobody has; free slots and slots out stay a partition counted by the usage |
| `SwapFile.Swapfile.SwapslotFree` | sos/swapfile.c:119-128 | A slot given back is the next to be handed out; the partition and the count are kept |
| `SwapFile.Swapfile.Exhausted` | sos/swapfile.c:109-114 | The usage is the number of slots if and only if the head is the end mark and so no slot |
| `FrameTable.LinkFrames` | sos/frames.c:35-44 | Every frame is on the list, linked through its first word; the count is one less than the frames |
| `FrameTable.Table.constructor` | sos/frames.c:17-47 | All frames are free and none is out |
| `FrameTable.Table.FrameAlloc` | sos/frames.c:49-63 | Hands out a frame nobody has, or 0 exactly when none is free; refines the abstract free list used by the pager |
| `FrameTable.Table.FrameFree` | sos/frames.c:65-70 | Takes a frame back, overwriting only its first word; refines the abstract free list used by the pager |
| `FrameTable.Table.FramesFree` | sos/frames.c:76-78 | Reports the number of free frames less one |
| `Words.WordRoundTrip` | sos/frames.c:38 | A word read back from memory is the word stored |
| `LinkedList.DeletesFirst` | sos/list.c:137-162 | Exactly the first n matching elements are deleted (all for a negative n), the rest stay in order, and the predicate is called only up to the n-th match |
| `LinkedList.DeletesAll` | sos/list.c:171-174 | With -1 exactly the elements that do not match are left |
| `LinkedList.List.Null` | sos/list.c:44-52 | True exactly for the empty sequence |
| `LinkedList.List.Peek` | sos/list.c:54-57 | The first element |
| `LinkedList.List.Shift` | sos/list.c:59-68 | Refines adding in front |
| `LinkedList.List.Unshift` | sos/list.c:70-85 | Refines taking the first |
| `LinkedList.List.Push` | sos/list.c:87-100 | Refines adding at the end |
| `LinkedList.List.Pop` | sos/list.c:102-124 | Refines taking the last |
| `LinkedList.List.Find` | sos/list.c:126-135 | The first element that matches, or none if none does |
| `LinkedList.List.DeleteN` | sos/list.c:137-169 | Relinking in place refines deleting the first n matches, with head and last correct afterwards and the predicate called on exactly the elements before the cut |
| `EdLinks.InsertList` | bin/.ed/buf.c:123-127 | Linking a fresh node in gives the list with that node inserted, in both directions |
| `EdLinks.DeleteList` | bin/.ed/buf.c:284-288 | Linking across a range gives the list without the range |
| `EdLinks.ExchangeList` | bin/.ed/buf.c:415-427 | The three links of a move give the list with two neighbouring blocks exchanged, at either end of the buffer too |
| `EdLinks.Undo1Involution` | bin/.ed/buf.c:649-667 | Undoing one entry and then its flipped form restores every pointer, for moves whose pairs share boundary nodes too |
| `EdLinks.UndoInvolution` | bin/.ed/buf.c:636-682 | Undoing a whole stack and then its flipped and reversed form restores every pointer |
| `EdLinks.ListUnique` | bin/.ed/buf.c:544-575 | The links determine the sequence of lines |
| `EdStack.FlipEncodes` | bin/.ed/buf.c:649-675 | Flipping the types of the raw entries and reversing the stack encodes the flipped, reversed items |
| `EdUndo.PopKeeps` | bin/.ed/buf.c:636-682 | Popping exchanges the current and the saved state of the undo invariant |
| `EdUndo.AddKeeps` | bin/.ed/buf.c:136-142 | Adding fresh nodes keeps the undo invariant |
| `EdUndo.DeleteKeeps` | bin/.ed/buf.c:275-293 | Deleting a range keeps the undo invariant, with the range chained through its old links |
| `EdUndo.ExchangeKeeps` | bin/.ed/buf.c:402-436 | A move keeps the undo invariant |
| `EdBuffer.SearchLineNode` | bin/.ed/buf.c:544-575 | Yields the node a walk from the head would find, for every address (out of range is clamped), from whatever the cache held, and leaves the cache right |
| `EdBuffer.GetLineNodeAddr` | bin/.ed/buf.c:297-309 | The address of a node on the buffer; -1 off it, except 0 in an empty buffer |
| `EdBuffer.AddLineNode` | bin/.ed/buf.c:136-142 | Inserts the node behind the address with counters and cache right |
| `EdBuffer.PushUndoStack` | bin/.ed/buf.c:686-704 | Records the nodes at the two addresses |
| `EdActive.UnsetActiveNodes` | bin/.ed/glbl.c:53-70 | Clears exactly the active lines in the range |
| `EdActive.NextActiveNode` | bin/.ed/glbl.c:74-79 | Yields the next active line that was not cleared, which is on the buffer, or none when there is none left |
| `EdActive.BuildActiveList` | bin/.ed/re.c:168-195 | The active list is exactly the selected lines of the range, in order |
| `EdEdit.AppendLines` | bin/.ed/buf.c:165-206 | The lines are inserted behind the address in order with their texts, as one recorded run; the buffer counts as modified exactly if there were any or it did already |
| `EdEdit.PutLines` | bin/.ed/buf.c:473-497 | The cut buffer is inserted behind the address; fails exactly when it is empty |
| `EdEdit.CopyLines` | bin/.ed/buf.c:244-271 | Equals inserting the texts of the range behind the destination, for a destination inside the range too |
| `EdEdit.YankLines` | bin/.ed/buf.c:579-597 | The cut buffer is exactly the texts of the range |
| `EdEdit.DeleteLines` | bin/.ed/buf.c:275-293 | The buffer without the range, which goes to the cut buffer; cache, active list and undo invariant kept |
| `EdEdit.MoveIsSplice` | bin/.ed/buf.c:402-436 | The exchange of blocks is the splice: cut out the range and paste it behind the destination |
| `EdEdit.MoveLines` | bin/.ed/buf.c:402-436 | Relinking equals the splice for every legal destination, ranges at either end included; a destination at the range itself changes nothing |
| `EdEdit.JoinLines` | bin/.ed/buf.c:368-397 | The range is replaced by one line whose text is the texts of the range one after the other; the range goes to the cut buffer |
| `EdSubst.ReplaceLine` | bin/.ed/re.c:439-461 | The line is replaced by the lines its text becomes, as one deletion and one recorded run |
| `EdSubst.SearchAndReplace` | bin/.ed/re.c:427-471 | The texts of the range become, line by line, what the substitution makes of them; lines without a match and lines outside stay; the current line is the last one made; fails exactly when nothing matches outside a global command |
| `EdHistory.UndoTop` | bin/.ed/buf.c:649-667 | One entry, or one pair of move entries, is undone and flipped |
| `EdHistory.ReverseStack` | bin/.ed/buf.c:668-675 | The loop of exchanges reverses the stack |
| `EdHistory.PopUndoStack` | bin/.ed/buf.c:636-682 | Restores the saved buffer and both addresses and makes the current ones the saved ones; fails exactly when there is nothing to undo |
| `EdFree.MarkLineNode` | bin/.ed/main_loop.c:64-75 | Sets the mark for letters only and keeps the count of marks in use |
| `EdFree.UnmarkLineNode` | bin/.ed/main_loop.c:78-87 | Removes every mark on the node and no other |
| `EdFree.FreeRun` | bin/.ed/buf.c:611-620 | Frees a deleted run node by node, each once |
| `EdFree.ClearUndoStack` | bin/.ed/buf.c:607-625 | Frees exactly the allocated nodes that are not on the buffer, each once; no mark is left on a freed node; recording starts from the present buffer |
| `EdCommand.ExecCommand` | bin/.ed/main_loop.c:504-831 | A rejected command changes nothing; an accepted one succeeds exactly under the stated condition and then has its stated effect on the lines, the current line and the cut buffer; lines that were on the buffer keep their texts whatever the command does, and inside a global command deleted lines do too; the buffer counts as modified exactly if it did or the command changed it; marks stay but for those set by mark and those of nodes that are freed; undo afterwards goes back to the buffer and the addresses before it, or before the whole global command; the active list loses exactly the lines it names |
| `EdCommand.CheckCommand` | bin/.ed/main_loop.c:504-831 | The addresses that are refused are exactly those outside the buffer, in the wrong order, or with a destination inside the range moved |
| `EdCommand.InsertsBefore` | bin/.ed/main_loop.c:617-624 | An insertion puts its lines in front of the line addressed, all others staying; at address 0 it has the effect of an append |
| `EdCommand.ChangesLines` | bin/.ed/main_loop.c:527-539 | A change puts its lines in the place of exactly those addressed, whose texts are cut; address 0 acts as 1 |
| `EdCommand.ExecEdit` | bin/.ed/main_loop.c:515-773 | The stack is cleared before an edit typed by the user and not inside a global command; the effect is that on the buffer before the clearing, and the other lines keep their texts and marks |
| `EdCommand.EditUndone` | bin/.ed/main_loop.c:504-831 | Undo typed after any accepted edit brings back the lines before it, their texts and both addresses |
| `EdSession.RunCommands` | bin/.ed/main_loop.c:887-890 | The commands are executed one after the other, each with its effect, up to the first that fails; without undo the active list loses exactly the lines they name and the saved state stays |
| `EdSession.ExecGlobal` | bin/.ed/main_loop.c:836-892 | The visits follow one another, each executing its command list at a line that is on the buffer and current; they go through the list in order, each line at most once; without undo an entry is visited if and only if no command of an earlier visit has named it, and without an error the whole list is gone through; every line there was at the start keeps its text |
| `EdSession.VisitLine` | bin/.ed/main_loop.c:851-890 | The line becomes the current one and its commands are executed from there; all lines keep their texts |
| `EdSession.UndoRedo` | bin/.ed/buf.c:607-704 | Main theorem: after any commands but undo, executed in order, undo restores lines, texts and both addresses, and a second undo restores the edited buffer with every pointer |
| `EdSession.GlobalUndone` | bin/.ed/main_loop.c:836-892 | Undo typed after a global command that did not itself undo brings back the lines before it, their texts and both addresses |
| `EdSession.InitValid` | bin/.ed/buf.c:350-364 | The empty editor satisfies the invariant |
| `EdSession.Editor.constructor` | bin/.ed/buf.c:350-364 | The editor starts with an empty buffer, not modified, nothing cut, nothing marked and nothing to undo |
| `EdSession.Editor.Execute` | bin/.ed/main_loop.c:504-892 | A command typed by the user has its stated effect, or none, and leaves the other lines and their texts; a global command marks exactly the selected lines of its range and visits them as stated; what undo goes back to is the buffer before it |
| `Vfs.IncreaseRefs` | sos/vfs.c:235-262 | Counts the new reader and writer exactly when the limits admit both, and changes nothing otherwise |
| `Vfs.FindNextFd` | sos/vfs.c:87-114 | The lowest free descriptor and the lowest free file, or failure exactly when one of them is missing |
| `Vfs.ZeroIff` | sos/vfs.c:508-509 | In every reachable state the counters of a vnode are zero if and only if no open file of any process names it |
| `Vfs.OpenErr` | sos/vfs.c:415-420 | The vnode goes away exactly when no open file names it |
| `Vfs.OpenDone` | sos/vfs.c:427-479 | Succeeds exactly when the file system agrees, the limits admit the mode and the tables have room; then the lowest free descriptor names the lowest free file, of that vnode, and its counts are one higher; else the reason is answered and the vnode goes away unless an open file holds it |
| `Vfs.Open` | sos/vfs.c:330-411 | Refused with its reason, or, for a file already on the list, finished at once, or left in flight with a new vnode that has the limits asked for and counts nothing yet |
| `Vfs.Close` | sos/vfs.c:483-528 | The descriptor is free, the file released when it was the last one; the file system is told to close the vnode if and only if no open file names it any more, and the vnode goes away only if it agrees |
| `Vfs.Dup` | sos/vfs.c:763-806 | The new descriptor names the same file and all counts stay right, if and only if it is not a shared descriptor onto itself; onto itself it is closed instead; refused exactly for a bad descriptor, or with none free |
| `Vfs.SelfDupExample` | sos/vfs.c:790-803 | A file opened, its descriptor duplicated, and the copy duplicated onto itself: the count is wrong |
| `Vfs.Perform` | sos/vfs.c:330-806 | Each operation ends as stated; afterwards all counts are right if and only if it was not a shared descriptor onto itself, and every open in flight has its vnode if and only if the operation took none away |
| `Vfs.CloseStrands` | sos/vfs.c:508-526 | A file opened, and opened and closed by another process before the answer: the vnode is gone when the answer comes |
| `Vfs.OpenStrands` | sos/vfs.c:415-420 | A file opened for reading only, and asked for by a writer before the answer: the writer is refused and the vnode is gone |
| `Vfs.LeanStep` | sos/vfs.c:330-806 | An operation whose close is not refused leaves no vnode on the list that no open file and no open in flight holds, but those there from the start |
| `Vfs.FreshInv` | sos/vfs.c:47-67 | Fresh tables and vnodes that nobody holds, such as the console, satisfy the invariant |
| `Vfs.VfilesInit` | sos/vfs.c:56-67 | No descriptor names a file and no file names a vnode |
| `Vfs.Serve` | sos/vfs.c:330-806 | Over every run of opens, answers to opens, closes and duplications by any processes in any order, from any special files, each step does what it should; in every state each open file counts its descriptors, each vnode its readers and writers within its limits, and every open in flight has its vnode; if the file system agrees to every close no vnode is left that nobody holds, but those there from the start |
| `VnodeList.GlobalVnodes.Add` | sos/vfs.c:119-130 | The vnode is in front, the list linked both ways |
| `VnodeList.GlobalVnodes.Remove` | sos/vfs.c:135-162 | Takes out a vnode anywhere on the list; one that is not on it costs the whole list |
| `Nfs.GetdirentCb` | sos/nfsfs.c:644-692 | The entry if it is on this page, another call if pages follow, the end otherwise; the page is never indexed out of range |
| `Nfs.Handle` | sos/nfsfs.c:411-445 | Another call exactly for a missing file to be written and for a directory with more pages; otherwise the one result the process is told |
| `Nfs.CollideIff` | sos/nfsfs.c:159-162 | Among requests numbered one after the other two have equal tokens if and only if there are more of them than tokens or they lie across the place where the counter wraps |
| `Nfs.QueueCollides` | sos/nfsfs.c:159-187 | The same for the requests in the queue |
| `Nfs.NfsFs.NewToken` | sos/nfsfs.c:159-162 | The token is that of the number of the request |
| `Nfs.NfsFs.Create` | sos/nfsfs.c:253-295 | The request is queued last as it was asked for, a directory from its first entry; if it is alone its call goes out, and otherwise no call does |
| `Nfs.NfsFs.CheckRequest` | sos/nfsfs.c:222-237 | The request is run, by one call for the head, if and only if it is at the head; otherwise no call goes out |
| `Nfs.NfsFs.GetRequest` | sos/nfsfs.c:181-187 | The first request with the token, or none |
| `Nfs.NfsFs.Answer` | sos/nfsfs.c:411-445 | The answer is for the head: it goes on with one more call under the same token, or completes once with its result and the next, if any, is called, whatever tokens others have; so one call is out while requests are pending and none otherwise |
| `Nfs.NfsFs.RemoveRequest` | sos/nfsfs.c:300-330 | Removes the first request with the token and calls the new head |
| `Nfs.Serve` | sos/nfsfs.c:222-330 | Over every run of requests and answers, requests complete in the order made, each once and with the outcome of its own conversation: for a directory the entry at the position asked for; those without a last answer are pending; the calls made are, request by request, the first call of each and one for each answer that did not end it, as many as the answers used and one more while a request is pending |
| `Nfs.CallsReply` | sos/nfsfs.c:222-330 | Every answer is followed by exactly one call, for the same request or for the next, or by none if no request is left |
| `Nfs.CallsSubmit` | sos/nfsfs.c:222-237 | A new request is called at once if no other is pending, and not otherwise |
| `Nfs.LogSound` | sos/nfsfs.c:253-330 | The answers are shared out among the requests one after the other: each request done has all the answers up to the first that ends it, and nothing is lost |
| `Nfs.DirOutcome` | sos/nfsfs.c:644-714 | A directory request that goes through the queue is told the entry asked for among the names it was given, or the end, or the failure reported |
| `Nfs.ToldRight` | sos/nfsfs.c:644-714 | What the process is told is the answer to what it asked: the entry at its position that fits its buffer, the end, success, or the failure reported last |
| `Nfs.NfsGetdirent` | sos/nfsfs.c:696-714 | Entry pos of the concatenated pages, or the end, or the failure the server reported, however the server pages the directory |
| `Nfs.Getdirent` | sos/vfs.c:680-715 | Entry pos of the special files followed by the NFS directory, or the end, or the failure the server reported, or an error for a bad argument |

## Left out

- Line nodes of ed are addresses in maps, not heap objects; freeing an address takes it out of the maps and puts it on a pool.
- The cut buffer of ed is a sequence of texts, and the text of a line a sequence of characters rather than a place in the scratch file.
- The tables of the VFS and the state of the pager are values that methods take and return; aliasing between the C structures is not captured.
- Allocation never fails, except that frames and swap slots are counted.
- Regular expressions: a substitution is any function from the text of a line to the lines it becomes, or to none if it does not match. Reading and writing files, shell commands and the parsing of ed's addresses; `r` is an insertion.
- The `e` command of ed.
- PagerContinue.ContinueElfload: the four stages and their failures are modelled, each answer being good or bad; what a load does to the new process, and pages backed by an ELF file, are not. A new process appears by an event of its own.
- PagerExit.ProcessDelete: not for a process that waits in the pager's queue; the code then answers it and goes on with a process that is gone (sos/pager.c:846-850, 889-895). The deletion of a process while a page of it is on its way out is covered.
- PagerStart.StartSwapout: needs a free slot, as the code does without looking; with none left it reads behind the array of slots (sos/swapfile.c:109-117). The members below need one just where they come to a swap-out, by `PagerStart.Hungry`, `PagerStart.Starves` and `PagerContinue.AnswerNeedsSlot`. Runs pass over such events.
- PagerStart.PagerAction: as PagerStart.StartSwapout.
- PagerStart.QueueRequest: as PagerStart.StartSwapout.
- PagerStart.StartRequest: as PagerStart.StartSwapout.
- PagerStart.StartPagerRequest: as PagerStart.StartSwapout.
- PagerStart.PagerServe: as PagerStart.StartSwapout.
- PagerFinish.DequeueRequest: as PagerStart.StartSwapout.
- PagerFinish.FinishServe: as PagerStart.StartSwapout.
- PagerFinish.FinishSwapout: as PagerStart.StartSwapout.
- PagerContinue.ContinueSwapout: as PagerStart.StartSwapout.
- PagerContinue.FinishElfload: as PagerStart.StartSwapout.
- PagerContinue.VfsHandler: as PagerStart.StartSwapout.
- PagerRun.PageFault: as PagerStart.StartSwapout.
- SwapFile.Swapfile.SwapslotAlloc: needs a slot; with none left the head of the list is the end mark, and the code reads behind its array.
- A machine with fewer free frames than the budget of the pager and one pin.
- Failing opens and writes of the swap file, and reads of zero bytes.
- Multi-page copies inside the pager's queue: `CopyBuffer` takes each page of the process as mapped when its continuation runs, and the queue is proved for plain faults.
- Wrap-around of user addresses at 2^32 in copies.
- The two levels of page tables and the frames they use (a page table is one map), and the packing of the flags of an entry into the low bits of its address.
- Regions and rights (legal or not is a parameter of a fault), direct mapping, caches, mapping calls and IPC.
- The size of a process and the other statistics.
- Processes told to wait for others, and the teardown of processes outside the pager.
- Vfs.Open: needs limits above zero for what a new file is opened for; the code frees the vnode otherwise and goes on with it (sos/vfs.c:389-392). The path is not modelled: the vnode found for it is a parameter.
- Vfs.Serve: leaves out the two kinds of operation after which the bookkeeping is wrong, with the exact conditions of `Vfs.Perform`.
- VnodeList.GlobalVnodes.Remove: the search for a vnode by its path is not modelled.
- Reading, writing, seeking and flushing through the VFS; file contents on the server.
- Nfs.Serve: one answer to each call, and completion callbacks that make no new request themselves.
- Nfs.NfsGetdirent: a server with finitely many pages.
- Predicates given to lists are pure functions; what the callbacks do besides is modelled where they are used, in `PagerFinish.SwapslotsFree` and `PagerExit.FreeFrames`.
- Console, network, clock, timer, pipes, the shell and the test programs.
