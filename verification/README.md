# Verified models of 2048, the yequ kernel, hquin and tinyhttp

Dafny models of the parts of these programs where the code decides something hard, with proofs
for every input, every schedule or every run.

- **2048** (C and C++). The board is an `array2<int>` that both programs slide, transpose and
  mirror in place; the side is any n >= 2, the program's is 4. `SlideSpec` and `BoardSpec` say what a
  move is without cursors or turning: drop the blanks, merge equal neighbours from the leading
  end, no tile twice, fill up with blanks. The classes `CppGame.Game` and `CGame.State` are proved
  against that, counters and flags included. `GameTheory` proves what holds in every game: a game
  is a `History` of moves and spawns, and `Replay` is what the classes' fields are shown to equal.
- **yequ memory manager** (`mm.c`). Page structures linked behind a sentinel, with stale links left in
  pages in use, and the page directory and tables in a memory of 32-bit words. `PutPage` is
  judged by the processor's own walk, section 4.3 of the Intel SDM, Volume 3A.
- **yequ printf** (`debug.c`). `FormatSpec` gives a format a meaning in two steps (items, then text), and
  `FormatLaws` says letter by letter what that prints;
  `NumberText` gives the text of a number and reads it back; `KernelPrintf` and `Vsprintf` are the
  loops, with the one `size` counter that the padding loops share.
- **yequ text screen** (`vga.c`). The video array is the last 25 rows of a log that never scrolls.
- **hquin event loop** (`EventLoop.cpp`). Atomic steps of any number of threads, and a class whose
  methods are cut into those steps with other threads acting in between.
- **hquin server** (`TcpServer`, `TcpConnection`, `Channel`, `Epoller`). One loop, no other thread; an
  oracle stands for the kernel and the user callbacks. `ServerRounds` says what a round does, event by
  event; the server keeps the log of all events, `ConnLifecycle` proves what every such log holds, and
  `Listening` how long a connection is read from.
- **hquin HTTP requests** (`HTTPRequest.cpp`). `handle` with its cursors against a parser by cutting,
  and that against a printer (sections 3.1.1 and 3.2 of RFC 7230).
- **tinyhttp buffered reader** (`rio.c`). The reader with its cache against the bare byte stream, under
  every chunking and interruption by `read(2)`.

Where the code does not do what its comments or its name suggest, the model follows the code and
states exactly when it does:

- `movable()` answers that play goes on for the empty board, where no move changes anything
  (`Movable.EmptyBoardNeverMoves`); with a tile on the board it is exact (`Movable.CanMoveIff`).
- The C program looks for the end of the game before it places the new tile, so it can say that play
  goes on when it does not (`LateAnswer.WrongAnswer`). Its answer is right exactly when the board has
  not changed, or there was a second blank, an equal pair of tiles, or a tile of the new value
  beside the blank (`CGame.State.Move`, `LateAnswer.SpawnKeepsMoving`); it is right whatever appears
  exactly on the boards of `LateAnswer.EarlyAnswerIff`, and a wrong answer costs one key
  (`LateAnswer.NextKeyEnds`).
- `put_page` takes any present directory entry for a page table. Under a 4-MByte page, as
  `page_dir_init` maps low memory, it writes into the large page instead: the address is not mapped
  (`PutPage.PutMapsIff`), and another translation changes exactly when the word written is one its
  walk reads (`PutPage.PutKeeps`), which happens in other regions too (`PutPage.LargePageHitsTable`). The
  large page at address 0 is the directory itself (`PutPage.LargePageZeroClobbers`, `PutPage.PutOk`).
- A functor that the loop thread queues before it enters `loop()` writes no wakeup, and the loop can
  wait with it pending (`EventLoopProtocol.EarlyPushWaits`); `EventLoopProtocol.WakeupIff` says exactly
  when. Handlers write none either, but their round drains the queue; every other push is followed
  by a wakeup.
- `Epoller` stores the events reported in the channel, over those asked for, and a callback that changes
  what is asked for starts from them. When a connection is reported as writable and nothing else and
  the rest of its output goes out, the kernel is asked for nothing any more: the connection stays open
  and is never read from again (`Listening.DrainedIsUnheard`, `Listening.NeverReadAgain`).
  `Listening.ReadingKeptIff` is the exact condition for one handling.
- `vsprintf` reads a `*` as a width or precision but leaves it in the format, where it is then taken for
  the conversion letter: a star takes its argument, shows as `%*` and never lays out any text
  (`FormatSpec.StarIsShown`), so `%*d` prints itself (`FormatSpec.StarredDecimal`).
- `HTTPRequest::handle` cuts at spaces and CRs alone: a printed request comes back exactly when its
  path and header names hold no space and its header values no CR (`HttpMessage.RecoveredIff`).
- `rio_readlineb` closes a line with a NUL except at the end of the stream (`Rio.Reader.ReadLine`).
- Backspace does nothing at the left edge, so it takes back a drawn character only when that did
  not fill the row (`ScreenSpec.BackspaceUndoes`).

`dafny verify dfyconfig.toml` checks the whole project.

## Model

| member | source | states |
|---|---|---|
| GameTheory.TileSumBound | 2048/cpp2048/2048.cpp:118-175 | In every game on an n by n board, whatever is played and wherever 2s and 4s appear, the tile sum is at most 2^(n*n+2) - 4. |
| GameTheory.LargestTile | 2048/cpp2048/2048.cpp:118-175 | No tile of any game exceeds 2^(n*n+1). |
| GameTheory.SpawnBound | 2048/cpp2048/2048.cpp:163-175 | A game has at most 2^(n*n+1) - 2 spawns. |
| GameTheory.PlayEnds | 2048/cpp2048/2048.cpp:212-238 | Play terminates: when a tile follows every move that changed the board, as both programs see to, at most 2^(n*n+1) - 2 moves of a game change the board, however long it goes on. |
| GameTheory.FitsInt | 2048/cpp2048/2048.cpp:212-238 | On the 4 by 4 board every tile is at most 131072 and the score never leaves a 32-bit int. |
| GameTheory.ScoreBound | 2048/cpp2048/2048.cpp:129-135 | The score is at most n*n times the bound on the tile sum. |
| GameTheory.EveryGame | 2048/cpp2048/2048.cpp:62-175 | In every game the counter of blanks is the number of blank cells; the score is the sum of (k-1) 2^k over the tiles 2^k minus 4 for each 4 that appeared; the tile sum is twice the spawns plus twice the 4s; every cell is blank or a power of two from 2 up. |
| GameTheory.SlideAccounts | 2048/cpp2048/2048.cpp:118-143 | Sliding a line keeps its sum, turns the points it scores into potential, and frees as many cells as are counted. |
| GameTheory.MoveLeavesBlank | 2048/2048.c:257-282 | A move that changes the board leaves a blank cell, so the position -1 is never used. |
| GameTheory.BlankCounter | 2048/2048.c:90-101 | A counter that counts the blanks is positive exactly when there is a blank. |
| SlideSpec.SlidingDone | 2048/cpp2048/2048.cpp:118-143 | When the two cursors have scanned a line, in any of the ways the invariant `Sliding` allows, the line is the slid one, the gain and the freed cells are right, and `moved` holds exactly when the line differs from the original. |
| SlideSpec.SlidingMerge | 2048/cpp2048/2048.cpp:129-135 | Merging into the cell under the filling cursor keeps what is done and what is still to do together worth the whole answer. |
| SlideSpec.SlidingNext | 2048/cpp2048/2048.cpp:136-140 | Leaving a tile that cannot merge keeps the invariant, whether or not a gap lies between the cursors. |
| SlideSpec.SlidingLastBlank | 2048/2048.c:159-190 | The C loop may step past its last tile when the scan of blanks ends on the last cell; the result is the same. |
| SlideSpec.SlideUnchanged | 2048/cpp2048/2048.cpp:118-143 | A slide keeps a line exactly when no tile follows a blank or an equal tile. |
| SlideSpec.SlideLeavesBlank | 2048/cpp2048/2048.cpp:118-143 | A line that changes ends with a blank. |
| BoardSpec.SlideBoardLine | 2048/cpp2048/2048.cpp:145-161 | Every line of the moved board, read from the side moved towards, is the slid line. |
| BoardSpec.MoveSides | 2048/cpp2048/2048.cpp:145-161 | A move to the left slides the rows, to the right the rows read backwards, up the columns, down the columns read upwards. |
| BoardSpec.Gravity | 2048/cpp2048/2048.cpp:118-161 | After a move no blank stands between a tile and the side moved towards, in any direction. |
| BoardSpec.LinesRoundTrip | 2048/cpp2048/2048.cpp:106-116 | Reading the lines of a board off in a direction and laying them down again are inverse, both ways. |
| BoardSpec.SlideBoardChanges | 2048/cpp2048/2048.cpp:118-161 | A move changes the board exactly when it changes some line. |
| BoardSpec.TotalOfLines | 2048/cpp2048/2048.cpp:145-161 | Sums over all cells do not depend on the side the board is read from. |
| Movable.CanMoveIff | 2048/cpp2048/2048.cpp:177-210 | On a board with a tile, a blank or an equal pair exists exactly when some direction changes the board. |
| Movable.EmptyBoardNeverMoves | 2048/cpp2048/2048.cpp:177-210 | The empty board is the exception: the scan finds a blank and no direction changes anything. |
| Movable.SpawnedHasTile | 2048/cpp2048/2048.cpp:62-71 | No game reaches it: once a tile has appeared there is one for good. |
| Movable.StuckIsFull | 2048/cpp2048/2048.cpp:177-210 | If no direction changes the board and one cell is blank, all are. |
| Grid.Scan | 2048/cpp2048/2048.cpp:177-210 | The inner and border scan, loop by loop, answers whether there is a blank or an equal pair. |
| Grid.ScanComplete | 2048/cpp2048/2048.cpp:183-207 | Inner cells against four neighbours and the four border lines miss no equal pair. |
| Grid.InsideScan | 2048/cpp2048/2048.cpp:183-191 | The scan of the inner cells finds an equal pair, or each inner cell differs from its four neighbours. |
| Grid.Transpose | 2048/cpp2048/2048.cpp:106-110 | The in-place swap loop turns the board into its columns. |
| Grid.Mirror | 2048/cpp2048/2048.cpp:112-116 | The in-place exchange of columns turns the board into its reversed rows. |
| Grid.BlankToDraw | 2048/cpp2048/2048.cpp:163-175 | While the counter is not 0 a draw can hit a blank. |
| Turned.MoveByTurning | 2048/cpp2048/2048.cpp:145-155 | Turning, moving left and turning back is the move up or right, board, score, blanks and flag alike. |
| Turned.MoveDownByTurning | 2048/cpp2048/2048.cpp:157-161 | Transposing, moving right and transposing is the move down. |
| Turned.TurnTwice | 2048/cpp2048/2048.cpp:106-116 | Transposing twice or mirroring twice gives the board back. |
| CppGame.Game.constructor | 2048/cpp2048/2048.cpp:62-71 | A new game has two tiles, placed in blank cells; each is a 2 in an odd cell and a 4 in an even one. |
| CppGame.Game.GenerateNextChunk | 2048/cpp2048/2048.cpp:163-175 | Fails exactly when the counter is 0; otherwise the game goes on by a spawn in a blank cell, a 2 in an odd cell and a 4 in an even one. |
| CppGame.Game.SlideRowInPlace | 2048/cpp2048/2048.cpp:121-141 | One row in place: the row is the slid row and no other row changes; score, blanks and flag move by exactly what the slide is worth. |
| CppGame.Game.MoveLeft | 2048/cpp2048/2048.cpp:118-143 | The whole state after the loop is the state after a move to the left. |
| CppGame.Game.MoveUp | 2048/cpp2048/2048.cpp:145-149 | The state after a move up, by transposing. |
| CppGame.Game.MoveRight | 2048/cpp2048/2048.cpp:151-155 | The state after a move right, by exchanging columns. |
| CppGame.Game.MoveDown | 2048/cpp2048/2048.cpp:157-161 | The state after a move down, by the other two. |
| CppGame.Game.Movable | 2048/cpp2048/2048.cpp:177-210 | True exactly when the board shows a blank or an equal pair. |
| CppGame.Game.Move | 2048/cpp2048/2048.cpp:212-238 | The keys a, w, d and s move left, up, right and down; exactly when that changed the board a tile appears, so every changing move stays followed by a spawn; the game is always a legal history; true is returned exactly when some direction still changes the board left behind. |
| CGame.State.constructor | 2048/2048.c:104-120 | A new C game is a legal history of two spawns. |
| CGame.State.GetNextValuePos | 2048/2048.c:90-101 | -1 exactly when the counter is 0; otherwise a blank position, taken off the counter. |
| CGame.State.SlideRowInPlace | 2048/2048.c:165-188 | The unrefactored loop, with its skip loop and duplicated branches, gives the same row, gain, blanks and flag as the C++ one. |
| CGame.State.MoveLeft | 2048/2048.c:159-190 | The state after a move to the left. |
| CGame.State.MoveDown | 2048/2048.c:206-211 | The state after a move down, by transposing and reversing. |
| CGame.State.Moveable | 2048/2048.c:222-255 | True exactly when the board shows a blank or an equal pair. |
| CGame.State.Move | 2048/2048.c:257-282 | The keys h, k, l and j move left, up, right and down. 0 is returned exactly when the slid board shows neither a blank nor an equal pair; then the board, score and counter are unchanged and no direction changes it. Otherwise a changed board gets its tile in a blank cell, and some direction still changes the board left behind exactly when the spawn keeps it moving. |
| LateAnswer.SpawnKeepsMoving | 2048/2048.c:257-282 | For every blank and value: after the spawn there is a blank or an equal pair exactly when there was another blank, an equal pair of tiles, or a tile of that value beside the blank. |
| LateAnswer.EarlyAnswerIff | 2048/2048.c:257-282 | Asking before the spawn is right for every spawn of a 2 or 4 exactly when there is an equal pair of tiles, or each blank has another blank elsewhere or both a 2 and a 4 beside it. |
| LateAnswer.WrongAnswer | 2048/2048.c:257-282 | Left on [[0, 16], [8, 32]] leaves a blank, and a 2 in it leaves no move. |
| LateAnswer.NextKeyEnds | 2048/2048.c:257-282 | On a board with a tile that no longer moves the next key, whatever it is, is answered with 0. |
| CGame.UnmovedCounts | 2048/2048.c:159-190 | A move that changes no cell changes no counter. |
| CGame.MovedCanMove | 2048/2048.c:257-282 | After a move that changed the board there is a blank. |
| MemoryManager.Memory.AllocPage | yequ/kernel/mm.c:85-97 | Panics exactly when the list is empty; otherwise hands out the first listed frame, which nobody uses. |
| MemoryManager.Memory.FreePage | yequ/kernel/mm.c:99-112 | Ignores addresses outside the managed range, panics exactly on a frame with no reference, and otherwise drops one reference, listing the frame again with the last one. |
| MemoryManager.Memory.PopFree | yequ/kernel/mm.c:92-94 | Unlinking the first node keeps the list in order although its own link stays behind. |
| MemoryManager.Memory.PushFree | yequ/kernel/mm.c:108-111 | Linking a node whose link is stale gives the list with that frame in front. |
| MemoryManager.Memory.PutPage | yequ/kernel/mm.c:119-145 | The words written are those of `Put`, a panic leaves everything as it was, exactly the undisturbed translations survive, and without a large page in the way the tables stay in order and every address of the page reaches it. |
| PageSpec.TakenOk | yequ/kernel/mm.c:85-97 | Allocating keeps the free list duplicate-free and equal to the frames with count 0, and returns a frame not in use. |
| PageSpec.ReleasedOk | yequ/kernel/mm.c:99-112 | Freeing keeps it too. |
| PageSpec.FramesConserved | yequ/kernel/mm.c:85-112 | The frames on the list and the frames in use are all the frames. |
| PageSpec.HandedMinusGivenBack | yequ/kernel/mm.c:85-112 | Over every sequence of calls a frame is out exactly as often as it was handed out and not given back, and never twice at a time. |
| PageSpec.FrameOfAddr | yequ/include/mm.h:30-31 | Page numbers and addresses convert into each other by frame. |
| PutPage.WalkAfter | yequ/kernel/mm.c:119-145 | Every translation after a put, large pages and all, from the memory before it. |
| PutPage.PutMaps | yequ/kernel/mm.c:119-145 | With no large page at the address the walk sends every address of its page to the given page plus its offset. |
| PutPage.PutKeeps | yequ/kernel/mm.c:119-145 | For every address and whatever is mapped: its translation survives a put exactly when the word written is not the directory entry or table entry its walk reads (or the walk answers the same), and a newly allocated table frame holds no stray entry for it. |
| PutPage.PutKeepsOthers | yequ/kernel/mm.c:134-143 | The same without a large page: another page loses its translation only to a stray entry in a newly allocated table. |
| PutPage.PutOk | yequ/kernel/mm.c:119-145 | After a put the tables in the directory are pairwise distinct frames in use and the free list is in order, exactly when the put did not write to the directory, or wrote a page there that may serve as a table. |
| PutPage.PutEffect | yequ/kernel/mm.c:127-143 | A put writes one entry of what it takes for the table and the directory slot of the address, and no other word. |
| PutPage.PutMapsIff | yequ/kernel/mm.c:130-143 | A put takes effect exactly when no large page is in the way; or the large page sends the address there already; or, where it overwrites its own directory entry, the walk through the word written sends the address there. |
| PutPage.NewThroughManaged | yequ/kernel/mm.c:130-143 | For a page in the managed range that walk reads the page as a page table. |
| PutPage.LargePageKept | yequ/kernel/mm.c:130-143 | Under any large page, base 0 included, a translation of its 4 MByte changes exactly when the put overwrote the region's own directory entry and the page read as a page table answers differently. |
| PutPage.LargePageZeroClobbers | yequ/kernel/mm.c:147-161 | With the entry 0x83 that the directory starts with, a put at 0x1000 overwrites the directory entry of the next 4 MByte. |
| PutPage.LargePageHitsTable | yequ/kernel/mm.c:130-143 | With the large page page_dir_init maps at 0x400000 and the page table of the region at 0xC00000 in the frame there, a put at 0x400000 turns the fault at 0xC00000 into a mapping. |
| EventLoopProtocol.WakeupIff | hquin/hquin/EventLoop.cpp:67-139 | In every interleaving, when the loop thread waits with functors pending, the eventfd is readable or another thread is between its push and its write, exactly when the loop thread did not push before loop(), or has drained since, or another thread has pushed. |
| EventLoopProtocol.NoLostWakeup | hquin/hquin/EventLoop.cpp:67-139 | So no wakeup is lost in an interleaving without such a push. |
| EventLoopProtocol.IdleMeansDone | hquin/hquin/EventLoop.cpp:67-154 | A loop that waits with nothing due has run everything ever pushed, unless all there was to wake it was its own push before loop(). |
| EventLoopProtocol.ExactlyOnceInOrder | hquin/hquin/EventLoop.cpp:102-154 | What has run, the rest of the batch and what is pending are together everything pushed, in push order. |
| EventLoopProtocol.BatchIsFixed | hquin/hquin/EventLoop.cpp:141-154 | Until the next swap exactly the functors swapped out run, whatever they or others push, so every round is finite. |
| EventLoopProtocol.PushedLaterWaits | hquin/hquin/EventLoop.cpp:141-154 | What is pushed while a batch runs is still pending when the batch has ended. |
| EventLoopProtocol.EarlyPushWaits | hquin/hquin/EventLoop.cpp:108-110 | A push by the loop thread before loop() leaves it waiting with a functor pending and nothing due. |
| EventLoopProtocol.InvStep | hquin/hquin/EventLoop.cpp:67-154 | Every atomic step of every thread keeps the invariant behind these. |
| EventLoop.Loop.QueueInLoop | hquin/hquin/EventLoop.cpp:102-111 | Push, then the wakeup that the flag and the thread decide, with other threads acting between the two. |
| EventLoop.Loop.SwapOut | hquin/hquin/EventLoop.cpp:142-148 | After the swap everything pushed so far has run or is in the batch. |
| EventLoop.Loop.RunBatch | hquin/hquin/EventLoop.cpp:150-151 | Runs exactly the functors swapped out, in order, and whatever they queue while they run is pushed, in order. |
| EventLoop.Loop.DoPendingFunctors | hquin/hquin/EventLoop.cpp:141-154 | It ends, and everything pushed before it began has run, in push order; what the functors that ran have queued is pending, in order, and with something pending a wakeup is written or on its way. |
| EventLoop.Loop.Turn | hquin/hquin/EventLoop.cpp:67-79 | From poll to poll: all that was queued before has run, and behind it, in this turn and in order, all that the handlers queued; what the functors that ran have queued is pending, in order; and the eventfd was read exactly when its channel fired. |
| EventLoop.RequeuedJoins | hquin/hquin/EventLoop.cpp:150-151 | What functors queue when they run is each one's own, in the order they run in. |
| EventLoop.Places | hquin/hquin/EventLoop.cpp:102-106 | What is queued in order has its places in that order among everything pushed. |
| EventLoop.Loop.Enter | hquin/hquin/EventLoop.cpp:60-65 | Entering loop() is a step of the loop thread that changes nothing queued or run. |
| EventLoop.Loop.Act | hquin/hquin/EventLoop.cpp:102-111 | Another thread: the push under the lock and, as a step of its own, the write. |
| EventLoop.Loop.HandleRead | hquin/hquin/EventLoop.cpp:123-130 | Reading the eventfd sets its counter to 0. |
| EventLoop.OthersOnly | hquin/hquin/EventLoop.cpp:102-154 | Other threads change neither the batch nor what has run nor where the loop thread is. |
| ConnLifecycle.RunsAreOrderly | hquin/hquin/TcpServer.cpp:77-89 | In every run from no connection on, each connection is closed at most once, destroyed at most once and only after its close, never handled, called back, shut down or closed again after its close, and destroyed before the round of its close ends. |
| ConnLifecycle.CountersAreLogged | hquin/hquin/TcpServer.cpp:77-89 | The counters of closes and destructions are those of the log. |
| ConnLifecycle.ClosesQueue | hquin/hquin/TcpServer.cpp:81-89 | Closes queue destructions in order, and only destructions take them off. |
| ConnLifecycle.ClosedInv | hquin/hquin/TcpServer.cpp:81-89 | Closing finds the connection on the list and in a state that may be closed, and keeps the invariant: the erase count asserted to be 1 is 1. |
| ConnLifecycle.DestroyedInv | hquin/hquin/TcpConnection.cpp:90-95 | Destroying finds the poller entry of its own connection and leaves all others. |
| ConnLifecycle.OpenedInv | hquin/hquin/TcpServer.cpp:56-75 | A new connection gets an unused name and keeps the invariant. |
| ConnLifecycle.DescriptorsApart | hquin/hquin/Epoller.cpp:29-53 | Two connections not yet destroyed never share a descriptor. |
| TcpServer.Server.NewConnection | hquin/hquin/TcpServer.cpp:56-75 | The connection enters list and poller under the next name, the kernel is asked for reading, and for writing exactly when the connection callback has left output; that callback may shut it down; no other connection changes. |
| TcpServer.Server.EnterConnection | hquin/hquin/TcpServer.cpp:68-74 | The new object is listed, connected and asked to read, and its channel enters the poller; everything known about the others stays. |
| TcpServer.Server.RemoveConnectionInLoop | hquin/hquin/TcpServer.cpp:81-89 | Erases exactly one entry, its own, and queues the destruction; the close is logged. |
| TcpServer.Server.HandleClose | hquin/hquin/TcpConnection.cpp:132-137 | The state assertion holds, the events are cleared and the connection is closed. |
| TcpServer.Server.ConnectDestroyed | hquin/hquin/TcpConnection.cpp:90-95 | The queued destruction removes exactly one poller entry, its own, and leaves the connection disconnected. |
| TcpServer.Server.HandleRead | hquin/hquin/TcpConnection.cpp:97-108 | The end of the stream closes the connection and clears its events; data and errors leave it open. After data every event of the channel is kept, and writing is added exactly when the message callback has left output. |
| TcpServer.Server.HandleConnEvent | hquin/hquin/Channel.cpp:55-65 | The callbacks called, and what the kernel is asked for afterwards, are exactly what the events and the system calls decide, read again before each callback; after a close there are none. |
| ServerRounds.CloseIsLast | hquin/hquin/Channel.cpp:55-65 | Of the callbacks of one channel a close is the last. |
| ServerRounds.CallbacksIff | hquin/hquin/Channel.cpp:55-65 | Close is called exactly on an error or when reading met the end; read exactly when reading was reported without an error; write exactly when nothing closed and writing was reported or the read callback has left output. |
| ServerRounds.CallbackOrder | hquin/hquin/Channel.cpp:55-65 | Reading comes first, at once followed by what its callback does, writing last, and nothing is called twice. |
| ServerRounds.WithFlags | hquin/hquin/Channel.cpp:29-37 | Asking for more keeps every event asked for and adds the new one. |
| ServerRounds.WithoutFlags | hquin/hquin/Channel.cpp:39-47 | Disabling one event removes it and keeps every other. |
| ServerRounds.MaskedFlags | hquin/hquin/Epoller.cpp:73-83 | Of what is ready, reading and writing are reported as far as they were asked for, errors and hang-ups always on a connection. |
| ServerRounds.ConnAsksFlags | hquin/hquin/Channel.cpp:29-65 | What the kernel is asked for, flag by flag, after the callbacks of a connection: nothing after a close, everything reported and writing after a read that leaves output, and otherwise what stood. |
| ServerRounds.AcceptsIff | hquin/hquin/Acceptor.cpp:40-48 | A descriptor enters exactly when the listening socket was readable and accept gave one not yet known; its connection is shut down at once exactly when its callback does so. |
| ServerRounds.ReportedIff | hquin/hquin/Epoller.cpp:55-83 | A descriptor is reported exactly with the first of the oracle's reports that says something allowed about it. |
| ServerRounds.RoundHandles | hquin/hquin/EventLoop.cpp:71-76 | A round handles exactly the channels of the reported descriptors, in that order. |
| ServerRounds.RoundsCounted | hquin/hquin/EventLoop.cpp:67-79 | As many rounds end as there are oracles. |
| Listening.ReadingKeptIff | hquin/hquin/Channel.cpp:29-47 | After the callbacks of an open connection reading is still asked for exactly when it was reported, or writing was not, or output is left. |
| Listening.DrainedIsUnheard | hquin/hquin/TcpConnection.cpp:112-122 | A round in which a connection is reported as writable and nothing else, and the rest of its output goes out, leaves it open with nothing asked for. |
| Listening.NeverReadAgain | hquin/hquin/EventLoop.cpp:67-79 | From then on, in any number of rounds and whatever the kernel says, the connection is neither read from nor written to. |
| TcpServer.Server.UnheardIff | hquin/hquin/Epoller.cpp:29-42 | Of an open connection in any state of the server, that is so exactly when the kernel is asked for neither reading nor writing on its descriptor. |
| TcpServer.Server.Poll | hquin/hquin/Epoller.cpp:55-83 | What the kernel reports is, of anything an oracle says, each registered descriptor at most once with allowed events; exactly these channels fire, in that order and with these events, and each belongs to an open connection or is a fixed one. |
| TcpServer.Server.HandleEvent | hquin/hquin/Channel.cpp:55-65 | What happens is the reaction its notice decides; other connections are unchanged. |
| TcpServer.Server.HandleFired | hquin/hquin/EventLoop.cpp:73-76 | Every fired channel is handled, in order, and as it stood when the poll returned. |
| TcpServer.Server.Accept | hquin/hquin/Acceptor.cpp:40-48 | A descriptor the kernel does not yet use becomes the next connection; on an error nothing changes. |
| TcpServer.Server.DoPendingFunctors | hquin/hquin/EventLoop.cpp:141-154 | Exactly the destructions queued run, in order, and none is left. |
| TcpServer.Server.Turn | hquin/hquin/EventLoop.cpp:67-79 | One turn adds exactly the round that the tables and the oracle decide (reactions in order, the destructions they queued, the end of the round) and leaves exactly the tables they decide. |
| TcpServer.Server.Loop | hquin/hquin/EventLoop.cpp:60-81 | For any oracles the log grows by exactly one round each, decided by its oracle and the tables the round before has left; the whole log is orderly, and every connection ever closed has been destroyed. |
| TcpServer.Server.Shutdown | hquin/hquin/TcpConnection.cpp:78-83 | Only a connected connection starts disconnecting; it stays open. |
| TcpServer.StillFired | hquin/hquin/EventLoop.cpp:73-76 | Handling one fired channel leaves the later ones fit to be handled. |
| NumberText.RoundTrip | yequ/kernel/debug.c:75-156 | For every 32-bit value, base from 2 to 36, width, precision and flags the text reads back as the value, or as the unsigned word when no sign is asked for; the most negative value included. |
| NumberText.TextLength | yequ/kernel/debug.c:100-153 | The text is as long as the width, or as sign, prefix and digits with leading zeros up to the precision, whichever is more. |
| NumberText.LayoutShape | yequ/kernel/debug.c:119-153 | A text is blanks, sign, prefix, zeros, digits, blanks, and at most one kind of padding fills the width: blanks behind with LEFT, zeros with ZEROPAD alone, else blanks before. |
| NumberText.TextParts | yequ/kernel/debug.c:75-156 | The parts of every printed number: digits that have the value, none too many; a minus, plus, blank or no sign; 0, 0x, 0X or no prefix; and padding on the side and of the kind the flags name. |
| NumberText.TextInCase | yequ/kernel/debug.c:80-82 | With SMALL no capital letter is printed and without it no small one, the prefix included. |
| NumberText.AtMost32Digits | yequ/kernel/debug.c:110-117 | No 32-bit value has more than 32 digits in any base. |
| KernelPrintf.Number | yequ/kernel/debug.c:75-156 | Null for a bad base; otherwise the text is appended, from the loops as they are, with one counter. |
| KernelPrintf.PutDigits | yequ/kernel/debug.c:110-117 | The digits are produced backwards in at most 32 of the 36 places. |
| KernelPrintf.DoDiv | yequ/kernel/debug.c:70-73 | The word is divided as an unsigned one. |
| KernelPrintf.OnePadding | yequ/kernel/debug.c:124-153 | The counter a padding loop leaves behind keeps the later ones from emitting. |
| Vsprintf.Vsprintf | yequ/kernel/debug.c:158-320 | For every format and every argument list long enough for it, the text written and the counts stored are the meaning of the format; it ends, and never reads past the NUL. |
| Vsprintf.ScanConversion | yequ/kernel/debug.c:177-231 | The cursor walk over flags, width, precision and length finds what the grammar says. |
| Vsprintf.Convert | yequ/kernel/debug.c:233-304 | Each conversion letter appends the text its argument means; a number reads back in the base of its letter, 8 for o, 16 for p, x and X, 2 for b, 10 for u, d and i, the last two with their sign. |
| Vsprintf.PutString | yequ/kernel/debug.c:246-266 | A string is cut to the precision and justified in the width. |
| Vsprintf.SkipAtoi | yequ/kernel/debug.c:51-60 | Reads the decimal number at the cursor and stops behind it. |
| FormatSpec.RenderAppend | yequ/kernel/debug.c:158-320 | The meaning of two formats in sequence is the one after the other, arguments and counts handed on. |
| FormatSpec.EscapeRoundTrip | yequ/kernel/debug.c:171-175 | Any text with every % doubled prints as itself and takes no argument. |
| FormatSpec.DecimalRoundTrip | yequ/kernel/debug.c:158-320 | A %d, in any width, precision and flags, reads back as the argument. |
| FormatLaws.NumbersReadBack | yequ/kernel/debug.c:268-299 | Every conversion of a number, in any width, precision and flags, reads back as its argument in the base of its letter, signed with d and i and otherwise as the unsigned word. |
| FormatLaws.PrintedReadsBack | yequ/kernel/debug.c:158-299 | A format of one such conversion, spelled with any flags, width, precision and length, takes one argument and prints a number that reads back as it. |
| FormatLaws.ConversionReads | yequ/kernel/debug.c:177-231 | A conversion spelled with flags, width, precision, length and letter is read as what it says, whatever stands around it. |
| FormatLaws.FlagsMean | yequ/kernel/debug.c:177-195 | Each flag is set by its own character and by no other, and none of them sets the sign or the case. |
| FormatLaws.OneCase | yequ/kernel/debug.c:277-287 | x prints no capital letter, X and p no small one, the prefix included. |
| FormatLaws.TextsInFields | yequ/kernel/debug.c:233-266 | c prints the argument's low byte and s the string or its beginning up to the precision: at the left end of the field with LEFT, otherwise at the right end, blanks elsewhere, as wide as the width or the text. |
| FormatLaws.OtherLetters | yequ/kernel/debug.c:301-314 | n prints nothing and stores the count so far, no other letter stores; an unknown letter is shown behind its %, a doubled % as one. |
| FormatSpec.StarIsShown | yequ/kernel/debug.c:202-224 | A conversion with a star for its width or precision takes one argument, shows as %* and stores nothing. |
| FormatSpec.StarredDecimal | yequ/kernel/debug.c:202-224 | The format %*d prints itself and takes one argument. |
| RioSpec.Transparent | tinyhttp/rio.c:61-128 | Whatever the mixture of line and byte calls, the answers and the rest of the stream are the stream: nothing lost, repeated or reordered. |
| RioSpec.LineExactly | tinyhttp/rio.c:88-110 | A line call returns the one length that fits, passes over no newline and stops for a reason: newline, room or end. |
| RioSpec.BytesExactly | tinyhttp/rio.c:112-128 | A byte call returns the one number that is asked for, or all that is left when that is less. |
| RioSpec.AnswersFit | tinyhttp/rio.c:88-128 | Every answer of a session is what was asked for: a line with its newline, one as long as fits, or bytes in full, unless the stream has ended. |
| RioSpec.LinesComeBack | tinyhttp/rio.c:88-110 | Reading line by line gives back the lines a text was made of. |
| RioSpec.PartsComeBack | tinyhttp/rio.c:88-128 | Reading a text in its parts, lines by line calls and anything else by its number of bytes, gives back the parts. |
| RioSpec.SplitRequest | tinyhttp/rio.c:112-128 | Two byte requests in a row answer like one for the sum. |
| Rio.Session | tinyhttp/rio.c:53-128 | Any calls in any order on a descriptor with any chunks and interruptions give the answers of the plain stream, each of them what was asked for, short only when the stream has ended. |
| Rio.Reader.constructor | tinyhttp/rio.c:53-58 | An empty cache over the descriptor. |
| Rio.Reader.Refill | tinyhttp/rio.c:65-75 | Ends with something cached, at the end of the stream, or on an error, and never changes what is unread. |
| Rio.Reader.ReadSome | tinyhttp/rio.c:61-86 | Hands over a prefix of what is unread, into that place of the buffer only; 0 only at the end. |
| Rio.Reader.ReadLine | tinyhttp/rio.c:88-110 | The exact line, its count, and the whole buffer: the line, a NUL unless at the end of the stream, and the rest as before; on an error the bytes taken are in the buffer. |
| Rio.Reader.ReadBytes | tinyhttp/rio.c:112-128 | As many bytes as asked for, fewer only when nothing is left unread, in order, and the rest of the buffer as before. |
| Vga.Screen.PutcColor | yequ/driver/vga.c:70-99 | For every byte and colours the video array stays the last 25 rows of the log, and the cursor the log's cursor. |
| Vga.Screen.PutsColor | yequ/driver/vga.c:106-117 | A string prints up to its NUL. |
| Vga.Screen.DrawCell | yequ/driver/vga.c:87-90 | Writing a cell under the cursor writes that cell of the log. |
| Vga.Screen.Scroll | yequ/driver/vga.c:28-51 | The two loops move every row up by one, and the last row becomes 80 blanks, white on black. |
| Vga.Screen.Init | yequ/driver/vga.c:54-67 | Every cell a blank, white on black, and the cursor at the top left. |
| Vga.Screen.Settle | yequ/driver/vga.c:92-98 | Wrapping a full row and scrolling is going down one row of the log. |
| Vga.DownShows | yequ/driver/vga.c:28-51 | Going down shows the last 25 rows again, scrolled exactly when the cursor was on the last one. |
| Vga.VisibleText | yequ/driver/vga.c:70-99 | Of a printed text, all that landed in the last 25 rows stands on the screen at its place, in order. |
| ScreenSpec.TextIsKept | yequ/driver/vga.c:87-95 | Printable text lands in consecutive places, wrapping every 80, and disturbs nothing before. |
| ScreenSpec.HistoryIsKept | yequ/driver/vga.c:70-99 | No later text changes a row above the cursor. |
| ScreenSpec.BackspaceUndoes | yequ/driver/vga.c:78-95 | Backspace takes back a drawn character's step exactly when it did not fill the row. |
| ScreenSpec.CellRoundTrip | yequ/driver/vga.c:72-76 | Character and four bits of each colour can be read back from a cell. |
| ScreenSpec.CodesMove | yequ/driver/vga.c:78-98 | Every code from 0x20 to 0x7F moves the cursor one place on; 8, 9, 13 and 10 go a column back, to the next multiple of 8, to the start of the row and to the next row; all others do nothing. |
| ScreenSpec.RowsAreBlank | yequ/driver/vga.c:28-67 | The rows a log begins with and grows by are blanks, white on black. |
| ScreenSpec.PrintAppends | yequ/driver/vga.c:106-117 | Printing two texts is printing their concatenation. |
| HttpMessage.RoundTrip | hquin/hquin/http/HTTPRequest.cpp:64-102 | Parsing inverts printing: method, path, version and headers come back, the first of each header name counting. |
| HttpMessage.RecoveredIff | hquin/hquin/http/HTTPRequest.cpp:64-102 | With distinct header names a printed request comes back exactly when path and names hold no space and values no CR. |
| HttpMessage.FirstCounts | hquin/hquin/http/HTTPRequest.h:46-54 | A header lookup finds the value known before, else that of the first field of the name, and nothing when there is no such field. |
| HttpMessage.ScanIsClean | hquin/hquin/http/HTTPRequest.cpp:85-101 | No text at all can yield a header name with a space or a value with a CR. |
| HttpMessage.RequestLine | hquin/hquin/http/HTTPRequest.cpp:73-82 | The three finds cut a printed request line into its parts. |
| HttpMessage.WordsRead | hquin/hquin/http/HTTPRequest.cpp:17-82 | Of any three words of a request line, GET and POST, HTTP/1.0 and HTTP/1.1 are known and nothing else is, the middle one is the path, and what follows are headers. |
| HttpMessage.VerbsRead | hquin/hquin/http/HTTPRequest.cpp:17-26 | A text that was read says GET, or POST, exactly when it begins with that word and a space. |
| HttpMessage.ScanEnds | hquin/hquin/http/HTTPRequest.cpp:85-101 | Header lines are read until what is left has no space, which ends them, or begins with one, which is an exception; the lines before count either way. |
| HttpMessage.CrLfIff | hquin/hquin/http/HTTPRequest.cpp:64-72 | A text is complete exactly when some CR is followed by an LF. |
| HttpRequest.HTTPRequest.Handle | hquin/hquin/http/HTTPRequest.cpp:64-102 | For every text: returns without a change when there is no CRLF, throws with what was read so far when a range would be inverted, and otherwise holds what the text means. |
| HttpRequest.HTTPRequest.HandleHeaders | hquin/hquin/http/HTTPRequest.cpp:85-101 | The header loop ends for every text and adds what the lines mean. |
| HttpRequest.Find | hquin/hquin/http/HTTPRequest.cpp:73-81 | The first occurrence from a position on, cutting the text into what is before and behind. |

## Left out

2048
- Drawing, colours, keyboard input and `ai.cpp`. The random generators are a free choice: a spawn may fall in any blank cell. In the C++ model the value is the one the cell's position decides, as the code has it; in the C model it is 2 or 4.
- Board cells and counters are unbounded integers; `GameTheory.FitsInt` shows that 32 bits hold them on the 4 by 4 board.

yequ memory manager
- `page_init` does not link any page to the free list. `MemoryManager.Memory.constructor` therefore threads them onto the list, the state `alloc_page` and `free_page` expect. CR0, CR3 and CR4 are not modelled.
- MemoryManager.Memory.PutPage: the messages it prints, and the read past the end of the array of pages that one of them makes for a page outside the managed range.
- Memory is a total function from addresses to words, and the page structures and kernel code do not lie in it. Reference counts do not wrap, and nothing is said about the state after a panic.
- The walk ignores the PAT and PSE-36 bits of large pages and all access rights.

yequ printf
- The output is a growing string: `printk`'s and `panic`'s static buffers and their size are not modelled.
- Vsprintf.SkipAtoi: the number is unbounded; in C a number of ten or more digits may overflow an int, for which the language defines no result.
- Vsprintf.Vsprintf: widths and precisions are unbounded for the same reason, and so is the padding counter.
- Strings for %s are looked up in a memory that does not change; a %n only records what it stores.

yequ text screen
- The cursor registers of the video hardware.

hquin event loop
- `stop()`, starting the thread, the poll's timeout, and who holds the mutex for how long; a push under the lock is one step.

hquin server
- More than one loop, threads, destructors that close descriptors, names of connections (a counter stands for them), `send` and the order of output: which bytes are written, and when, is up to the oracle.
- TcpServer.Server.UserCallback: user callbacks act on their own connection only; the listening socket and the eventfd never report errors; the kernel hands out only descriptors that are not in use.

hquin HTTP requests
- Request bodies, responses and the time stamp. A range that would end before it begins counts as a thrown `std::length_error`.

tinyhttp buffered reader
- `rio_readn`, `rio_writen` and the rest of tinyhttp. A line is at most as long as an `int` counts. The stream of a descriptor is fixed in advance and does not grow after its end was seen.
- Rio.Reader.ReadLine: the buffer has at least one byte, since the code writes a NUL even for a maxlen of 0.
