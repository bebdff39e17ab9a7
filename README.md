# Systems-programming exercises, modelled in Dafny

This project models four exercises from the repository:

- **Task 1** is `Tank<T>`, a growable array with a summing helper.
- **Task 2** is a batch matrix-multiplication tool. It has:
  - a chunked, bounded FIFO queue;
  - a worker pool built on that queue;
  - a row-major integer matrix;
  - a sequential driver and a "parallel" driver;
  - a standalone single-file version;
  - a Python checker that parses the printed product log back and checks every product.
- **Task 3** is a song server. The model covers its suffix test, path join, song selection and options.
- **hw** is a chat server. The model covers its options, its name-ordered user registry, the user list, broadcasting, and the whole per-client conversation of `handle_client`.

Each source file becomes one module:

| Module | File | Models |
|---|---|---|
| `ChunkQueue` | `chunk_queue.dfy` | the queue |
| `WorkerPool` | `worker_pool.dfy` | the worker pool |
| `Matrices` | `matrix.dfy` | the matrix, as the `Matrix` class with a `Mat` value |
| `MatrixOptions` | `options.dfy` | the matrix tool's options |
| `Sequential` | `sequential.dfy` | the sequential driver |
| `Parallel` | `parallel.dfy` | the parallel driver |
| `MatrixMulSeq` | `matrix_mul_seq.dfy` | the single-file version |
| `CheckAnswers` | `check_answers.dfy` | the checker |
| `Text` | `text.dfy` | `%ld` formatting, Python's `int`, `str.split`, `str.strip` and `startswith` |
| `Tanks` | `tank.dfy` | the `Tank` class |
| `SongServer` | `song_server.dfy` | the song server |
| `ChatServer` | `chat_server.dfy` | the chat server |

`Wrappers` and `CommandLine` (in `wrappers.dfy`) hold `Option`, `Result` and a command-line argument. A command-line argument is its text together with the integer `atoi`/`stoi` reads from it.

Code that changes state in place is written imperatively:

- the queue, the pool, matrices, the tank and the chat registry are classes;
- their operations are methods with `modifies` frames and loop invariants;
- each method is specified against ghost functions of the state:
  - `Queue.Contents()` is the FIFO sequence of tasks;
  - `Tank.Elements()` is the stored elements;
  - `Matrix.Value()` is the matrix as a `Mat` value;
  - the chat registry is specified by the `Insert`/`Remove` functions and by inboxes.

Pure code is written as functions with lemmas: option parsing, `MATRIX_idx`, `MATRIX_print`, the Python parsing, the suffix test and the user list.

Blocking waits on condition variables become preconditions. An error exit (`exit(1)`, `assert`, `throw`, a Python exception) becomes an error result.

## Model

| member | source | states |
|---|---|---|
| ChunkQueue.Chunk.constructor | task2/matrix_mul/queue.c:7-24 | a fresh chunk has `filled == next == 0`, no successor and no waiting task |
| ChunkQueue.Chunk.Push | task2/matrix_mul/queue.c:147 | storing at `filled` appends the task to the chunk's waiting tasks and bumps `filled` |
| ChunkQueue.Chunk.Take | task2/matrix_mul/queue.c:94-95 | reading at `next` returns the oldest waiting task of the chunk and bumps `next` |
| ChunkQueue.SnocInit | task2/matrix_mul/queue.c:136-147 | a chain is its prefix with its back chunk linked on again |
| ChunkQueue.ChainSnoc | task2/matrix_mul/queue.c:136-147 | linking a fresh chunk after a full back keeps the chain well formed |
| ChunkQueue.ChainUnsnoc | task2/matrix_mul/queue.c:98-113 | a well-formed chain's prefix is well formed and all its chunks are full |
| ChunkQueue.ChainSize | task2/matrix_mul/queue.c:98-145 | a chain holds `(length - 1) * 1000 + back.filled - front.next` tasks |
| ChunkQueue.FlattenSnoc | task2/matrix_mul/queue.c:136-147 | the tasks of a chain with a chunk linked on are its tasks followed by the chunk's |
| ChunkQueue.Queue.constructor | task2/matrix_mul/queue.c:30-50 | one empty chunk that is both front and back, `dispatched == 0`, `live_chunk_count == 1`, empty contents |
| ChunkQueue.Queue.RegisterCompletion | task2/matrix_mul/queue.c:77-81 | `dispatched` drops by one; contents and invariant kept |
| ChunkQueue.Queue.Get | task2/matrix_mul/queue.c:88-123 | given the negated wait guard: returns the head of the contents (`front.tasks[next]`), the rest stays in order, `dispatched` goes up by one, the invariant holds |
| ChunkQueue.Queue.TakeFront | task2/matrix_mul/queue.c:94-95 | the read of `QUEUE_get` removes the head and advances `front.next` |
| ChunkQueue.Queue.RetireSpent | task2/matrix_mul/queue.c:98-113 | a fully read front is unlinked; with no successor a fresh empty chunk is front and back and the live count is kept, otherwise the successor is front and the live count drops by one; contents kept |
| ChunkQueue.Queue.LinkChunk | task2/matrix_mul/queue.c:137-145 | a full back gets a fresh empty successor that becomes the back; `live_chunk_count` goes up by one; contents kept |
| ChunkQueue.Queue.AttachChunk | task2/matrix_mul/queue.c:138-139 | the new empty chunk is linked after the full back |
| ChunkQueue.Queue.PushBack | task2/matrix_mul/queue.c:147 | the task joins the end of the contents in the back chunk |
| ChunkQueue.Queue.Add | task2/matrix_mul/queue.c:130-151 | given the negated wait guard: the task is appended to the contents, the front is kept, a new chunk is linked exactly when the back was full, and capacity drops by one |
| ChunkQueue.Queue.GetGuard | task2/matrix_mul/queue.c:90-92 | the wait guard of `QUEUE_get` holds exactly when the queue is empty |
| ChunkQueue.Queue.AddGuard | task2/matrix_mul/queue.c:132-134 | the wait guard of `QUEUE_add` holds exactly when no capacity is left; contents never exceed 100 chunks of 1000 |
| WorkerPool.ExecsSnoc | task2/matrix_mul/worker_pool.c:70-80 | the EXEC wrappers for one more payload end with that payload's EXEC |
| WorkerPool.KillsSnoc | task2/matrix_mul/worker_pool.c:86-99 | one more KILL wrapper joins the end |
| WorkerPool.TakeExecs | task2/matrix_mul/worker_pool.c:10 | the oldest wrapper of EXECs followed by others is the first EXEC while any is left |
| WorkerPool.TakeKill | task2/matrix_mul/worker_pool.c:10-15 | the oldest of `n` KILLs is a KILL and `n - 1` remain |
| WorkerPool.RunningCount | task2/matrix_mul/worker_pool.c:57-59 | the running workers number at most all of them, and some run exactly when the count is positive |
| WorkerPool.RunningCountTerminate | task2/matrix_mul/worker_pool.c:11-15 | terminating a running worker lowers the count by one |
| WorkerPool.Pool.constructor | task2/matrix_mul/worker_pool.c:33-62 | records `thread_count`; every worker shares one fresh empty queue and starts running; nothing executed yet |
| WorkerPool.Pool.EnqueueTask | task2/matrix_mul/worker_pool.c:70-80 | exactly one EXEC wrapper carrying the payload joins the back of the queue |
| WorkerPool.Pool.EnqueueAll | task2/matrix_mul/worker_pool.c:70-80 | enqueuing payloads in turn appends their EXEC wrappers in order |
| WorkerPool.Pool.PushExec | task2/matrix_mul/worker_pool.c:70-80 | the EXEC for the next payload extends those already appended |
| WorkerPool.Pool.RequestStop | task2/matrix_mul/worker_pool.c:86-99 | exactly `thread_count` KILL wrappers join the back, behind everything already queued |
| WorkerPool.Pool.PushKill | task2/matrix_mul/worker_pool.c:87-98 | one more KILL extends those already appended |
| WorkerPool.Pool.WorkerStep | task2/matrix_mul/worker_pool.c:9-25 | a worker takes the oldest wrapper; on KILL it terminates and runs nothing, on EXEC it runs the payload once and stays running; `dispatched` is back where it was |
| WorkerPool.Pool.Run | task2/matrix_mul/worker_pool.c:4-27 | a worker alone runs every EXEC ahead of the first KILL in order, consumes that KILL and terminates |
| WorkerPool.Pool.Turn | task2/matrix_mul/worker_pool.c:9-25 | an arbitrary running worker's step runs the next EXEC or, once none is left ahead of the KILLs, takes one and terminates that worker |
| WorkerPool.Pool.Join | task2/matrix_mul/worker_pool.c:82-110 | with EXECs followed by one KILL per running worker, in any interleaving of steps, every worker terminates and, if any ran, every EXEC ran exactly once in order and the queue ends empty |
| WorkerPool.Pool.StageTask | task2/matrix_mul/worker_pool.c:70-80 | a task enqueued while workers run joins those still queued behind them |
| WorkerPool.Pool.StageKill | task2/matrix_mul/worker_pool.c:86-99 | a KILL enqueued once every task is in joins the back; the count of workers still running is kept |
| WorkerPool.Pool.StageTurn | task2/matrix_mul/worker_pool.c:9-25 | a worker's step while tasks or KILLs are still being enqueued runs the oldest remaining task, or terminates the worker only once every task has run |
| WorkerPool.Pool.Advance | task2/matrix_mul/worker_pool.c:9-99 | whichever of a non-blocking enqueue and a non-blocking worker step happens next, the pool stays in a consistent stage and comes closer to the end |
| WorkerPool.Lifecycle | task2/matrix_mul/worker_pool.c:33-110 | create, enqueue, stop and join with at least one thread and workers running throughout, in any interleaving: every task runs once in order, all workers terminate, the queue is empty and `dispatched` is back to 0 |
| Matrices.Mat.Row | task2/matrix_mul/matrix.c:41-44 | a row lists its cells by ascending column |
| Matrices.Mat.Rows | task2/matrix_mul/matrix.c:41-46 | the matrix as one list per row |
| Matrices.Print | task2/matrix_mul/matrix.c:39-47 | the first line is `Matrix<rows, cols>`, then exactly `rows` lines, line `r` listing row `r` |
| Matrices.IdxInRange | task2/matrix_mul/matrix.c:52-54 | every cell's index lies in `[0, rows * cols)` |
| Matrices.IdxInjective | task2/matrix_mul/matrix.c:52-54 | two cells share an index exactly when they are the same cell |
| Matrices.RowsApart | task2/matrix_mul/matrix.c:52-54 | a later row starts a whole row further on |
| Matrices.Matrix.Value | task2/matrix_mul/matrix.c:7-26 | the value view of a matrix has its dimensions and cells, and is well formed when the matrix is valid |
| Matrices.Matrix.constructor | task2/matrix_mul/matrix.c:13-25 | a fresh buffer of `rows * cols` cells with the given dimensions |
| Matrices.Create | task2/matrix_mul/matrix.c:7-26 | fails exactly when a dimension is not positive, otherwise a fresh matrix of those dimensions |
| MatrixOptions.Set | task2/matrix_mul/options.c:7-16 | order from the first argument (else 0), count from the second (else 1), logging on for a non-zero third; accepted exactly when the order and the count are positive |
| MatrixOptions.OrderIsRequired | task2/matrix_mul/options.c:8-15 | a run without a first argument is always rejected |
| Sequential.MultiplyAll | task2/matrix_mul/sequential.c:27-29 | triples are multiplied in index order; the run succeeds exactly when every triple conforms, and each triple before the first mismatch gets its product |
| Sequential.Multiply | task2/matrix_mul/sequential.c:56-70 | succeeds exactly when the dimensions agree; then every product cell is its row-by-column sum; on a mismatch nothing is written; operands unchanged |
| Sequential.FillRow | task2/matrix_mul/sequential.c:63-68 | one row's cells become their sums and every other row is kept |
| Sequential.FillCell | task2/matrix_mul/sequential.c:64-67 | one cell is zeroed, then gets its row-by-column sum; every other cell is kept |
| Parallel.RequestMultiplication | task2/matrix_mul/parallel.c:66-80 | the same outcome as `Sequential.Multiply`: fails on the same mismatch, otherwise computes the product in the caller |
| Parallel.RequestAll | task2/matrix_mul/parallel.c:30-34 | one request per operation in index order, with the same outcome as the sequential loop |
| Parallel.Run | task2/matrix_mul/parallel.c:26-36 | with a pool of 0 threads, every product is right, the stop request queues nothing and the join waits for no worker |
| MatrixMulSeq.IdxAsWrittenAgrees | task2/matrix_mul_seq.c:186-188 | the row-count stride equals row-major indexing on every cell exactly when the matrix is square or has one row |
| MatrixMulSeq.IdxAsWrittenCollides | task2/matrix_mul_seq.c:186-188 | in a 2 by 3 matrix two different cells share a slot |
| MatrixMulSeq.IdxAsWrittenOverruns | task2/matrix_mul_seq.c:186-188 | in a 3 by 1 matrix a cell indexes past the buffer |
| MatrixMulSeq.SetOptions | task2/matrix_mul_seq.c:196-204 | order from the first argument (else 0), count from the second (else 1), accepted exactly when both are positive |
| MatrixMulSeq.CreateMatrices | task2/matrix_mul_seq.c:120-135 | `operations` triples of fresh, square `order` by `order` matrices, no buffer shared |
| MatrixMulSeq.Execute | task2/matrix_mul_seq.c:39-50 | every product the program computes is right, despite the row-count stride |
| MatrixMulSeq.Multiply | task2/matrix_mul_seq.c:83-97 | on square matrices: fails exactly on a mismatch, otherwise writes every product cell with its sum; operands unchanged |
| MatrixMulSeq.FillCell | task2/matrix_mul_seq.c:91-94 | one cell, reached through the row-count stride, gets its row-by-column sum; every other slot is kept |
| Text.DigitChar | task2/matrix_mul/matrix.c:43 | a digit character whose value is the digit |
| Text.Digits | task2/matrix_mul/matrix.c:43 | a non-empty digit string with no leading zero |
| Text.ValueOfDigits | task2/matrix_mul/matrix.c:43 | the digits of `n` spell `n` |
| Text.FormatInt | task2/matrix_mul/matrix.c:43 | `%ld` text is non-empty digits with a leading minus exactly for negative values |
| Text.TrimLeft | task2/matrix_mul/check_answers.py:24 | strips leading whitespace only, and what is left starts with no whitespace |
| Text.TrimRight | task2/matrix_mul/check_answers.py:24 | strips trailing whitespace only, and what is left ends with no whitespace |
| Text.ParseFormatInt | task2/matrix_mul/check_answers.py:24-26 | Python's `int` reads back what `%ld` wrote, also after a leading blank |
| Text.ParseNumeralFormatInt | task2/matrix_mul/check_answers.py:26 | a `%ld` numeral has the value it was written from |
| Text.Untrimmed | task2/matrix_mul/check_answers.py:24 | stripping leaves unpadded text alone |
| Text.WordLength | task2/matrix_mul/check_answers.py:26 | the leading run of non-whitespace ends at whitespace or at the end |
| Text.WordsCons | task2/matrix_mul/check_answers.py:26 | `split()` takes a word followed by whitespace off whole |
| Text.WordLengthCons | task2/matrix_mul/check_answers.py:26 | the first word of word-space-rest is that word |
| Text.RowText | task2/matrix_mul/matrix.c:42-44 | a printed row is empty exactly when the row is |
| Text.ParseRowText | task2/matrix_mul/check_answers.py:26 | `split()` then `int` on a printed row gives the row back |
| Text.WordsRowText | task2/matrix_mul/check_answers.py:26 | the first word of a printed row is its first value's `%ld` text |
| Text.ParseIntsCons | task2/matrix_mul/check_answers.py:26 | a list of words parses when its head and its tail do |
| Text.IndexOf | task2/matrix_mul/check_answers.py:24 | the first occurrence of the separator, or the length when absent |
| Text.Split | task2/matrix_mul/check_answers.py:24 | `split(sep)` gives one piece more than separators, a single piece exactly when there is none |
| Text.JoinSplit | task2/matrix_mul/check_answers.py:24 | joining the pieces of a split gives the text back |
| Text.JoinCons | task2/matrix_mul/check_answers.py:24 | joining a piece onto more pieces puts one separator between them |
| Text.SplitNone | task2/matrix_mul/check_answers.py:24 | text without the separator is one piece |
| Text.SplitFirst | task2/matrix_mul/check_answers.py:24 | the first separator ends the first piece |
| CheckAnswers.ParseHeader | task2/matrix_mul/check_answers.py:24 | an `IndexError` exactly when the line has no `<` |
| CheckAnswers.ParseDimensions | task2/matrix_mul/check_answers.py:24 | any failure to read exactly two integers is a `ValueError` |
| CheckAnswers.FormatIntPlain | task2/matrix_mul/matrix.c:40 | `%ld` text contains no `<`, `>` or `,` |
| CheckAnswers.ParseHeaderPrinted | task2/matrix_mul/check_answers.py:24 | the header parse reads back the dimensions `MATRIX_print` wrote |
| CheckAnswers.HeaderPieces | task2/matrix_mul/check_answers.py:24 | how a printed header splits at `<`, `>` and `,` |
| CheckAnswers.SplitOpen | task2/matrix_mul/check_answers.py:24 | `split("<")` of a header gives the name and the rest |
| CheckAnswers.SplitClose | task2/matrix_mul/check_answers.py:24 | `split(">")[0]` of the rest gives the dimensions text |
| CheckAnswers.SplitComma | task2/matrix_mul/check_answers.py:24 | `split(",")` of the dimensions text gives the two numerals |
| CheckAnswers.ParseBlock | task2/matrix_mul/check_answers.py:26 | a parsed block has one row per line |
| CheckAnswers.ParseBlockRows | task2/matrix_mul/check_answers.py:26 | printed rows parse back to the rows |
| CheckAnswers.ReadAt | task2/matrix_mul/check_answers.py:20-28 | past the end is an `IndexError`; a read needs a header that parses and moves the cursor `rows + 1` lines on |
| CheckAnswers.ReadRows | task2/matrix_mul/check_answers.py:26-27 | at most `rows` rows, and the cursor moves exactly `rows` on |
| CheckAnswers.ReadAtPrinted | task2/matrix_mul/check_answers.py:20-28 | reading where `MATRIX_print`'s lines start gives the matrix's rows and moves the cursor just past them |
| CheckAnswers.PrintedAnnounces | task2/matrix_mul/matrix.c:39-47 | printed lines announce the dimensions and parse back to the rows |
| CheckAnswers.ReadAtLines | task2/matrix_mul/check_answers.py:20-28 | a header and its announced rows read back, landing past them |
| CheckAnswers.ReadAtHeader | task2/matrix_mul/check_answers.py:22-28 | a parsed header followed by rows that read is a matrix read |
| CheckAnswers.ReadRowsWhole | task2/matrix_mul/check_answers.py:26-27 | all announced rows present and parsing are the rows read |
| CheckAnswers.PrintedBlock | task2/matrix_mul/check_answers.py:26 | the row lines of a printed matrix parse back to its rows |
| CheckAnswers.Shape | task2/matrix_mul/check_answers.py:35 | numpy's matrix shape of a list of rows: at least one row, an empty list is 1-by-0 |
| CheckAnswers.Compare | task2/matrix_mul/check_answers.py:35 | ragged operands or inner dimensions that differ under numpy's shapes raise `ValueError`, and nothing else does; an answer needs a non-empty left operand |
| CheckAnswers.EmptyOperands | task2/matrix_mul/check_answers.py:35 | an empty left operand raises `ValueError`; an empty right operand after one column gives an empty product equal to an empty answer |
| CheckAnswers.ListDotRows | task2/matrix_mul/check_answers.py:35 | on a matrix's rows the list sum is the matrix sum |
| CheckAnswers.CompareRows | task2/matrix_mul/check_answers.py:35 | the comparison accepts exactly the true products |
| CheckAnswers.RightUpToNext | task2/matrix_mul/check_answers.py:30-37 | one more right product extends the checked prefix; a wrong one fails the whole log |
| CheckAnswers.Log.constructor | task2/matrix_mul/check_answers.py:16-18 | the lines plus the empty sentinel, cursor at 0 |
| CheckAnswers.Log.ReadMatrix | task2/matrix_mul/check_answers.py:20-28 | parses the matrix at the cursor and moves the cursor past it, or fails with the parse's error |
| CheckAnswers.Log.CheckOperation | task2/matrix_mul/check_answers.py:31-37 | on a driver's log, reads operation `k`'s three matrices, answers whether the product is right and lands on the next group |
| CheckAnswers.ReadAtBlock | task2/matrix_mul/check_answers.py:26-27 | the rows read are the block's lines up to the end of the text |
| CheckAnswers.ReadAtRows | task2/matrix_mul/check_answers.py:22-27 | after a header, the read is the announced rows |
| CheckAnswers.ReadRowsBlock | task2/matrix_mul/check_answers.py:26-27 | a short text yields fewer rows, yet the cursor still moves `rows` on |
| CheckAnswers.LogStep | task2/matrix_mul/check_answers.py:30-34 | each group starts with an `Operation` line and its three matrices read back in turn |
| CheckAnswers.LogOpens | task2/matrix_mul/check_answers.py:30 | each group's first line starts with `Operation` |
| CheckAnswers.OperationHead | task2/matrix_mul/sequential.c:38-41 | the `Operation` line is followed by the three printed matrices |
| CheckAnswers.OperationLine | task2/matrix_mul/sequential.c:38 | the index line starts with `Operation` |
| CheckAnswers.ReadOperation | task2/matrix_mul/check_answers.py:32-34 | an operation's three matrices read back one after the other |
| CheckAnswers.ReadThree | task2/matrix_mul/check_answers.py:32-34 | three announced blocks read back in turn |
| CheckAnswers.LogEnd | task2/matrix_mul/check_answers.py:17-30 | after the last group the sentinel stops the loop |
| CheckAnswers.Check | task2/matrix_mul/check_answers.py:10-39 | a missing file returns 1; results are 0 or 1; on a driver's log, 0 exactly when every product is right |
| Tanks.Tank.Elements | task1/Tank.h:23-26 | the stored elements number `filled` |
| Tanks.Tank.constructor | task1/Tank.cpp:6-13 | capacity `initial_capacity`, no elements |
| Tanks.Tank.Resize | task1/Tank.cpp:15-24 | succeeds exactly when the elements fit, then with the new capacity and the same elements; a failure changes nothing |
| Tanks.Tank.Size | task1/Tank.cpp:26-28 | the number of stored elements |
| Tanks.Tank.PushBack | task1/Tank.cpp:30-35 | the item joins the back; a full buffer first grows to twice its capacity, or to 1 |
| Tanks.Tank.PopBack | task1/Tank.cpp:37-40 | fails on an empty tank; otherwise returns the last element and the others are kept |
| Tanks.Tank.At | task1/Tank.cpp:42-45 | fails exactly when the index is negative or not below the size; otherwise the element there |
| Tanks.Tank.Get | task1/Tank.cpp:47-49 | the same as `at` |
| Tanks.Tank.FreeArray | task1/Tank.cpp:51-56 | no elements and no capacity |
| Tanks.Grown | task1/Tank.cpp:32 | the grown capacity exceeds the old one and doubles a positive one |
| Tanks.SumSnoc | task1/Tank.cpp:64-67 | adding one more element adds it to the sum |
| Tanks.FoldLeftSnoc | task1/Tank.cpp:64-67 | folding in one more element applies `+=` to the running sum once more |
| Tanks.Accumulate | task1/Tank.cpp:62-69 | for any element type: `T{}` with every element added by `+=`, front to back (a left fold) |
| Tanks.FoldLeftPlus | task1/Tank.cpp:62-69 | for integers the left fold with `+` from `z` is `z` plus the sum of the elements |
| Tanks.AccumulateInts | task1/Tank.cpp:62-69 | on integers, the sum of the elements, 0 when empty |
| SongServer.HasSuffixChars | task3/server.c:247-252 | the suffix test holds exactly when the string is long enough and its last characters match one by one |
| SongServer.HasSuffixAppend | task3/server.c:247-252 | every string ends with what it was extended by |
| SongServer.HasSuffixBounds | task3/server.c:251 | the empty suffix matches everything; a longer suffix matches nothing |
| SongServer.JoinPath | task3/server.c:272-278 | the directory, a `/`, then the name, of length `|directory| + 1 + |name|` |
| SongServer.JoinPathSuffix | task3/server.c:272-278 | a joined path ends with its name |
| SongServer.Songs | task3/server.c:269-282 | the selected entries, no more than there are, all ending in `.mp3` |
| SongServer.Paths | task3/server.c:272-278 | one joined path per name, in order |
| SongServer.SongPaths | task3/server.c:259-299 | an unreadable directory or fewer than 3 songs is the error exit; otherwise the paths of the first 3 songs in directory order |
| SongServer.SongsStep | task3/server.c:269-282 | one more entry adds itself exactly when it is a song |
| SongServer.PathsSnoc | task3/server.c:272-278 | one more name adds its path at the end |
| SongServer.SongsAppend | task3/server.c:269-282 | the songs of two listings are those of each in order |
| SongServer.ServedPathsAreSongs | task3/server.c:259-299 | every served path lies in the directory and ends in `.mp3` |
| SongServer.HasSuffixTail | task3/server.c:247-252 | the suffix test is transitive |
| SongServer.SelectSong | task3/server.c:207-214 | accepted exactly when `1 <= idx <= 3`, selecting `song_paths[idx - 1]` |
| SongServer.SelectSongDistinct | task3/server.c:207-214 | different song numbers select different paths when the paths differ |
| SongServer.SetOptions | task3/server.c:316-319 | port from the first argument (else 3000), directory from the second (else `./media`) |
| ChatServer.SetOptions | hw/server.cpp:66-94 | defaults 8000, 16 and -1; accepted exactly when port and client limit are positive and the timeout is positive or -1 |
| ChatServer.LessIrreflexive | hw/server.cpp:99 | no name orders before itself |
| ChatServer.LessTransitive | hw/server.cpp:99 | the name order is transitive |
| ChatServer.LessTotal | hw/server.cpp:99 | any two different names are ordered one way |
| ChatServer.Client.constructor | hw/server.cpp:42-64 | no name, offline, nothing sent |
| ChatServer.Client.Send | hw/server.cpp:206-208 | the message is appended to what the client was sent |
| ChatServer.Insert | hw/server.cpp:129 | map insertion keeps the names sorted, adds exactly the new entry and loses none |
| ChatServer.InsertFirst | hw/server.cpp:129 | insertion when the new name comes first |
| ChatServer.InsertLater | hw/server.cpp:129 | insertion after the first entry |
| ChatServer.Remove | hw/server.cpp:136 | `erase` keeps the names sorted and drops exactly the entries with that name |
| ChatServer.SortedCons | hw/server.cpp:99 | an entry before a sorted rest whose names all follow it is sorted |
| ChatServer.UserlistAppend | hw/server.cpp:147-153 | the list of two registries in a row is the list of each in turn |
| ChatServer.UserlistShows | hw/server.cpp:147-153 | the list is `"\n\t-" + name` for every user in ascending name order |
| ChatServer.ChatTagged | hw/server.cpp:318 | a conversation yields no more lines than messages, each prefixed `[name] ` |
| ChatServer.SessionStep | hw/server.cpp:295-319 | a conversation is the first message's effect followed by the rest |
| ChatServer.Server.Distinct | hw/server.cpp:99 | since names are unique keys and each client is filed under its own name, different entries hold different clients |
| ChatServer.Server.Register | hw/server.cpp:127-132 | succeeds exactly when the name is free, then inserts it and sets the client online; otherwise nothing changes |
| ChatServer.Server.Unregister | hw/server.cpp:134-137 | the client goes offline and exactly its name leaves the registry |
| ChatServer.Server.Broadcast | hw/server.cpp:139-145 | every registered client but the sender is sent the message once |
| ChatServer.Server.Close | hw/server.cpp:249-257 | one live connection fewer |
| ChatServer.Server.Converse | hw/server.cpp:295-319 | the loop runs until a timeout, empty message or `\bye`; others get every chat line, the client gets every reply, and the client leaves the registry |
| ChatServer.Server.Respond | hw/server.cpp:298-318 | timeout notice and leave; leave on empty or `\bye`; the user list on `\list`; otherwise `[name] message` to everyone else |
| ChatServer.Server.HandleClient | hw/server.cpp:271-324 | the welcome with the list; an empty or taken name closes once; an accepted client is announced, converses and is announced gone; the registry ends as it began |
| ChatServer.Server.HandleClientAsWritten | hw/server.cpp:271-324 | as written, a taken name closes the connection twice and every user hears the refused client join and leave |
| ChatServer.Server.Greet | hw/server.cpp:274-279 | the welcome with the user list, then the name received |
| ChatServer.Server.Admit | hw/server.cpp:288-320 | a free name is registered, announced, converses and is announced gone; a taken one changes nothing |
| ChatServer.Server.Session | hw/server.cpp:293-320 | others hear the join, the chat and the leave; the client hears the replies |
| ChatServer.Server.Arrive | hw/server.cpp:293-319 | others hear the join and the chat |
| ChatServer.Server.PhantomSession | hw/server.cpp:293-320 | a refused client skips the loop yet is announced joining and leaving |
| ChatServer.RemoveAbsent | hw/server.cpp:136 | erasing an absent name changes nothing |
| ChatServer.RemoveInsert | hw/server.cpp:129-136 | unregistering a client just registered restores the registry |

## Left out

- Threads, mutexes, condition variables and signals. Each blocking wait becomes a precondition and each call runs atomically. `WorkerPool.Pool.Join` and `WorkerPool.Lifecycle` run the workers' steps and the enqueues in an arbitrary order one at a time instead of concurrently.
- `malloc`/`free`, the recursive `QUEUE_free_chunk`, `QUEUE_free`, `WP_free`, `MATRIX_free` and allocation failure. Dafny's heap stands in for these.
- Allocation failure in `Tank` and `realloc` failure are not modelled.
- `Tank`'s destructor and the double free after the by-value copy in `accumulate` (task1/Tank.cpp:58-63) are not modelled.
- Tanks.Accumulate: `T{}` and `+=` become the parameters `zero` and `add`. Floating-point rounding of a `double` element type is not modelled; the fold order, front to back, is.
- ChunkQueue.Chunk: a chunk's `tasks` buffer is a sequence field of length 1000 rather than a heap array, so aliasing of that buffer is not captured.
- The missing `return` statements in `MATRIX_create` and the missing return value of `QUEUE_add` are undefined behaviour. The model returns the matrix and nothing, respectively.
- The worker handler `func` is recorded as the list of payloads it received (`executed`), not called. A tag other than EXEC or KILL cannot occur with the two-constructor `TaskWrapper`.
- Sockets, `accept`, `recv`/`send`, `poll`, file streaming and directory reading are not modelled:
  - a chat client's messages are a list of `Incoming` values, where a timed-out `poll` is `TimedOut`;
  - a song directory is a list of entry names, where a failed `opendir` is `None`;
  - what a client is sent is recorded in its `inbox`.
- The 1024-byte `recv` buffer, and truncation at an embedded NUL, are not modelled. Each message arrives whole.
- A closed connection or a receive error reads as an empty message.
- Once a script runs out of messages, the connection reads as closed.
- The chat server's `main`: accepting clients, counting `live_users` upward and signalling `accept_ready_cv` are not modelled. So are the socket setup in `Server::init`/`bind`/`listen_` and shutdown. `liveUsers` only records the decrements `close_` makes.
- The timed-out branch after the name is received (hw/server.cpp:283-286) is unreachable. A timeout yields an empty name, which closes the connection first, so the model has no such branch.
- ChatServer.Less: names are modelled as sequences of characters, one per byte of the name; their encoding into bytes is not modelled. `std::string` orders bytes as `unsigned char`, which is the order by code point the model uses.
- `rand`-based operand initialisation (`random_number`, `init_operand`) and the floating point in it are not modelled.
- Timing with `clock`/`time_ms` is not modelled.
- Writing the log file is not modelled. `MATRIX_print` is the list of lines it writes, and the drivers' log is the list of lines `CheckAnswers.LogFrom` describes.
- Reading the file in the checker is not modelled. Its existence is a boolean and its lines are the result of `splitlines`.
- numpy's `matrix` product is replaced by the integer row-by-column sum the C code computes. numpy broadcasting of mismatched result shapes is not modelled.
- CheckAnswers.Compare: a `p` whose shape differs from the product's compares as unequal, and a ragged `p` too; numpy would broadcast or raise instead. The operands' shapes follow numpy, an empty list being a 1-by-0 matrix.
- Python's `int` accepts only ASCII whitespace and digits here. Underscores between digits and non-ASCII digits or whitespace are not modelled.
- `CheckAnswers.Failure.BackwardCursor` marks a header announcing a negative row count. Python would slice backwards there, and the model does not follow that path.
- `atoi`/`stoi` are not modelled. Each argument carries the integer they yield, and `stoi`'s exception on non-numeric text is not modelled.
- Machine integer widths (`long long`, `int`, `size_t`) are not modelled. Overflow in sums, products, indices and `2 * max_capacity` is not captured because all arithmetic is unbounded.
- MatrixMulSeq.Multiply: proved only for square matrices, the only shape that file creates. Other shapes are covered by the findings below.
- `task2/matrix_mul/graphit.py` (benchmarking), `task2/race_condition_moment.c` (a concurrency demo), `task1/test.cpp` and `task3/trial/` are not part of this model.
- `matrix.c`'s `create_matrix_array` and the log loop of each driver are covered only through `CheckAnswers.LogFrom`.

## Findings

| source | as written | input that shows it | evidently intended | confidence | as-written member | corrected member |
|---|---|---|---|---|---|---|
| task2/matrix_mul_seq.c:186-188 | `MATRIX_idx` returns `row * rows + col`, striding by the row count | a 2 by 3 matrix: cells (1, 0) and (0, 2) both map to slot 2; in a 3 by 1 matrix cell (2, 0) maps to slot 6 of a 3-slot buffer | row-major `row * cols + col`, injective and in range for every shape | not executed; harmless in that program, which only makes square matrices | MatrixMulSeq.IdxAsWrittenCollides | Matrices.IdxInjective |
| hw/server.cpp:288-291 | a name already registered closes the connection but does not return | a second client sending a name that is already registered | return after closing, so nobody is told about the refused client | not executed | ChatServer.Server.HandleClientAsWritten | ChatServer.Server.HandleClient |

In the second row, the as-written code goes on after the refusal:

- it broadcasts the refused client joining;
- it skips the loop, because the client is not online;
- it broadcasts the client leaving;
- it closes the connection a second time, so `live_users` drops by two.

Every registered user hears both announcements, including the user who holds the name. `ChatServer.Server.HandleClient` returns after the refusal; the rest of the model uses it.

In the first row, `MatrixMulSeq.IdxAsWrittenAgrees` shows that the stride is right exactly for square or one-row matrices. `MatrixMulSeq.IdxAsWrittenOverruns` gives the overrun. `Matrices.IdxInRange` gives the corrected index's bound.
