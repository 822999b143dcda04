# A verified model of the chat server and its runtime

The repository is a chat server in freestanding C. Clients connect, give a name, and every
line one of them sends reaches all others. The server brings its own small runtime: memory
copying, number and date printing, a pool, an arena and a ring buffer.

The model follows the C code function by function and works on mutable objects and arrays
where the code does:

| file | what it models |
|---|---|
| `Sizes.dfy`, `Options.dfy`, `Basics.dfy` | the sizes the server fixes for its clients; values that may be missing; two facts of arithmetic and sequences |
| `Bits.dfy` | `&`, `\|`, `^` on unsigned integers, defined bit by bit; the mask and power-of-two idioms; `align_forward` |
| `Memory.dfy` | `memcpy`/`memmove`, C strings, slices and bounded copies into them |
| `Numerals.dfy` | `int_in_slice` and `print_hex` |
| `SliceGrowth.dfy` | `new_slice_cap` |
| `Calendar.dfy`, `Time.dfy` | the Gregorian calendar as a plain count, and `time_to_tm` against it |
| `TimeText.dfy` | the three formatters of `struct tm`, and parsers that undo them |
| `Arenas.dfy`, `ArenaRuns.dfy` | the arena (with `grow_slice`), and whole runs of it |
| `RingBuffer.dfy` | the circular buffer |
| `Registry.dfy` | what opening and closing sessions does to the pools, on values |
| `Pools.dfy`, `ClientPools.dfy`, `Servers.dfy` | the intrusive lists, the counters and the pool array themselves |
| `Framing.dfy` | what the read handlers do to the bytes of one client, on values |
| `ChatText.dfy` | a parser of chat messages, written apart from their composition |
| `Handlers.dfy` | the event handlers |
| `Worlds.dfy` | the whole server as a transition system on values: pools, and what each chunk holds |
| `ServerLoop.dfy` | accepting, and the dispatch of a batch of events, step by step against that system |
| `Messages.dfy`, `Descriptors.dfy` | what every step and every run of it says to each client, and what it closes |

Conventions. A byte is a `char`; nothing depends on there being only 256 of them. Unsigned
64-bit sums and differences that can wrap are written with `% U64` or `Wrap`, and narrowing to
`int` with `ToInt32`; a caller must see to the other sums where a `requires` bounds them. A chunk is
an object of class `Client`; its `free_node` view is a field of its own, and writing it leaves
`fd` and `buf_used`, whose bytes it shares, with any value. What the kernel does is an input:
the results of `read` and `accept4`, the clock, the addresses that `mmap` returns, whether
`epoll_ctl` takes a connection and the entries that `epoll_wait` reports. What the server tells
the kernel is appended to a ghost log. Every contract about live clients reads the function
`Registry.Live`, the concatenation of the client lists in pool order.

## Findings

Places where the code does not do what its surroundings suggest, each with the exact
condition under which it does:

- A read loop with two data reads in one event loses bytes, because the read offset is computed
  once (`src/chat_server.c:246`, `src/chat_server.c:189`). `Framing.StreamKeptIffOneRead`: the
  loop keeps the stream whatever stale bytes the buffer holds if and only if there is at most
  one.
- What arrives together with the name is dropped (`src/chat_server.c:219-225`). `Framing.NameKeptIff`:
  a whole name event keeps all bytes if and only if there is at most one data read and nothing
  stands behind the first line end. After "bob", a newline, "hello" and a newline in one read
  "hello" is never sent.
- A client whose buffer holds 512 bytes without a newline is closed as if it had hung up:
  the next `read` asks for zero bytes and returns zero (`Framing.FullBufferReadsNothing`,
  `Handlers.SessionLineRead`; `Handlers.SessionNameRead` for a name of 32 bytes). A buffer stays
  full if and only if it was full and held no newline (`Framing.LinesLeftBehind`). The message
  "Line too long" is sent if and only if the bytes in the buffer and those of one event
  together exceed it (`Framing.TooLongIff`), which takes two data reads in that event
  (`Framing.TooLongNeedsTwoReads`).
- Only one line is sent for each event. Complete lines stay behind, unsent until the client
  sends more, if and only if the buffer held two newlines or more (`Framing.LinesLeftBehind`).
- A connection that `epoll_ctl` does not take (`src/chat_server.c:374-380`) has its session
  closed before the fields are set. `Worlds.UnregisteredIff`: the connection is closed if and only
  if the first free chunk holds its descriptor before the call, and all live clients are told
  that one has left if and only if that chunk holds a complete name, of an earlier client. The
  pools are as before (`Registry.OpenCloseUndoes`). Over a run no descriptor leaks, or is closed
  once too often, if and only if such connections had just the descriptors that their chunks
  held (`Descriptors.DescriptorsConservedIff`). `Worlds.UnregisteredExample` is a case of both:
  descriptor 0 is closed instead of 7, and the others learn again that bob has left.
- One `consume` of the ring buffer takes from the front, whatever its memory holds, if and
  only if the head stays in the lower half or nothing is left (`RingBuffer.ConsumeIsFifo`):
  nothing mirrors the two halves. It would always be so if they were alike
  (`RingBuffer.MirroredIsFifo`).
- `pool_init` stores the buffer as it was given, so chunks are aligned if and only if it was
  (`Pools.ChunksAligned`).
- The range check of `pool_put` is always true. The free list stays one if and only if the chunk
  was not free already, and within its pool if and only if the chunk is one of it
  (`Pools.Pool.Put`).
- `arena_alloc_align` compares a sum that can wrap around. An allocation leaves the arena in
  order if and only if nothing is handed out or the sum does not wrap
  (`Arenas.AllocInOrderIff`). After sizes of 8, 2^64 - 8 and 8 the third block lies on top of
  the first, in a buffer of 4096 bytes (`ArenaRuns.WrappedSizeOverlaps`).
- Resizing the last block of an arena in place leaves the arena in order if and only if the
  new size fits, which is not checked (`Arenas.Arena.ResizeAlign`). A move faults if and only if
  its copy has no room (`Arenas.Arena.Move`).
- Any savepoint of an arena can be recovered at any time. All later allocations stay clear of
  the blocks that remain if and only if none of these ends behind the place where the saved
  blocks ended (`ArenaRuns.RecoveryIsSafeIff`). That is so while the blocks of that time are as
  they were (`ArenaRuns.UnresizedIsSafe`); after the last of them was resized in place it need
  not be (`ArenaRuns.ResizedBlockIsOverlapped`).
- `grow_slice` copies the elements of a block that it moves twice, once as `old_s.cap` bytes
  (`Arenas.GrowSlice`). Filling a slice one by one still moves a bounded number of bytes per
  place (`SliceGrowth.AmortizedGrowth`), but more than four times the size
  (`SliceGrowth.FourTimesIsExceeded`). It panics if and only if the size exceeds 2^64 - 2^31,
  because `1 << 31` is a negative `int` (`lib/cfa/src/builtin.c:12`).
- `time_to_tm` is right from 1601 up to the last year that fits an `int`. Its clock is right
  from 1601 on; before that it shows a time of day if and only if the second starts a day
  (`Time.TimeToTm`). The comment at `lib/cfa/src/time.c:22-27` counts 135139 days from 1601 to
  1970; the constant used is right and stands for 134774 (`Time.TimeStartsIn1970`).
- A chat message can be read back, if one knows how long the name is, if and only if its clock
  shows a time of day (`ChatText.ChatReadsBackIff`). Without that the name ends at the first
  bracket if and only if it holds none (`ChatText.NameShowsIff`); "a (1:00:00 MSK): b" as a name
  gives the text of a message of "a" (`ChatText.TextOfTwo`).
- `is_power_of_two` accepts zero (`Bits.PowerOfTwoTest`).
- `print_hex` writes a digit if and only if the number is not zero
  (`Numerals.NoDigitForZero`). It keeps the capacity in an `int`, so the text is whole if and only
  if the low 32 bits of the capacity do not denote a number below its length; a capacity of
  2^32 prints nothing (`Numerals.PrintHex`).

## Model

| member | source | states |
|---|---|---|
| `Bits.AndMask` | lib/cfa/src/arena.c:39-40 | `p & (a - 1)` is `p mod a` when a is a power of two, for `&` defined bit by bit |
| `Bits.OrMask` | lib/cfa/src/builtin.c:28 | the low bits of `x \| y` are zero exactly when both operands are multiples |
| `Bits.XorMask` | lib/cfa/src/builtin.c:32 | the low bits of `x ^ y` are zero exactly when the operands agree in them |
| `Bits.PowerOfTwoTest` | lib/cfa/src/arena.c:26-29 | the test accepts exactly the powers of two and zero |
| `Bits.NarrowingIsCongruent` | lib/cfa/src/fmt.c:16 | an int narrowed from a wider integer is the one that differs from it by a multiple of 2^32 |
| `Bits.AlignForward` | lib/cfa/src/arena.c:31-49 | the result is a multiple of the alignment, not below the pointer and less than one alignment above it |
| `Bits.AlignForwardIsLeast` | lib/cfa/src/arena.c:31-49 | no multiple of the alignment lies between pointer and result |
| `Memory.MemCpy` | lib/cfa/src/builtin.c:16-107 | for every length, both alignments and every overlap the destination holds the original source bytes and no other byte changes; nothing is copied onto itself |
| `Memory.CopyForward` | lib/cfa/src/builtin.c:25-63 | the same for the forward path: alignment bytes, words, trailing bytes |
| `Memory.CopyBackward` | lib/cfa/src/builtin.c:64-105 | the same for the backward path |
| `Memory.CopyWord` | lib/cfa/src/builtin.c:49 | a word moves in one load and one store; callers must show that both addresses are aligned |
| `Memory.CopyWordsUp` | lib/cfa/src/builtin.c:46-54 | the word loop moves 8t bytes upwards, overlap included |
| `Memory.CopyWordsDown` | lib/cfa/src/builtin.c:87-95 | the word loop moves 8t bytes downwards, overlap included |
| `Memory.CopyBytesUp` | lib/cfa/src/builtin.c:38-43 | the byte loop moves t bytes upwards, overlap included |
| `Memory.CopyBytesDown` | lib/cfa/src/builtin.c:80-85 | the byte loop moves t bytes downwards, overlap included |
| `Memory.MovedUp` | lib/cfa/src/builtin.c:25-63 | two upward copies in a row are one, also when the ranges overlap |
| `Memory.MovedDown` | lib/cfa/src/builtin.c:64-105 | two downward copies, the upper one first, are one |
| `Memory.HeadUp` | lib/cfa/src/builtin.c:27-35 | the alignment prefix is at most the length, and shorter only if both addresses are aligned behind it |
| `Memory.HeadDown` | lib/cfa/src/builtin.c:72-78 | the same from the end of the ranges |
| `Memory.CStrlen` | lib/cfa/src/builtin.c:109-121 | the index of the first terminator, which an `int` must be able to count to; zero for a null pointer |
| `Memory.StringInSlice` | lib/cfa/src/builtin.c:255-263 | as much of a text in other memory as the slice holds is written at its start, and nothing else changes |
| `Memory.StringWithin` | lib/cfa/src/builtin.c:255-263 | the same for a text in the same memory, also inside the slice itself, by the copy of `memcpy` |
| `Numerals.IntInSlice` | lib/cfa/src/builtin.c:265-298 | the decimal text of every int64 above the minimum, or exactly its prefix of the capacity |
| `Numerals.ReverseDigits` | lib/cfa/src/builtin.c:285-289 | the accumulator is the digit string read backwards, its count includes trailing zeros, and it never leaves uint64 |
| `Numerals.ReversalFits` | lib/cfa/src/fmt.c:31-35 | 19 decimal and 16 hexadecimal digits reverse within 64 bits, and there are no more |
| `Numerals.WriteDigits` | lib/cfa/src/builtin.c:291-295 | the second loop writes the digits in their original order, as far as there is room, and all of them when the room is negative |
| `Numerals.IntRoundTrip` | lib/cfa/src/builtin.c:265-298 | parsing the text of any integer gives it back |
| `Numerals.PrintHex` | lib/cfa/src/fmt.c:13-44 | "0x" and the hexadecimal digits of every 64-bit value, or the prefix whose length is the capacity as an int, if that is neither negative nor long enough |
| `Numerals.NoDigitForZero` | lib/cfa/src/fmt.c:31-41 | a digit follows "0x" if and only if the number is not zero, and 64 bits have at most 16 |
| `Numerals.HexRoundTrip` | lib/cfa/src/fmt.c:13-44 | parsing the text, which must begin with "0x", gives the number back |
| `SliceGrowth.NewSliceCap` | lib/cfa/src/builtin.c:366-394 | for all uint64 pairs it ends and returns at least the requested length; up to 2^62 at least 5/4 of the old capacity and, in the loop, at most 5/4 of the larger input plus 192 |
| `SliceGrowth.GrowUntil` | lib/cfa/src/builtin.c:378-393 | the loop yields the specified capacity, and ends although one step can stand still just below 2^64 |
| `SliceGrowth.StepOnTheWay` | lib/cfa/src/builtin.c:379-389 | a step that does not overflow grows the capacity, because no run reaches the standstill |
| `SliceGrowth.AmortizedGrowth` | lib/cfa/src/builtin.c:366-416 | filling a slice one element at a time moves, in both copies of every growth together, at most 4 (type_size + 1) bytes per place of the final capacity, whichever growths move the block |
| `SliceGrowth.CapForIsGrown` | lib/cfa/src/builtin.c:366-394 | the capacity chosen is enough, at least a quarter more, and bounded as in `NewSliceCap` |
| `SliceGrowth.CapForIsFirst` | lib/cfa/src/builtin.c:366-394 | exactly which capacity, for all uint64 pairs: the request, the double, or the first of the capacities that each add a quarter and 192 that reaches the request, which is returned itself if 64 bits do not hold that one |
| `SliceGrowth.FourTimesIsExceeded` | lib/cfa/src/builtin.c:408-409 | a run of single bytes, moved at each growth, that moves more than four times the final capacity |
| `Calendar.TableIsCumulative` | lib/cfa/src/time.c:5-8 | the month table is the running sum of the month lengths, in common and leap years |
| `Calendar.YearClosedForm` | lib/cfa/src/time.c:22-27 | the days before a year, summed year by year, follow the leap-year rule in closed form |
| `Calendar.CountIsMonotone` | lib/cfa/src/time.c:92-98 | of two valid dates and times the earlier one, field by field, has the smaller count of seconds, and conversely |
| `Calendar.CountIsInjective` | lib/cfa/src/time.c:92-98 | equal counts mean equal dates and times |
| `Calendar.DayAfterCounts` | lib/cfa/src/time.c:76-98 | the next day of the calendar has the next count, the next weekday and the right day of the year |
| `Time.TimeToTm` | lib/cfa/src/time.c:11-107 | the valid Moscow date and time whose independent count of seconds since 1601 is t plus three hours, weekday and day of the year included; for every t the clock is the remainder of the day, and a time of day if and only if t is not before 1601 or starts a day |
| `Time.TimeStartsIn1970` | lib/cfa/src/time.c:22-28 | the seconds are counted from 1970, 134774 days after the start of 1601 |
| `Time.Epoch` | lib/cfa/src/time.c:22-107 | second 0 is Thursday, January 1st, 1970, 03:00:00, and no other time is |
| `Time.ClockIsUnique` | lib/cfa/src/time.c:92-94 | there is one such clock for each t, and when it is a time of day |
| `Time.ClockIsMoscow` | lib/cfa/src/time.c:92-94 | a clock that shows a time of day shows that of t + 10800 seconds |
| `Time.StripYears` | lib/cfa/src/time.c:39-73 | stripping 400, 100, 4 and 1 years with clamps leaves a second of exactly the year reached |
| `Time.CyclesAddUp` | lib/cfa/src/time.c:36-74 | the days before the year reached are the sum of the stripped cycles, and when that year is a leap year |
| `Time.FindMonth` | lib/cfa/src/time.c:84-90 | the first month of the table that ends after the day, and the day in it |
| `Time.NoTmAfterLast` | lib/cfa/src/time.c:97 | the range of `TimeToTm` is the largest possible: a `struct tm` with an int year names no later second |
| `Time.TmIsUnique` | lib/cfa/src/time.c:11-107 | there is one such `struct tm` for each t |
| `Time.EveryTmIsReached` | lib/cfa/src/time.c:11-107 | each valid one belongs to exactly one t, which its count gives: conversion and count are mutual inverses |
| `Time.TmIsMonotone` | lib/cfa/src/time.c:11-107 | a later t has a lexicographically later date and time, and conversely |
| `Time.DayLater` | lib/cfa/src/time.c:28-99 | 86400 seconds later it is the same time on the next day of calendar and week, across months, years and centuries |
| `TimeText.TmInSlice` | lib/cfa/src/time.c:236-280 | writes exactly the pieces of `TmPieces`, and nothing else changes |
| `TimeText.TmInSlice2` | lib/cfa/src/time.c:282-308 | the same for the time in a chat line |
| `TimeText.TmRfc822InSlice` | lib/cfa/src/time.c:187-234 | the same for the mail date |
| `TimeText.TmRoundTrip` | lib/cfa/src/time.c:236-280 | for years up to 9999 the text has 23 characters and a parser gives all fields back |
| `TimeText.TmTextIsInjective` | lib/cfa/src/time.c:236-280 | two instants have the same text only if they are the same instant |
| `TimeText.ClockReadsBackIff` | lib/cfa/src/time.c:282-308 | a parser of the clock of a chat line gives back hour, minute and second if and only if they are a time of day, and finds no clock otherwise |
| `TimeText.ClockTextIsInjective` | lib/cfa/src/time.c:282-308 | two times of day have the same text if and only if they are equal |
| `TimeText.Rfc822RoundTrip` | lib/cfa/src/time.c:187-234 | 31 characters that follow the date-time of section 5.1 of RFC 822 with the four-digit year of section 5.2.14 of RFC 1123, and denote the time and its weekday |
| `TimeText.CutJoin` | lib/cfa/src/time.c:188-308 | cutting a text at the widths of its pieces gives the pieces back |
| `Arenas.Arena.AllocAlign` | lib/cfa/src/arena.c:51-66 | on every size, the wrapping sum included: what is handed out, where, and what the offsets become; the arena stays in order if and only if nothing is handed out or the sum does not wrap, and a block is handed out in order if and only if there is a place for it |
| `Arenas.RoomOrNone` | lib/cfa/src/arena.c:58-65 | the wrapping test succeeds without a wrap exactly when some suitable offset has room |
| `Arenas.AllocInOrderIff` | lib/cfa/src/arena.c:51-66 | an allocation keeps the blocks apart and inside the buffer if and only if nothing is handed out or the sum does not wrap |
| `Arenas.NoWrapBefore` | lib/cfa/src/arena.c:54-56 | aligning and subtracting in 64 bits gives the plain offset, also at the very end of memory |
| `Arenas.Arena.Recover` | lib/cfa/src/arena.c:20-24 | the saved offsets are restored, whatever happened since, and the blocks handed out since are given up; the arena is in order if and only if no other block ends behind the saved end |
| `Arenas.Arena.FreeAll` | lib/cfa/src/arena.c:111-115 | no block remains |
| `Arenas.Arena.ResizeAlign` | lib/cfa/src/arena.c:73-96 | without an old block it allocates; the last block changes size in place, and the arena stays in order if and only if it fits; any other block is moved with its first bytes, or the copy leaves the buffer if there is no room |
| `Arenas.Arena.Move` | lib/cfa/src/arena.c:86-91 | the move: where the block goes, which bytes are copied, and exactly when the copy would leave the buffer |
| `Arenas.ResizeInOrderIff` | lib/cfa/src/arena.c:73-96 | when a resize keeps the blocks apart and inside the buffer, exactly |
| `Arenas.JustAllocatedStays` | lib/cfa/src/arena.c:60-85 | a block that was just handed out is resized in its place |
| `Arenas.RecoverInOrderIff` | lib/cfa/src/arena.c:20-24 | when a recovery does, exactly |
| `Arenas.MoveKeepsBlocks` | lib/cfa/src/arena.c:86-91 | a move keeps the first bytes of the block and every byte of all other blocks |
| `Arenas.GrowSlice` | lib/cfa/src/builtin.c:396-416 | a panic if and only if the size exceeds the limit; a slice in an arena in order if and only if the new block fits, and then with the requested length, the capacity of `new_slice_cap` and the old elements, all other blocks intact, and the bytes moved by both copies |
| `Arenas.LimitIsANegativeInt` | lib/cfa/src/builtin.c:12 | the limit compared with is what 2^31, narrowed to int, becomes as an uint64 |
| `ArenaRuns.StepInOrderIff` | lib/cfa/src/arena.c:10-115 | an allocation, resize, savepoint, recovery or reset keeps the blocks apart and inside the buffer if and only if it is harmless, which its caller can check before |
| `ArenaRuns.RunsInOrderIff` | lib/cfa/src/arena.c:10-115 | over every run of calls with proper arguments the blocks in use are pairwise apart and inside the buffer, at every moment, if and only if every call is harmless |
| `ArenaRuns.RecoveryIsSafeIff` | lib/cfa/src/arena.c:20-24 | after the recovery of any savepoint every list of later allocations stays clear of the blocks that remain if and only if none of them ends behind the saved end |
| `ArenaRuns.UnresizedIsSafe` | lib/cfa/src/arena.c:20-24 | recovery is safe while the blocks of the time of saving that are in use are as they were |
| `ArenaRuns.RecoverUndoes` | lib/cfa/src/arena.c:10-24 | allocations of any sizes between a savepoint and its recovery leave no trace |
| `ArenaRuns.ResizedBlockIsOverlapped` | lib/cfa/src/arena.c:83-85 | a run of allocation, savepoint and resize in place after which a recovery is not safe |
| `ArenaRuns.WrappedSizeOverlaps` | lib/cfa/src/arena.c:58-63 | three allocations, the second with a sum that wraps, of which the third lies on top of the first |
| `RingBuffer.CircularBuffer.Consume` | lib/cfa/src/buffer.c:31-38 | offsets stay in bounds; without a rebase, or when it drains, the bytes come off the front |
| `RingBuffer.CircularBuffer.Produce` | lib/cfa/src/buffer.c:40-43 | what stands behind the tail is appended to the contents |
| `RingBuffer.CircularBuffer.RemainingSlice` | lib/cfa/src/buffer.c:45-48 | the place to write is inside the memory and as long as the remaining space |
| `RingBuffer.CircularBuffer.RemainingSpace` | lib/cfa/src/buffer.c:50-53 | space and contents add up to one half |
| `RingBuffer.CircularBuffer.UnconsumedSlice` | lib/cfa/src/buffer.c:65-68 | the slice lies inside the memory and holds the contents |
| `RingBuffer.CircularBuffer.UnconsumedLen` | lib/cfa/src/buffer.c:60-63 | the length of the contents |
| `RingBuffer.CircularBuffer.Reset` | lib/cfa/src/buffer.c:55-58 | nothing is left |
| `RingBuffer.Consumed` | lib/cfa/src/buffer.c:31-38 | head stays in the lower half, tail within one half of it, and n bytes fewer lie between |
| `RingBuffer.ConsumeIsFifo` | lib/cfa/src/buffer.c:31-38 | consuming takes from the front for every memory if and only if the head stays in the lower half or nothing is left |
| `RingBuffer.MirroredIsFifo` | lib/cfa/src/buffer.c:31-38 | in a memory whose halves are alike consuming takes from the front in every case |
| `RingBuffer.RunsAreFifo` | lib/cfa/src/buffer.c:31-73 | over every run in which each rebase drains, the buffer is a first-in first-out queue |
| `Registry.OpenedKeepsOk` | src/chat_server.c:306-345 | a new session keeps chunks free or live exactly once, pools disjoint and at most 16, and no pool empty if there are several |
| `Registry.OpenedAddsOne` | src/chat_server.c:306-345 | it adds one client that was not live and keeps the others in order |
| `Registry.OpenedHeadsItsPool` | src/chat_server.c:312-339 | the chunk is the first free one of the first pool that has one, or of a new pool behind all others, and heads the list of its pool; all other pools stay as they were |
| `Registry.OpenedFailsWhenFull` | src/chat_server.c:329-331 | there is none to be had if and only if 16 times 1023 are live |
| `Registry.ClosedKeepsOk` | src/chat_server.c:139-183 | closing a session keeps the same order of the pools |
| `Registry.ClosedRemovesOne` | src/chat_server.c:139-183 | it removes exactly that client and keeps all others in order, also when its pool is dropped |
| `Registry.ClosedHeadsFree` | src/chat_server.c:139-178 | in a pool that stays, the chunk given back is the next to be given out |
| `Registry.OpenCloseUndoes` | src/chat_server.c:367-380 | closing the session just opened leaves all pools as they were, the order of the free chunks included |
| `Registry.RunsStayOk` | src/chat_server.c:121-184 | every run of opens and closes keeps the pools in order |
| `Registry.RunsRefineSet` | src/chat_server.c:306-345 | every run refines a plain set of live sessions: an open adds one that was not there, or fails if and only if 16 times 1023 are, and a close removes the one closed |
| `Pools.ChunksAligned` | lib/cfa/src/pool.c:46-67 | chunks lie inside the buffer, and are aligned if and only if the buffer is |
| `Pools.Pool.constructor` | lib/cfa/src/pool.c:46-67 | all chunks of the buffer are free, each once, and are the chunks of the pool |
| `Pools.Pool.FreeAll` | lib/cfa/src/pool.c:32-44 | the free list runs through all chunks, the last one first |
| `Pools.Pool.Get` | lib/cfa/src/pool.c:69-84 | the head of the free list comes off, or null if and only if the list is empty |
| `Pools.Pool.Put` | lib/cfa/src/pool.c:86-102 | any chunk heads the free list, which stays one if and only if the chunk was not free, and within the pool if and only if it is one of its chunks; null changes nothing |
| `ClientPools.NewClientPool` | src/chat_server.c:277-304 | a pool of 1023 free chunks with zeroed links and counters that agree; both allocations succeed |
| `ClientPools.PageHasRoom` | src/chat_server.c:283-299 | in whole pages both allocations fit, the pool gets an aligned buffer and is cut into 1023 chunks |
| `ClientPools.ClientPool.Admit` | src/chat_server.c:314-325 | with a positive counter `pool_get` yields a chunk, and lists and counters agree again |
| `ClientPools.ClientPool.AdmitFirst` | src/chat_server.c:333-339 | in a new pool the list ends properly although `next` is not set |
| `ClientPools.ClientPool.Unlink` | src/chat_server.c:141-182 | the client is found if and only if it is in the list, which then lacks just it |
| `ClientPools.ClientPool.TakeBack` | src/chat_server.c:173 | putting the chunk back makes lists and counters agree again |
| `Servers.Server.constructor` | src/chat_server.c:482-485 | the server starts in order, with one empty pool |
| `Servers.Server.SessionNew` | src/chat_server.c:306-345 | array, lists and counters stay in order and change as `Registry.Opened` says |
| `Servers.Server.SessionClose` | src/chat_server.c:121-184 | the others are told, the descriptor is closed, and array, lists and counters change as `Registry.Closed` says |
| `Servers.Server.DropPool` | src/chat_server.c:159-165 | the pools behind the dropped one move up by one place and keep their order |
| `Servers.Server.SendAll` | src/chat_server.c:64-77 | every live client but one is written to, in list order |
| `Servers.EveryoneElseOnce` | src/chat_server.c:64-77 | each of the others is written to exactly once and the one not at all |
| `Framing.ReadLoopEffect` | src/chat_server.c:246-273 | all reads of an event are stored at one offset while the count grows with each |
| `Framing.StreamKeptIffOneRead` | src/chat_server.c:246-273 | after the read loop the bytes in use are those before and those read, whatever stale bytes the buffer holds, if and only if there is at most one data read |
| `Framing.OneReadKeepsStream` | src/chat_server.c:246-273 | one data read appends its bytes |
| `Framing.TwoReadsLoseBytes` | src/chat_server.c:246-273 | with two or more the last byte counted is a stale one |
| `Framing.TooLongIff` | src/chat_server.c:267-272 | a line or name is found too long if and only if the bytes before and those of the event together exceed the buffer |
| `Framing.LoopEndsBy` | src/chat_server.c:249-273 | how the loop ends, exactly: too long, or as the first result says that is neither data nor interrupted |
| `Framing.TooLongNeedsTwoReads` | src/chat_server.c:267-272 | a line or name is only found too long after two data reads in one event |
| `Framing.FullBufferReadsNothing` | src/chat_server.c:249-265 | on a full buffer the loop stores nothing and ends as at the end of the stream, or with the error of a read; never as too long, and never with the session going on |
| `Framing.FoundLine` | src/chat_server.c:89-96 | a line up to and with the first newline, or nothing if there is none |
| `Framing.AfterLine` | src/chat_server.c:117-118 | line and remaining bytes together are what was there |
| `Framing.LinesLeftBehind` | src/chat_server.c:89-118 | nothing complete stays behind if and only if there was at most one newline; the buffer stays full if and only if it was full and had none |
| `Framing.RunsAccount` | src/chat_server.c:79-119 | over every run of events with at most one data read, each drained and the last one drained or at the end of the stream, all bytes read are the lines sent, in order, and the bytes in the buffer; what is sent is one line each |
| `Framing.AfterName` | src/chat_server.c:219-225 | the name is complete if and only if a line end has arrived, and is then terminated and free of line ends; what stood in the buffer is the name, its line end and the bytes that are dropped |
| `Framing.NameKeptIff` | src/chat_server.c:186-241 | a whole name event, after which the session goes on, keeps all bytes whatever stale ones the buffer holds if and only if there is at most one data read and nothing stands behind the first line end |
| `Framing.RunsName` | src/chat_server.c:186-241 | over every run of name events with at most one data read each the name is the first line that the client has sent, and complete as soon as its line end has been read |
| `Framing.ChatLineFits` | src/chat_server.c:81-113 | with a time of day or without one, name, time, brackets and line never exceed 560 of 561 bytes |
| `ChatText.ChatReadsBackIff` | src/chat_server.c:98-113 | from the text and the length of the name a parser gets back the name up to its terminator, the time and exactly the line, if and only if the clock shows a time of day or there is none |
| `ChatText.ChatConveys` | src/chat_server.c:98-113 | with the clock read at `now`, the time that it gets back is the time of day in Moscow, for every second from 1601 on |
| `ChatText.SameTextSameChat` | src/chat_server.c:98-113 | two messages with names of the same length have the same text if and only if name, time and line are the same |
| `ChatText.NameShowsIff` | src/chat_server.c:98-113 | the name ends at the first bracket, or colon, of the text if and only if it holds none |
| `ChatText.TextOfTwo` | src/chat_server.c:98-113 | a message of one client can have the very text of a message of another |
| `Handlers.FillLine` | src/chat_server.c:246-273 | the loop stores, counts and stops as the specification of the read loop says |
| `Handlers.FillName` | src/chat_server.c:189-217 | the same for the name |
| `Handlers.EndName` | src/chat_server.c:219-225 | the scan ends the name at its first line end |
| `Handlers.ComposeChat` | src/chat_server.c:98-113 | the message is the chat line for every clock `time_to_tm` can show, cut to 561 bytes, which cuts nothing when the clock is a time of day |
| `Handlers.CheckLineAndSend` | src/chat_server.c:79-119 | each of the others gets one text, from which a parser gets back the name, the time of day in Moscow and exactly the line found, which leaves the buffer; without a line nothing is said |
| `Handlers.LineOutDelivers` | src/chat_server.c:98-115 | what is sent for a line is one text to each of the others, in list order, that conveys name, time and line |
| `Handlers.SessionLineRead` | src/chat_server.c:243-275 | for every script of read results and every clock: what is said, what stays in the buffer, and whether the session ends; a full buffer closes it; each call is one more event of the runs in `Framing.RunsAccount` and says the line that this adds |
| `Handlers.FullBufferCloses` | src/chat_server.c:249-265 | on a full buffer without a newline the event says nothing but the farewell |
| `Handlers.SessionNameRead` | src/chat_server.c:186-241 | the same while the client has no name, with welcome and announcement once it has; a name of 32 bytes without a line end closes the session |
| `Worlds.NewClient` | src/chat_server.c:367-372 | a session is refused exactly when the server is full; otherwise one client joins |
| `Worlds.NextSound` | src/chat_server.c:349-434 | every step keeps the pools in order, every live client well-formed and every chunk tidy |
| `Worlds.OthersStay` | src/chat_server.c:349-434 | whatever a step does, all sessions it is not about stay live and as they are, buffers included |
| `Worlds.UntouchedStays` | src/chat_server.c:416-434 | over every run a session without an event stays live and as it was |
| `Worlds.AcceptCount` | src/chat_server.c:349-390 | a result of `accept4` adds one live client if and only if it is a connection that is registered and the server is not full |
| `Worlds.UnregisteredIff` | src/chat_server.c:374-380 | when `epoll_ctl` fails, the connection is closed if and only if the first free chunk holds its descriptor, and all live clients are told that one has left if and only if it holds a complete name; from a new pool nobody is told |
| `Worlds.UnregisteredExample` | src/chat_server.c:374-380 | a connection that is not closed, and a departure that is announced again |
| `Worlds.HistoryReaches` | src/chat_server.c:349-434 | every run is a run of opens and closes in the sense of `Registry.RunsRefineSet`, which closes only clients with an event |
| `Worlds.SessionTalks` | src/chat_server.c:186-275 | over every run of the server, whatever happens to all other sessions, a session whose events have at most one data read each holds what its own stream has come to: its name is the first line, and the bytes of all later events are the lines sent, in order, and those in the buffer |
| `Worlds.TalkSays` | src/chat_server.c:243-275 | an event of such a session says the line that it adds to that stream, and the farewell if it is the last |
| `ServerLoop.AcceptOne` | src/chat_server.c:367-388 | one connection is a step: a session with empty buffers and its prompt, a rejection, or a session closed again with what that says; all other chunks stay as they are |
| `ServerLoop.ServerHandle` | src/chat_server.c:349-390 | a history with one step for each result up to the one that ends accepting, and the log it says |
| `ServerLoop.HandleReadable` | src/chat_server.c:428-432 | an event of a client is a step: what it says, what its client becomes, whether it is closed; all other chunks stay as they are |
| `ServerLoop.HandleNext` | src/chat_server.c:424-433 | one entry of a batch lengthens the history by its steps |
| `ServerLoop.StillDue` | src/chat_server.c:416-434 | in a batch without repetition every client is still live at its turn, and as it was |
| `ServerLoop.EventHasItsSteps` | src/chat_server.c:424-434 | each event of a batch adds its own steps, in order: one for a client, one for each result of `accept4` up to the one that ends accepting |
| `ServerLoop.HandleBatch` | src/chat_server.c:416-434 | a batch is a history whose steps are those of its events, in order, and the log is what these say one after the other |
| `ServerLoop.Then` | src/chat_server.c:416-434 | batches compose: the histories of one after the other are one history, with one log |
| `ServerLoop.Begin` | src/chat_server.c:482-485 | the server starts well-formed, without live clients |
| `Messages.AcceptSaid` | src/chat_server.c:356-388 | a connection is closed if and only if 16368 clients are live, after it was told that the limit is reached; otherwise it is asked for a name, and a new live client has its descriptor |
| `Messages.NothingAccepted` | src/chat_server.c:358-364 | the end of the waiting connections, or an error, says and changes nothing |
| `Messages.UnregisteredSaid` | src/chat_server.c:374-380 | when `epoll_ctl` fails all live clients are told that the name of the first free chunk has left, if it holds one, and the descriptor in it is closed |
| `Messages.GoesOnIff` | src/chat_server.c:186-275 | an event leaves the session open if and only if its bytes fit the 512, or 32, of the buffer and the first other result is that nothing is left |
| `Messages.NameEventSaid` | src/chat_server.c:186-241 | every event before the name: the message for too long a name, the close that nobody hears of, the welcome with the news to all others, or nothing |
| `Messages.LineEventSaid` | src/chat_server.c:243-275 | every event after it: the message for too long a line, the line to all others as a text that can be read back, and the farewell to all of them before the close |
| `Messages.TalkHears` | src/chat_server.c:186-275 | over every run the bytes of a session are those of its name and those of its lines, one after the other |
| `Messages.SessionKeepsFd` | src/chat_server.c:383 | over every run a session keeps the descriptor that `accept4` gave it |
| `Messages.NameTold` | src/chat_server.c:186-241 | over every run, with one data read for each event: as soon as a line end has come, and not before, the client is welcomed at its descriptor as what it has sent before the first one, and each other live client is told once, in list order, that this one has entered |
| `Messages.LineTold` | src/chat_server.c:243-275 | over every run: each other live client gets one text, from which the name of the client, the time in Moscow and exactly the first line of its waiting bytes can be read back, and what is behind that line waits; at the end they are told that the name has left, and the descriptor is closed |
| `Descriptors.StepConserves` | src/chat_server.c:349-434 | in every step what comes in and was live is what is closed and is live, but for a connection that `epoll_ctl` does not take |
| `Descriptors.DescriptorsConservedIff` | src/chat_server.c:349-434 | over every run from an empty server the descriptors accepted are, as often as each was, those closed and those of live clients, if and only if the ones that `epoll_ctl` did not take are those that their chunks held |
| `Descriptors.DescriptorsConserved` | src/chat_server.c:349-434 | so it is when every connection is registered |

## Left out

- `Memory.MemCpy`: claims nothing about the pointer that the forward path returns, which is the advanced one.
- `Memory.StringInSlice`: takes a text of other memory by value and stores it at once; `Memory.StringWithin` is the copy by `memcpy`.
- `Arenas.Arena.AllocAlign`: requires an alignment above zero, although zero passes the test of the source.
- `Arenas.GrowSlice`: requires a capacity of at most 2^62 and a product of capacity and element size below 2^64.
- `Numerals.IntInSlice`: requires a number above the minimum of int64, whose negation overflows.
- `Numerals.PrintHex`: requires a capacity whose int is not within 18 of the least, where the difference in the loop overflows.
- `Time.TimeToTm`: says nothing about the date before 1601, where no calendar is promised; the text field for the zone is left out.
- `ClientPools.NewClientPool`: creates the chunks as objects next to the arena that lays them out; their bytes are not shared with it.
- `Framing.RunsAccount`: says nothing about events with two data reads, which lose bytes.
- `Messages.LineTold`: says nothing about the text of a message whose clock is not a time of day, before 1601, but to whom it goes is in `Handlers.CheckLineAndSend`.
- `Worlds.UnregisteredIff`: which descriptor a free chunk holds is open; the link of the free list shares its bytes.
- `Servers.Server.SessionClose`: drops the pool from the array; that only one of its pages is unmapped is not modelled.
- `make_slice` that moves the global arena: it invalidates all earlier slices.
- `fmt_fprintf`, `panic`, debug and error printing, `memequal`, `c_strncpy`, the string slicing wrappers, the io vectors and the error table: easy members or output for the operator.
- Socket setup, `server_init`, `_start` and `hton`: plumbing.
- System calls: `syscall.c` and `assert.c` are inline assembly; partial and failing writes are not modelled.
