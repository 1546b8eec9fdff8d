# Eve market dump, verified

A Dafny model of the stateful cores of the Eve market dump: the archived C program
(`archive/emd/src`), the Go library and web server that replaced it, and the Python script that
reads the C program's files. `dafny verify dfyconfig.toml` checks everything.

What is behind an I/O edge is a parameter. A server is an arbitrary function from request number to
answer, a file is a sequence of bytes with a position, floats are their bit patterns, and a call
that may time out may fail at any moment.

| Component | Files |
|---|---|
| Bounded FIFO (ring, mutex, two semaphores) under every interleaving, and the two threads that lend one vector to each other through two of them, first call by call, then operation by operation | `unsafe_ptr_fifo.dfy`, `ptr_fifo.dfy`, `ptr_fifo_steps.dfy`, `market_exchange.dfy`, `fifo_exchange.dfy`, `exchange_replies.dfy`, `giving_up.dfy` |
| Dump files: big-endian fields, CRC-32 kept while writing, patched header, and the Python reader | `bytes.dfy`, `crc32.dfy`, `crc32_words.dfy`, `dump.dfy`, `records.dfy`, `orders.dfy`, `histories.dfy`, `utf8.dfy`, `emd_to_json.dfy` |
| Ordinal dates, the snapshot of all histories and its sweep into one dump a day | `dates.dfy`, `buckets.dfy`, `date_sweep.dfy` |
| The Go snapshot against the incremental download | `go_history.dfy` |
| Retries and paging against an arbitrary server | `esi.dfy`, `order_universe.dfy` |
| Known and forbidden locations of the web server | `order_worker.dfy` |
| CSV cursor, growing buffers and string pool, deduplication | `csv.dfy`, `string_pool.dfy`, `active_markets.dfy` |
| Shared types | `ints.dfy`, `wrappers.dfy` |

Code that changes state in place is a class or a method proved against a function of the old state;
the properties are then lemmas about that function. Automatic induction is off in every lemma, so each
proof by induction is written out.

## What the proofs found

- The initial download ends exactly when it stops before the sweep (a market fails for good, or no
  record has a date) or when the last day comes before the first one or before day 365 of the year
  65535. That is the precondition of `InitialDownload`; in every other case the 16-bit year wraps and
  the loop condition stays true forever (`OtherwiseForever`). Such a case needs days counted from 1, as
  in `OneBasedSweepForever`: the zero-based days of `date_parse`, the only source of dates of the
  download, never reach day 365 in that year, so with them every sweep ends (`ZeroBasedSweepsEnd`).
- With the zero-based days that `date_parse` stores (base.c:911, which its comment and test expect),
  every January 1st but the first day falls between two visited days and is lost
  (`ZeroBasedNewYearIsLost`). With the one-based days of `date_incr` and `date_utc` nothing is lost
  (`NothingLost`).
- A snapshot that breaks off inside a record is reported as an error when 20 to 43 bytes of the
  record are there, because the reader of floats turns the end of the file into `E_ERR`; in every
  other case the fragment is silently dropped (`BitShortage`, `ReadDay`, `Sweep`).
- The two Go downloads do not always agree (`DownloadsAgree`). Both succeed with the same days exactly
  when every market answers in dates and none lists the date twice: the incremental loop takes one
  day and breaks, the snapshot query takes both. A text that is no date fails the full download
  wherever it stands, the incremental one only when it comes before the day asked for
  (`BadDateAfterTheDay`); the full download never succeeds alone.
- A printed CSV table whose last row is a single empty field is read back without it unless a newline
  ends it; an empty line satisfies a reader that asks for any number of fields; and a row of two or
  more fields that starts with an empty one can never be read (`ReadBack`, `RoundTrip`).
- A round of the web server resolves all locations exactly when the tables and the answers settle each
  unknown one in its turn, and one that is not settled keeps all the others from becoming known
  (`RoundResolvesExactly`, `NothingKnownExactly`). One order that names a station missing from the
  station table therefore blocks every round (`MissingStationBlocksAll`).
- The orders thread can work on a vector whose owner has quit (`SharedWitness`): exactly when it is at
  work in a run in which the histories thread gave up waiting for the response (`SharedExactly`).
  Giving up can lead to that exactly when the request has not been answered at that moment
  (`GivingUpSharesExactly`). Both hold call by call and operation by operation. Giving up the push of
  the request is harmless, and so is stopping between two exchanges (`WhoQuits`).
- The Python script reads a table of locations that was cut short if and only if the cut is within the
  name of the last record and at a boundary of UTF-8; it then shows the rest of the name as if it were
  all, with the checksum of the uncut table (`TableCutExactly`). Names are not in its checksum at all:
  what it covers is what was consumed exactly when every name is empty (`NamesAreNotChecked`,
  `ChecksumOfConsumed`), so two tables can differ in a name and agree in the checksum (`UnseenName`).
- A failed `ptr_fifo_try_pop` does not mean an empty ring: it reports `E_EMPTY` exactly when every pointer
  in the ring is spoken for by some other thread (`TryPopEmptyExactly`).
- A structure counts as forbidden on any readable answer that is neither 200 nor one of the busy codes,
  a 404 as well as a 403 (`ReplyExactly`).
- The ring in memory is inconsistent exactly while a thread is between the update of an index and that
  of the length (`ConsistentExactly`); nobody else sees that because of the mutex, without which a
  pointer is lost (`LostWithoutMutex`).

## Model

| member | source | states |
|---|---|---|
| UnsafeFifo.PushAppends | archive/emd/src/base.c:674-684 | Pushing on a ring that is not full keeps the indices consistent and appends the pointer to the contents, read from the oldest round the buffer. |
| UnsafeFifo.PopTakesOldest | archive/emd/src/base.c:686-697 | Popping from a ring that is not empty keeps the indices consistent and takes off the oldest pointer. |
| UnsafeFifo.UnsafePtrFifo.Init | archive/emd/src/base.c:650-666 | Panics exactly when no capacity was ever given; otherwise the ring is empty with the new capacity, or the old one when called with 0. |
| UnsafeFifo.UnsafePtrFifo.Push | archive/emd/src/base.c:674-684 | Panics exactly on a full fifo; otherwise the contents gain the pointer at the end, also on the first call, which allocates. |
| UnsafeFifo.UnsafePtrFifo.Pop | archive/emd/src/base.c:686-697 | Panics exactly on an empty fifo; otherwise returns the oldest pointer and leaves the rest in order. |
| PtrFifo.InitInv | archive/emd/src/base.c:718-737 | Right after initialisation the whole invariant holds, for any threads and any lists of calls. |
| PtrFifo.StepCounts | archive/emd/src/base.c:739-829 | No step reaches the full or empty panic, and `push` + len + slots held by threads = cap and `pop` + slots held = len stay true. |
| PtrFifo.StepRefinesQueue | archive/emd/src/base.c:739-829 | Every step of every thread is one step of a bounded queue (append when there is room, remove the oldest) or leaves it alone; a failed wait and `E_EMPTY` change nothing but the caller's result. |
| PtrFifo.TryPopEmptyExactly | archive/emd/src/base.c:810-829 | `ptr_fifo_try_pop` reports `E_EMPTY` exactly when every pointer in the ring is spoken for by a thread that has a permit or has not posted yet; otherwise it takes a permit. |
| PtrFifo.QueueStepOrder | archive/emd/src/base.c:739-829 | A queue step keeps: pointers delivered so far followed by the contents are the pointers accepted, in mutex order. |
| PtrFifo.StepInv | archive/emd/src/base.c:739-829 | The invariant (mutual exclusion, permits, order, each thread's own record, pending calls) survives any step of any thread. |
| PtrFifo.RunInv | archive/emd/src/base.c:700-829 | Every state of every interleaving of any number of threads keeps the invariant, so no run panics and delivery is first in, first out. |
| PtrFifo.StuckExactly | archive/emd/src/base.c:739-807 | No thread can go on exactly when all have finished, or all the others wait to push on a full ring, or all the others wait to pop from an empty one. |
| PtrFifo.RunsEnd | archive/emd/src/base.c:739-829 | A run takes at most five steps a call, so none goes on forever. |
| PtrFifo.ExactlyOnce | archive/emd/src/base.c:739-829 | When no call is half way, every pointer was reported pushed exactly as often as it was popped or is still in the ring. |
| PtrFifoSteps.FineStepRefines | archive/emd/src/base.c:674-697 | With the store into the slot, the update of the index and that of the length as steps of their own, every step of every thread is that thread's step in the system where the ring changes at once, or goes on with an operation under way and is not seen there. |
| PtrFifoSteps.FineRunRefines | archive/emd/src/base.c:674-829 | Every interleaving of these single updates keeps mutual exclusion and, with the operation under way completed, the whole invariant (no panic, first in first out), and corresponds to an interleaving with whole ring operations. |
| PtrFifoSteps.ConsistentExactly | archive/emd/src/base.c:674-697 | The ring in memory is inconsistent exactly while the holder of the mutex is between the update of an index and that of the length, for every capacity of two or more. |
| PtrFifoSteps.StuckAlike | archive/emd/src/base.c:739-829 | The two systems get stuck in the same states, so the deadlock condition carries over. |
| PtrFifoSteps.FineRunsEnd | archive/emd/src/base.c:739-829 | No interleaving of the single updates goes on forever. |
| PtrFifoSteps.LostWithoutMutex | archive/emd/src/base.c:674-684 | Two threads that both entered the push without the mutex: one pointer is lost and a null pointer takes its place. |
| MarketExchange.StepPlaces | archive/emd/src/hoardling.c:186-212 | A step of either thread keeps the vector in at most one of request fifo, orders thread, response fifo, and only while it is being waited for. |
| MarketExchange.StepContents | archive/emd/src/hoardling.c:331-348 | A step keeps: the vector is empty until filled, every response is the vector requested, and vector and reply agree with the orders recorded at the fill, which `RepliesExactly` ties to the actions. |
| MarketExchange.RunInv | archive/emd/src/hoardling.c:331-348 | Every run of the two threads, each call one step, with waits given up anywhere and vectors allocated at any address, keeps the place and the contents of the vector: the assertion on the returned pointer holds. |
| MarketExchange.RepliesExactly | archive/emd/src/hoardling.c:186-212 | In every run there is one reply for each pop, and it is the vector made last, filled since, whose contents are exactly the (region, type) pairs of the orders of the last fill before that pop, each once; told from the list of actions alone. |
| MarketExchange.CanExchange | archive/emd/src/hoardling.c:331-348 | Whatever went before, a free histories thread can have a new vector filled with any orders and is free again. |
| MarketExchange.NoSharedAccess | archive/emd/src/hoardling.c:186-212 | While the orders thread has the vector the histories thread waits for that very vector or has quit; neither fifo ever fills up. |
| MarketExchange.WhoQuits | archive/emd/src/hoardling.c:331-348 | The histories thread has quit exactly if it stopped between exchanges or gave up a push or a pop; if it never gave up a pop, it leaves no vector behind. |
| MarketExchange.SharedExactly | archive/emd/src/hoardling.c:331-348 | The orders thread works on a vector whose owner has quit exactly in the runs in which a response was given up; in all others the owner waits for that vector. |
| MarketExchange.SharedWitness | archive/emd/src/hoardling.c:331-348 | Such a run: request pushed and popped, response given up. |
| MarketExchange.GivingUpSharesExactly | archive/emd/src/hoardling.c:331-348 | From any reachable state, giving up the response can lead to a shared vector if and only if the request is still queued or being worked on. |
| FifoExchange.FifoStep | archive/emd/src/base.c:739-829 | A step of one of the two threads inside a FIFO call is a queue step and keeps the permits, the ring and the progress of both calls consistent. |
| FifoExchange.StepInv | archive/emd/src/hoardling.c:186-212 | Every step of the composed system, calls entered and left included, keeps both FIFOs and both control states consistent. |
| FifoExchange.StepRefines | archive/emd/src/hoardling.c:331-348 | Every step of the composed system is, through the abstraction, one step of the two threads with atomic calls or none. |
| FifoExchange.RunRefines | archive/emd/src/hoardling.c:331-348 | Every interleaving of semaphore, mutex and ring operations of both threads in both FIFOs corresponds to a run with atomic calls, with the same vectors, fills, stops and failed waits for a response in the same order. |
| FifoExchange.ExchangeIsSafe | archive/emd/src/hoardling.c:186-212 | In every such interleaving nothing panics, each response is the vector requested, and the orders thread holds a vector only while its owner waits for it or has quit. |
| ExchangeReplies.RepliesExactly | archive/emd/src/hoardling.c:186-212 | In every such interleaving there is one reply for each pop that returned before a wait failed, and it carries exactly the (region, type) pairs of the orders of the last fill before that return, each once, in the vector made last. |
| GivingUp.SharedExactly | archive/emd/src/hoardling.c:331-348 | In every such interleaving the orders thread works on a vector whose owner has quit exactly if the wait for a response has failed; otherwise the owner waits for that vector. |
| GivingUp.TakesAbandoned | archive/emd/src/hoardling.c:186-212 | From any reachable state with an abandoned request queued, wherever the orders thread stands inside its calls, it can go on alone until it has the request in hand. |
| GivingUp.GivingUpSharesExactly | archive/emd/src/hoardling.c:331-348 | Wherever the two threads stand inside their calls, letting the wait for the response fail can lead to a shared vector if and only if the request is still queued or being worked on. |
| Bytes.BEofFromBE | archive/emd/src/dump.c:385-414 | Reading bytes as a big-endian number stays in range and writing the number gives the bytes back. |
| Bytes.FromBEofBE | archive/emd/src/dump.c:263-301 | Reading the bytes of a number that fits gives the number back. |
| Bytes.ByteAt | archive/emd/src/dump.c:263-301 | Each byte of the encoding is the number shifted down and masked, for every width. |
| Bytes.Shifts64 | archive/emd/src/dump.c:293-301 | The eight shifted bytes of dump_write_uint64 are the big-endian encoding. |
| Bytes.Shifted64 | archive/emd/src/dump.c:404-414 | The sum of shifted bytes in dump_read_uint64 is the big-endian value. |
| Crc32.Streaming | archive/emd/src/dump.c:247-261 | Continuing a finished checksum with more bytes gives the checksum of the whole (section 8 of RFC 1952), and no bytes leave it alone. |
| Crc32.RemainderExactly | archive/emd/src/dump.c:247-261 | k steps of the register, of any width, leave exactly the remainder of division by the generator polynomial, for every k. |
| Crc32.TableIsRemainder | archive/emd/src/dump.c:247-261 | Every entry of the table of section 8 of RFC 1952 is the remainder of its byte. |
| Crc32.CrcIsRemainder | archive/emd/src/dump.c:247-261 | For every message and every checksum it continues: the complemented checksum is the remainder, modulo the generator polynomial, of the whole message read as one polynomial with the complemented start added to its first terms, and no other number is. |
| Crc32Words.CrcIsWord | archive/emd/src/dump.c:247-261 | For every message the checksum is what 32-bit words give, shifted bit by bit with the constant 0xedb88320 as in the sample code of section 8 of RFC 1952. |
| Crc32Words.CheckValue | archive/emd/src/dump.c:247-261 | The checksum of the nine digits "123456789" is 0xcbf43926, the check value of this CRC-32. |
| DumpFiles.Dump.OpenWrite | archive/emd/src/dump.c:93-150 | The file holds exactly the 46-byte header with a zero checksum, the position is behind it. |
| DumpFiles.Dump.Write | archive/emd/src/dump.c:247-261 | Appends to the file and folds into the running checksum, which stays that of the whole body; an empty write is an error that changes nothing. |
| DumpFiles.Dump.WriteUint16 | archive/emd/src/dump.c:273-281 | The body gains the two-byte big-endian encoding. |
| DumpFiles.Dump.WriteUint32 | archive/emd/src/dump.c:283-291 | The body gains the four-byte big-endian encoding. |
| DumpFiles.Dump.WriteUint64 | archive/emd/src/dump.c:293-301 | The body gains the eight-byte big-endian encoding. |
| DumpFiles.Dump.CloseWrite | archive/emd/src/dump.c:152-182 | Of the whole file only bytes 2 to 5 change, to the checksum of everything behind the header. |
| DumpFiles.PatchedHeader | archive/emd/src/dump.c:152-182 | After that patch the header is the one a writer that knew the checksum beforehand would have written. |
| DumpFiles.Dump.OpenRead | archive/emd/src/dump.c:185-208 | Reading starts behind the header whatever the header says. |
| DumpFiles.Dump.SeekStart | archive/emd/src/dump.c:225-233 | Goes back to the start of the body from anywhere. |
| DumpFiles.Dump.Read | archive/emd/src/dump.c:356-374 | All bytes asked for, or the end of the file; asking for none is an error, or the end of the file if that was met before. |
| DumpFiles.Dump.ReadUint64 | archive/emd/src/dump.c:404-414 | The big-endian value of the next eight bytes, or the end of the file. |
| DumpFiles.Dump.ReadFloat64 | archive/emd/src/dump.c:441-448 | The bit pattern of the next eight bytes; a missing byte is an error here, not the end of the file. |
| Records.RoundTrip | archive/emdtojson/emdtojson.py:6-10 | Unpacking with the format of the fields written gives their values back, signed bytes included. |
| Records.WriteFields | archive/emd/src/orders.c:351-371 | Writing the fields of a record one call at a time appends its encoding. |
| Records.ReadFields | archive/emd/src/histories.c:447-485 | Reading field by field gives the decoded record when it is all there, otherwise the status of the first field that is cut. |
| Records.ShortageAt | archive/emd/src/dump.c:432-448 | The status of a record cut inside field i is an error when that field is a float and the end of the file when not. |
| Orders.WriteOrderTable | archive/emd/src/orders.c:373-386 | The body gains the encoded table: the count and every order in order, laid out as `TableLayout` and `OrderLayout` say. |
| Orders.OrderLayout | archive/emd/src/orders.c:351-371 | An order takes 86 bytes; which of its thirteen numbers stands at which of them, in how many bytes. |
| Orders.TableLayout | archive/emd/src/orders.c:373-386 | The count stands in the first eight bytes, order i at byte 8 + 86 i. |
| Orders.DumpOrders | archive/emd/src/hoardling.c:132-155 | The closed file is a finished order dump: header with the body's checksum and an expiry five minutes on, then the table. |
| Histories.BitRoundTrip | archive/emd/src/histories.c:393-408 | A record takes 60 bytes and decodes to itself. |
| Histories.BitLayout | archive/emd/src/histories.c:393-408 | Which number of a record stands at which of its 60 bytes. |
| Histories.BitsRoundTrip | archive/emd/src/histories.c:410-421 | A body of records reads back as the records written, wherever in a file it stands. |
| Histories.BitsSplit | archive/emd/src/histories.c:487-510 | Reading k and then l records is reading k + l of them. |
| Histories.BitShortage | archive/emd/src/histories.c:468-485 | A record cut between bytes 20 and 43 is an error, cut anywhere else it is the end of the file. |
| Histories.WriteBits | archive/emd/src/histories.c:410-421 | The body gains the encodings of the records in order. |
| Histories.ReadBit | archive/emd/src/histories.c:468-485 | The record at the position, or exactly which failure, from the number of bytes left. |
| Histories.ReadBits | archive/emd/src/histories.c:487-510 | Pushes the next n records, or all that are whole, and tells which; the status for every number of bytes left. |
| Histories.WriteHistoryDump | archive/emd/src/histories.c:423-445 | The body gains date, count, and market and statistics of every record in order. |
| Histories.DayLayout | archive/emd/src/histories.c:423-445 | Date and count stand in the first twelve bytes, entry i at byte 12 + 56 i; it is the record without its date. |
| EmdToJson.Reader.Unpack | archive/emdtojson/emdtojson.py:6-10 | Succeeds exactly when the format's bytes are there; then it returns their values, consumes them and folds them into the checksum. |
| EmdToJson.Reader.UnpackString | archive/emdtojson/emdtojson.py:12-14 | Consumes the length and as many of the bytes as there are, without folding the latter into the checksum; fails when they are not UTF-8 or the length is 2^63 or more, which `read` refuses. |
| EmdToJson.LongNameStops | archive/emdtojson/emdtojson.py:12-14 | A string is read if and only if its length is below 2^63 and the bytes there are for it are UTF-8. |
| EmdToJson.Reader.UnpackLocTable | archive/emdtojson/emdtojson.py:16-30 | The loop reads as many locations as the count says, or fails at the first that cannot be read. |
| EmdToJson.Reader.UnpackOrderTable | archive/emdtojson/emdtojson.py:32-52 | The loop reads as many rows as the count says, or fails at the first that cannot be read. |
| EmdToJson.Reader.UnpackHistoryDay | archive/emdtojson/emdtojson.py:54-68 | Date and count, then the loop over the entries, with the same failure. |
| EmdToJson.DataConsumes | archive/emdtojson/emdtojson.py:32-68 | For orders and histories the checksum is that of exactly the bytes consumed, whatever the input. |
| EmdToJson.LocsReadBack | archive/emdtojson/emdtojson.py:12-30 | Location records are recovered in full, but their checksum is that of everything except the names. |
| EmdToJson.LocTableReadsBack | archive/emdtojson/emdtojson.py:16-30 | The same for a table behind its count. |
| EmdToJson.TableCutExactly | archive/emdtojson/emdtojson.py:12-30 | For every table and every length it is cut to: it is refused before the name of the last record and within a character of that name, and otherwise read with that name as cut and the checksum of the whole. |
| EmdToJson.NamesAreNotChecked | archive/emdtojson/emdtojson.py:12-14 | Tables that agree in everything but the bytes of their names get the same checksum. |
| EmdToJson.ChecksumOfConsumed | archive/emdtojson/emdtojson.py:12-30 | The bytes folded into the checksum are all the bytes consumed if and only if every name is empty. |
| EmdToJson.UnseenName | archive/emdtojson/emdtojson.py:12-14 | Two tables that differ in a name and have the same checksum. |
| EmdToJson.ArtIsValid | archive/emdtojson/emdtojson.py:72-77 | The art that the C program puts into every header is valid UTF-8 (section 4 of RFC 3629), so decoding it never stops the script. |
| Utf8.ValidExactly | archive/emdtojson/emdtojson.py:12-14 | Bytes decode if and only if they spell some list of code points in the bit layout of section 3 of RFC 3629, each in as few bytes as will do and none a surrogate. |
| EmdToJson.Convert | archive/emdtojson/emdtojson.py:70-93 | The script's loops compute the specified result on every input, failures included. |
| EmdToJson.HeaderRoundTrip | archive/emdtojson/emdtojson.py:72-77 | The header the C program writes is what the script takes out of it, and the body starts right after. |
| EmdToJson.OrderDumpRoundTrip | archive/emd/src/orders.c:351-386 | For every list of orders and expiry the script shows every order of a closed order dump in order, and its checksum agrees. |
| EmdToJson.OrderColumns | archive/emdtojson/emdtojson.py:32-52 | Name by name: what the script shows as `type_id`, `region_id` and the other eleven is that very field of the order. |
| EmdToJson.ChecksumIsCompared | archive/emdtojson/emdtojson.py:89-90 | Whatever the header of an order dump says, the script finds a match exactly if that is the checksum of the body. |
| EmdToJson.UnknownType | archive/emdtojson/emdtojson.py:86-90 | A dump of another type is shown without data, and its checksum is compared with 0. |
| EmdToJson.DayDumpRoundTrip | archive/emd/src/histories.c:423-445 | For every date and list of records the script recovers the date and every entry of a closed history dump, and its checksum agrees. |
| EmdToJson.StatColumns | archive/emdtojson/emdtojson.py:54-68 | Name by name: year, day and the seven entries of each record are its own. |
| EmdToJson.RowsAreFaithful | archive/emdtojson/emdtojson.py:32-68 | Equal rows come from equal orders, equal entries from equal markets and statistics. |
| EmdToJson.SweptDayReadsBack | archive/emd/src/hoardling.c:471-515 | End to end: for every visited day without an earlier dump, the script shows exactly that day's records of all markets, in download order. |
| Dates.DateCell.Incr | archive/emd/src/base.c:933-942 | In place, the next date, with the wrap of the 16-bit year. |
| Dates.NextIsNextDay | archive/emd/src/base.c:933-942 | The closed-form Gregorian day number grows by exactly 1, if and only if the day is not past the end of its year and it is not the last day of year 65535; ordinal dates stay ordinal. |
| Dates.DaysBeforeNext | archive/emd/src/base.c:929-931 | The closed form grows by 366 in leap years and by 365 in others, for every integer year. |
| Dates.ComparisonsOrderDays | archive/emd/src/base.c:916-927 | On ordinal dates (section 4.1.3 of ISO 8601:2004) before, after and equal are the order of day numbers. |
| Dates.UtcInvertsPosix | archive/emd/src/base.c:944-954 | The year and day of a time are the only ones that the POSIX formula for seconds since the Epoch maps to its day. |
| Dates.UtcOfDay | archive/emd/src/base.c:944-954 | Every one of the 86400 seconds of a day, counted from the Epoch by the POSIX formula, is given that one-based day, and that year modulo 65536. |
| Dates.UtcTomorrow | archive/emd/src/base.c:944-954 | date_utc gives an ordinal date, and a day later it gives what date_incr makes of it, while the year fits 16 bits. |
| Buckets.BucketsAreStableSort | archive/emd/src/hoardling.c:471-515 | Buckets in key order side by side are the stable sort of the whole exactly when every key has its bucket. |
| Buckets.StableSortIsPermutation | archive/emd/src/hoardling.c:471-515 | A stable sort loses nothing and duplicates nothing. |
| DateSweep.Snapshot | archive/emd/src/hoardling.c:379-460 | Fails exactly when a market failed for good or the window has no date at one end; otherwise the closed snapshot holds all records in download order and the window is that of the ends of the histories. |
| DateSweep.EachHasItsPlace | archive/emd/src/hoardling.c:385-450 | Record j of market i stands in the snapshot behind all records of the markets before it and j of its own. |
| DateSweep.WindowAttained | archive/emd/src/hoardling.c:435-442 | first_day is the date some history begins with, and none begins before it; last_day is the date some history ends with, and none ends after it. |
| DateSweep.YearZeroIsNoDate | archive/emd/src/hoardling.c:453-457 | A date of year 0 at either end of a history counts as no date and stops the download. |
| DateSweep.WindowCovers | archive/emd/src/hoardling.c:435-442 | If every history is sorted by date, first_day and last_day bound every record although only the ends of each history are looked at. |
| DateSweep.ReadDay | archive/emd/src/hoardling.c:475-503 | For every chunk size n >= 1 and every file, one pass keeps exactly the whole records of the date in file order, also when the count is a multiple of n and from any position; it fails exactly when 20 to 43 bytes are left over. |
| DateSweep.NextSkipsNothing | archive/emd/src/base.c:933-942 | From any date before the guard, the next date is a calendar day and no calendar day lies between. |
| DateSweep.OtherwiseForever | archive/emd/src/hoardling.c:472-474 | Without the guard the loop condition holds after any number of increments. |
| DateSweep.ZeroBasedSweepsEnd | archive/emd/src/base.c:892-914 | With days counted from 0, as date_parse stores them, the sweep ends for every window. |
| DateSweep.OneBasedSweepForever | archive/emd/src/hoardling.c:472-474 | With days counted from 1 a single record of the last day of year 65535 gives a window for which it does not end. |
| DateSweep.WriteDay | archive/emd/src/hoardling.c:302-329 | A day without a dump gets the finished dump of its records; an existing dump is left alone and reported. |
| DateSweep.Sweep | archive/emd/src/hoardling.c:471-515 | For a snapshot file of any contents: fails, before any dump, exactly when it is cut within a record's floats and there is a day to visit; otherwise ends and leaves one dump for every visited day that had none, holding exactly that day's whole records, and touches no other file. |
| DateSweep.DaysAreVisited | archive/emd/src/hoardling.c:472-474 | The days the loop stops at are the first one and the calendar days up to the last, each once, in order. |
| DateSweep.VisitedExactly | archive/emd/src/hoardling.c:471-474 | For every list of sorted histories a day is visited if and only if some record is not after it, some record is not before it, and it is a calendar day or has no record before it. |
| DateSweep.SweepPartitions | archive/emd/src/hoardling.c:471-515 | The day lists side by side are the snapshot stably sorted by date if and only if every record is dated on a visited day. |
| DateSweep.NothingLost | archive/emd/src/hoardling.c:387-515 | For every list of sorted histories: nothing is lost or duplicated if and only if every record has a calendar date or is of the first day. |
| DateSweep.ZeroBasedNewYearIsLost | archive/emd/src/base.c:892-914 | A record of January 1st as date_parse dates it is not on a visited day. |
| DateSweep.InitialDownload | archive/emd/src/hoardling.c:379-525 | Stops without touching a dump exactly when a market failed for good or no date was seen, and otherwise leaves the dumps of the sweep. For sorted histories, told from the downloads alone: it goes through exactly if no market failed and there is a record, and a new dump is there exactly for the days from the earliest to the latest record, holding the records of that date. It asks for the guard of the sweep only where there is a sweep. |
| GoHistory.HistorySnapshot.AddDate | history.go:196-203 | The date joins the index exactly if it is new. |
| GoHistory.HistorySnapshot.AddDay | history.go:177-190 | The record is appended and the index stays exactly the set of dates in the file, each once. |
| GoHistory.HistorySnapshot.Sort | history.go:205-213 | The index becomes strictly increasing and keeps its elements. |
| GoHistory.HistorySnapshot.GetHistoryDataForDay | history.go:61-104 | The days of that date in file order; nothing for a date outside the index; an error exactly when the context ends within the loop. |
| GoHistory.DownloadFull | history.go:134-194 | Succeeds exactly when every market answers or is skipped and every date parses; then the file holds all markets' days in order and the index is its dates, strictly increasing. |
| GoHistory.FileIsAnswers | history.go:177-240 | Day j of market i stands in the file behind all days of the markets before it and j of its own, with its own date, region, type and five numbers. |
| GoHistory.DownloadIncremental | history.go:240-300 | For every server the outcome of the loop with break, errors included: the first day of that date of each market in order. |
| GoHistory.IncrementIsAnswers | history.go:279-295 | A successful incremental download gives, for each market that lists the date, in order, the first such day with its own region, type and five numbers, and nothing else. |
| GoHistory.IncrementBlocked | history.go:253-295 | It errs if and only if some market fails for good or shows a bad date before any day of that date. |
| GoHistory.FullThenQuery | history.go:61-194 | The full download and a query of its snapshot, through the index, err exactly on an unhealthy server and otherwise give the days of that date in download order. |
| GoHistory.DownloadsAgree | history.go:240-300 | For every list of markets and every server: both succeed with the same days if and only if the server is healthy and lists the date at most once a market; exactly when each of them errs; the full download never succeeds alone. |
| GoHistory.SameOutcomeExactly | history.go:134-300 | The outcomes, errors counted as equal, coincide if and only if that holds or both are blocked. |
| GoHistory.BadDateAfterTheDay | history.go:279-295 | A server on which only the incremental download succeeds: a bad date after the day asked for. |
| GoHistory.NotIndexed | history.go:61-66 | A date has no records in the file exactly if it is the date of none, so the early return for a date outside the index loses nothing. |
| GoHistory.AllDatesGiveEverything | history.go:61-104 | Querying the index date by date gives the file stably sorted by date, as a permutation of the file. |
| Esi.NeverNoTrailsLeft | esi.go:58-78 | With at least one trail the caller never sees ErrNoTrailsLeft, wrapped or not. |
| Esi.FetchLoop | esi.go:58-78 | The recursion is a loop of at most `trails` requests that stops at the first final answer; on exhaustion it reports the last request's error. |
| Esi.FetchMarket | history.go:153-175 | For every server: at most 15 passes a market, each sending one request at most and none exactly if every pass ended before sending, and at most two sleeps. The market is skipped exactly if the last answer used is a readable 400 or 404, gives data exactly if it is a readable 200, and fails otherwise; rounds as `MarketExactly` describes lead there. |
| Esi.MarketExactly | history.go:153-175 | Outcome, passes and sleeps are those that fit the answers: rounds of one to five answers, all but the last of a kind that is tried again; after a round another one if and only if the last answer is neither data nor an error of the server's own nor a cancellation, trails are left, and the sleep is not cut short; the error of a failure by kind of answer. Nothing else fits. |
| Esi.AlwaysDown | history.go:153-175 | Against a server that is always down fifteen passes and two sleeps are used up and the last error is what is reported. |
| Esi.AllSent | history.go:153-175 | Each of those passes sends a request. |
| Esi.PerformRequest | archive/emd/src/esi.c:405-612 | For every sequence of answers: all answers used but the last are failed sends or busy codes; success exactly on a 200 with its data, E_ESI_ERR exactly on any other code that is not busy, and after at most `trails` passes. |
| Esi.AlikeExactly | archive/emd/src/esi.c:442-550 | The C and the Go program treat an answer alike except, exactly, a send that failed because the context ended and an undecodable body whose code alone calls for no retry. |
| Esi.PerformsLikeFetch | archive/emd/src/esi.c:405-612 | If all answers used are treated alike, the C loop ends like the Go recursion after as many passes. |
| OrderUniverse.PageCount | archive/emd/src/esi.c:552-570 | A positive page count is the header's own number and at most 10000; everything else counts as none. |
| OrderUniverse.DownloadPage | archive/emd/src/orders.c:241-280 | Succeeds exactly on a parsed page with a page count; in every case exactly the orders parsed are appended. |
| OrderUniverse.GoodExactly | archive/emd/src/orders.c:241-280 | A page is accepted exactly if it parses and its header is a number from 1 to 10000, and promises more exactly if that number is beyond it. |
| OrderUniverse.DownloadRegion | archive/emd/src/orders.c:287-313 | At most 10000 requests; success means pages 1 to k were appended in order, k the first page whose own count does not exceed it; failure names the first bad page. |
| OrderUniverse.DownloadUniverse | archive/emd/src/orders.c:283-318 | On success all regions' pages in order behind what was there; on failure the vector is empty; the regions before the failing one had come to their last page. |
| OrderUniverse.EachHasItsPlace | archive/emd/src/orders.c:283-318 | Order j of a page stands in the result behind all regions before, all pages of its region before, and j of its own. |
| OrderUniverse.EndsOnce | archive/emd/src/orders.c:296-312 | A region can end at one page only, and either well or badly. |
| OrderUniverse.RegionEnds | archive/emd/src/orders.c:296-312 | Every region ends within 10000 pages for every server. |
| OrderUniverse.SuccessIsDetermined | archive/emd/src/orders.c:283-318 | Success and the pages that go with it are settled by the server alone. |
| OrderUniverse.BoundIsTight | archive/emd/src/orders.c:296-312 | A server that always promises one page more is asked for all 10000. |
| OrderWorker.FirstIsFirst | location.go:131-147 | The lookups return the first row with the id, or nothing when there is none. |
| OrderWorker.GetStationById | location.go:140-147 | The loop is that lookup. |
| OrderWorker.GetSystemById | location.go:131-138 | The loop is that lookup. |
| OrderWorker.DownloadLocationDump | location.go:75-129 | The loop stops at the first error, handing out the refusals met but no location, and otherwise hands out all that was found. |
| OrderWorker.DownloadIsSound | location.go:75-129 | Also when cut short: each structure is requested at most once, the forbidden ids are exactly those refused in order, found and forbidden ids are distinct and apart; without error they cover all that was asked. |
| OrderWorker.ReplyExactly | location.go:101-108 | A structure is refused exactly on a readable answer with a code that is neither 200 nor busy, and answered exactly on a readable 200. |
| OrderWorker.KnownAreRight | location.go:75-129 | In every run each known location with an id from 60000000 to 64000000 is, field by field, the first row of the station table with that id; any other comes from a 200 answer to a request for it and the first row of the system table with the system it names. No id in that range is ever requested. |
| OrderWorker.UnknownIsExact | examples/web-server/main.go:336-354 | A location is unknown if and only if some order names it and it is neither known nor forbidden; each is listed once. |
| OrderWorker.GetUnknownLocations | examples/web-server/main.go:336-354 | The nested loops compute that list. |
| OrderWorker.LocationStore.RunRound | examples/web-server/main.go:151-209 | One pass of the worker changes the globals as the round function says, on all failure paths. |
| OrderWorker.RoundInv | examples/web-server/main.go:187-207 | A round keeps: known ids distinct, forbidden ids distinct, both apart, forbidden ids exactly the refusals so far, none of them requested again. |
| OrderWorker.RunInv | examples/web-server/main.go:151-209 | The same for every run of rounds, any orders, failures and answers. |
| OrderWorker.RoundResolves | examples/web-server/main.go:187-207 | Nothing known or forbidden is forgotten; a round with an error keeps its refusals but no location; requests go only to unresolved ids, once each. |
| OrderWorker.NoErrorExactly | location.go:75-129 | A download ends without error if and only if each location is, in its turn, a station of the table, a refused structure or a structure in a system of the table; it then finds something if and only if one is not refused. |
| OrderWorker.RoundResolvesExactly | examples/web-server/main.go:151-209 | For every state and all orders: after the round every order's location is resolved if and only if the tables and the answers settle each unknown one, and a location becomes known if and only if, besides, one is not refused. |
| OrderWorker.NothingKnownExactly | examples/web-server/main.go:151-209 | In every run no location is ever known if and only if no round meets that condition. |
| OrderWorker.MissingStationBlocksAll | location.go:87-100 | One such input: while the orders name a station missing from the table no location ever becomes known. |
| Csv.CsvReader.LineEnd | archive/emd/src/csv.c:24-43 | End of row, end of file (also before a final newline) or error, and the cursor moves only in the first case. |
| Csv.CsvReader.ReadString | archive/emd/src/csv.c:197-231 | The text up to the next separator when the cursor is at a row start or a comma; otherwise an error that moves nothing. |
| Csv.CsvReader.ReadField | archive/emd/src/csv.c:48-90 | The same field as ReadString, terminated, whenever it fits in out_len - 1; otherwise an error with the part that fits copied; the rest of the buffer untouched. |
| Csv.CsvReader.ReadTable | archive/emd/src/locations.c:257-286 | The loading loop reads rows of a fixed width until the end of the file or an error. |
| Csv.Stuck | archive/emd/src/csv.c:197-231 | A reader at a line that begins with a separator gets empty fields forever. |
| Csv.ReadBack | archive/emd/src/csv.c:24-43 | What reading any printed table with any width gives, for every number of fields asked for and with or without a final newline. |
| Csv.RoundTrip | archive/emd/src/csv.c:197-231 | Reading undoes printing if and only if every row has the width asked for and no empty first field (one-column tables excepted), and a last empty row is ended by a newline. |
| StringPools.DString.Push | archive/emd/src/base.c:380-397 | Appends the string; a reallocation copies what was there, and all copying stays below twice of what was ever pushed. |
| StringPools.Vec.Push | archive/emd/src/base.c:446-468 | Appends the element, from a zeroed vector too; the same bound on copying. |
| StringPools.BoundsRise | archive/emd/src/base.c:492-495 | The bounds rise monotonically from 0 to the length of the text. |
| StringPools.BoundsCut | archive/emd/src/base.c:542-551 | Neighbouring bounds cut each string out of the text. |
| StringPools.StringPool.Push | archive/emd/src/base.c:521-539 | The pool is the sequence of strings pushed, the index returned is the new one's, and growing has copied less than twice what was pushed. |
| StringPools.StringPool.Get | archive/emd/src/base.c:542-551 | The i-th string pushed, whatever was pushed after it. |
| ActiveMarkets.GetActiveMarkets | examples/web-server/main.go:323-334 | The set-backed loop gives the distinct markets of the orders. |
| ActiveMarkets.FillActiveMarketVec | archive/emd/src/histories.c:304-338 | The quadratic scan extends the vector by the new distinct markets; from an empty vector it gives the same sequence as the set-backed loop. |
| ActiveMarkets.DistinctIsSet | archive/emd/src/histories.c:304-338 | No duplicates, nothing lost, nothing added, what was there stays in front. |
| ActiveMarkets.ActiveExactly | archive/emd/src/histories.c:304-338 | A market is in the result if and only if some order is of its region and its type; each is there once. |
| ActiveMarkets.DistinctInFirstOccurrenceOrder | examples/web-server/main.go:323-334 | The order is that of the first occurrences. |

## Left out

- HTTP, curl, JSON decoding, tokens, logging, signals, the web handlers and the C server: foreign calls and plumbing.
- `date_parse` and the Go parsing of date texts: ordinal dates and times are inputs. One consequence of its zero-based days is proved.
- The C writer of location dumps, which emits no count, so that the script takes the first id for one; the script's side is modelled for a table with a count.
- The C incremental download, which fills the vector that its later date filter then finds empty; the Go download stands for it.
- The waiting times of the C retries, and retries that append to a vector a failed attempt has already pushed into: a market's download is whatever the vector holds in the end, or a failure.
- `dump_record_pop` and the record of open dumps.
- Mutex timeouts, which stop the program, and `errno` left over from earlier calls in `ptr_fifo_try_pop`: `sem_trywait` either takes a permit or reports `E_EMPTY` or another error.
- Allocation failure and disk errors; with them the error paths of the vectors and the string pool.
- PtrFifo.RunInv: the ring changes in one step; that its single updates may be steps of their own is `PtrFifoSteps.FineRunRefines`.
- PtrFifoSteps.FineRunRefines: memory is sequentially consistent, and reading and writing back an index or the length is one step.
- EmdToJson.Convert: gives the values of the JSON document; its text is not printed.
- Records.WriteFields: the unrolled calls of the C writers are a loop over a list of typed fields in the same order.
- DateSweep.InitialDownload: asks for the guard of the sweep where there is a sweep, since it does not end otherwise (`OtherwiseForever`); the directory is a map from date to file.
- GoHistory.HistorySnapshot.GetHistoryDataForDay: the temporary file is a list of records, not of bytes in native order, and the file lock is not modelled.
- GoHistory.HistorySnapshot.Sort: `sort.Sort` is an insertion sort; the dates are distinct, so any sort gives the same list.
- GoHistory.DownloadsAgree: both downloads see the same answers; times are numbers, and the locations that Go's `==` on times compares are not modelled.
- Esi.PerformRequest: failures of curl before sending are one kind of answer; what the timeouts wait for is not modelled.
- OrderWorker.RunInv: the lists are changed by the worker only; the locks around them and the schedule of ten minutes are not modelled.
- Csv.CsvReader.ReadTable: reads every field as text, where the loading code parses some as numbers and checks the header row first.
- Csv numbers (`csv_read_intmax` and its kin), which are `strtoimax` and `strtod` on a field.
- Wall-clock scheduling, the history worker of the web server, and the order of `time.Time` beyond its value.
