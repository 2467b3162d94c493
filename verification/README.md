# A verified model of the hard parts of libpw

libpw is a C++ framework for network daemons. This project models the parts of it whose
correctness is not obvious from reading one function, and proves in Dafny what they promise:

* **RESP** (`RespValue`, `RespMachine`, `RespReader`, `RedisChannel`, `RespCuts`, `RespProofs`, `RespWire`): the
  printer of Redis values and the stack machine that parses an arbitrarily cut byte stream. Strings,
  errors, integers, bulk strings and nested arrays follow the Redis protocol specification (RESP).
* **Timer** (`TimerSpec`, `Timer`): the sweep over a two-level map that handlers change while it runs.
* **Message packets** (`Tokenizer`, `MsgPacket`, `MsgWire`, `MsgChannel`, `MsgReceiver`): the header printer and
  parser, and the framing of packets that come in fragments.
* **Blocking queue** (`ConcurrentQueue`, `QueueEffects`): a state machine over the atomic steps of any
  number of threads, and its runs as sequences of whole operations.
* **Channel** (`Channel`, `ChannelRuns`, `ChannelIo`): the write path and the lifetime of a connected channel.
* **I/O buffer** (`IoBuffer`, `LineSearch`): the growable cursor buffer under all of them, and its
  search for lines.
* **Job manager** (`JobManager`): keys, kills, reserved events and timeouts.
* **Channel pool** (`ChannelPool`): round robin over a changing set.
* **End to end** (`EndToEnd`): two channels joined by a network that cuts the bytes as it likes.
* **Codecs** (`Blob`, `Escape`, `EscapeTables`, `Base64`, `Base64Tables`): backslash escapes, and Base64 as in sections 4 and 5 of
  RFC 4648.
* **Address ranges** (`IpRange`): the ordered index whose order identifies overlapping ranges.

Code that works by changing things in place is a class or a method with a loop here too, and each
such method is proved equal to a specification function or relation on values; the theorems are
about those. What a specification function means is stated once more without it, in ASCII codes,
plain arithmetic or a function of the inputs alone (the lemmas whose names end in `Says`, the
modules `RespWire`, `MsgWire`, `EscapeTables` and `Base64Tables`, `QueueEffects.Linearizable`,
`ChannelRuns.WrittenIsAccepted`). What the C++ code gets from elsewhere is a parameter: the socket is a list of accepted
counts, the clock a number, `realloc` a flag that says whether the block moved, and a user's handler
a function of everything that has happened so far to the calls it makes.

What the proofs found where the code does not do what one would hope:

* The reader never completes a `*0` array, and refuses empty simple strings and errors. The round
  trip therefore holds for a list of values **if and only if** nothing inside it is empty
  (`RoundTrip`, `StuckForever`).
* `IoBuffer::getLine` keeps the length of its window as if the pointer had never moved. One bare
  line feed before a CRLF does no harm; from the second on a line that is there is found exactly if
  the length of the buffer lies outside certain intervals, which the positions of the bare line
  feeds determine (`LineOfIs`, `FoundIff`, `ShortIsInterval`), and a buffer that ends in the second
  one makes the search run past the readable bytes (`SecondBareOverruns`).
* What the reader makes of a stream that it accepts is therefore independent of how the stream is
  cut **if and only if** no header line has more than one bare line feed (`CutsAgreeIff`;
  `CutsDisagree` is such a stream).
* A message channel waits for 12 bytes before it looks at a header, so a shorter packet that has
  come in whole is not delivered; this is the only such case (`LengthIsExact`).
* A timer entry with a cycle of -1000 ms or less is due again right after it fired
  (`RestartedIsDue`), and a sweep need not end with one (`FiresForEver`); from -999 ms on it ends and
  is exact.
* Bytes that were written before a channel was connected wait without POLLOUT (`AlwaysArmed`).
* A NUL followed by an octal digit does not survive the escape codec (`Escape.RoundTrip`,
  `DecodeOfEncode` say what becomes of it).
* A pool channel that leaves and comes back can be passed more than once in between: once more for
  each time the calls go round while it is away (`EveryOtherOnce`, `PassedTwice`).
* A `\u` or `\U` escape yields the bytes its digits denote **if and only if** it has digits, none of
  them a letter, something follows them, and they are complete or odd in number (`UnicodeExact`). A
  complete escape at the end of the input gets a zero byte more (`UnicodeAtEnd`).

## Model

| member | source | states |
|---|---|---|
| `RespValue.Stream.Write` | src/pw/pw_redispacket.cpp:268-313 | appends the printed form of the value, arrays element by element, to what was written before |
| `RespReader.Reader.Clear` | src/pw/pw_redispacket.cpp:626-632 | the initial state again |
| `RespReader.Reader.Pop` | src/pw/pw_redispacket.h:205 | takes the oldest finished value, if there is one, and leaves the others in order |
| `RespReader.Reader.Rollback` | src/pw/pw_redispacket.cpp:510-537 | folds complete arrays into the ones below them, or queues the last; where the C++ code throws it leaves the same state |
| `RespReader.Reader.AppendToTop` | src/pw/pw_redispacket.cpp:539-557 | queues a value, or puts it into the array on top, with the roll-back that may follow; an error clears the reader |
| `RespReader.Reader.ParseBulk2` | src/pw/pw_redispacket.cpp:601-610 | the bytes of a pending bulk string become a value |
| `RespReader.Reader.ParseLine` | src/pw/pw_redispacket.cpp:559-716 | dispatch on the type letter, with every error and exception |
| `RespReader.Reader.TurnBulk` | src/pw/pw_redispacket.cpp:652-670 | a turn of the parsing loop while a bulk string is pending: it waits for count + 2 bytes |
| `RespReader.Reader.TurnLine` | src/pw/pw_redispacket.cpp:672-684 | any other turn: it waits for a line |
| `RespReader.Reader.Parse` | src/pw/pw_redispacket.cpp:645-688 | one call computes the feed of the abstract machine, for every input and whether or not the buffer moves |
| `RespCuts.CleanHeadersRun` | src/pw/pw_redispacket.cpp:559-716 | the header lines of a stream, and the payloads between them, can be told from its bytes alone: none has more than one bare line feed exactly if none that an accepting run looks at has |
| `RespCuts.RunSplits` | src/pw/pw_redispacket.cpp:645-688 | if no header line has more than one bare line feed: parsing a first part and then its left-over bytes with the rest is parsing all at once, also when it ends in an error or an exception |
| `RespCuts.CutIndependence` | src/pw/pw_redispacket.cpp:645-688 | a stream that one call accepts, and whose header lines have at most one bare line feed each, leaves the same queue, stack and left-over bytes however it is cut into calls |
| `RespCuts.CutsAgreeIff` | src/pw/pw_redispacket.cpp:645-688 | for a stream that one call on an empty buffer accepts, all ways to cut it agree if and only if no header line has more than one bare line feed |
| `RespCuts.FatalCut` | src/pw/pw_redispacket.cpp:645-688 | otherwise a cut just behind a second bare line feed makes the line search run past the readable bytes |
| `RespCuts.CutsDisagree` | src/pw/pw_redispacket.cpp:645-688 | a stream that is accepted whole and in two parts, with different states after it |
| `RespProofs.ValueActs` | src/pw/pw_redispacket.cpp:510-624 | parsing what is printed for a nested value is appending that value, on any stack of arrays and before any bytes |
| `RespProofs.ListActs` | src/pw/pw_redispacket.cpp:510-716 | printed values, one after the other, are queued in order |
| `RespProofs.RoundTrip` | src/pw/pw_redispacket.cpp:268-313 | parsing a printed list gives back exactly that list with nothing left over, if and only if nothing inside it is empty |
| `RespProofs.EmptiesDoom` | src/pw/pw_redispacket.cpp:612-624 | a value with something empty inside ends in an error, an exception, a stuck stack or, by bytes that follow, a line search that overruns |
| `RespProofs.StuckForever` | src/pw/pw_redispacket.cpp:616-620 | no bytes ever complete the array that a `*0` header pushes |
| `RespProofs.PartOfValueWaits` | src/pw/pw_redispacket.cpp:645-688 | a proper prefix of a printed value completes nothing, fails nothing and keeps the stack in shape |
| `RespProofs.AnyPrefixAnyCut` | src/pw/pw_redispacket.cpp:645-716 | after any prefix of a printed list in any chunks the queue holds exactly the values wholly inside, entries below the top are arrays with index < count, and the state is that of one feeding |
| `RespProofs.RunFrame` | src/pw/pw_redispacket.cpp:645-716 | values that are queued already do not matter to what is parsed next |
| `RespProofs.PoppingIsTransparent` | src/pw/pw_redischannel.cpp:75-86 | popping after each read hands up what a reader that never pops would queue |
| `RespProofs.ChannelDelivers` | src/pw/pw_redischannel.cpp:75-86 | a channel that is sent a printed list hands up, after any chunks, exactly the values that have come in whole |
| `RedisChannels.RedisChannel.Parse` | src/pw/pw_redispacket.cpp:634-643 | all bytes of the channel's buffer are parsed and leave it, also after an error; an exception leaves them there |
| `RedisChannels.RedisChannel.EventReadData` | src/pw/pw_redischannel.cpp:75-86 | the finished values are handed up in order and leave the queue, or the reader is cleared, or the exception passes through |
| `RedisChannels.RedisChannel.Receive` | src/pw/pw_channel_if.cpp:764-772 | the same for a read event that adds bytes to the channel's buffer first |
| `RespWire.PrintSays` | src/pw/pw_redispacket.cpp:268-313 | the bytes of all seven kinds of value in ASCII codes, with decimal numbers given by their digits |
| `RespWire.PrintAllSays` | src/pw/pw_redispacket.cpp:268-313 | the elements of an array follow each other with nothing in between |
| `RespWire.ReadsText` | src/pw/pw_redispacket.cpp:567-585 | `+`, a line and CRLF is that simple string and `-`, a line and CRLF that error, for every non-empty line |
| `RespWire.ReadsInteger` | src/pw/pw_redispacket.cpp:559-565 | `:`, any non-empty line and CRLF is the integer strtoll reads in it |
| `RespWire.ReadsNull` | src/pw/pw_redispacket.cpp:587-599 | `$` or `*` and any line that reads as a negative number is null |
| `RespWire.ReadsBulk` | src/pw/pw_redispacket.cpp:601-610 | `$`, a line that reads as n, and n + 2 more bytes is the bulk string of the first n of them, whatever they and the last two are |
| `RespWire.ReadsArray` | src/pw/pw_redispacket.cpp:612-624 | `*`, the number of elements and the printed elements is that array |
| `RespWire.Refuses` | src/pw/pw_redispacket.cpp:703-716 | a line of less than two bytes or with any other letter clears the reader; a CR inside a simple string or an error raises an exception |
| `Decimal.StrToLLOfInt` | src/pw/pw_redispacket.cpp:560-565 | the parser's strtoll reads back every 64-bit integer the printer writes |
| `Decimal.StrToLLSays` | src/pw/pw_redispacket.cpp:560-565 | blanks, perhaps a sign, digits, and anything that is no digit read as the number the digits denote, as far as 64 bits reach; no digit reads as zero |
| `Decimal.DigitsDenote` | src/pw/pw_redispacket.cpp:268-313 | a printed number consists of digits that denote it, with no zero in front |
| `TimerSpec.RestartedIsDue` | src/pw/pw_timer.cpp:110-114 | a fired entry is due again at once exactly if its cycle is below -999 ms |
| `TimerSpec.FiresForEver` | src/pw/pw_timer.cpp:107-133 | an entry with a lower cycle whose handler raises the flag can fire any number of times in a sweep, and is due after each |
| `TimerSpec.DueAt` | src/pw/pw_timer.cpp:97-133 | an entry is due at a point of a sweep exactly if it was at the start and nothing has concerned it since |
| `TimerSpec.FiresOnce` | src/pw/pw_timer.cpp:97-133 | over any history of firings and handler calls, how often an entry fires: once if it was due at the start and firing is the first thing that happens to it, else never |
| `TimerSpec.SweepTheorem` | src/pw/pw_timer.cpp:97-133 | when nothing is left due, each entry due at the start fired exactly once before a handler touched it, or was touched before it was reached and did not fire; no other fired |
| `TimerSpec.ApplyLookup` | src/pw/pw_timer.cpp:138-213 | what add and remove leave of each entry: the one concerned gets the cycle, the parameter and the clock of the call, or goes, and no other changes |
| `TimerSpec.AddedIsDue` | src/pw/pw_timer.cpp:110-193 | an added entry is due at a time if and only if at least its cycle and a second have passed since it was added |
| `TimerSpec.FiredIsDueAgain` | src/pw/pw_timer.cpp:110-114 | after firing it is due again if and only if as much has passed since it fired |
| `TimerSpec.FireCarries` | src/pw/pw_timer.cpp:110-118 | over any history that a sweep can take, a firing carries the parameter that the entry was last given |
| `TimerSpec.SweepOnTime` | src/pw/pw_timer.cpp:97-133 | an entry that no handler touches fires in a sweep if and only if at least its cycle and a second have passed since its start, and then once |
| `Timer.Timer.Clear` | src/pw/pw_timer.cpp:66-71 | no entries, and the flag is raised |
| `Timer.Timer.Add` | src/pw/pw_timer.cpp:138-193 | the entry is inserted or overwritten; the flag is raised exactly if it was new |
| `Timer.Timer.Remove` | src/pw/pw_timer.cpp:195-213 | the entry goes, and its client with its last entry; the flag is raised exactly if it was there |
| `Timer.Timer.Trigger` | src/pw/pw_timer.cpp:110-118 | a firing and all its handler does make no entry due and at least one not due |
| `Timer.Timer.SweepClient` | src/pw/pw_timer.cpp:99-132 | the inner loop leaves nothing due up to this client, or stops at the flag with fewer entries due |
| `Timer.Timer.Check` | src/pw/pw_timer.cpp:73-136 | the sweep ends whatever the handlers do (entries due, clients ahead); every firing hits a due entry of the replayed history; at the end nothing is due; an entry nothing touches fires exactly if its cycle and a second have passed; a call within 100 ms does nothing |
| `Tokenizers.Tokenizer.FindWithin` | src/pw/pw_tokenizer_tpl.h:75-98 | the first delimiter, or the end if it lies more than one byte beyond the limit |
| `Tokenizers.Tokenizer.GetNext` | src/pw/pw_tokenizer_tpl.h:447-487 | the next token and what is left, or nothing and no change |
| `Tokenizers.NextIs` | src/pw/pw_tokenizer_tpl.h:447-487 | a token in front of its delimiter is the one that is read |
| `Tokenizers.NextSays` | src/pw/pw_tokenizer_tpl.h:447-487 | the outcome for any bytes in front of a delimiter or of the end, by how many they are |
| `Tokenizers.TokenFits` | src/pw/pw_tokenizer_tpl.h:447-487 | a token is at most one byte longer than its buffer has room for, and that exactly if its delimiter stands one byte too far |
| `Tokenizers.FindLine` | src/pw/pw_string.cpp:307-332 | the first CRLF, if there is one |
| `MsgPackets.GetPacketSize` | src/pw/pw_msgpacket.cpp:170-191 | the number of bytes that write writes |
| `MsgPackets.Write` | src/pw/pw_msgpacket.cpp:193-238 | appends header, CRLF and body to the buffer; the length is the one foretold, so the abort is not reached |
| `MsgPackets.StrToFlags` | src/pw/pw_msgpacket.cpp:37-51 | the flags that a string of up to eight digits stands for |
| `MsgPackets.SetHeader` | src/pw/pw_msgpacket.cpp:110-168 | parses a header line field by field, with every refusal |
| `MsgPackets.HeaderSays` | src/pw/pw_msgpacket.cpp:110-168 | what the parser makes of the header of any packet whose code has no space and no NUL, refusals included |
| `MsgPackets.HeaderRoundTrip` | src/pw/pw_msgpacket.cpp:110-238 | the parser reads back the printed header exactly if: plain code, flags below 8, body at most 1 MiB, chunk index set when a total is, and none of both without the flag |
| `MsgPackets.PrintedFieldsFit` | src/pw/pw_msgpacket.cpp:110-150 | every field of a printed header with a plain code and a body of at most 1 MiB fits the buffer it is read into |
| `MsgWires.PrintSays` | src/pw/pw_msgpacket.cpp:53-73 | the printed packet in ASCII codes: the code up to a NUL, blanks, decimal numbers, three flag digits with the lowest bit first, chunk fields exactly with the third flag, appendix, CRLF and body |
| `MsgWires.FlagsSay` | src/pw/pw_msgpacket.cpp:37-51 | any string of flags is worth the sum of the bits that its first eight bytes up to a NUL turn on |
| `MsgWires.ReadsPlain` | src/pw/pw_msgpacket.cpp:110-168 | any header line without the third flag: numbers modulo 65536, a negative size as none, more than 1048576 refused, the rest as appendix |
| `MsgWires.ReadsChunk` | src/pw/pw_msgpacket.cpp:110-168 | any header line with the third flag: total and index in front of the appendix, and a total without an index refused |
| `MsgWires.ReadsToEnd` | src/pw/pw_msgpacket.cpp:128-133 | the last number of a line needs no blank behind it |
| `MsgWires.RefusesCode` | src/pw/pw_msgpacket.cpp:110-121 | a line without a blank, or with a code of six bytes or more, is refused |
| `MsgReceivers.MsgReceiver.ReadHeader` | src/pw/pw_msgchannel.cpp:115-169 | waits for 12 bytes and a CRLF, refuses a line that is too long |
| `MsgReceivers.MsgReceiver.TakeHeader` | src/pw/pw_msgchannel.cpp:141-168 | a header that parses starts a body or hands up a packet, any other ends the channel |
| `MsgReceivers.MsgReceiver.ReadBody` | src/pw/pw_msgchannel.cpp:171-211 | takes what is there of the body, and hands up the packet with its last byte |
| `MsgReceivers.MsgReceiver.EventReadData` | src/pw/pw_msgchannel.cpp:99-229 | the whole loop computes the run of the abstract machine |
| `MsgReceivers.MsgReceiver.Receive` | src/pw/pw_channel_if.cpp:764-772 | a read event feeds its bytes to the framing |
| `MsgChannels.RunSplits` | src/pw/pw_msgchannel.cpp:99-229 | for any bytes at all that are not refused, going on with more bytes is the same as having had them from the start |
| `MsgChannels.PacketActs` | src/pw/pw_msgchannel.cpp:99-229 | a printed packet is handed up and leaves the channel between packets |
| `MsgChannels.PrefixDelivers` | src/pw/pw_msgchannel.cpp:99-229 | of any prefix of printed packets exactly those wholly inside have been handed up |
| `MsgChannels.AnyPrefixAnyCut` | src/pw/pw_msgchannel.cpp:99-229 | the same for every fragmentation, each packet as soon as its last byte arrives |
| `MsgChannels.TooShortWaits` | src/pw/pw_msgchannel.cpp:118-123 | any packet shorter than 12 bytes is still waited for when it is there |
| `MsgChannels.LengthIsExact` | src/pw/pw_msgchannel.cpp:118-123 | of the packets that meet the other conditions exactly those of 12 bytes or more are handed up as soon as they are there |
| `MsgChannels.RefusedLine` | src/pw/pw_msgchannel.cpp:140-152 | a header line that does not parse ends the channel: nothing more is handed up and what comes behind the line is left |
| `MsgChannels.NoLine` | src/pw/pw_msgchannel.cpp:125-138 | bytes without CRLF end the channel if and only if they are more than 4096 |
| `MsgChannels.RefusalEnds` | src/pw/pw_msgchannel.cpp:99-229 | good packets followed by such a line and by anything, in any fragments: exactly the good packets are handed up and the channel has ended |
| `ConcurrentQueue.LockStep` | src/pw/pw_concurrentqueue_if.h:85-217 | every step keeps: the mutex is held by exactly the thread inside a critical section |
| `ConcurrentQueue.WakeStep` | src/pw/pw_concurrentqueue_if.h:85-217 | every step keeps: while a consumer sleeps, items number at most the producers that have yet to notify plus the consumers awake in pop |
| `ConcurrentQueue.ItemsStep` | src/pw/pw_concurrentqueue_if.h:85-217 | every step keeps: put is taken plus queued plus dropped |
| `ConcurrentQueue.NoLostWakeup` | src/pw/pw_concurrentqueue_if.h:85-217 | over all runs of any number of threads the bound holds, and when no thread can go on nobody sleeps beside an item |
| `ConcurrentQueue.NothingLost` | src/pw/pw_concurrentqueue_if.h:85-217 | over all runs no item is lost or made up, and without push_front and clear they come out in order |
| `ConcurrentQueue.QuiescentSleeps` | src/pw/pw_concurrentqueue_if.h:85-217 | when no thread can go on, every thread inside the queue sleeps in pop; there is no deadlock on the mutex |
| `ConcurrentQueue.Settles` | src/pw/pw_concurrentqueue_if.h:85-217 | left alone the threads inside take only so many steps, whoever goes first |
| `ConcurrentQueue.StaysWithinLimit` | src/pw/pw_concurrentqueue_if.h:153-201 | a limited queue stays within its limit over every run without setMaxSize |
| `QueueEffects.PushSays` | src/pw/pw_concurrentqueue_if.h:153-201 | a push has an effect if and only if the limit is 0 or not reached; then the item is at the end asked for and a notification follows |
| `QueueEffects.PopSays` | src/pw/pw_concurrentqueue_if.h:85-92 | pop takes the first item, or sleeps on an empty queue |
| `QueueEffects.TrySays` | src/pw/pw_concurrentqueue_if.h:139-149 | popTry takes the first item, or leaves an empty queue |
| `QueueEffects.ClearSays` | src/pw/pw_concurrentqueue_if.h:213-217 | clear drops all items and wakes nobody |
| `QueueEffects.ResizeSays` | src/pw/pw_concurrentqueue_if.h:232-236 | setMaxSize changes the limit and nothing else |
| `QueueEffects.NotifySays` | src/pw/pw_concurrentqueue_if.h:160-162 | notify_one wakes one sleeper if there is one |
| `QueueEffects.MayLock` | src/pw/pw_concurrentqueue_if.h:85-92 | whoever wants the lock can have it when it is free |
| `QueueEffects.Linearizable` | src/pw/pw_concurrentqueue_if.h:85-217 | every run of any number of threads comes to what the called operations come to one after the other, each at its critical section: what was put is the items of the pushes that found room |
| `ChannelIo.Channel.SetExpired` | src/pw/pw_channel_if.cpp:551-573 | NORMAL becomes EXPIRED and waits for POLLOUT alone |
| `ChannelIo.Channel.SetRelease` | src/pw/pw_channel_if.cpp:575-597 | any state becomes DELETE and waits for POLLOUT alone |
| `ChannelIo.Channel.Write` | src/pw/pw_channel_if.cpp:896-905 | a live channel takes all bytes and arms POLLOUT, any other refuses |
| `ChannelIo.Channel.WritePacket` | src/pw/pw_channel_if.cpp:885-894 | a live channel takes the printed packet whole and arms POLLOUT, any other refuses |
| `ChannelIo.Channel.EventWrite` | src/pw/pw_channel_if.cpp:788-856 | the write loop, with arbitrary partial writes and handlers that write, expire or release meanwhile |
| `ChannelIo.Channel.EventRead` | src/pw/pw_channel_if.cpp:764-786 | data, nothing yet or the end of the connection |
| `ChannelIo.Channel.EventIo` | src/pw/pw_channel_if.cpp:621-667 | the dispatch of an event of a connected channel, and its deletion |
| `Channels.AlwaysConserved` | src/pw/pw_channel_if.cpp:788-905 | along every run bytes handed to the socket followed by bytes waiting are the bytes accepted, until an error clears the buffer |
| `Channels.AlwaysArmed` | src/pw/pw_channel_if.cpp:551-667 | in every run POLLOUT is armed whenever bytes wait or the channel is EXPIRED, if and only if the buffer was empty on connecting |
| `Channels.ExpiredRefuses` | src/pw/pw_channel_if.cpp:551-597 | on an expired channel every call but a release is without effect |
| `Channels.DeletedWhenDrained` | src/pw/pw_channel_if.cpp:788-856 | an expired channel that eventWrite deletes, without an error or a handler's release, has handed over every accepted byte |
| `Channels.ExpiredStep` | src/pw/pw_channel_if.cpp:621-667 | no step revives an expired channel or lengthens its way out, and a write event that takes a byte shortens it |
| `Channels.ExpiredDies` | src/pw/pw_channel_if.cpp:621-667 | with n bytes waiting an expired channel is deleted within max(n, 1) such write events, whatever else happens |
| `ChannelRuns.WrittenIsAccepted` | src/pw/pw_channel_if.cpp:788-905 | over every run, the bytes handed to the socket and the waiting bytes are the data of all writes that the steps make before the channel is told to expire or to go or fails, until a write error |
| `ChannelRuns.WriteWaits` | src/pw/pw_channel_if.cpp:896-905 | written data waits in the buffer |
| `ChannelRuns.FailsOnlyByError` | src/pw/pw_channel_if.cpp:840-853 | the buffer is cleared only by a socket that fails |
| `ChannelRuns.CallSays` | src/pw/pw_channel_if.cpp:551-597 | what write, setExpired and setRelease make of a channel in each state |
| `ChannelRuns.ExpiredSays` | src/pw/pw_channel_if.cpp:621-667 | an expired channel does not read, and only a release, an error or an empty buffer deletes it |
| `ChannelRuns.ErrorsRelease` | src/pw/pw_channel_if.cpp:764-786 | the end of the connection, a socket error and a failing write delete the channel |
| `ChannelRuns.AttemptSays` | src/pw/pw_channel_if.cpp:788-856 | one write hands over the first bytes of the buffer, at least one and at most as many as the socket takes |
| `ChannelRuns.GoneSays` | src/pw/pw_channel_if.cpp:621-667 | after an event the channel is gone if and only if it is deleted |
| `ChannelRuns.AlwaysWatches` | src/pw/pw_channel_if.cpp:551-856 | over every run a live channel is polled for reading and one that is to end for writing alone |
| `ChannelRuns.StepWatches` | src/pw/pw_channel_if.cpp:788-856 | a live channel that has drained is no longer polled for writing |
| `EndToEnd.PacketsArrive` | src/pw/pw_msgchannel.cpp:99-229 | after any run of the sending channel in which packets are written and any fragmentation of what it has sent, the receiver has handed up exactly the written packets whose last byte has arrived, and all of them once the sender has drained |
| `EndToEnd.ValuesArrive` | src/pw/pw_redischannel.cpp:75-86 | the same for RESP values |
| `EndToEnd.CleanEnd` | src/pw/pw_channel_if.cpp:788-856 | when a write event without an error deletes an expired sender, the receiver of all it sent has handed up every packet that was written |
| `IoBuffers.IoBuffer.Flush` | src/pw/pw_iobuffer.cpp:164-186 | the queue is unchanged and starts at the front of the block |
| `IoBuffers.IoBuffer.FlushIfWorthwhile` | src/pw/pw_iobuffer.cpp:86-89 | the compaction, made exactly if half of the size or more is dummy space; the invariant bounds the bytes all of them have moved by twice the bytes consumed |
| `IoBuffers.IoBuffer.Increase` | src/pw/pw_iobuffer.cpp:133-162 | the block grows by that much and the queue is unchanged, whether or not the block moves |
| `IoBuffers.IoBuffer.GrabWrite` | src/pw/pw_iobuffer.cpp:86-105 | room for n bytes, for a growth of at most the shortfall plus one delta; dummy space of half the size or more is gone, less stays where the room suffices |
| `IoBuffers.IoBuffer.Commit` | src/pw/pw_iobuffer.h:151-155 | bytes put at the write cursor join the queue |
| `IoBuffers.IoBuffer.WriteToBuffer` | src/pw/pw_iobuffer.cpp:188-203 | all bytes join the queue; dummy space was under half of the size or is gone |
| `IoBuffers.IoBuffer.MoveRead` | src/pw/pw_iobuffer.h:145-149 | bytes leave the queue at its head |
| `IoBuffers.IoBuffer.ReadFromBuffer` | src/pw/pw_iobuffer.cpp:238-249 | up to n bytes leave the queue and are returned in order |
| `IoBuffers.IoBuffer.Clear` | src/pw/pw_iobuffer.cpp:288-297 | the empty queue |
| `IoBuffers.IoBuffer.SearchLine` | src/pw/pw_iobuffer.cpp:328-356 | the search loop with its window arithmetic |
| `IoBuffers.IoBuffer.GetLine` | src/pw/pw_iobuffer.cpp:328-356 | the line found and its end leave the queue, else nothing does |
| `LineSearch.BareAre` | src/pw/pw_iobuffer.cpp:334-353 | which line feeds the search stops at: all before the first CRLF, but for one at 1 after one at 0 |
| `LineSearch.LineOfIs` | src/pw/pw_iobuffer.cpp:328-356 | the answer for every buffer, from the positions of those line feeds and the length: it is the first CRLF, or no line because the window runs short before it, or, if there is none, no line or an overrun |
| `LineSearch.FoundIff` | src/pw/pw_iobuffer.cpp:328-356 | a line that is there is found if and only if the window does not run short; where there is none the search stops as it should if and only if it does, or the buffer is a lone line feed |
| `LineSearch.ShortIsInterval` | src/pw/pw_iobuffer.cpp:343 | running short after i bare line feeds means that the length lies in an interval of their positions, while their sum has not wrapped |
| `LineSearch.CostFits` | src/pw/pw_iobuffer.cpp:343 | which it has not in a buffer of less than 4 GiB |
| `LineSearch.LineOfClean` | src/pw/pw_iobuffer.cpp:328-356 | with at most one bare line feed before the first CRLF the search finds exactly that line, or rightly none |
| `LineSearch.SecondBareOverruns` | src/pw/pw_iobuffer.cpp:334-353 | cut just behind a second one it runs past the readable bytes |
| `LineSearch.LineOfMisses` | src/pw/pw_iobuffer.cpp:328-356 | bytes with two bare line feeds in which a complete line is overlooked |
| `LineSearch.CleanLineStays` | src/pw/pw_iobuffer.cpp:328-356 | with at most one, bytes that come later do not change a line that was found |
| `JobManagers.FirstKeysDistinct` | src/pw/pw_jobmanager.cpp:37-43 | counting up round the 32-bit cycle no key repeats before all have come |
| `JobManagers.ShiftIsSum` | src/pw/pw_jobmanager.cpp:37-43 | counting up is addition modulo 2^32 |
| `JobManagers.ProbesBound` | src/pw/pw_jobmanager.cpp:37-43 | n probes in a row that hit live keys or zero mean at least n - 1 live keys |
| `JobManagers.JobManager.GetKey` | src/pw/pw_jobmanager.cpp:37-43 | ends after at most live + 2 probes with a free non-zero key, from anywhere on the cycle |
| `JobManagers.JobManager.NewJob` | src/pw/pw_jobmanager.h:172-175 | registers a job under a key that was never issued before |
| `JobManagers.JobManager.SetRelease` | src/pw/pw_jobmanager.h:182-186 | marks a job |
| `JobManagers.JobManager.Reserve` | src/pw/pw_jobmanager.cpp:116-153 | queues a record |
| `JobManagers.JobManager.Delete` | src/pw/pw_jobmanager.h:177-180 | the job leaves the table; the invariant says that it was not freed before and is never heard of again |
| `JobManagers.JobManager.DispatchKill` | src/pw/pw_jobmanager.cpp:76-102 | exactly the marked jobs are freed, with no event, and the marks are gone |
| `JobManagers.JobManager.ServeNext` | src/pw/pw_jobmanager.cpp:50-68 | a record reaches its job if that is still there, and the job is freed if it agrees |
| `JobManagers.JobManager.DispatchReserve` | src/pw/pw_jobmanager.cpp:45-74 | serves the queue in order together with what the jobs reserve meanwhile, and ends whenever some number of turns catches up with the queue |
| `JobManagers.EndsIfNothingReserved` | src/pw/pw_jobmanager.cpp:45-71 | jobs that reserve nothing when a record reaches them do not keep the loop going, whatever they do otherwise |
| `JobManagers.ServeDelivers` | src/pw/pw_jobmanager.cpp:45-74 | what a job gets of a queue is a prefix of its records, in order and each once: all of them if it survives, none if it was gone before |
| `JobManagers.ServeSays` | src/pw/pw_jobmanager.cpp:45-74 | serving adds to a history nothing but jobs called with their records, each followed by the end of its job if and only if the job agreed |
| `JobManagers.ReservedSays` | src/pw/pw_jobmanager.cpp:116-153 | what is reserved in the course of a history is what each called job reserves, in turn |
| `JobManagers.MarkedSays` | src/pw/pw_jobmanager.h:182-186 | a job is marked in the course of a history if and only if a called job marks it |
| `JobManagers.JobManager.CheckAges` | src/pw/pw_jobmanager.cpp:167-183 | each job that is too old is told so exactly once, no other is, in whatever order the table yields them |
| `JobManagers.Survivors` | src/pw/pw_jobmanager.cpp:167-183 | after that a job is present exactly if it did not agree to be deleted, and only one that is too old is asked |
| `JobManagers.JobManager.CheckTimeout` | src/pw/pw_jobmanager.cpp:155-184 | the three phases in turn; a job marked before the call gets no event in it and is gone after it; what is reserved or marked late waits for the next call |
| `ChannelPools.SimpleChPool.GetChannel` | src/pw/pw_simplechpool_tpl.h:112-128 | the first channel at or after the index, or the first of all, and the index behind it |
| `ChannelPools.SimpleChPool.AddChannel` | src/pw/pw_simplechpool_tpl.h:130-136 | joins the pool; tells whether it is new |
| `ChannelPools.SimpleChPool.RemoveChannel` | src/pw/pw_simplechpool_tpl.h:138-146 | leaves the pool; tells whether it was there |
| `ChannelPools.PickIsFirst` | src/pw/pw_simplechpool_tpl.h:112-128 | the channel handed out is the least one at or after the index, or the least of all if there is none |
| `ChannelPools.NotOvertaken` | src/pw/pw_simplechpool_tpl.h:112-128 | a channel that stays and is ahead on the way round is returned before the way ends, whatever comes and goes |
| `ChannelPools.CountOnTheWay` | src/pw/pw_simplechpool_tpl.h:112-146 | from any state to the next return of x, a channel that stays is returned once if it is ahead, and once more for each call that goes round while x is away |
| `ChannelPools.EveryOtherOnce` | src/pw/pw_simplechpool_tpl.h:112-146 | between consecutive returns of x every other channel present throughout is returned once plus the number of such calls: exactly once if and only if there is none, and so if x stays |
| `ChannelPools.PassedTwice` | src/pw/pw_simplechpool_tpl.h:112-146 | a run with one such call, in which another channel is returned twice |
| `ChannelPools.RoundIsPermutation` | src/pw/pw_simplechpool_tpl.h:112-128 | on an unchanged pool any size() consecutive calls return each channel once |
| `Escape.EncodeEscape` | src/pw/pw_encode.cpp:1127-1146 | the loop appends the encoding of the input |
| `Escape.DecodeOctal` | src/pw/pw_encode.cpp:1231-1261 | up to three octal digits, modulo 256 |
| `Escape.DecodeHex` | src/pw/pw_encode.cpp:1263-1300 | up to two hexadecimal digits, or a zero byte |
| `Escape.HexExact` | src/pw/pw_encode.cpp:1263-1300 | a hexadecimal escape yields the byte its digits denote if and only if it has one |
| `Escape.DecodeUnicode` | src/pw/pw_encode.cpp:1302-1353 | up to 4 or 8 digits, two to a byte, with the ends the code has; `UnicodeSays` and `UnicodeExact` say what that yields |
| `Escape.UnicodeSays` | src/pw/pw_encode.cpp:1302-1353 | what a unicode escape yields, from its digits alone: their pairs, and then a zero byte, a lone last digit or nothing, by their number and by whether the input ends |
| `Escape.UnicodeExact` | src/pw/pw_encode.cpp:1302-1353 | it yields the bytes its digits denote if and only if it has some, none is a letter, something follows, and they are complete or odd in number |
| `Escape.NibblePair` | src/pw/pw_encode.cpp:1327-1328 | a pair of digits becomes the byte it denotes if and only if neither is a letter |
| `Escape.UnicodeAtEnd` | src/pw/pw_encode.cpp:1336-1341 | a complete escape at the end of the input gets a zero byte more, and not before other bytes |
| `Escape.DecodeEscape` | src/pw/pw_encode.cpp:1355-1402 | the loop appends the decoding of the input, for every input |
| `Escape.DecodeOfEncode` | src/pw/pw_encode.cpp:1127-1402 | decoding an encoded string gives the string with each NUL merged with up to two octal digits after it |
| `Escape.RoundTrip` | src/pw/pw_encode.cpp:1127-1402 | decoding inverts encoding if and only if no NUL is directly followed by a digit from 0 to 7; otherwise the result is strictly shorter |
| `EscapeTables.EscapedSays` | src/pw/pw_encode.cpp:265-283 | the twelve bytes that are escaped, and the byte behind the backslash for each |
| `EscapeTables.CopiedSays` | src/pw/pw_encode.cpp:265-283 | all other bytes are copied |
| `EscapeTables.EncodeJoins` | src/pw/pw_encode.cpp:1127-1146 | encoding goes byte by byte |
| `EscapeTables.ControlSays` | src/pw/pw_encode.cpp:1355-1402 | the seven letters that stand for control characters |
| `EscapeTables.SelfSays` | src/pw/pw_encode.cpp:1355-1402 | a byte that starts no escape stands for itself |
| `EscapeTables.OneOctal` | src/pw/pw_encode.cpp:1231-1261 | one octal digit is its value |
| `EscapeTables.TwoOctal` | src/pw/pw_encode.cpp:1231-1261 | two octal digits are their number |
| `EscapeTables.ThreeOctal` | src/pw/pw_encode.cpp:1231-1261 | three octal digits are their number modulo 256, and no fourth is read |
| `EscapeTables.HexPair` | src/pw/pw_encode.cpp:1263-1300 | `\x` and two digits of the hexadecimal alphabet is the byte they denote |
| `EscapeTables.HexSingle` | src/pw/pw_encode.cpp:1263-1300 | with one digit it is that digit |
| `EscapeTables.HexNone` | src/pw/pw_encode.cpp:1263-1300 | with none a zero byte |
| `EscapeTables.UnicodeStarts` | src/pw/pw_encode.cpp:1355-1402 | `\u` reads up to four digits and `\U` up to eight |
| `EscapeTables.NibbleBits` | src/pw/pw_encode.cpp:1327-1328 | what the unicode escape makes of any digit, bit by bit |
| `Base64.GroupIsNumber` | src/pw/pw_encode.cpp:431-458 | the four letters of a group are the base-64 digits of its 24-bit number |
| `Base64.Bin2Base64` | src/pw/pw_encode.cpp:431-458 | one group, with and without padding |
| `Base64.EncodeBase64` | src/pw/pw_encode.cpp:930-998 | the loop appends the encoding of the input |
| `Base64.Base642Bin` | src/pw/pw_encode.cpp:461-531 | four letters to up to three bytes, up to the first byte that is no letter |
| `Base64.DecodeBase64` | src/pw/pw_encode.cpp:1044-1080 | the loop appends the decoding of the input, for every input |
| `Base64.RoundTrip` | src/pw/pw_encode.cpp:431-531 | decoding inverts encoding for all bytes, both alphabets, padded or not |
| `Base64.DecodeOfPadded` | src/pw/pw_encode.cpp:1044-1080 | decoding a padded encoding followed by anything is the bytes followed by the decoding of that |
| `Base64.DecodeOfUnpadded` | src/pw/pw_encode.cpp:1044-1080 | the same without padding behind whole groups |
| `Base64.EncodedLength` | src/pw/pw_encode.cpp:930-998 | the exact length of an encoding, padded and not |
| `Base64.UnpaddedIsUriSafe` | src/pw/pw_encode.cpp:233-243 | the URI alphabet without padding needs no escape |
| `Base64.BlanksForPluses` | src/pw/pw_encode.cpp:479-483 | a text whose pluses have become blanks decodes the same |
| `Base64Tables.Alphabets` | src/pw/pw_encode.cpp:221-243 | the two alphabets, letter by letter |
| `Base64Tables.DecoderKnows` | src/pw/pw_encode.cpp:245-263 | the decoder gives a byte a value if and only if it is that letter of one of them, or a blank for the plus |
| `Base64Tables.WholeGroup` | src/pw/pw_encode.cpp:431-458 | three bytes encode as the base-64 digits of their 24-bit number |
| `Base64Tables.TwoBytes` | src/pw/pw_encode.cpp:431-458 | two as three letters and, padded, one `=` |
| `Base64Tables.OneByte` | src/pw/pw_encode.cpp:431-458 | one as two letters and, padded, two |
| `Base64Tables.DecodeFour` | src/pw/pw_encode.cpp:461-531 | four bytes of which the first two or more are letters decode as the leading bytes of the number of their values |
| `Base64Tables.DecodeNone` | src/pw/pw_encode.cpp:461-531 | a group that does not start with two letters yields nothing |
| `Base64Tables.DecodeCut` | src/pw/pw_encode.cpp:1044-1080 | an input that ends within a group decodes as if padded |
| `IpRanges.Equivalence` | src/pw/pw_iprange_type.h:197-219 | neither range less than the other means that they overlap, and a point overlaps exactly the ranges that contain it |
| `IpRanges.AssignSays` | src/pw/pw_iprange_type.h:148-160 | the ends may come in either order: an address is contained if and only if it lies between them |
| `IpRanges.NoneFound` | src/pw/pw_iprange.cpp:120-144 | a range overlaps no stored one if and only if none of its addresses is found |
| `IpRanges.SearchIsScan` | src/pw/pw_iprange.cpp:158-177 | the ordered search for the point range finds what a linear scan finds |
| `IpRanges.PlaceTells` | src/pw/pw_iprange.cpp:120-144 | whether a new range overlaps any stored one shows at its place in the order |
| `IpRanges.ScanInserted` | src/pw/pw_iprange.cpp:120-144 | after an insertion the addresses of the new range, and no others, find the new value |
| `IpRanges.IpRange.Insert` | src/pw/pw_iprange.cpp:120-144 | accepted exactly if no address between the ends, in whichever order they come, is found; then those addresses and no others find the new value; keeps the ranges sorted and disjoint |
| `IpRanges.IpRange.Find4` | src/pw/pw_iprange.cpp:158-177 | the value of the stored range with begin <= ip <= end, or none exactly if there is no such range |

## Left out

- `RespReader.Reader.Parse`: promises nothing about the state when the line search runs past the readable bytes, which needs a header line with two bare line feeds; the C++ code reads beyond the buffer's contents there.
- `Timer.Timer.Check`: entries with a cycle of -1000 ms or less are outside it, since with them a sweep need not end (`FiresForEver`).
- `Tokenizers.Tokenizer.GetNext`: returns a token that is one byte longer than its buffer has room for as it is; the C++ code then writes the final NUL one byte behind that buffer. `TokenFits` says when.
- `MsgPackets.SetHeader`: the same, for the code and the fields of a header; `PrintedFieldsFit` shows that no printed header is affected.
- `JobManagers.JobManager.NewJob`: states its contract up to the first wrap of the 32-bit counter; a key can come up again after that, and `GetKey` says what holds then.
- `JobManagers.JobManager.CheckTimeout`: states nothing when the jobs keep reserving so that no number of turns catches up with the queue, since the C++ loop over the growing list does not end then.
- `ChannelIo.Channel.WriteToFile`: the socket is an arbitrary accepted count of at least one byte, and the bytes' further way is not modelled.
- `MsgReceivers.MsgReceiver.EventError`: the default handler; a subclass that keeps a refused channel alive is not modelled.
- `Escape.DecodeUnicode`: keeps only the low byte of the accumulator, which is all the code ever puts out; the bitwise or is written out as arithmetic.
- `popTimed` of the queue: a woken timed waiter may leave without an item, so it is outside the wake-up bound. A failed `popTry` that does not get the lock is no step at all.
- Allocation failure everywhere, and `size_t` overflow of buffer sizes.
- RESP arrays and strings are values here; moving, swapping and destroying `Value` objects, and codes shorter than the five bytes that `Value` reads, are not modelled.
- `IoBuffer::decrease`, `peekLine` and `getLine` into a char buffer: nothing modelled here calls them.
- `RedisChannel` and `MsgChannel` packet handlers that touch the receive buffer or the reader.
- Handlers that create jobs during a sweep, destructors that call back, a `Timer::check` called from a handler, and a clock that runs backwards.
- Connecting, SSL and other handshakes of a channel, and the overflow notice, which only logs.
- `SimpleChPoolTemplate::initialize` and its moves; `MultiChannelPool`, whose cursors are left at erased entries.
- `dispatchPacket` and `dispatchError` of the job manager: one turn of the loop that is modelled, without the queue.
- The stream and buffer variants of the codecs, and URL and hex coding.
- Text forms of addresses, CIDR masks, and reading and writing range files; `__makeMaskByCIDR` uses a bit set of four bits.
- HTTP, INI files, logging, dates, digests, compression, SSL and everything that is a foreign call.
