# The Ritex daemon's protocols and state, modelled and proved

The daemon talks to a pump-control station (KSU) over a half-duplex serial line, logs measurements and setting changes
to a gateway over a local socket, and takes commands from a command-line client. This project models four parts of it
in Dafny and proves what they promise.

* **The KSU serial link** (`Sequences`, `Bits`, `Crc16`, `CrcTheory`, `DataPacket`, `KsuLine`, `KsuLink`,
  `KsuTheory`). The CRC-16 as bit-serial division over GF(2), with the word-and-shift code proved to compute it; its
  algebra at every length (linearity, the zero residue, parity, bursts); the reader as an object that collects arbitrary
  chunks and cancels the echo of its own writes, proved equal to a function of the line; the exact language that
  function accepts; streams of packets; packets damaged, cut short, unknown or with a wrong sum; and echo cancellation
  as a refinement of a reader without echo, over every run.
* **The gateway wire codec** (`GatewayWire`, `GatewayCommand`, `GatewayLayout`, `GatewayStream`). Numbers, zero-padded
  strings, records, packets with a size written ahead of their body, and commands: the writers and readers work on
  streams and are proved against the format; reading undoes writing up to a stated normalisation, exactly when it
  changes nothing is characterised, what is written can be taken apart in one way only, and the layout is given byte by
  byte.
* **Cache, queue and loggers** (`DateOrder`, `Cache`, `CachedQueue`, `Logger`, `Session`). Date texts order like the
  calendar; the cache is the winner per key of everything it ever saw, and exactly when the order of arrival matters is
  characterised; the shared queue and the sending thread are step relations, one step per locked region, with
  invariants over all interleavings; the bytes of a connection parse back into the items it drained.
* **Control of the daemon** (`Settings`, `SettingsTheory`, `Handshake`, `HandshakeTheory`, `CmdLine`, `Strings`,
  `Relay`). The table of settings shadowed by its event log, over packets, outside changes and restarts; a command's way
  through the server's and the processor's threads, their start and end included, with exact conditions under which it
  is refused, answered, may be lost, or leaves the server stuck; the command-line automaton and the language it accepts; the
  relay of a command line from client to daemon; split and join.

Where the source updates an object in place the model is a class, and where it loops the model is a method with a loop;
each is proved against a function, and the properties are lemmas about that function; what the formats, tables, events
and responses are is stated apart from the functions, in numbers, bytes and fields. Where threads interleave, a run
is a sequence of steps, one for each region that a lock protects, and the objects' methods are tied to the steps.

Dafny's automatic induction is switched off for every lemma: an inductive proof is the recursion in its body.
`dafny verify dfyconfig.toml` checks everything.

## Where code, comments and expectations differ

* The table of acknowledgements is scanned up to the size of the table of commands (`src/ComTrafficProcessor.cpp:86`),
  so its last row, ACK_STORED_INFO, never matches. `KsuLine.LengthMatches` does the same.
* A read of several bytes compares pending echo from the wrong end (`src/ComTrafficProcessor.cpp:793-820`);
  `CancelEcho` does the same. The reader is right because only its one-byte reads ever meet an echo: that the queue is
  empty before every longer read is a precondition of `ReadCovered` and `ReadCrc`, and proved at each call.
* An RDE command reads back as an RDP command (`src/gateway/command.cpp:56-57`), and a string loses its own trailing
  zero bytes with its padding (`src/gateway/data.cpp:286-290`). `GatewayCommand.SurvivesExactly` says for which
  commands neither matters.
* Date texts order like the calendar for years up to 9999. Beyond, the order depends on the pair:
  `DateOrder.OrderKeptExactly` says when it is kept, `DateOrder.KeptOf` what of the time is left.
* A refused test of the device is reported as accepted (`src/CmdTestDevice.cpp:26-30`). While measurements run, or if the
  port does not open, the server then waits for ever; behind a processor created for single commands it waits until that
  processor ends and has it cancelled (`src/ComTrafficProcessor.cpp:745`, `src/DaemonCommServer.cpp:304-308`), and the
  daemon with it. `HandshakeTheory.StuckExactly` and `HandshakeTheory.FateExactly` draw the lines.
* A processor created for single commands deletes what is pending once it has decided to leave its loop
  (`src/ComTrafficProcessor.cpp:735-743`): a command that comes then is lost, unless its Start is in time for the test.
* The unlock of the start mutex stands inside the loop of the wait (`src/ComTrafficProcessor.cpp:565-569`): if Start comes
  before the wait the mutex stays locked, and the next command's Start blocks although its result is sent
  (`HandshakeTheory.AnsweredButHeld`).
* A command line loses an empty last argument, and splits an argument that has a space in it (`Relay.RelayExactly`).
* A restart recovers a setting from the event log only if the latest events of its name agree
  (`SettingsTheory.RestartExactly`); with two changes in one second they may not.

## Model

| member | source | states |
|---|---|---|
| Crc16.Crc16Byte | src/Utils.cpp:49-61 | the word-wide xor-and-shift loop feeds the byte's eight bits, most significant first, into the division register |
| Crc16.Crc16Buffer | src/Utils.cpp:64-68 | the result is the remainder register of the first `size` bytes, from any initial value |
| Crc16.WordStep | src/Utils.cpp:55-58 | one turn of the loop on a 16-bit word, with its lost top bit, is one step of polynomial division by 0x8005 |
| Crc16.CrcConcat | src/Utils.cpp:64-68 | the checksum of a concatenation continues from the checksum of its first part |
| CrcTheory.FeedLinear | src/Utils.cpp:49-68 | the checksum is linear over xor, initial values included, at every length |
| CrcTheory.CollisionIsZeroRemainder | src/Utils.cpp:49-68 | two strings of one length have the same checksum if and only if their difference leaves remainder zero |
| CrcTheory.ZeroRemainder | src/Utils.cpp:49-61 | up to 16 further bits drive the register to zero if and only if they repeat its contents: the shift step is injective |
| CrcTheory.Residue | src/DataPacket.cpp:52-60 | two appended bytes leave remainder zero if and only if they are the checksum, most significant byte first |
| CrcTheory.FeedParity | src/Utils.cpp:49-68 | the register's parity is that of the initial value and all input bits |
| CrcTheory.BurstLeavesRemainder | src/Utils.cpp:49-68 | a non-zero error within 16 consecutive bits never leaves remainder zero, in a string of any length |
| CrcTheory.OddErrorLeavesRemainder | src/Utils.cpp:49-68 | an odd number of flipped bits never leaves remainder zero |
| CrcTheory.PolynomialIs | src/Utils.cpp:49-61 | the polynomial and the order of bits: the checksum of the one byte 1 is 0x8005 |
| DataPackets.DataPacket.Allocate | src/DataPacket.cpp:20-31 | the payload is a new buffer of the given size |
| DataPackets.DataPacket.CreateRawPacket | src/DataPacket.cpp:41-70 | the buffer filled at its offsets is address, big-endian length with the command counted, low command byte, payload, and the checksum of all that |
| DataPackets.RawPacketIs | src/DataPacket.cpp:41-70 | byte by byte: address, 16-bit length high byte first with the command counted, command, payload, and the checksum of everything before it, high byte first |
| KsuLink.ComTrafficProcessor.IsLengthMatches | src/ComTrafficProcessor.cpp:157-181 | finds a row for the command byte and length in either table, the second scanned no further than the first is long |
| KsuLine.MatchesHaveLength | src/ComTrafficProcessor.cpp:51-86 | every accepted length counts at least the command byte and is at most 0x30 |
| KsuLine.LastAckIsNeverMatched | src/ComTrafficProcessor.cpp:68-86 | a row of the acknowledgement table is matched by its own command and length if and only if it is not the last, ACK_STORED_INFO |
| KsuLine.PairsAre | src/ComTrafficProcessor.cpp:51-86 | the twenty pairs of command byte and length that are accepted, as numbers, which of them are commands, and that there are no others |
| KsuLink.ComTrafficProcessor.CancelEcho | src/ComTrafficProcessor.cpp:794-822 | compares pending echo with the received bytes from the last backwards, rolls the buffer back by as many, and on a difference drops the echo and what has arrived |
| KsuLink.ComTrafficProcessor.Read | src/ComTrafficProcessor.cpp:753-825 | one byte behind any pending echo, or any number of bytes when no echo is pending, are the next bytes of the line whatever the chunks; otherwise the line's own error |
| KsuLink.ComTrafficProcessor.ReadPacket | src/ComTrafficProcessor.cpp:827-940 | packet, error, what is left of the line and of the echo are those of the function of the line, for every chunking and any pending echo; whatever packet it returns stood on the line behind the pending echo and noise, as raw bytes of a known pair, and its command is the byte received, or write mode times 0x100 plus 0x64 if that byte is 0x64 |
| KsuLink.ComTrafficProcessor.ReadAddress | src/ComTrafficProcessor.cpp:837-849 | bytes are skipped one by one up to the station address, echo cancelled first; the checksum then covers the address |
| KsuLink.ComTrafficProcessor.ReadRest | src/ComTrafficProcessor.cpp:849-868 | length and command are read with no echo pending, and the running checksum covers them |
| KsuLink.ComTrafficProcessor.ReadKnown | src/ComTrafficProcessor.cpp:870-940 | an unknown pair of command and length is a bad packet and nothing more is read |
| KsuLink.ComTrafficProcessor.FillPacket | src/ComTrafficProcessor.cpp:889-922 | payload and checksum are read with no echo pending; the packet stands only if the sums agree |
| KsuLink.ComTrafficProcessor.WritePacket | src/ComTrafficProcessor.cpp:943-972 | the raw bytes are queued for cancellation and put on the line, in order |
| KsuTheory.ReceivesFrame | src/ComTrafficProcessor.cpp:827-940 | noise without the address byte and then the raw form of a known packet is received as that packet, and exactly those bytes are consumed |
| KsuTheory.ReceivedIsFrame | src/ComTrafficProcessor.cpp:827-940 | whatever is received was noise without the address byte and the raw form of that very packet |
| KsuTheory.AcceptsExactly | src/ComTrafficProcessor.cpp:827-940 | the reader receives a packet and leaves a rest if and only if the line is noise without 0x36, the raw form of a listed pair, and that rest; the packet carries the payload, its kind by the table of commands, and the command byte, with the write mode above it exactly if it is 0x64 |
| KsuTheory.FramePlaces | src/DataPacket.cpp:41-70 | the raw form meant there, byte by byte, with 0x36 in front |
| KsuTheory.CutShort | src/ComTrafficProcessor.cpp:838-914 | any proper prefix of a known packet behind noise is lost when the line pauses, fails or ends: a timeout, another error, a timeout, with all up to there consumed |
| KsuTheory.UnknownIsRefused | src/ComTrafficProcessor.cpp:870-940 | behind noise and the address, a pair of length and command that is not listed is a bad packet, and nothing behind the command byte is read |
| KsuTheory.WrongSumIsRefused | src/ComTrafficProcessor.cpp:906-922 | a known packet with any other sum behind it is refused with a checksum error, and exactly its bytes are consumed |
| KsuTheory.StreamRoundTrip | src/DataPacket.cpp:41-70 | any number of noise-and-packet items come out once each, in order, with exactly their bytes consumed |
| KsuTheory.EchoTransparent | src/ComTrafficProcessor.cpp:793-823 | with its own bytes first on the line the reader does what it does without them |
| KsuTheory.LosesStep | src/ComTrafficProcessor.cpp:808-818 | the mismatch error occurs if and only if the line repeats the pending echo up to some byte of it and has another byte there |
| KsuTheory.OneStops | src/ComTrafficProcessor.cpp:753-789 | when the line stops amid the echo, what was seen of it is used up, the rest of it stays pending, and the error is a timeout for a pause or the end and another for a failure |
| KsuTheory.DeliveredBehindEcho | src/ComTrafficProcessor.cpp:793-823 | with an echo pending, a packet is received only behind that very echo, and is what stands behind it |
| KsuTheory.EchoRefinesPlain | src/ComTrafficProcessor.cpp:753-972 | over every run of writes, arrivals and reads in which the daemon writes only once it has read everything, the echoing link gives the results of the link without echo |
| KsuTheory.DamagedIsRefused | src/ComTrafficProcessor.cpp:849-922 | a packet of any length damaged behind its length field, by a burst of at most 16 bits or an odd number of flips, is refused, and with which error |
| GatewayWire.DecodeEncode | src/gateway/data.cpp:66-116 | a number read in network byte order is the number written, negative ones included |
| GatewayLayout.NumberWritten | src/gateway/data.cpp:66-74 | the four bytes of a number, high byte first, are its two's complement |
| GatewayLayout.NumberRead | src/gateway/data.cpp:107-116 | any four bytes are read as the signed number they are, high byte first |
| GatewayWire.StripUnique | src/gateway/data.cpp:286-290 | the string read is the only prefix without a trailing zero behind which there are only zeros |
| GatewayWire.StripIdempotent | src/gateway/data.cpp:276-291 | dropping trailing zero bytes again changes nothing |
| GatewayWire.TextAligned | src/gateway/data.cpp:242-266 | a string's size is the number of bytes written for it and a multiple of four |
| GatewayLayout.TextWritten | src/gateway/data.cpp:256-266 | ahead of a string stands the least multiple of four that it fits into, then the string, then zeros up to that length |
| GatewayLayout.TextRead | src/gateway/data.cpp:275-291 | any announced length that is not negative is taken, aligned or not; a negative one and too few bytes are errors |
| GatewayWire.ReadTextBack | src/gateway/data.cpp:257-291 | a written string reads back without its trailing zero bytes, its own ones included, and nothing behind it is touched |
| GatewayWire.RecordAligned | src/gateway/data.cpp:350-354 | a record's size is the number of bytes written for it and a multiple of four, for samples, events, channels and names |
| GatewayWire.ReadRecordBack | src/gateway/data.cpp:434-468 | a written record reads back in its normal form, and nothing behind it is touched |
| GatewayLayout.SampleWritten | src/gateway/data.cpp:357-365 | a sample is its id, channel, date and value, in that order |
| GatewayLayout.EventWritten | src/gateway/data.cpp:443-454 | an event is its id, channel, date and its four strings, in that order |
| GatewayCommand.PacketAligned | src/gateway/data.tpp:205-216 | the size written ahead of a packet is the length of its body and a multiple of four, so neither of the reader's checks can fire |
| GatewayLayout.RecordsInARow | src/gateway/data.tpp:211-216 | the records follow each other in order, behind each of them the bytes 24 80 80 80 if the packet uses end-of-record marks |
| GatewayLayout.LengthRefused | src/gateway/data.tpp:231-236 | a packet's announced length is refused if negative or not a multiple of four; zero gives no records |
| GatewayCommand.ReadPacketBack | src/gateway/data.tpp:224-247 | a written packet of any number of records reads back in normal form, and nothing behind it is touched |
| GatewayCommand.CommandRoundTrip | src/gateway/command.cpp:39-102 | a written command of any type reads back in normal form, RDE as RDP, leaving the following bytes unread |
| GatewayCommand.SurvivesExactly | src/gateway/command.cpp:39-102 | a command survives the trip unchanged if and only if it is no RDE and none of its strings ends in a zero byte |
| GatewayCommand.SelfDelimiting | src/gateway/command.cpp:95-102 | if two commands' bytes with anything behind them are equal, so are the commands in normal form and what is behind |
| GatewayCommand.RereadIsSame | src/gateway/command.cpp:39-102 | whatever was read, from any bytes, is well typed, no RDE, without trailing zero bytes in its strings, and reads as itself once written again |
| GatewayLayout.CommandWritten | src/gateway/command.cpp:29-36 | each of the five commands begins with the ASCII bytes of WRP, WRE, RDP, RDE or RDS and a zero, then the length of its body and the body, with end-of-record marks for all but lists of channels, then 24 2F 80 80 |
| GatewayLayout.MarkDecides | src/gateway/command.cpp:45-63 | the first four bytes read decide the type: WRP, WRE, RDS, and RDP for RDP and RDE; any other four are an unknown command, fewer are an error |
| GatewayLayout.TypeDecides | src/gateway/command.cpp:150-303 | the type decides the records: samples, events, channels or names |
| GatewayLayout.EndRefused | src/gateway/command.cpp:64-71 | behind a command's packet anything but the end-of-command mark is an error |
| GatewayStream.WriteSize | src/gateway/data.cpp:87-98 | a size above INT_MAX is refused and nothing is written |
| GatewayStream.WriteText | src/gateway/data.cpp:256-266 | appends the string's wire form, or nothing at all if it is too long |
| GatewayStream.WriteEvent | src/gateway/data.cpp:443-454 | appends the head and the four strings in the format's order |
| GatewayStream.WritePacket | src/gateway/data.tpp:200-217 | appends the packet's wire form, or nothing at all if its total is above INT_MAX |
| GatewayStream.BinWrite | src/gateway/command.cpp:95-102 | appends the command's wire form, which begins with the four bytes of its type as given; a packet that is too large leaves those four behind |
| GatewayStream.ReadTextItem | src/gateway/data.cpp:275-291 | agrees with the format on every input, errors included; the popping loop leaves the stripped string |
| GatewayStream.ReadItemsOf | src/gateway/data.tpp:236-246 | the loop bounded by the stream's position agrees with the format on every input, reading beyond the announced size included |
| GatewayStream.BinRead | src/gateway/command.cpp:39-78 | agrees with the format on every input: result, error, and what is left unread |
| DateOrder.IsGreater | src/gateway/data.tpp:109-128 | decides by the first difference which of two dates is greater |
| DateOrder.GreaterExactly | src/gateway/data.tpp:109-128 | one string is greater if and only if at the first difference its byte is, bytes from 0x80 up counting as negative |
| DateOrder.GreaterTotal | src/gateway/data.tpp:109-128 | of two strings of one length exactly one is greater, unless they are equal |
| DateOrder.GreaterTransitive | src/gateway/data.tpp:109-128 | the order on strings of one length is transitive |
| DateOrder.FillDate | src/DataLoggerThread.cpp:34-36 | the 20 bytes copied are the text and the zero behind it, or as much of a longer text as fits |
| DateOrder.TextParts | src/Utils.cpp:41-47 | the text is year, month, day, hour, minute and second in decimal, two digits each but for the year, with hyphens, a space and colons between them |
| DateOrder.TextSpelled | src/Utils.cpp:41-47 | for a valid time with a year up to 9999 the nineteen bytes of the text, digit by digit |
| DateOrder.YearWidthIs | src/Utils.cpp:45-45 | the year takes four digits, or more only if its first digit is not zero |
| DateOrder.FitText | src/DataLoggerThread.cpp:34-36 | the first n characters of a text are the text of the fields that fit, the last of them cut short |
| DateOrder.FitOrder | src/gateway/data.tpp:109-128 | what fits never puts two times in another order than the whole |
| DateOrder.LongerYearOrder | src/gateway/data.tpp:109-128 | of two years of different length the longer comes later if and only if its leading digits, as many as the other has, are not below the other |
| DateOrder.OrderKeptExactly | src/Utils.cpp:41-47 | byte order on two dates is calendar order if and only if years of as many digits leave the times distinguishable, or the longer year's leading digits are not below the shorter |
| DateOrder.KeptOf | src/DataLoggerThread.cpp:34-36 | the 20 bytes keep everything up to a year of five digits, the seconds in tens for six digits, no seconds for more |
| DateOrder.DatesFollowTheCalendar | src/Utils.cpp:41-47 | so for years up to 9999 byte order on the dates is calendar order, and equal dates are equal times |
| DateOrder.LongYearSortsFirst | src/Utils.cpp:45-45 | a concrete year of five digits whose date sorts before an earlier one of four |
| Cache.Cache.Update | src/gateway/cache.tpp:63-86 | the map is the old one with all items absorbed in order |
| Cache.Cache.Get | src/gateway/cache.tpp:44-57 | the answer is the lookup of the keys in the order of the request |
| Cache.LookupInOrder | src/gateway/cache.tpp:49-56 | absent keys leave no trace in an answer, present ones their value, in order |
| Cache.CacheHoldsWinner | src/gateway/cache.tpp:63-86 | after any history the map holds, for exactly the keys that occurred, the earliest-arriving of the items of greatest date |
| Cache.WinnerUnique | src/gateway/cache.tpp:73-79 | a key has only one such item |
| Cache.BatchesDoNotMatter | src/gateway/cache.tpp:63-86 | however a history is cut into batches, the map is the same |
| Cache.OrderIndependentExactly | src/gateway/cache.tpp:73-79 | every reordering of a history gives the same map if and only if no two different items of a key share its greatest date |
| Cache.DatesGrow | src/gateway/cache.tpp:73-79 | an update takes no key away and replaces no item by one of an earlier date |
| CachedQueue.Queue.PushBackAll | src/gateway/queue.tpp:76-89 | the queue grows by the items, in order |
| CachedQueue.Queue.Grab | src/gateway/queue.tpp:99-109 | takes everything and leaves the queue empty |
| CachedQueue.CachedQueue.PushBack | src/gateway/queue.tpp:133-142 | a single item is pushed and reaches the cache as a batch of one: both steps of a push |
| CachedQueue.CachedQueue.PushBackAll | src/gateway/queue.tpp:154-163 | queue and cache end as after both steps of a push |
| CachedQueue.StepKeepsInv | src/gateway/queue.tpp:57-109 | each locked region keeps: grabbed and queued items are the pushed history, the cache is the view of the committed part |
| CachedQueue.RunKeepsInv | src/gateway/queue.tpp:133-163 | so in every reachable state of any interleaving of pushes, grabs and gets |
| CachedQueue.FreeQueueAgreesWithCache | src/gateway/queue.tpp:148-163 | whenever the queue's lock is free the cache is the latest-per-key view of everything grabbed or still queued |
| CachedQueue.RunGrows | src/gateway/cache.tpp:44-86 | along a run the history grows only at its end and no key's date ever falls |
| CachedQueue.EveryGetSeesWholeBatches | src/gateway/cache.tpp:44-57 | every answer is the view of a prefix of whole batches of the final history |
| Logger.NothingIsLost | src/LoggerThread.hpp:88-161 | in every reachable state sent, in flight and queued entries are the enqueued ones in order, the lock is held only around the test of the queue, and every finished connection carried exactly the entries queued when its transaction began |
| Logger.DeadBranches | src/LoggerThread.hpp:102-141 | the branch for an empty transaction and the break that skips the unlock are never taken, in any interleaving and whether or not the wait timed out |
| Logger.SenderProgresses | src/LoggerThread.hpp:102-161 | the sending thread always has a step of its own, leaves the wait once it finds the queue not empty, and each step of a transaction brings its end nearer while enqueuing never puts it off |
| Session.BindParams | src/DataLoggerThread.cpp:20-46 | writes exactly one command: a WRP with one sample whose id is the parameter, whose channel is the channel, whose date is the first 20 bytes of the time's text with a zero behind it, and whose value is the value |
| Session.LoggerThread.EnqueData | src/LoggerThread.hpp:320-330 | appends to the queue |
| Session.LoggerThread.Transaction | src/LoggerThread.hpp:102-170 | whatever other threads enqueue between its locked regions, the bytes written are those of the entries queued at the start and the mark 45 4F 54 00, and what arrived meanwhile stays queued in order |
| Session.SessionParses | src/LoggerThread.hpp:134-168 | a connection's bytes parse into as many commands as there are items, the i-th of them a WRP with one sample that has the i-th item's parameter as id, its channel, the 20 bytes of its date and its value, and end in 45 4F 54 00 |
| Session.SessionsAreFaithful | src/LoggerThread.hpp:88-170 | so for every finished connection of every run: the commands read carry, field by field and in order, the entries queued when it was opened |
| Settings.RitexDevice.SetCurrentSettingValue | src/RitexDevice.cpp:685-702 | the setting of that id has the new value and every other setting is as it was; the result tells whether the value differed, and if so the old value comes back |
| Settings.RitexDevice.SetReply | src/CmdExternal.cpp:48-70 | a confirmed change leaves the setting of that id at the new value, every other setting and the first-packet flag alone, and adds one event of new value, old value, name and source if and only if the value differed; an unknown id changes nothing |
| Settings.AfterExternalIs | src/CmdExternal.cpp:48-70 | the state used in runs for a change from outside is the one and only state with those properties |
| Settings.RitexDevice.CheckSettingsChanged | src/RitexDevice.cpp:714-754 | table, flag and log are those of comparing every visible setting with the packet in turn |
| Settings.RitexDevice.UpdateSettingsValues | src/RitexDevice.cpp:839-859 | each row of the answer sets the setting of its name and marks it as set, in the order of the rows |
| SettingsTheory.ChangeKeepsJournal | src/RitexDevice.cpp:731-749 | one logged change keeps: every value is the last event's Argument1, every Argument2 the Argument1 before it |
| SettingsTheory.PacketTakesEffect | src/RitexDevice.cpp:714-754 | a packet clears the first-packet flag, leaves every visible setting with an offset at the one byte or the two bytes, high one first, found there, and logs it if and only if that differs from its value or it is the first packet and the setting was not restored; other settings stay and are not logged |
| SettingsTheory.PacketLogs | src/RitexDevice.cpp:721-751 | the log grows by exactly one event for each such setting, in the order of the table, each of new value, old value, name, and INIT for the first packet or HND for a later one |
| SettingsTheory.PayloadIs | src/ComTrafficProcessor.cpp:68-81 | the link lets in settings packets of just the payload size assumed |
| SettingsTheory.RestartRestores | src/RitexDevice.cpp:813-867 | with the latest events telling the last values, a restart brings back every value, marks exactly the logged settings, and keeps the journal |
| SettingsTheory.RestartExactly | src/RitexDevice.cpp:825-859 | a setting's value survives a restart for every order of the query's rows if and only if the latest events of its name all carry its last value |
| SettingsTheory.StrictDatesTell | src/RitexDevice.cpp:825-828 | strictly increasing dates of a name are enough for that |
| SettingsTheory.FirstPacketAfterRestart | src/RitexDevice.cpp:731-745 | the first packet after a restart logs a setting if and only if it was never logged or has changed since |
| SettingsTheory.RunKeepsJournal | src/RitexDevice.cpp:685-867 | over every run of packets, outside changes and restarts the log is a faithful journal of the table |
| Handshake.RitexDevice.Execute | src/RitexDevice.cpp:424-537 | by what was open before and whether the port opens: which commands are taken, when the port is opened, when capture starts, and what is queued; a test is always reported as taken |
| Handshake.CommandProcessor.Create | src/ComTrafficProcessor.cpp:1013-1028 | a port is opened once, its first use decides whether measurements run, and later calls succeed and change nothing |
| Handshake.CommandProcessor.ProcessNext | src/ComTrafficProcessor.cpp:674-688 | a pending command is taken, its result sent and the flag set, with any steps of the server between the two |
| Handshake.DaemonCommServer.OnResultReady | src/DaemonCommServer.cpp:278-302 | sends the result, then sets the flag; whatever steps the server takes between, neither is disturbed |
| HandshakeTheory.StepKeepsInv | src/DaemonCommServer.cpp:183-222 | every step of either thread, start and end of the processor and cancellation of the server included, keeps the invariant of flags, mutex, queue and responses |
| HandshakeTheory.AnsweredInOrder | src/DaemonCommServer.cpp:183-222 | in every reachable state each command before the latest was answered once, in the order of arrival, and nothing else was sent |
| HandshakeTheory.RefusedExactly | src/DaemonCommServer.cpp:183-222 | for every reachable state at the call: the command is refused if and only if it is a start of measurements with a port open already or none to open, or one for the station with none open and none to open; in every continuation its only response is its refusal if it was refused and its result if not; an accepted start has capture on and its result sent |
| HandshakeTheory.WaitEndsWithOwnResult | src/DaemonCommServer.cpp:197-210 | the wait ends only after the awaited command's own result was sent, as the last response of all |
| HandshakeTheory.NoLostWakeup | src/DaemonCommServer.cpp:203-208 | the server never sleeps once the flag is set, the processor never once the start was signalled, and at most one command is pending |
| HandshakeTheory.FateExactly | src/RitexDevice.cpp:424-537 | for every reachable state and call: some continuation answers the command if and only if the call is not hopeless, and no continuation comes to lose it if and only if the call is safe, both told from the state before the call |
| HandshakeTheory.HelpWorks | src/ComTrafficProcessor.cpp:577-735 | a command that will not be lost always has a step that answers it or leaves fewer steps to go |
| HandshakeTheory.ServesAgainExactly | src/ComTrafficProcessor.h:134-143 | the server can come back to receive if and only if the call was not hopeless and does not block on a start mutex that the processor keeps |
| HandshakeTheory.StuckExactly | src/CmdTestDevice.cpp:26-30 | the server neither receives again nor ends, in any continuation, if and only if the call is a test while measurements run or with no port to open, or a command behind the kept mutex with no log to be cancelled in |
| HandshakeTheory.Leave | src/ComTrafficProcessor.cpp:735-748 | a processor created for single commands can always come to its end, in which the server is sent a cancellation |
| HandshakeTheory.TestWhileMeasuring | src/RitexDevice.cpp:523-526 | the run: measurements are started, then a test is asked for, and the server is stuck |
| HandshakeTheory.TestWithoutPort | src/RitexDevice.cpp:527-536 | the run: the first command is a test, the port does not open, and the server is stuck |
| HandshakeTheory.AnsweredButHeld | src/ComTrafficProcessor.cpp:563-571 | the run: a start signalled before it is waited for leaves the mutex locked, the next command is answered, and the server never receives again |
| CmdLine.CmdLineParser.Parse | src/CmdLineParser.cpp:86-426 | terminates on every token stream; accepts exactly the words of the language and builds what they mean |
| CmdLine.CmdLineParser.Switch | src/CmdLineParser.cpp:109-423 | one turn of the loop is one step of the automaton, in each of its 19 states |
| CmdLine.Complete | src/CmdLineParser.cpp:86-426 | every invocation, written out as tokens, is accepted with its meaning |
| CmdLine.Sound | src/CmdLineParser.cpp:86-426 | every accepted token stream is an invocation written out, and the command is its meaning |
| CmdLine.AcceptsExactly | src/CmdLineParser.cpp:86-426 | both as one if-and-only-if |
| CmdLine.SinglesSpelled | src/CmdLineParser.cpp:121-204 | as tokens: -a, -p and -exit alone and -cmd with anything behind it that is no argument are accepted, and the command each makes |
| CmdLine.PairedSpelled | src/CmdLineParser.cpp:281-311 | as tokens: -t and -d with their parameters, none allowed only for -d, are accepted, and the command each makes |
| CmdLine.MeasureSpelled | src/CmdLineParser.cpp:350-410 | as tokens: -r, device, -sp, script and at least one parameter are accepted, and the command they make |
| CmdLine.CustomSpelled | src/CmdLineParser.cpp:193-278 | as tokens: -cmd, device, type, message, source, id, -sp, script and at least one parameter are accepted, and make a command with each field from its own place |
| CmdLine.LastValueWins | src/CmdLineCommand.cpp:30-33 | a parameter given more than once has the value given last |
| CmdLine.RequiredIsGiven | src/CmdLineParser.cpp:193-300 | an accepted custom or measurement command has all its fields from arguments, and at least one parameter |
| Strings.SplitString | src/gateway/string.cpp:173-194 | terminates for every splitter, the empty one included, with the pieces less the empty ones at the end |
| Strings.JoinStrings | src/gateway/string.cpp:202-215 | joins with the joiner between neighbours only |
| Strings.FirstIsLeftmost | src/gateway/string.cpp:173-194 | a piece ends at the leftmost splitter |
| Strings.SplitIntoCharacters | src/gateway/string.cpp:173-194 | an empty splitter cuts a string into its characters |
| Strings.JoinSplit | src/gateway/string.cpp:173-215 | every string is its pieces joined by the splitter and some copies of the splitter behind |
| Strings.SplitJoinExactly | src/gateway/string.cpp:173-215 | for a one-character splitter, split undoes join if and only if the pieces are free of it and the last is not empty |
| Relay.CommandLine.GetCmdLine | src/CmdLineParser.cpp:66-75 | the arguments with a space between neighbours |
| Relay.CommandLine.SetCmdLine | src/CmdLineParser.cpp:42-64 | the pieces between spaces, nothing following a space at the end |
| Relay.RelayExactly | src/CmdLineParser.cpp:42-75 | the daemon gets the client's arguments back if and only if none has a space in it and the last is not empty |
| Relay.ParsedTwice | src/CmdLineParser.cpp:42-426 | with the same getopt, client and daemon parse a list that survives the relay to the same command, or both refuse it |

## Left out

- Sockets, termios, select, sleeping, threads, signals and daemonising: the port is a line of bytes, pauses and faults with any chunking, and a blocked thread is a step that is not enabled.
- The length of timeouts: a pause on the line is one that exceeds the timeout then in force.
- Allocation failures, and a read that returns zero bytes.
- KsuLink.ComTrafficProcessor.Read: on more than one byte with an echo pending it promises only a valid port; the source is wrong there and no caller gets there.
- Errors of read(2), of select(2) and of the descriptor are one fault signal, since all return the same code.
- ReadPacket is one function in the source and several methods here, each on its own stretch of it; the same holds for CreateRawPacket, for the two loops of write_packet, for the data logger's loop and for the parser's.
- Truncated gateway input: the source does not check its stream there; the readers here report an error.
- Sizes are unbounded, so a total that wraps a 32-bit size_t is not modelled; floats travel as the integer with the same bits.
- The text form of commands, the gateway's own server loop and its answers on the socket.
- Date texts of years below zero, and the mapping from seconds to broken-down time.
- The rows of the settings table: any table with distinct names and identifiers whose bytes lie in the payload, as the 44 rows do.
- Settings values in the log are 16-bit numbers, not their decimal texts; the event table holds only events of type 11, and the recovery query is modelled as "an event of which no other of its name is of a later date", in any order.
- The event logger's thread, which differs from the data logger's in the record it sends.
- SQL, the event counter, the station's state and fault events, time deviation, data packets and their decimation.
- The capture of the station, passwords, write modes and their cycle, and the waits for the station's activity.
- getopt: the parser gets its steps; which of them an argument becomes is left out, as are the checks of parameter values against their types.
- Fairness: that a step which stays possible is taken in the end is not stated; progress means that an answer stays reachable from every continuation, and that a step towards it is possible. Whether the station lets itself be captured is up to the station.
- HandshakeTheory.NoLostWakeup: covers wakeups by signal; a spurious one of the start's wait would wait again without the mutex, which POSIX leaves undefined.
- A processor's thread that cannot be created although its port was opened.
- Commands that only print, which the client carries out itself and never relays.
- The log calls as cancellation points are all or none, by whether a log is written; the shutdown of the daemon behind its server.
- Memory ownership and pointer lifetime.
