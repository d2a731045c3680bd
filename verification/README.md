# BCIRC in Dafny

BCIRC is a threaded IRC bot in C whose work is done by plugins. This project models five of
its pieces and proves what holds of them over every input, every run or every interleaving:

- the in-place HTML entity decoder of the title plugin, with its UTF-8 encoder and the binary
  search in its table of names (`Utf8`, `Numerals`, `EntityTable`, `Entities`, `EntityDecoder`),
  and the title announcement built on it (`Title`);
- the index of callbacks by event and the dispatcher that walks it (`CallbackSort`,
  `CallbackIndex`, `Dispatch`, `DispatchAnswers`, `Positions`, `DispatchFaults`, `PluginHandler`,
  `PluginAnswers`);
- the bounded, throttled message queue (`Throttle`, `MessageQueue`, `QueueProtocol`,
  `QueueSafety`, `QueueRaces`, `QueueProgress`);
- the path of a line over the wire: printed, escaped, cut out of a received chunk and parsed
  (`Commands`, `Escape`, `Receiver`, `EventParsers`, `WireRoundTrip`, `Stream`);
- the registry of channels (`Channels`).

`CString` holds the C string functions all of them use; a text is a sequence of bytes without
its terminator. Code that fills a buffer or changes global state is a method, proved against a
function of its inputs or of the old state; the lemmas are about those functions.

## How the pieces are modelled

**Decoder.** `DecodeFrom` works on one array when the buffer is its own source. Its invariant,
`Between`, says the write cursor has not passed the read cursor, the unread text is intact, and
what is written followed by the decoding of what is unread is the decoding of the whole.
Numbers are read as `strtoul` reads them (C11, section 7.22.1.4) with a 64-bit `unsigned long`:
blanks, a sign that wraps around, and a second `0x` are accepted. `NumericReferenceIff` says of
every text between `&#` and the next ';' whether it is a reference, and to what. `&#;` and `&#x;`
are references to code point 0 (`EmptyReferenceIsNul`), and surrogates are encoded, which section
3 of RFC 3629 forbids. Shifts and masks of `putc_utf8` are written as division and remainder. The
table is any table that meets `ValidTable`: strictly sorted, each key with one `;` at its end, no
value longer than the reference it replaces.

**Index.** A callback is its address, event name, priority and function; addresses grow with
each registration. `CallbackIndex` takes the lists through any sequence of operations;
`PluginHandler` changes the same lists in place on objects and is proved to do those operations.
`load_plugin` is split at the call of the plugin's init function, so that the init function may
register, load and remove in any way in between. A callback registered by an init function that
then fails stays in the index with no owner; `AgreesWithLiveIffCleanLoads` says when that
happens and `OrphanIsReachable` is such a run.

**Dispatch.** Callbacks are opaque: what each answers, by event and position, is an arbitrary
function. STOP and FAIL act on `plugin_list[i]` where `i` is the position of the callback in its
bucket, and the number of listeners is read once, before FAIL can change it. `Walk` does just
that and ends in a fault where the program would read outside the plugin list or the bucket;
`ExecuteCallbacks` does it in place. `DispatchCalls` and `AnswerHits` say who is called with what
and whom each answer hits, whatever is answered. `PausesOwnersIffAligned` gives the exact condition
under which STOP always pauses the plugin that owns the callback; `WrongPluginPaused` and
`StopBehindList` are runs where it does not. `FailFaultsIff` says when a FAIL runs off the bucket:
where positions agree, only the last listener's FAIL does not. `DispatchNeverFaultsIff` says which
events survive any answers. A line received before the MOTD is answered with a literal zero, which
is STOP (`EarlyLinePauses`).

**Queue.** `QueueProtocol` lets any number of producers and one consumer take steps in any order,
one statement that touches shared memory at a time: `msg_count++` and `msg_count--` are a load and
a store, the list and its count are separate, and the consumer shifts the list one slot per step.
The list is as long as its last allocation, and an access outside it sets `broken`. Two flags
select a variant. `leaks`: the full branch returns with the producers' mutex held. `skips`: the
consumer does not lock when its first, unlocked test reads zero. The program has both. What holds
of every variant is stated for every variant. Mutual exclusion, conservation, wake-ups and bounds
of access are each proved to hold over all runs exactly when the lock is not skipped, with a run
in which the program loses a message (`LosesMessage`), sleeps through a signal
(`SleepsThroughSignal`) or stores outside the list (`StoresOutside`). So is progress: the threads
at work can always empty the queue (`DrainableIffNotSkipped`), also after a rejection that leaks.
Without the skip, every step is one step of an atomic queue or none (`StepIsAtomic`), and what a
thread does to the memory between its lock and its unlock, whatever the others do meanwhile, is
what the method of `MessageQueue.Queue` does (`SectionIsAppend`, `SectionIsProcessHead`). The shift
loop of the window starts one slot too high; `Queue.times` has a sixth slot that stands for the
word behind the five-slot array. The clock does not run backwards and does not overflow.

**Wire.** `bcirc_escape_buf` overwrites its last output character. `ReceivedLines` proves that
harmless exactly when the chunk ends in CR or LF, and `StreamArrivesIff` the same of a stream cut
into any chunks. For an empty string the overwritten byte lies in front of the buffer, which
`EscapeBuf` reports as a fault. `strcpy` into buffers that are one byte short of the terminator is
modelled as copying.

**Registry.** A step is one critical section of a receiver thread, or its start or end. `server` maps
threads to the server whose lines they receive, `starts` says in which states a thread may be
started; an observer keeps every request, with its thread and name and what became of it. A rejoin
gives a server a new thread: `RejoinKeepsUnique` needs that it starts once the old one looks up no
more channels, as in the program, where the old thread only runs the disconnect callbacks, which
start the rejoin, and returns.

## Model

| member | source | states |
|---|---|---|
| Utf8.PutcUtf8 | plugins/src/title/entities.c:285-320 | writes exactly the encoding at the cursor, nothing else, and returns its length |
| Utf8.ReadUndoesEncode | plugins/src/title/entities.c:285-320 | an independent reader of the RFC 3629 layout gets the code point and length back, whatever follows |
| Utf8.EncodeIsShortest | plugins/src/title/entities.c:285-320 | any readable form of a code point is at least as long as its encoding, and the same bytes if as long |
| Utf8.EncodeKeepsOrder | plugins/src/title/entities.c:285-320 | byte order of encodings is code point order |
| Utf8.ReadAllUndoesEncodeAll | plugins/src/title/entities.c:285-320 | a concatenation of encodings splits back into the code points it was made of |
| Utf8.EncodeAllIsInjective | plugins/src/title/entities.c:285-320 | no two code point sequences have the same encoding |
| Numerals.DigitsByValue | plugins/src/title/entities.c:335-336 | the digits 0 to 15 are those of `0` to `9`, `a` to `f` and `A` to `F`, and no other byte is one |
| Numerals.StrtoulReadsDigits | plugins/src/title/entities.c:335-336 | reading a run of decimal or hexadecimal digits gives its number or the range error and stops right behind it |
| Numerals.StrtoulReadsNumeral | plugins/src/title/entities.c:335-336 | reading the numeral of a number gives the number back |
| Numerals.StrtoulReadsSubject | plugins/src/title/entities.c:335-336 | blanks, a sign, a prefix in base 16 and digits are read to their end; the value is that of the digits, counted down from 2^64 behind a minus, or the range error |
| Numerals.StrtoulReadsOnly | plugins/src/title/entities.c:335-336 | whatever is read at all is of that form |
| EntityTable.CompareIsMonotone | plugins/src/title/entities.c:270-274 | once the prefix comparator is zero or negative at a key it is negative at every later key |
| EntityTable.CompareZeroIsPrefix | plugins/src/title/entities.c:270-274 | the comparator answers zero exactly when the key is a prefix of the name |
| EntityTable.MatchIsUnique | plugins/src/title/entities.c:276-283 | at most one key of a valid table is a prefix of a name |
| EntityTable.MatchEndsAtSemicolon | plugins/src/title/entities.c:325-356 | a matched key ends at the first ';' of the name, where the decoder resumes |
| EntityTable.GetNamedEntity | plugins/src/title/entities.c:276-283 | binary search finds an entry exactly when some key is a prefix, the one trying every key in turn finds |
| Entities.ReferenceShrinks | plugins/src/title/entities.c:322-360 | a reference is never shorter than what it stands for |
| Entities.DecodeShrinks | plugins/src/title/entities.c:362-388 | the decoding is never longer than the text |
| Entities.DecodeLiteral | plugins/src/title/entities.c:369-379 | text without '&' is passed through |
| Entities.DecodeWithoutSemicolon | plugins/src/title/entities.c:322-379 | text without ';' decodes to itself, '&' and all |
| Entities.EmptyReferenceIsNul | plugins/src/title/entities.c:328-345 | a numeric reference without digits, with either x or none, is accepted as code point 0 |
| Entities.NumericReferenceParses | plugins/src/title/entities.c:328-345 | digits between `&#`, `&#x` or `&#X` and ';', however many and with leading zeros or in either case, are a reference exactly when their number is at most 0x10FFFF |
| Entities.NumericReferenceIff | plugins/src/title/entities.c:328-345 | the text from `&#` to the next ';' is a reference exactly when what stands between denotes a code point up to its last byte, and then it is the reference to it |
| Entities.NoCodePointStays | plugins/src/title/entities.c:338-379 | in front of anything else, such as digits followed by a word, the '&' stays as it is, and so does the text up to the ';' if no other '&' is in it |
| Entities.UnknownNameStays | plugins/src/title/entities.c:347-378 | a '&' before a name the table does not have stays, and so does the name |
| Entities.DecodeInvertsMarkup | plugins/src/title/entities.c:322-388 | any mix of literals, numeric references in either base and case, and named references decodes to what it was written for |
| EntityDecoder.ParseEntityAt | plugins/src/title/entities.c:322-360 | reads the reference at the cursor and writes what it stands for, also when the buffers are one |
| EntityDecoder.StepKeepsBetween | plugins/src/title/entities.c:369-379 | a step that writes no more than it reads keeps the unread text and the final result intact |
| EntityDecoder.Turn | plugins/src/title/entities.c:369-379 | every turn of the loop advances the read cursor and keeps the decoder's invariant |
| EntityDecoder.DecodeHtmlEntities | plugins/src/title/entities.c:362-388 | in place or not, the buffer ends up with the pure decoding of the original text, its terminator, and nothing changed behind it |
| Title.Announce | plugins/src/title/title.c:270-318 | the title queued is the decoded match, cut at a NUL and without CR, LF and TAB; a match over 250 bytes is not sent |
| Title.AnnouncedIsClean | plugins/src/title/title.c:270-318 | at most 250 bytes and no CR, LF, TAB or NUL, even when written as references |
| Title.AnnouncedIsMeaning | plugins/src/title/title.c:283-318 | a title of plain characters and references is announced as what they mean |
| Title.AnnouncedIsPieces | plugins/src/title/title.c:283-308 | a title that decodes to pieces of text with CR, LF and TAB in between is announced as the pieces, in order |
| Title.EveryTextIsMixed | plugins/src/title/title.c:289-308 | every text is such a mixture |
| Title.AnnouncedIsOneLine | src/irc_cmds.c:10-18 | the PRIVMSG printed for a title is one line to the bot's own splitter |
| Title.AnnouncedArrives | plugins/src/title/title.c:310-318 | relayed to another bot it arrives as one message with its fields escaped |
| CallbackSort.SortIsStable | src/plugin_handler.c:274-281 | under the one-sided comparator merge sort gives a sorted, stable permutation |
| CallbackSort.SortedIsUnique | src/plugin_handler.c:303-308 | sorted and stable leaves only one arrangement |
| CallbackSort.SortInserts | src/plugin_handler.c:303-308 | appending to a sorted bucket and sorting puts the callback behind those of its own priority |
| CallbackIndex.NextKeepsInv | src/plugin_handler.c:170-363 | registering, loading and removing keep names distinct, buckets ordered and indexed equal to owned |
| CallbackIndex.IndexAgrees | src/plugin_handler.c:170-363 | after any operations the listeners of an event are exactly the callbacks owned under its name, by priority and then registration |
| CallbackIndex.OrderedIsUnique | src/plugin_handler.c:303-308 | order and contents determine a bucket |
| CallbackIndex.RegistrationIsExact | src/plugin_handler.c:223-308 | a registration adds one new callback to its plugin's list and behind the listeners of its own or a lower priority, and touches no other event |
| CallbackIndex.RemovalIsExact | src/plugin_handler.c:170-203 | removing a plugin frees each of its callbacks once and leaves all others in place and order |
| CallbackIndex.LoadJoinsLast | src/plugin_handler.c:92-125 | a loaded plugin goes behind all others, with all it registered, and keeps its place until a plugin is removed; a failed load takes none |
| CallbackIndex.InnermostIsLast | src/plugin_handler.c:92-125 | of nested loads the one begun last is the one that ends next |
| CallbackIndex.AgreesWithLiveIffCleanLoads | src/plugin_handler.c:92-119 | the index agrees with the plugin list exactly when no failed init function had registered a callback |
| CallbackIndex.OrphanIsReachable | src/plugin_handler.c:92-99 | a load that registers a callback and fails leaves it among the listeners with no plugin in the list |
| Dispatch.DispatchIsRun | src/plugin_handler.c:365-417 | whatever is answered, FAIL included, the lists after a dispatch are those after some removals, so every result about runs holds of them |
| Dispatch.DispatchIsOrdered | src/plugin_handler.c:365-417 | while nobody reached answers FAIL or a STOP behind the plugin list, listeners run in order up to the first BREAK; FAIL exactly then; otherwise the announcement follows once with the name appended |
| DispatchAnswers.DispatchCalls | src/plugin_handler.c:365-417 | for all answers, FAIL included: the event's listeners are called in order with exactly the arguments; if that ends neither at a BREAK nor in a fault, the announcement's own listeners, as the removals left them, get the event's name besides, and otherwise nobody; FAIL is answered exactly for a BREAK |
| DispatchAnswers.AnswerHits | src/plugin_handler.c:375-391 | each call goes to its position of the bucket as the FAILs before it left it; STOP pauses, and FAIL removes for good, the plugin at that position of the plugin list as they left it |
| Positions.PausesOwnersIffAligned | src/plugin_handler.c:375-391 | for all answers without FAIL the plugins paused are the owners of the callbacks that answered STOP, exactly when every listener of the event and of its announcement stands at its owner's position in the plugin list |
| Positions.WrongPluginPaused | src/plugin_handler.c:382-383 | after two loads the STOP of a listener pauses the plugin that does not own it |
| Positions.StopBehindList | src/plugin_handler.c:382-383 | one plugin listens twice to an event, and the second STOP reads behind the plugin list |
| Positions.FailFaultsIff | src/plugin_handler.c:373-391 | a single FAIL reads outside the plugin list or the bucket that shrank exactly when its position has no plugin, or has one that listens to the event and the callback is not the last |
| Positions.EarlyLinePauses | plugins/src/events-handler/events.c:198-201 | a long enough line before the MOTD pauses the plugin at the position of the event parser's callback |
| DispatchFaults.WalkNeverFaultsIff | src/plugin_handler.c:373-391 | no answers at all, several FAILs and STOPs included, make the loop over n listeners fault exactly when n is 0, or there are 2n-1 plugins of which the first 2n-3 do not listen to the event |
| DispatchFaults.DispatchNeverFaultsIff | src/plugin_handler.c:365-417 | the same for a whole dispatch: the announcement must meet the condition in every state the event's own listeners can leave |
| PluginHandler.Handler.GetCbIndex | src/plugin_handler.c:262-272 | the position of the event in the index, -1 if it is not there |
| PluginHandler.Handler.IndexCallback | src/plugin_handler.c:283-337 | the buckets change as indexing says, the plugins' lists not at all |
| PluginHandler.Handler.RegisterCallback | src/plugin_handler.c:205-250 | -1 and no change on a null argument, else the registration |
| PluginHandler.Handler.EndLoad | src/plugin_handler.c:92-125 | a loaded plugin joins the list; a failed one leaves its callbacks behind |
| PluginHandler.Handler.RemoveIndex | src/plugin_handler.c:339-363 | the callback leaves every bucket and is freed as often as it was there |
| PluginHandler.Handler.RemovePlugin | src/plugin_handler.c:170-203 | the plugin leaves the list and its callbacks the index |
| PluginHandler.Handler.CallListeners | src/plugin_handler.c:373-391 | the loop in place, with STOP, FAIL, BREAK, the count read once and its faults, is the walk |
| PluginHandler.Handler.ExecuteCallbacks | src/plugin_handler.c:365-417 | result, calls, lists and paused plugins of a dispatch for any answers, announcement included; terminates at depth two |
| Throttle.ThrottledIff | src/irc.c:108-120 | throttled exactly when the last five recorded times, zero where there is none, lie no more than 1,500,000 ms back all together |
| Throttle.BusyIsThrottled | src/irc.c:108-120 | after five times none of which lies more than 300,000 ms back, the next message is throttled |
| Throttle.FirstFiveNotThrottled | src/irc.c:108-132 | with fewer than five recorded times nothing is throttled past 1,500,000 ms |
| Throttle.QuietPeriodNotThrottled | src/irc.c:108-132 | after more than 300,000 ms of quiet the next message is not throttled |
| MessageQueue.Queue.Append | src/irc.c:51-70 | the list grows by the message at its end |
| MessageQueue.Queue.ProcessHead | src/irc.c:108-147 | the head leaves, the rest moves up, and it is not sent exactly when it is droppable and the five times lie no more than 1,500,000 ms back all together |
| MessageQueue.Queue.RecordTime | src/irc.c:151-155 | the window is shifted by one, spilling its oldest time behind the array |
| QueueProtocol.InvKept | src/irc.c:36-160 | in every variant, every step of every thread keeps producers apart, the count within 0..9, one start, every decision on the window before it, and the orphaned mutex exactly after a rejection that leaks |
| QueueProtocol.SoundKept | src/irc.c:36-160 | when the lock is not skipped, every step keeps exclusion, the list's shape between any two statements, conservation, the pending signal and accesses in bounds |
| QueueSafety.QueueIsBounded | src/irc.c:41-82 | in every interleaving of every variant at most nine messages are counted, though the test is outside the list's mutex, and at most one consumer is created |
| QueueSafety.RejectedIffFull | src/irc.c:45-49 | a message is turned away exactly when nine are counted at the test, and goes on unchanged otherwise |
| QueueSafety.OneProducerInList | src/irc.c:41-88 | in every variant no two producers are in the list's critical section |
| QueueSafety.OnlyThrottledAreDropped | src/irc.c:120-132 | a departed message was not sent exactly when it was droppable and throttled |
| QueueSafety.UnsentIff | src/irc.c:108-132 | along a run, a message is not sent exactly when it is droppable and the last five times recorded before it lie no more than 1,500,000 ms back all together |
| QueueSafety.BusyIsDropped | src/irc.c:108-132 | a droppable message after five recorded within 300,000 ms is dropped |
| QueueSafety.TimesAreInOrder | src/irc.c:116-155 | decisions and the times recorded after them alternate on one clock |
| QueueSafety.FirstFiveDepart | src/irc.c:108-132 | along a run the first five messages are sent once the clock is past 1,500,000 ms |
| QueueSafety.QuietDepart | src/irc.c:108-132 | along a run a message that leaves after 300,000 ms of quiet is sent |
| QueueSafety.RejectionClosesTheQueue | src/irc.c:45-49 | the producers' mutex is orphaned exactly after a rejection that leaks it, and then nothing is accepted or rejected any more |
| QueueSafety.NothingLost | src/irc.c:51-149 | when the lock is not skipped, accepted is departed then queued at every statement, and the queue is the list whenever the mutex is free |
| QueueSafety.StepIsAtomic | src/irc.c:51-149 | each small step leaves the queue alone, appends what it accepts, or takes the head that departs |
| QueueSafety.FirstInFirstOut | src/irc.c:134-147 | the message at position k is the (k+1)-th to leave, whatever producers do |
| QueueSafety.SectionIsAppend | src/irc.c:51-70 | from its lock to its unlock a producer, interleaved with anything, changes the memory as `Queue.Append` does |
| QueueSafety.SectionIsProcessHead | src/irc.c:108-149 | from its decision to its unlock the consumer, interleaved with anything, removes and deals with the head as `Queue.ProcessHead` does |
| QueueRaces.RejectionHappens | src/irc.c:41-49 | nine messages can be queued and a tenth rejected: the bound is attained, and the mutex stays with the rejected producer exactly when it leaks |
| QueueRaces.OrphanableIffLeaks | src/irc.c:45-49 | some run orphans the mutex exactly when the full branch leaks it |
| QueueRaces.ExclusiveIffNotSkipped | src/irc.c:100-149 | no run has a producer and the consumer in the list's critical section at once exactly when the lock is not skipped |
| QueueRaces.ConservingIffNotSkipped | src/irc.c:62-147 | with no thread in the section, what was accepted has departed or is in the list, in every run exactly when the lock is not skipped |
| QueueRaces.LosesMessage | src/irc.c:69-147 | a run in which an append between the load and the store of `msg_count--` is lost |
| QueueRaces.HeardIffNotSkipped | src/irc.c:87-106 | the consumer sleeps on a message only while a producer is about to signal, in every run exactly when the lock is not skipped |
| QueueRaces.SleepsThroughSignal | src/irc.c:87-106 | a run in which the signal comes between the unlocked test and the wait |
| QueueRaces.InBoundsIffNotSkipped | src/irc.c:62-147 | no access falls outside the list in any run exactly when the lock is not skipped |
| QueueProgress.EverythingCanDepart | src/irc.c:36-160 | when the lock is not skipped, from every state the threads at work can, without further calls, bring about that everything accepted has departed, leaking rejections or not |
| QueueProgress.DrainableIffNotSkipped | src/irc.c:87-106 | the threads at work can always empty the queue exactly when the lock is not skipped |
| Escape.EscapeBuf | src/log.c:17-53 | the escaped text without its last character, -1 exactly when 2048 bytes and a spilled '%' do not hold it, a fault exactly on the empty string |
| Escape.EscapedHasEvenRuns | src/log.c:28-47 | every maximal run of '%' in the output has even length |
| Escape.EscapedIsIdempotent | src/log.c:28-47 | escaping twice is escaping once, and exactly the texts with even runs are unchanged |
| Escape.EscapedLength | src/log.c:28-47 | n bytes grow to at most (3n+1)/2 |
| Escape.EscapedLengthIsTight | src/log.c:28-47 | the bound is attained at every length |
| Escape.EscapedSplit | src/log.c:28-47 | a byte other than '%' lets both sides escape apart |
| Escape.EscapedOfRun | src/log.c:28-47 | a run of n '%' becomes one of n, or of n + 1 if n is odd |
| Receiver.ReceiveChunk | src/server.c:162-195 | one received chunk is handed on as the lines of its escaped text, unless it starts with NUL |
| Receiver.ChunkFits | src/server.c:153-170 | a chunk of 512 bytes fits the 1024-byte buffers |
| Receiver.LinesOfEscaped | src/server.c:165-195 | splitting the escaped text gives the escaped lines of the text |
| Receiver.ReceivedLines | src/log.c:48 | with the truncation that still holds exactly when the chunk ends in CR or LF |
| EventParsers.GetPrivmsg | plugins/src/events-handler/events.c:41-129 | the token loop computes the outcome of parsing a line as a PRIVMSG |
| EventParsers.MessageIff | plugins/src/events-handler/events.c:47-119 | exactly which lines fire "got_privmsg", and with which words |
| EventParsers.GetChanEvent | plugins/src/events-handler/events.c:182-352 | the token loop, with its non-advancing branches, ends and computes the outcome of parsing a channel event |
| EventParsers.ChanEventIff | plugins/src/events-handler/events.c:182-275 | by the words of a line, exactly which lines are reported as which channel event, with which prefix, and what every other line is answered |
| EventParsers.EventReportsWords | plugins/src/events-handler/events.c:275-325 | the channel is the third word, found or created, and a reason is reported exactly when there are words for it |
| Commands.WordsAreSpelled | plugins/src/events-handler/events.c:223-242 | the bytes of the command words are those of their letters |
| WireRoundTrip.RelayedLineParses | plugins/src/events-handler/events.c:58-109 | a relayed line parses into its nick, mask, target and text |
| WireRoundTrip.TrailingParses | plugins/src/events-handler/events.c:58-109 | the text of a PRIVMSG is all that stands behind its target less the first byte, colon or not |
| WireRoundTrip.RoundTrip | src/irc_cmds.c:10-18 | every message of a chunk of relayed PRIVMSGs arrives once, in order, with its fields escaped |
| Stream.StreamArrivesIff | src/server.c:152-195 | the lines of a stream come through its chunks whole, in order and escaped exactly when every chunk ends in CR or LF and none has a NUL |
| Stream.StreamRoundTrip | src/server.c:152-195 | relayed messages cut at line ends into any chunks arrive once, in order, with their fields escaped |
| WireRoundTrip.PrefixParsersAgree | plugins/src/events-handler/events.c:63-273 | tokenising and offset arithmetic find the same nick and mask on every line with a space that starts with neither ' ' nor '!' |
| WireRoundTrip.PrefixParsersFind | plugins/src/events-handler/events.c:244-273 | on `:nick!mask COMMAND ...` both find nick and mask |
| WireRoundTrip.CommandLineParses | plugins/src/events-handler/events.c:223-275 | any channel event line yields its kind, nick and mask, and leaves the rest to the arguments |
| WireRoundTrip.PartRoundTrip | plugins/src/events-handler/events.c:223-325 | a PART is reported with nick, mask and channel, and its reason is unchanged exactly when it is not one word and a single trailing space |
| WireRoundTrip.JoinRoundTrip | plugins/src/events-handler/events.c:223-289 | a JOIN is reported with nick, mask and channel, known or created, and no reason |
| WireRoundTrip.ReasonRoundTrip | plugins/src/events-handler/events.c:223-325 | behind a JOIN, KICK or PART the reason is the text from the word behind the channel on, less its first byte |
| WireRoundTrip.KickRoundTrip | plugins/src/events-handler/events.c:223-325 | a KICK is reported with its channel and, for a reason, the victim without its first character followed by the reason with its colon |
| WireRoundTrip.QuitRoundTrip | plugins/src/events-handler/events.c:223-325 | a QUIT is reported with no channel exactly when none is known by the colon and the reason's first word; its reason then keeps the colon, and all else unless it is one word and a single space; with such a channel, that channel is reported and the word is gone from the reason |
| WireRoundTrip.InviteRoundTrip | plugins/src/events-handler/events.c:223-310 | an INVITE is reported with everything behind the invited nick for a channel |
| WireRoundTrip.InviteThenQuit | plugins/src/events-handler/events.c:277-325 | an INVITE with a colon before its channel creates one that a later QUIT with that channel for a reason is reported with, without a reason |
| Channels.ChannelRegistry.GetChannel | src/channel.c:68-86 | the first channel of that name on that server, none exactly when there is none |
| Channels.ChannelRegistry.GetOrCreate | plugins/src/channel-handler/channelhandler.c:74-83 | finds or appends, and keeps keys unique |
| Channels.AnswerIsWhatWasAsked | src/channel.c:68-86 | in every program and interleaving a request that got a channel got the one of its name on its thread's server |
| Channels.AnswerIsFirstOrNew | src/channel.c:43-86 | an answer is the first channel of that name and server, or a new one at the end of the list |
| Channels.PendingIffWorking | plugins/src/channel-handler/channelhandler.c:74-83 | a request is open exactly while its thread is at work on it |
| Channels.SettledOnce | plugins/src/channel-handler/channelhandler.c:74-83 | each request is answered or given up once, for good |
| Channels.SectionIsGetOrCreate | plugins/src/channel-handler/channelhandler.c:74-83 | from asking to its answer, interleaved with anything, a request changes its server's channels as `GetOrCreate` does |
| Channels.ReplyChannel | plugins/src/channel-handler/channelhandler.c:65-72 | the channel cut out of a numeric reply is the name it holds |
| Channels.UniqueIffOneAlive | src/channel.c:43-86 | every interleaving keeps (name, server) unique exactly when no server ever has two receiver threads alive at once |
| Channels.RejoinKeepsUnique | plugins/src/core/core.c:266-330 | however often servers are rejoined, channels stay unique if a thread starts only when its server has none |
| Channels.RejoinHappens | plugins/src/core/core.c:266-330 | a server whose thread has ended can get a new one |
| Channels.SameKeySameChannel | src/channel.c:43-86 | every request for a name on a server, found or created, gets the same channel |

## Left out

- The 253 entries of the entity table: every result holds for any table that meets `ValidTable`.
- Sockets, `select`, DNS, configuration files, curl, regular expressions and `dlopen`: received chunks, matched titles and what callbacks answer are arbitrary inputs.
- PluginHandler.Handler.ExecuteCallbacks: callbacks that register or remove others, or dispatch themselves, while an event is being dispatched.
- EventParsers.GetChanEvent: an offset that wraps below zero is reported as `Fault` and what the program does after it is not modelled; channels are known by name.
- QueueRaces.ConservingIffNotSkipped: releasing, or waiting on, the list's mutex without holding it has no defined effect; it is modelled as changing nothing, so the runs of the skipping consumer are some of those the program may have.
- The decision with the sending of the head, and the copy into the shrunk list, are one step of the consumer each.
- What the program does after a fault, be it an access outside the message list, the plugin list or a bucket.
- The event name an index entry borrows from a plugin's memory stays valid in the model after the plugin is unloaded.
- Channels.ChannelName: a numeric reply without '#' or without a space behind it, for which the program reads outside the text.
- In-place writes of `strtok_r` to its local buffer: a token and the text behind the save pointer are values.
- Stream.StreamRoundTrip: the converse, for messages; of a stream cut elsewhere `StreamArrivesIff` says that its lines do not come through whole, not what parsing makes of them.
- Removal of users from channels, the lists of names and topics, and the server pool are not modelled.
- The remaining plugins and the Python bridge.
