# The firmware's cores, verified

A Dafny model of the load controller's firmware (`Firmware/Sources`): its bus protocols, its inter-task protocols and
its codecs. Each protocol is a state machine whose steps are what the firmware does between two points where something
else can happen, and the theorems are about all its runs. Each sequential algorithm is a method with the firmware's own
loop and branches, proved against a function that says what it should compute, and the theorems are about that function.

`dafny verify dfyconfig.toml` checks everything. `Common` holds what several modules share.

## What is modelled

- **The interrupt-driven I2C master** (`I2CBus`, `I2CMaster`, `I2CRuns`, `I2CTheorems`, `I2CDriver`). One step is one run
  of the interrupt handler: the peripheral reports an outcome, the handler reads and writes registers, the peripheral
  puts events on the wire. `I2CRuns` holds the reference, which knows no interrupts: what goes over the wire for a whole
  transaction after another, and what memory holds then. Its invariant ties every intermediate state of the handler to a
  prefix of that. `I2CDriver.I2C` is the driver object; its methods equal the steps.
- **The configuration service** (`ConfdTags`, `ConfdRouting`, `PacketPool`): 8-bit wrapping tags, at most four requests
  in flight, tasks woken by tag, the one-shot broadcast that the host is there, and the pool of packet buffers.
- **The shutdown hand-shake** (`Shutdown`) and **the control task** (`ControlTask`): notification bits that stay until
  they are taken and may fall together.
- **Codecs and arithmetic**: the UTF-8 automaton against RFC 3629 (`Utf8`), base32 against RFC 4648 (`Base32`, on the
  bit strings of `Bits`), MurmurHash3 (`Murmur`, with published values in
  `MurmurValues`) and the timer's search for a prescaler and a period (`TimerSearch`).
- **Devices**: page writes and reads of the EEPROM, down to what the I2C master puts on the wire for them (`Eeprom`), the
  walk over the inventory ROM (`InventoryRom`), SPI transfers in words and by DMA (`SpiTransfer`), and the bus switch
  whose driver keeps a note of the active channel (`Mux`).

Numbers stand for machine words wherever nothing can overflow; where the firmware relies on wrapping (the base32 and
UTF-8 accumulators, the hash, the timer's products, EEPROM addresses, tags) the wrapping is written out.

## What the proofs found

Where the code falls short of its documentation the model follows the code, and a theorem says exactly when it is right.

- A transaction that carries on without a restart is only sound as a write to the device written to before it. After a
  read it leaves the task waiting for ever; otherwise the batch completes with code 0 but did something else.
  `CompletesInExactlyAllRuns` and `CompletedBatchDelivers` are equivalences, with the flags of the batch on one side.
- The documentation of `continuation` says that the bus is not relinquished. After a read of several bytes it is: the
  driver issues a STOP with the last byte (`ContinuationKeepsBus`).
- The counter that should bound the packet buffers is never incremented. Nothing bounds them but the number of callers,
  and three concurrent callers can halt the system (`HaltsWithThree`).
- `writeData` with an unaligned start hands the whole span to the first page write. It succeeds exactly if the data ends
  with that page (`WriteData`). The documentation of `PageWrite` says that its length is reduced to the rest of the page;
  the code refuses such a write.
- A shutdown handler that registers between the request and the acknowledgement is counted but never called, so the host
  is never told (`FinishesExactlyIfNobodyLate`).
- `activateBus` and `deactivateBus` store their note after giving back the lock. With two tasks, one direct call can leave
  the note wrong, and a later batch goes out on the other channel (`IsolatedExactly`).
- The control task reads the enable state again to remember it, and the user interface reads it once more when it is told.
  If the state changes in between and back, the interface may go on showing the old one; `ShowsTruthExactly` names the
  three moments and shows that none can be spared. What the driver is told always converges (`Converges`).
- The timer search means to find the least error. It finds the least output frequency that is not below the request; a
  setting just below may be seventy times closer (`NotTheNearest`), and `FoundHasLeastError` says exactly when there is
  none. For requests of 4 MiHz and more its products wrap: it may report success for what no setting attains, exactly if
  the request deceives (`FoundRightly`), or prefer a setting far below, exactly if it is misled (`FoundOptimally`).
- An atom's buffer is handed over whole, whatever part of it was filled. What the caller gets is the payload exactly if
  no buffer is longer than that (`HandsOverPayloads`).
- An SPI transfer by DMA without a transmit buffer sends nothing but its tail, and nobody looks at how a DMA transfer
  ended; both return 0 (`SendsWhatIsAsked`).

## Model

| member | source | states |
|---|---|---|
| I2CBus.ValidateTransactions | Firmware/Sources/Drivers/I2CBus.cpp:17-40 | a list is accepted exactly if every transaction has a length, a buffer, and does not continue from nothing; otherwise the error is that of the first bad one |
| I2CRuns.StartKeeps | Firmware/Sources/Drivers/I2C.cpp:239-259 | starting any validated batch establishes the invariant of the interrupt handler |
| I2CRuns.StepKeeps | Firmware/Sources/Drivers/I2C.cpp:296-563 | every run of the interrupt handler, in each of its states and for each outcome on the bus, keeps the invariant that wire, memory and fields are a prefix of the reference conversation |
| I2CRuns.InRange | Firmware/Sources/Drivers/I2C.cpp:302-302 | the transaction index and the byte offset are in range wherever the handler uses them |
| I2CRuns.NextKeeps | Firmware/Sources/Drivers/I2C.cpp:538-560 | finishing one transaction and beginning the next keeps the invariant, with and without a STOP |
| I2CRuns.AddressRefused | Firmware/Sources/Drivers/I2C.cpp:325-341 | a bus error or a missing acknowledgement in the address phase ends the batch with its own code, and with a STOP for the latter |
| I2CRuns.AddressWritten | Firmware/Sources/Drivers/I2C.cpp:343-350 | an acknowledged write address, or a transaction that carries on, sends the first byte of the buffer |
| I2CRuns.AddressReadOne | Firmware/Sources/Drivers/I2C.cpp:357-393 | a one-byte read is stored, refused, and followed by the STOP or the address it needs |
| I2CRuns.WriteStep | Firmware/Sources/Drivers/I2C.cpp:437-470 | each acknowledged byte is followed by the next one or by the next transaction; a refused one ends the batch |
| I2CRuns.ReadLast | Firmware/Sources/Drivers/I2C.cpp:480-503 | the last byte of a longer read is stored, after a STOP command |
| I2CTheorems.SingleCompletion | Firmware/Sources/Drivers/I2C.cpp:296-563 | in every run of a validated batch the handler never panics, its indices stay in range, it signals at most once, and nothing is reported after that; code 0 means that all transactions are done |
| I2CTheorems.CompletesInExactlyAllRuns | Firmware/Sources/Drivers/I2C.cpp:323-560 | a fully acknowledged run completes after exactly one handler run per byte and one more per write, if and only if no transaction carries on after a read |
| I2CTheorems.AcknowledgingDeviceCompletes | Firmware/Sources/Drivers/I2C.cpp:323-560 | such a run exists from every state in which nothing carries on after a read |
| I2CTheorems.DeliveredSoFar | Firmware/Sources/Drivers/I2C.cpp:296-563 | in every state that keeps the invariant the devices have exchanged exactly the bytes moved so far, under the addresses in force |
| I2CTheorems.EveryRunDelivers | Firmware/Sources/Drivers/I2C.cpp:296-563 | so at every moment of every run of every validated batch |
| I2CTheorems.CompletedBatchDelivers | Firmware/Sources/Drivers/I2C.cpp:296-563 | a batch that has completed with code 0 has exchanged exactly what its list asks for, if and only if every transaction that carries on is a write to the device it follows |
| I2CTheorems.EveryCompletedRunDelivers | Firmware/Sources/Drivers/I2C.cpp:202-286 | the same of every run of every validated batch that ends with code 0 |
| I2CTheorems.CarryingOnElsewhereGoesUnnoticed | Firmware/Sources/Drivers/I2C.cpp:644-649 | for every other batch, nothing of which carries on after a read, there is a run that completes with code 0 and did something else |
| I2CTheorems.CompletedBatchFillsBuffers | Firmware/Sources/Drivers/I2C.cpp:392-412 | after code 0 each read buffer holds the bytes received for it, and memory outside read buffers is untouched |
| I2CTheorems.EveryCompletedRunFillsBuffers | Firmware/Sources/Drivers/I2C.cpp:392-412 | the same of every run of every validated batch that ends with code 0 |
| I2CTheorems.AcknowledgeDiscipline | Firmware/Sources/Drivers/I2C.cpp:402-494 | at every moment, of each read finished or under way, in its own place on the wire: the byte with index `k` is refused if and only if `k` is `length - 1`, over address phase, second byte and later ones, whatever becomes of the batch |
| I2CTheorems.EveryRunAcknowledges | Firmware/Sources/Drivers/I2C.cpp:402-494 | the same at every moment of every run of every validated batch |
| I2CTheorems.ContinuationKeepsBus | Firmware/Sources/Drivers/I2C.cpp:486-490 | at every moment, what lies on the wire between a finished transaction and its continuation holds no STOP, if and only if the former is not a read of several bytes |
| I2CDriver.I2C.BeginTransaction | Firmware/Sources/Drivers/I2C.cpp:625-650 | STOP unless continued, acknowledge action, and address unless skipped, as the state machine has it |
| I2CDriver.I2C.IrqMasterOnBus | Firmware/Sources/Drivers/I2C.cpp:296-563 | the handler over the driver's fields is the state machine's step |
| I2CDriver.I2C.Perform | Firmware/Sources/Drivers/I2C.cpp:202-286 | refuses a disabled driver, an empty list or an invalid one and changes nothing; otherwise returns exactly when the handler has signalled, with its code, in a state that keeps the invariant |
| ConfdTags.NextIsUnique | Firmware/Sources/Rpc/Endpoints/Confd/Handler.cpp:214-216 | the next tag is determined by the last one and those in use |
| ConfdTags.Handler.Register | Firmware/Sources/Rpc/Endpoints/Confd/Handler.cpp:214-218 | with room in the table, the block gets the first tag after the last that is neither zero nor in use, found within two tries more than there are entries |
| ConfdTags.Handler.Take | Firmware/Sources/Rpc/Endpoints/Confd/Handler.cpp:134-144 | a known tag yields its block and leaves the table without it; an unknown one leaves the table alone |
| ConfdTags.ReuseDistance | Firmware/Sources/Rpc/Endpoints/Confd/Handler.h:118-132 | in every run of allocations and releases with at most four in flight, at least 251 other allocations lie between two of the same tag |
| ConfdRouting.ReturnsOwnReply | Firmware/Sources/Rpc/Endpoints/Confd/Handler.cpp:121-265 | over all interleavings, a task that returns 0 holds a block decoded from exactly one reply, to the tag in its own header |
| ConfdRouting.InFlightDistinct | Firmware/Sources/Rpc/Endpoints/Confd/Handler.cpp:207-224 | over all interleavings, tags in flight are nonzero and at most four, and stand for different tasks, whose headers carry them |
| ConfdRouting.UnknownTagIgnored | Firmware/Sources/Rpc/Endpoints/Confd/Handler.cpp:134-139 | handling a reply to an unknown tag changes neither the table nor any task |
| ConfdRouting.NoLostAnswer | Firmware/Sources/Rpc/Endpoints/Confd/Handler.cpp:141-165 | over all interleavings, a waiting task's block is in the table, in the hands of the message handler, or its task has been notified |
| ConfdRouting.RemoteWaitIsSound | Firmware/Sources/Rpc/Endpoints/Handler.h:51-107 | over all interleavings, no task passes the wait before a first message, and none is stranded after it |
| ConfdRouting.AnswerReturns | Firmware/Sources/Rpc/Endpoints/Confd/Handler.cpp:121-265 | from every state that a run leads to, with a blocked task in the table and the message handler listening: receiving a reply to its tag and handling it brings the task back with just that reply, takes its tag out of the table, and changes nothing else |
| ConfdRouting.CanReturn | Firmware/Sources/Rpc/Endpoints/Confd/Handler.cpp:183-265 | from every state that a run leads to there is a run that brings any given task back from a request, with a reply to its own tag, whatever the others are at and however full the table is |
| ConfdRouting.CanBeDone | Firmware/Sources/Rpc/Endpoints/Confd/Handler.cpp:262-265 | and one after which it may make another request |
| PacketPool.Service.GetPacketBuffer | Firmware/Sources/Rpc/Endpoints/Confd/Service.cpp:61-81 | the oldest cached buffer, else a new one, else none; never one that somebody holds; it is the pool's step |
| PacketPool.Service.DiscardPacketBuffer | Firmware/Sources/Rpc/Endpoints/Confd/Service.cpp:90-102 | the buffer goes to the back of the cache, and the system halts exactly if that is full; it is the pool's step |
| PacketPool.Service.SerializeQuery | Firmware/Sources/Rpc/Endpoints/Confd/Service.cpp:324-377 | no buffer, two ways to fail, or a packet: a failure leaves nothing taken |
| PacketPool.Service.SerializeUpdate | Firmware/Sources/Rpc/Endpoints/Confd/Service.cpp:653-731 | no buffer, three ways to fail, or a packet: a failure leaves nothing taken |
| PacketPool.Service.Exchange | Firmware/Sources/Rpc/Endpoints/Confd/Service.cpp:621-623 | whatever sending comes to, and whatever others do meanwhile, the packet is given back unless the system has halted |
| PacketPool.Service.GetCommon | Firmware/Sources/Rpc/Endpoints/Confd/Service.cpp:118-147 | on every exit the caller has given back what it took, with any interleaving of others while it waits: what it does is a run of the pool, and its result is the first error or the answer |
| PacketPool.Service.SetCommon | Firmware/Sources/Rpc/Endpoints/Confd/Service.cpp:610-639 | the same for updates |
| PacketPool.Conservation | Firmware/Sources/Rpc/Endpoints/Confd/Service.cpp:61-102 | over all interleavings, every buffer ever allocated is cached once or held by one caller, and there are as many as were ever held at once |
| PacketPool.HaltsOnlyPastTwo | Firmware/Sources/Rpc/Endpoints/Confd/Service.cpp:98-98 | while no more than two buffers are ever held at once, giving one back never halts the system |
| PacketPool.HaltsWithThree | Firmware/Sources/Rpc/Endpoints/Confd/Service.cpp:66-75 | some interleaving of `n` callers halts the system if and only if `n` exceeds two |
| Shutdown.MessageHandler.AddShutdownHandler | Firmware/Sources/Rpc/MessageHandler.cpp:136-143 | registering is one step of the hand-shake, at any time |
| Shutdown.MessageHandler.CallHandlers | Firmware/Sources/Rpc/MessageHandler.cpp:93-97 | the callbacks, undisturbed, are made for every handler in reverse order, by steps of the message handler alone; all handlers are called then, none has acknowledged, and the counter is what it was |
| Shutdown.MessageHandler.AckShutdown | Firmware/Sources/Rpc/MessageHandler.cpp:160-169 | an acknowledgement is two steps, off the counter and then the notification |
| Shutdown.HostToldLast | Firmware/Sources/Rpc/MessageHandler.cpp:84-123 | over all interleavings, the host is told only after every handler there was at the request has been called once, in reverse order, and has acknowledged |
| Shutdown.CalledInReverse | Firmware/Sources/Rpc/MessageHandler.cpp:93-97 | over all interleavings, callbacks come in reverse order of registration, once each, and before any acknowledgement of the same handler |
| Shutdown.NoLostWakeUp | Firmware/Sources/Rpc/MessageHandler.cpp:100-112 | over all interleavings, the handler never waits with the counter at zero, no notification pending and nobody about to notify |
| Shutdown.FinishesExactlyIfNobodyLate | Firmware/Sources/Rpc/MessageHandler.cpp:136-143 | from the request until the count is found zero, the hand-shake can finish if and only if no handler has registered since the request |
| ControlTask.Task.SetCurrentSetpoint | Firmware/Sources/App/Control/Task.h:186-189 | the argument is stored in its field, no other field but the notification bit changes, and that is set after the store |
| ControlTask.Task.SetIsLoadActive | Firmware/Sources/App/Control/Task.h:196-199 | the argument is stored in its field, no other field but the notification bit changes, and that is set after the store |
| ControlTask.Task.SetExternalSenseActive | Firmware/Sources/App/Control/Task.h:174-177 | the argument is stored in its field, no other field but the notification bit changes, and that is set after the store |
| ControlTask.Task.UpdateConfig | Firmware/Sources/App/Control/Task.cpp:248-274 | undisturbed, the driver is told the current and then to switch on, or to switch off and then the current, and the interface is told of a change |
| ControlTask.Task.Round | Firmware/Sources/App/Control/Task.cpp:88-112 | undisturbed, one turn of the main loop is a run of steps of the task alone; the driver is told what was notified, in order, and no more |
| ControlTask.Converges | Firmware/Sources/App/Control/Task.cpp:88-116 | over all interleavings, once no setter is under way, no bit is pending and the task waits, the driver has been told the sense relay that was stored last, and the current and the enable state that were stored last, and nothing if nothing was stored |
| ControlTask.GetsQuiet | Firmware/Sources/App/Control/Task.cpp:88-116 | from every state things get quiet by steps of the task and pending notifications alone |
| ControlTask.NeverOnWithoutCurrent | Firmware/Sources/App/Control/Task.cpp:251-258 | over all interleavings, the load is not enabled before the driver has been given a current |
| ControlTask.FieldsHoldLast | Firmware/Sources/App/Control/Task.h:174-199 | over all interleavings, each field holds the argument of the last call of its setter |
| ControlTask.OffBeforeCurrent | Firmware/Sources/App/Control/Task.cpp:259-266 | over all interleavings, an update that switches the load off commands the current to a driver that is off already |
| ControlTask.ShowsTruthExactly | Firmware/Sources/App/Control/Task.cpp:269-273 | for an interface assumed to read the enable state after it was told of a change, which is not part of the repository: it always ends up right, if and only if nobody changes the state while the task remembers it, nor while the interface's bit is pending, nor while the interface is about to read |
| ControlTask.InterfaceMisled | Firmware/Sources/App/Control/Task.cpp:269-273 | for the interface so assumed, and each of the three left unguarded, with the others guarded or not: a run that leaves it wrong |
| Utf8.ClassTable | Firmware/Sources/Util/Unicode.h:12-21 | the first half of the table holds the class of each byte |
| Utf8.StateTable | Firmware/Sources/Util/Unicode.h:22-27 | the second half holds the next state for each state and class |
| Utf8.Decode | Firmware/Sources/Util/Unicode.h:49-59 | one byte through the tables is one step of the reference decoder |
| Utf8.RejectStays | Firmware/Sources/Util/Unicode.h:23-23 | reject is absorbing |
| Utf8.DecodesExactlyRfc3629 | Firmware/Sources/Util/Unicode.h:49-59 | over any byte string the decoder ends in accept if and only if the string is well formed by section 4 of RFC 3629, and then found the values of section 3 in order |
| Utf8.EncodedIsWellFormed | Firmware/Sources/Util/Unicode.h:35-48 | what section 3 of RFC 3629 encodes is well formed by section 4 and decodes to the same scalar values |
| Utf8.WellFormedIsEncoded | Firmware/Sources/Util/Unicode.h:35-48 | what is well formed by section 4 of RFC 3629 is the encoding of its values by section 3 |
| Utf8.Strlen | Firmware/Sources/Util/Unicode.h:68-83 | the number of code points of a terminated string, below 2^31 the count itself, or -1 exactly when it is malformed |
| Base32.Refill | Firmware/Sources/Util/Base32.h:41-51 | another byte, or zeros at the end, leaves the groups to come unchanged, whatever the 32-bit accumulator drops |
| Base32.Encode | Firmware/Sources/Util/Base32.h:27-63 | as many letters as fit of the unpadded encoding of section 6 of RFC 4648, of one letter per five bits begun, terminated if there is room |
| Base32.ReadOne | Firmware/Sources/Util/Base32.h:82-111 | one character, ignored, corrected, refused or taken into the 32-bit accumulator, and the byte that leaves it |
| Base32.Decode | Firmware/Sources/Util/Base32.h:73-122 | for any text with a terminator, or without one that is spoilt or fills the buffer: the whole bytes it stands for, as many as fit, or -1 if a bad character comes before the buffer is full |
| Base32.RoundTripUnterminated | Firmware/Sources/Util/Base32.h:27-122 | into a buffer of the length of the data, what was encoded decodes to itself without a terminator, and is not read past its end |
| Base32.RoundTrip | Firmware/Sources/Util/Base32.h:27-122 | what was encoded and terminated decodes to itself in any buffer large enough |
| Base32.LetterStands | Firmware/Sources/Util/Base32.h:28-28 | each number is written as the letter in its place of the alphabet A to Z, 2 to 7, and read back from it |
| Base32.DecodesAsMeant | Firmware/Sources/Util/Base32.h:82-107 | any text decodes as the same text in capitals, with 0, 1 and 8 as O, L and B, and without spaces, tabs, line ends and dashes |
| Murmur.TailWord | Firmware/Sources/Util/Hash.cpp:71-76 | the fall-through switch puts the last bytes together as a word padded with zeros, whose bytes are those of `WordBytes` |
| MurmurValues.WordBytes | Firmware/Sources/Util/Hash.cpp:18-20 | for all data, byte `j` of aligned word `k`, counted from the low end, is byte `4k + j` of the data, or zero past its end |
| Murmur.MurmurHash3 | Firmware/Sources/Util/Hash.cpp:41-85 | the loop over blocks, the tail and the finaliser compute the reference hash, which has the published values |
| MurmurValues.HashOfNothing | Firmware/Sources/Util/Hash.cpp:41-85 | no data, seed 1: 0x514e28b7 |
| MurmurValues.HashOfTest | Firmware/Sources/Util/Hash.cpp:41-85 | "test", seed 0: 0xba6bd213 |
| MurmurValues.HashOfHello | Firmware/Sources/Util/Hash.cpp:41-85 | "Hello, world!", seed 0x9747b28c: 0x24884cba |
| Murmur.RotlBack | Firmware/Sources/Util/Hash.cpp:7-9 | a rotation is undone by the complementary one |
| Murmur.FmixBack | Firmware/Sources/Util/Hash.cpp:25-33 | the finaliser has a left inverse |
| Murmur.FmixForth | Firmware/Sources/Util/Hash.cpp:25-33 | and it is a right inverse too |
| Murmur.MixTo | Firmware/Sources/Util/Hash.cpp:57-63 | exactly one word takes the state to any given next state |
| Murmur.SeedBijection | Firmware/Sources/Util/Hash.cpp:41-85 | for fixed data exactly one seed gives any given hash |
| Murmur.OneWordNeverCollides | Firmware/Sources/Util/Hash.cpp:41-85 | inputs of one length that differ in one aligned word only, or in the tail only, have different hashes |
| TimerSearch.CalculateFrequency | Firmware/Sources/Drivers/TimerCounter.cpp:287-350 | the loop over prescalers finds what the search function finds, and writes the outputs only then |
| TimerSearch.DivisibleExactly | Firmware/Sources/Drivers/TimerCounter.cpp:323-323 | no division by zero, if and only if the request is no multiple of 4 MiHz |
| TimerSearch.FoundExactly | Firmware/Sources/Drivers/TimerCounter.cpp:319-346 | for requests below 4 MiHz: success if and only if the request is not above the input clock and not more than 256 times below its 1024th part |
| TimerSearch.SearchKeepsFirstBest | Firmware/Sources/Drivers/TimerCounter.cpp:331-346 | for every request: of the settings whose wrapped period fits, the first that deviates least, and none only if there is none |
| TimerSearch.EachPrescalerIsNeeded | Firmware/Sources/Drivers/TimerCounter.cpp:301-304 | for every power of two up to 1024, a request that needs that division with the longest period gets the prescaler that divides so, or for 32, 128 and 512 the next one with half the period |
| TimerSearch.FoundRightly | Firmware/Sources/Drivers/TimerCounter.cpp:319-346 | for every request: success means attainable and failure not, if and only if it is not a request above the input clock some wrapped product of which the clock contains up to 256 times |
| TimerSearch.FoundOptimally | Firmware/Sources/Drivers/TimerCounter.cpp:331-346 | for every request with success: the output is not below it and no possible setting that is not below it gives less, if and only if some prescaler that does not wrap deviates no more than any that does |
| TimerSearch.Misleads | Firmware/Sources/Drivers/TimerCounter.cpp:337-345 | for a clock of 3 GiHz and a request of 1717986918 Hz the wrapped product looks better |
| TimerSearch.FoundHasLeastError | Firmware/Sources/Drivers/TimerCounter.cpp:313-316 | for every request with success: the setting has the least error of all possible ones, if and only if the search is not so misled and for no prescaler the setting next below the request is closer than every one above |
| TimerSearch.FoundIsOptimal | Firmware/Sources/Drivers/TimerCounter.cpp:331-346 | for requests below 4 MiHz: the output found is not below the request, and no listed prescaler with any 8-bit period gives one that is lower and not below it |
| TimerSearch.DeviationIs | Firmware/Sources/Drivers/TimerCounter.cpp:333-337 | the signed difference does not overflow |
| TimerSearch.NotTheNearest | Firmware/Sources/Drivers/TimerCounter.cpp:313-316 | for a 120 MHz clock and a request of 4.14 MHz a setting below is seventy times closer |
| TimerSearch.AttainsTheImpossible | Firmware/Sources/Drivers/TimerCounter.cpp:323-323 | for a 120 MHz clock and a request of 0x800003e8 Hz, above anything attainable, success is reported: such a request deceives |
| Eeprom.PageIsSplice | Firmware/Sources/Drivers/I2CDevice/AT24CS32.cpp:83-86 | a page write that stays in its page is a plain write |
| Eeprom.WriteThenRead | Firmware/Sources/Drivers/I2CDevice/AT24CS32.h:85-90 | data written, from any address on, is read back, and everything else is as it was |
| Eeprom.WriteBatchFits | Firmware/Sources/Drivers/I2CDevice/AT24CS32.cpp:96-113 | the two transactions of a page write are a valid batch that carries on to the same device |
| Eeprom.PageWriteOnWire | Firmware/Sources/Drivers/I2CDevice/AT24CS32.cpp:92-115 | in every state of the I2C master that keeps the invariant, during a page write the chip has seen a prefix of address and data in one go, and all of it on code 0 |
| Eeprom.EveryWriteSends | Firmware/Sources/Drivers/I2CDevice/AT24CS32.cpp:92-115 | so in every run of the I2C master for a page write |
| Eeprom.ReadOnWire | Firmware/Sources/Drivers/I2CDevice/AT24CS32.cpp:32-54 | in every state that keeps the invariant, after a read with code 0 the address went out, the buffer holds what came back for it, and other memory is untouched |
| Eeprom.EveryReadFills | Firmware/Sources/Drivers/I2CDevice/AT24CS32.cpp:32-54 | so in every run of the I2C master for a read that ends with code 0 |
| Eeprom.MessageWrites | Firmware/Sources/Drivers/I2CDevice/AT24CS32.cpp:91-115 | however a page write ends, the chip holds its old contents with the prefix of the data it took |
| Eeprom.RunHasOutcome | Firmware/Sources/Drivers/I2CDevice/AT24CS32.cpp:96-115 | in every run of the I2C master for a page write that signals, the chip that takes what was delivered ends as one of the outcomes the driver is modelled with, with the code of the run |
| Eeprom.AT24CS32.Read | Firmware/Sources/Drivers/I2CDevice/AT24CS32.cpp:24-55 | refuses an empty buffer and one over 0x800 bytes; on success the buffer holds the cells from the address on |
| Eeprom.AT24CS32.PageWrite | Firmware/Sources/Drivers/I2CDevice/AT24CS32.cpp:74-123 | refuses what does not fit the page and changes nothing then; otherwise the chip takes the data, or a prefix on failure, and no write wraps |
| Eeprom.AT24CS32.WriteData | Firmware/Sources/Drivers/I2CDevice/AT24CS32.h:106-148 | after every batch the chip holds its old contents with a prefix of the data spliced in, and with all of it on return of 0; another code is that of a failed batch or of an unaligned start; no page write wraps; on a working bus it succeeds if and only if the start is aligned or the data ends with the first page |
| InventoryRom.Visit | Firmware/Sources/Util/InventoryRom.cpp:54-86 | one round reads a header, asks the caller, reads the prefix of the payload that fits, and hands over the caller's whole buffer, with what was in it behind that |
| InventoryRom.GetAtoms | Firmware/Sources/Util/InventoryRom.cpp:26-102 | the header checks and the loop make the calls of the reference walk, and terminate on every finite image |
| InventoryRom.RoundTrip | Firmware/Sources/Util/InventoryRom.cpp:51-97 | for a valid header, any well-formed atoms and End, all atoms are found in order, each buffer offered is filled from its payload and handed over whole, and the code is their number plus one |
| InventoryRom.HeaderTakenExactly | Firmware/Sources/Util/InventoryRom.cpp:41-47 | a header of any bytes is valid if and only if its magic number, high byte first, is 0x494E5669, its size is at least 8, its version at most 0x1F, and its offset, high byte first, not below its size |
| InventoryRom.WholeRoundTrip | Firmware/Sources/Util/InventoryRom.cpp:40-97 | the round trip for a whole printed image, header and all |
| InventoryRom.HandsOverPayloads | Firmware/Sources/Util/InventoryRom.cpp:75-83 | what is handed over is exactly the part of each payload that was read, if and only if no buffer is longer than the payload it is filled from |
| InventoryRom.LongBufferHandsOverMore | Firmware/Sources/Util/InventoryRom.cpp:75-83 | for a payload of four bytes and a buffer of sixteen, twelve bytes that were in it before are handed over too |
| InventoryRom.CountExactlyForImages | Firmware/Sources/Util/InventoryRom.cpp:40-97 | the code is `n + 1` if and only if the image is a valid header and a list of `n` well-formed atoms and End |
| SpiTransfer.LowestFirst | Firmware/Sources/Drivers/Spi.h:216-222 | the bytes of a word go over the wire lowest first |
| SpiTransfer.Spi.Gather | Firmware/Sources/Drivers/Spi.h:216-222 | the word written shifts out the transmit bytes in order, or zeros |
| SpiTransfer.Spi.StoreReceived | Firmware/Sources/Drivers/Spi.h:246-252 | the bytes received are stored in order |
| SpiTransfer.Spi.DoPolledTransferSingle | Firmware/Sources/Drivers/Spi.h:213-254 | the last one to three bytes are exchanged, and no more are shifted |
| SpiTransfer.Spi.DoPolledTransfer | Firmware/Sources/Drivers/Spi.cpp:234-299 | for every length, words and tail send exactly the transmit bytes or that many zeros, and store exactly the bytes received, even into the transmit buffer |
| SpiTransfer.Spi.DoDmaTransfer | Firmware/Sources/Drivers/Spi.cpp:147-219 | DMA and tail send what the reference says, refuse more than 0xffff words, and halt for a receive buffer with the receiver on |
| SpiTransfer.Spi.Perform | Firmware/Sources/Drivers/Spi.cpp:113-138 | one transaction after another, by DMA above 128 bytes, up to the first that fails; 0 if and only if every transaction has a length and a buffer, and none that goes by DMA sends more than 0xffff words or receives; -201 for an empty list |
| SpiTransfer.EndsWellExactly | Firmware/Sources/Drivers/Spi.cpp:113-166 | over all lists, a call ends with 0 if and only if every transaction has a length and at least one buffer, and none over 128 bytes on a port with DMA sends more than 0xffff words or receives with the receiver on |
| SpiTransfer.EndsAsFirstImpossible | Firmware/Sources/Drivers/Spi.cpp:113-166 | otherwise it ends with -200, with -301 or in an assertion, as its first such transaction says, having sent and stored just what comes before that |
| SpiTransfer.SendsWhatIsAsked | Firmware/Sources/Drivers/Spi.cpp:113-138 | a call that returns 0 has sent the concatenation of what was asked for, if and only if every transfer by DMA had a transmit buffer and was not cut short |
| SpiTransfer.SendsNothing | Firmware/Sources/Drivers/Spi.cpp:172-191 | a transfer of 132 bytes by DMA without a transmit buffer returns 0, and nothing is sent |
| SpiTransfer.ReceivesInOrder | Firmware/Sources/Drivers/Spi.cpp:113-138 | after a call that ends well and sends what is asked, every address of a receive buffer that no later transaction overwrites holds what came back for its byte, counted over all transactions |
| Mux.PCA9543A.SendPacket | Firmware/Sources/Drivers/I2CDevice/PCA9543A.cpp:111-137 | the lock is taken and given back around one write to the chip, which selects the channel the byte stands for |
| Mux.PCA9543A.ActivateBus | Firmware/Sources/Drivers/I2CDevice/PCA9543A.cpp:79-89 | the byte with the bit of that channel goes out, and the note is stored after a successful write only |
| Mux.PCA9543A.DeactivateBus | Firmware/Sources/Drivers/I2CDevice/PCA9543A.cpp:94-102 | a zero goes out, and the note is cleared after a successful write only |
| Mux.PCA9543A.Perform | Firmware/Sources/Drivers/I2CDevice/PCA9543A.cpp:189-214 | a batch goes out with its channel on, switched to only if needed, or, if the switching fails, not at all; the result is that of the batch or of the switching, and the lock is given back on every exit |
| Mux.BatchRuns | Firmware/Sources/Drivers/I2CDevice/PCA9543A.cpp:189-214 | what the method does undisturbed is a run of the interleaved steps |
| Mux.DirectRuns | Firmware/Sources/Drivers/I2CDevice/PCA9543A.cpp:79-102 | and so for a direct call |
| Mux.BatchesIsolated | Firmware/Sources/Drivers/I2CDevice/PCA9543A.cpp:189-214 | over all interleavings of downstream batches, each has its own channel on from beginning to end with nothing between, and the note agrees with the chip whenever the lock is free |
| Mux.LockBalanced | Firmware/Sources/Drivers/I2CDevice/PCA9543A.cpp:111-137 | over all interleavings, direct calls included, an idle task does not hold the lock, and it is free when all are idle |
| Mux.CanGoOut | Firmware/Sources/Drivers/I2CDevice/PCA9543A.cpp:189-214 | from every state that a run leads to, direct calls included, any task can get a batch out on either channel |
| Mux.DirectCallsMislead | Firmware/Sources/Drivers/I2CDevice/PCA9543A.cpp:82-86 | a run of two tasks in which one direct call leaves the note wrong, and a batch goes out on the other channel |
| Mux.IsolatedExactly | Firmware/Sources/Drivers/I2CDevice/PCA9543A.cpp:79-102 | every run of `n` tasks keeps batches isolated, if and only if tasks do not switch channels directly or there is at most one task |

## Left out

- The error interrupt of the I2C master and a bus error in the data phase: the code leaves open who completes the batch.
- Register synchronisation, clocks, NVIC, enabling, reset and the timeouts that halt the system; the `DMA` controller's own registers.
- The bus lock of the I2C driver: `perform` is modelled from the point where the lock is held.
- Finite timeouts, abandoned requests and failed sends of the configuration service: a failed send deletes a block that is still in the table.
- A table of requests that is full: the model lets no fifth request in; what the container does then is not part of the source.
- CBOR payloads: decoding is an opaque value of the reply, and a decoder's error code is part of that value.
- The waiting loops of `handleShutdown` and `sendRequestAndBlock` are steps of their state machines only, not methods: all they do is wait for other tasks.
- A second shutdown request after the first, and the limit on the number of shutdown handlers.
- The user interface: `App::Pinball::Task` is not part of the repository, and is taken to read the enable state after it was told.
- The measurement, interrupt and trigger notifications of the control task, beyond the rounds they cause; errors of the load driver, which halt the system.
- `GetAtoms` with a callback that asks to skip an atom: the code then reads the same header again.
- A ROM reader that writes more than it was asked for into the buffer.
- A ROM image of 4 GiB or more, whose addresses would wrap.
- A serial number read of the EEPROM, and the delay after a page write.
- The driver gives 0x800 as the size of the EEPROM and documents 4096 bytes; the chip of the model has 4096, and the driver limits only reads to the former.
- SPI buffers that overlap without being the same: the model asks for equal or disjoint ones.
- The driver of the bus switch starting with both channels on: its constructor never gets to the branch for that, and the model starts from a reset.
- A write to the bus switch that fails after the chip has taken the byte: the model's chip keeps its register then.
- A request that is a multiple of 4 MiHz: the code then divides by zero (`DivisibleExactly`), and the timer's theorems shut it out.
- Utf8.Strlen: a string of 2^31 code points or more comes out as the wrapped 32-bit count.
- Murmur's 64-bit helpers, log formatting, floating-point conversions, the simple register drivers, the display and the host tools: nothing hard to state.
