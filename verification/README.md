# Verified models of a skynet game server

This project models the parts of the server whose correctness is hardest to see from the code, and
proves what they promise. One module stands for one component:

| file | component |
|---|---|
| Common.dfy | optional results, powers of two and little-endian numbers, shared by the others |
| TimerWheel.dfy | the hierarchical timing wheel of skynet_timer.c, against a plain list of timeouts |
| Scheduler.dfy | the protocol of queues, workers, contexts and the registry, one atomic step at a time, over any number of threads |
| RwLock.dfy | the spinning reader/writer lock, one instruction at a time, refining an abstract lock |
| MessageQueue.dfy | the doubling ring of one service and the linked global list |
| HandleStorage.dfy | the slot table of handles and the sorted table of names |
| Words.dfy, Bigint.dfy, Quotient.dfy, Powers.dfy, DigitGeneration.dfy | the multi-precision integers, division step, powers of five and rounding digit loop of dtoa.c |
| SocketWrite.dfy | the two priority lists, partial writes, half close and write interest of a TCP socket |
| Seri.dfy | the tagged serialiser over chained blocks |
| Netpack.dfy | the reassembly of length-prefixed packets from interleaved streams |
| Sharedata.dfy | the exact-size chained hash of shared tables |
| Des.dfy, DiffieHellman.dfy | the DES text codec and the 64-bit key exchange |

State that the C code updates in place is a class or an array here; each method is proved against a
function or an abstract value (a pending list, a sequence, a map, a number), and the theorems are
about that value. Concurrency is a state machine over atomic steps. Answers of the operating system
are arbitrary. Integers are unbounded; wrap-around is written out where the code relies on it
(the clock, the borrow chains, the 64-bit modular arithmetic, 32-bit array sizes).

Some promises do not hold on all inputs of the code; there the contract is an if-and-only-if whose
condition a caller can check:

- `BigintArithmetic.MultAdd`: a number without any word in use loses the addend, so the value is
  right exactly when there is a word in use or the addend is 0. The result is normalised exactly
  when the factor is not 0 or there was at most one word.
- `BigintArithmetic.Cmp`: decides the order of the values except exactly for zero with one word
  against zero without words, and reads before the array exactly for two numbers without words.
- `BigintArithmetic.Diff`, `BigintArithmetic.LShift` and `BigintArithmetic.Mult`: leave their arrays,
  or a number that is not normalised, exactly for the operands without a word in use that they name.
- `Sharedata.SharedTable.Index`: the looked-up key is truncated to 32 bits, so the answer is that of
  the source exactly unless the truncated key is another key of the source;
  `Sharedata.WideKeyFails` is an input that fails.
- `Scheduler.InitWriteSafe`: a creator writes the init flag after giving up its reference; the context
  is still there exactly while it is registered, referred to or being deleted.
  `Scheduler.InitWriteLate` is a run in which it is not.
- `Scheduler.QueueUseSafe`: a context is registered before its queue is stored in it, so a sender
  finds the queue exactly when the creator is past storing it. `Scheduler.QueueUseEarly` is a run in
  which it is not.
- `Des.DecodeStays`: the scan for the padding has an unsigned bound and stays inside the buffer
  exactly when there is more than one block or the block has a byte that is not zero;
  `Des.ZeroBlockLeaves` is the input that fails.
- `DiffieHellman.PowMod64`: right exactly unless the base is P and the exponent is 1, because the
  guard reduces only bases above P; `DiffieHellman.BaseP` is the failing input.
- `HandleStorage.Storage.Register`: fails exactly when all 2^24 handles of the harbor are live.

## Model

| member | source | states |
|---|---|---|
| `TimerWheel.Run` | skynet-dist/skynet-src/skynet_timer.c:94-184 | For every run of settings and ticks from a fresh wheel, with other threads setting timers whenever the lock is free: tick j dispatches exactly the events whose delay ends at tick j, each once, in the order in which they were set, also across the wrap of the 32-bit clock |
| `TimerWheel.Perform` | skynet-dist/skynet-src/skynet_timer.c:94-184 | Each step of a run keeps the wheel and the list of pending (due, event) pairs in agreement |
| `TimerWheel.Timer.AddNode` | skynet-dist/skynet-src/skynet_timer.c:73-92 | The mask loop links the node at the end of the one list that belongs to its expire stamp for the current clock |
| `TimerWheel.Timer.TimerAdd` | skynet-dist/skynet-src/skynet_timer.c:94-105 | Adds (now + delay, event) at the end of the pending list, for every delay from 1 to 2^31 - 1 |
| `TimerWheel.Timer.MoveList` | skynet-dist/skynet-src/skynet_timer.c:107-115 | Redistributing the list that a carry reaches puts every node where the new clock wants it and keeps the order of equal stamps |
| `TimerWheel.Timer.Cascade` | skynet-dist/skynet-src/skynet_timer.c:120-137 | The carry loop finds the list to redistribute and never goes past level 3; afterwards every pending node is placed for the new clock |
| `TimerWheel.Timer.TimerShift` | skynet-dist/skynet-src/skynet_timer.c:117-138 | Moves the clock by one tick, wrapping to 0, with every pending node placed for the new clock |
| `TimerWheel.Timer.DispatchList` | skynet-dist/skynet-src/skynet_timer.c:140-167 | Takes out the list under the clock hand in order; what others set meanwhile is added behind |
| `TimerWheel.Timer.TimerExecute` | skynet-dist/skynet-src/skynet_timer.c:158-169 | Dispatches exactly what is due now and leaves exactly the later timeouts |
| `TimerWheel.Timer.TimerUpdate` | skynet-dist/skynet-src/skynet_timer.c:171-184 | One tick fires exactly the timeouts due at the new clock value |
| `TimerWheel.Timer.SkynetTimeout` | skynet-dist/skynet-src/skynet_timer.c:210-230 | Delays of zero or less are answered at once and set nothing, with -1 when the handle has no context; all others are set |
| `TimerWheel.Timer.constructor` | skynet-dist/skynet-src/skynet_timer.c:186-208 | A new wheel is empty and consistent |
| `TimerWheel.TickKeepsSlot` | skynet-dist/skynet-src/skynet_timer.c:73-92 | A tick changes the list of a pending stamp only if that list is the one redistributed |
| `TimerWheel.CascadeDescends` | skynet-dist/skynet-src/skynet_timer.c:107-138 | A redistributed node always leaves its list for a finer one, so move_list ends |
| `TimerWheel.CarryReach` | skynet-dist/skynet-src/skynet_timer.c:124-136 | How many digits of the clock a tick changes is decided by the list that is redistributed |
| `TimerWheel.LinkHolds` | skynet-dist/skynet-src/skynet_timer.c:66-71 | Linking at the tail keeps, for each stamp, the order of setting |
| `TimerWheel.RelinkHolds` | skynet-dist/skynet-src/skynet_timer.c:107-115 | Relinking the nodes of a detached list one by one keeps, for each stamp, the order of setting |
| `TimerWheel.FireAll` | skynet-dist/skynet-src/skynet_timer.c:158-169 | The near list under the hand holds exactly the timeouts due now, in order, and nothing else |
| `TimerWheel.TickWithoutCarry` | skynet-dist/skynet-src/skynet_timer.c:127-136 | When no digit carries, every list is already right for the new clock |
| `Scheduler.SingleOwner` | skynet-dist/skynet-src/skynet_mq.c:137-250 | In every state of every run a queue has at most one owner (one activity or one position of the global list), and has one exactly when it is flagged as scheduled or marked for release |
| `Scheduler.CallbackExclusive` | skynet-dist/skynet-src/skynet_server.c:296-351 | A callback runs only for the worker that owns the queue, only after init succeeded, and never on two workers at once |
| `Scheduler.CallbacksInOrder` | skynet-dist/skynet-src/skynet_server.c:296-351 | In every state of every run, what was pushed to a queue is what its callbacks have handled, then the message of the callback that is running, if one is, then what was dropped or is still queued: every message popped is handed to a callback, once and in order |
| `Scheduler.CallbackReached` | skynet-dist/skynet-src/skynet_server.c:296-351 | A run in which a service comes up, a sender pushes any message, a worker is inside the callback with it, and the callback returns |
| `Scheduler.CallsOne` | skynet-dist/skynet-src/skynet_server.c:315-340 | Each step keeps the popped messages of a queue equal to the handled ones and the one in hand |
| `Scheduler.RunCalls` | skynet-dist/skynet-src/skynet_server.c:315-340 | The same for every state of every run |
| `Scheduler.SenderPushes` | skynet-dist/skynet-src/skynet_server.c:229-239 | A sender that has found the service appends its message to the queue before it does anything else |
| `Scheduler.NeverStuck` | skynet-dist/skynet-src/skynet_server.c:125-351 | No deadlock: in every reachable state every activity can go on, exactly unless it waits for the registry lock, and then an activity under the lock can go on |
| `Scheduler.NoLostWakeup` | skynet-dist/skynet-src/skynet_mq.c:189-250 | A queue with messages always has an owner that will look at it |
| `Scheduler.MessagesConserved` | skynet-dist/skynet-src/skynet_mq.c:137-250 | What was pushed to a queue is what was delivered, then what was dropped, then what is still queued, in that order; nothing is dropped before the queue is marked |
| `Scheduler.RefCounts` | skynet-dist/skynet-src/skynet_server.c:195-239 | A reference count is the registry entry plus the outstanding references, in every state of every run |
| `Scheduler.OperationsSafe` | skynet-dist/skynet-src/skynet_server.c:195-239 | No context is grabbed or released after its count reached 0, deletion finds an unmarked queue and an unregistered context, no queue enters the global list twice, messages go only to live contexts, and a queue is freed only when marked and drained |
| `Scheduler.ContextAlive` | skynet-dist/skynet-src/skynet_server.c:195-227 | In every state of every run a context exists exactly while it is registered, referred to or being deleted |
| `Scheduler.InitWriteSafe` | skynet-dist/skynet-src/skynet_server.c:164-168 | The creator writes the init flag without a reference: the context is there exactly while it is registered, somebody else refers to it or it is being deleted |
| `Scheduler.InitWriteUnretired` | skynet-dist/skynet-src/skynet_server.c:164-168 | That write is safe in every run in which no retirement of the context came first |
| `Scheduler.InitWriteLate` | skynet-dist/skynet-src/skynet_server.c:164-168 | A run in which a retirement between the release and the write leaves the creator with a deleted context |
| `Scheduler.QueueUseSafe` | skynet-dist/skynet-src/skynet_server.c:155-156 | Who pushes to a context finds its queue stored exactly when the creator is past storing it; deletion always finds it |
| `Scheduler.QueueUseEarly` | skynet-dist/skynet-src/skynet_server.c:155-156 | A run in which a sender is about to push to a context whose queue is not stored yet |
| `Scheduler.GoneForGood` | skynet-dist/skynet-src/skynet_server.c:208-227 | A deleted context or freed queue never comes back, so each is deleted or freed once |
| `Scheduler.RunInv` | skynet-dist/skynet-src/skynet_server.c:125-351 | The inductive invariant holds in every state of every interleaving |
| `Scheduler.InvStep` | skynet-dist/skynet-src/skynet_server.c:125-351 | Every atomic step of any worker, sender, creator or retirer keeps the invariant |
| `Scheduler.OwnStep` | skynet-dist/skynet-src/skynet_mq.c:189-250 | Ownership of queues moves with each step and is never duplicated |
| `Scheduler.FlagStep` | skynet-dist/skynet-src/skynet_mq.c:137-228 | The flags in_global and release keep telling whether a queue has an owner |
| `Scheduler.RefStep` | skynet-dist/skynet-src/skynet_server.c:195-227 | Each step counts exactly the references it takes or gives back |
| `Scheduler.LifeStep` | skynet-dist/skynet-src/skynet_server.c:208-227 | A queue is marked for release exactly when its context is gone |
| `Scheduler.LogStep` | skynet-dist/skynet-src/skynet_mq.c:137-250 | Each step keeps the messages of every queue in order |
| `Scheduler.PhaseStep` | skynet-dist/skynet-src/skynet_server.c:125-351 | What the code relies on at each point survives the steps of all others |
| `Scheduler.InitStep` | skynet-dist/skynet-src/skynet_server.c:125-182 | A registered service that is not up yet is still in the hands of its creator |
| `Scheduler.LockStep` | skynet-dist/skynet-src/skynet_handle.c:34-149 | A registry writer excludes every other activity inside the lock |
| `Scheduler.LookupDispatches` | skynet-dist/skynet-src/skynet_server.c:296-305 | A worker that finds a context for its queue has found the context the queue belongs to |
| `RwLock.Exclusion` | skynet-dist/skynet-src/rwlock.h:17-48 | In every run, instruction by instruction, a writer inside excludes all readers and all other writers |
| `RwLock.StepRefines` | skynet-dist/skynet-src/rwlock.h:17-48 | Every instruction is invisible, or enters the lock when the others allow it, or leaves it: the spinning lock refines a plain reader/writer lock |
| `RwLock.ReaderEnters` | skynet-dist/skynet-src/rwlock.h:17-31 | A reader that runs alone is inside after three steps exactly when no writer has the lock |
| `RwLock.WriterEnters` | skynet-dist/skynet-src/rwlock.h:33-39 | A writer that runs alone is inside after two steps exactly when nobody has the lock |
| `RwLock.ReaderBacksOff` | skynet-dist/skynet-src/rwlock.h:22-28 | A reader that meets a writer after counting itself takes the count back |
| `RwLock.StepInv` | skynet-dist/skynet-src/rwlock.h:17-48 | Each instruction keeps: read counts the threads between increment and decrement, write is set by exactly one thread |
| `RwLock.RunInv` | skynet-dist/skynet-src/rwlock.h:17-48 | The lock invariant holds in every state of every run |
| `MessageQueue.MessageQueue.Pop` | skynet-dist/skynet-src/skynet_mq.c:137-172 | FIFO order; an empty queue becomes unscheduled; the overload threshold is doubled exactly as often as it takes to cover the length |
| `MessageQueue.MessageQueue.ExpandQueue` | skynet-dist/skynet-src/skynet_mq.c:174-187 | A full ring is copied to one of twice the size, oldest first |
| `MessageQueue.MessageQueue.PushMessage` | skynet-dist/skynet-src/skynet_mq.c:189-201 | The ring refines appending to a sequence, and doubles exactly when it becomes full |
| `MessageQueue.MessageQueue.Push` | skynet-dist/skynet-src/skynet_mq.c:189-209 | Appends, and schedules the queue exactly when nobody has it; every listed queue is flagged or marked |
| `MessageQueue.MessageQueue.MarkRelease` | skynet-dist/skynet-src/skynet_mq.c:219-228 | Marks the queue and makes sure it is in the global list |
| `MessageQueue.MessageQueue.DropQueue` | skynet-dist/skynet-src/skynet_mq.c:230-237 | Hands every message to the drop function, oldest first |
| `MessageQueue.MessageQueue.Release` | skynet-dist/skynet-src/skynet_mq.c:239-250 | A marked queue is drained; an unmarked one goes back to the global list with all its fields unchanged, so that a listed queue stays flagged as scheduled or marked |
| `MessageQueue.MessageQueue.Length` | skynet-dist/skynet-src/skynet_mq.c:111-125 | The length of the sequence the ring stands for |
| `MessageQueue.MessageQueue.constructor` | skynet-dist/skynet-src/skynet_mq.c:77-96 | A new queue is empty and flagged as scheduled |
| `MessageQueue.GlobalQueue.Push` | skynet-dist/skynet-src/skynet_mq.c:43-56 | Appends at the tail of the linked list |
| `MessageQueue.GlobalQueue.Pop` | skynet-dist/skynet-src/skynet_mq.c:58-75 | Takes the head of the linked list and unlinks it |
| `MessageQueue.MessageQueue.NoteLength` | skynet-dist/skynet-src/skynet_mq.c:156-159 | The overload loop doubles the threshold until it covers the length and reports the length exactly when it was above the threshold |
| `MessageQueue.ApplyAll` | skynet-dist/skynet-src/skynet_mq.c:43-250 | Any sequence of sends, deletions, takes, pops, put-backs and releases on any set of queues does what the event function says, step by step, and in no state is a queue listed twice or listed while a worker has it; a queue is in the list or in a worker's hands exactly when it is flagged as scheduled or marked for release |
| `MessageQueue.Apply` | skynet-dist/skynet-src/skynet_mq.c:43-250 | The linked queues and the list after one event are those of the event function |
| `MessageQueue.AfterScheduled` | skynet-dist/skynet-src/skynet_mq.c:137-250 | Every event keeps a queue in at most one place, and in one exactly when it is flagged or marked |
| `MessageQueue.RingPush` | skynet-dist/skynet-src/skynet_mq.c:194-197 | Writing at tail and advancing appends to the sequence of the ring |
| `MessageQueue.RotatedAt` | skynet-dist/skynet-src/skynet_mq.c:178-180 | Element i of a full ring is at (head + i) mod cap |
| `HandleStorage.Storage.Register` | skynet-dist/skynet-src/skynet_handle.c:34-67 | Registers under the first handle from handle_index on whose slot is free; fails exactly when every handle is live; the table doubles at most once per call; the map of live handles gains exactly the new one |
| `HandleStorage.Storage.Scan` | skynet-dist/skynet-src/skynet_handle.c:40-54 | The probe finds the first free slot from handle_index on, or every slot is taken |
| `HandleStorage.Storage.Double` | skynet-dist/skynet-src/skynet_handle.c:55-65 | Rehashing a full table never meets an occupied slot, keeps the map, and leaves half the slots empty |
| `HandleStorage.Storage.Grab` | skynet-dist/skynet-src/skynet_handle.c:132-149 | Finds exactly the live context of a handle |
| `HandleStorage.Storage.Retire` | skynet-dist/skynet-src/skynet_handle.c:69-106 | Removes the context if it is live, with all names of its handle, and nothing else |
| `HandleStorage.Storage.DropNames` | skynet-dist/skynet-src/skynet_handle.c:81-91 | The compaction loop leaves exactly the names of other handles, still sorted |
| `HandleStorage.Storage.FindName` | skynet-dist/skynet-src/skynet_handle.c:151-179 | Answers like the map from names to handles, 0 for an unknown name |
| `HandleStorage.Storage.Search` | skynet-dist/skynet-src/skynet_handle.c:158-174 | Binary search finds the name or the place where it belongs |
| `HandleStorage.Storage.NameHandle` | skynet-dist/skynet-src/skynet_handle.c:207-240 | Inserts a new name, refuses a known one, and fails exactly when the array is full at its limit |
| `HandleStorage.Storage.InsertNameBefore` | skynet-dist/skynet-src/skynet_handle.c:181-205 | The name array stays strictly sorted and the map gains exactly the new name |
| `HandleStorage.Storage.GrowAround` | skynet-dist/skynet-src/skynet_handle.c:182-195 | The larger array has the old entries around a gap |
| `HandleStorage.Storage.ShiftUp` | skynet-dist/skynet-src/skynet_handle.c:196-201 | The entries from the gap on move up by one |
| `HandleStorage.Storage.constructor` | skynet-dist/skynet-src/skynet_handle.c:242-261 | A new registry is empty, with index 1 and the harbor in the top byte |
| `HandleStorage.DistinctSlots` | skynet-dist/skynet-src/skynet_handle.c:57-61 | Live handles are distinct modulo the table size |
| `HandleStorage.FullSpace` | skynet-dist/skynet-src/skynet_handle.c:55-55 | When the table cannot double any more, every handle of the harbor is live |
| `HandleStorage.BeforeTransitive` | skynet-dist/skynet-src/skynet_handle.c:164-164 | The order of strcmp is transitive, which binary search needs |
| `BigintArithmetic.MultAdd` | lualib-src/lua-cjson-2.1.0/dtoa.c:612-667 | The value is b*m+a exactly when b has a word in use or a is 0; the result is normalised exactly when m is not 0 or there is at most one word; nothing is written past maxwds |
| `BigintArithmetic.Mult` | lualib-src/lua-cjson-2.1.0/dtoa.c:805-913 | The exact product of any two numbers, in the capacity of the longer one or twice that when it does not fit, normalised exactly unless both have no word in use and the fresh memory happens not to be zero |
| `BigintArithmetic.MultRow` | lualib-src/lua-cjson-2.1.0/dtoa.c:846-859 | One row of the schoolbook product adds y times the factor at position j |
| `BigintArithmetic.LShift` | lualib-src/lua-cjson-2.1.0/dtoa.c:974-1032 | The exact value b*2^k for every b; writes past the end exactly when a number without a word in use is shifted by part of a word into a capacity without a spare word; the normal form has its exact condition |
| `BigintArithmetic.Cmp` | lualib-src/lua-cjson-2.1.0/dtoa.c:1034-1066 | The sign is the order of the values, except exactly for zero with one word against zero without words; reads before the array exactly for two numbers without words |
| `BigintArithmetic.Diff` | lualib-src/lua-cjson-2.1.0/dtoa.c:1068-1160 | The absolute difference with the sign of a - b, normalised; leaves the array exactly for two numbers without words and for a one-word zero against a wordless zero |
| `BigintArithmetic.Subtract` | lualib-src/lua-cjson-2.1.0/dtoa.c:1103-1158 | The borrow loops and the trimming leave the exact difference |
| `BigintArithmetic.FromWord` | lualib-src/lua-cjson-2.1.0/dtoa.c:789-803 | The number of one word |
| `BigintArithmetic.Trim` | lualib-src/lua-cjson-2.1.0/dtoa.c:910-911 | Dropping leading zero words keeps the value and leaves a nonzero top word |
| `BigintArithmetic.LongerIsLarger` | lualib-src/lua-cjson-2.1.0/dtoa.c:1053-1054 | More words mean a larger value, which lets cmp look at word counts first |
| `Words.MulAddValue` | lualib-src/lua-cjson-2.1.0/dtoa.c:634-655 | The carry chain of a multiplication denotes s*m + carry |
| `Words.AddMulValue` | lualib-src/lua-cjson-2.1.0/dtoa.c:851-857 | The carry chain of a product row denotes c + s*m + carry |
| `Words.SubMulValue` | lualib-src/lua-cjson-2.1.0/dtoa.c:2163-2190 | The borrow chain of quorem denotes b - q*s up to what is missing beyond the last word |
| `Words.ValCompare` | lualib-src/lua-cjson-2.1.0/dtoa.c:1055-1065 | The topmost different word decides the order of two numbers of equal length |
| `Quotient.Hi0Bits` | lualib-src/lua-cjson-2.1.0/dtoa.c:707-739 | The number of leading zero bits |
| `Quotient.DShift` | lualib-src/lua-cjson-2.1.0/dtoa.c:2106-2117 | Adding the result to the shift brings the divisor to a top word with exactly four leading zero bits |
| `Quotient.Quorem` | lualib-src/lua-cjson-2.1.0/dtoa.c:2119-2241 | For a normalised divisor and b < 10*S: returns exactly b / S, below 10, and leaves exactly b % S |
| `Quotient.Estimate` | lualib-src/lua-cjson-2.1.0/dtoa.c:2149-2149 | The one-word estimate is the quotient or one less |
| `Quotient.QuotientFits` | lualib-src/lua-cjson-2.1.0/dtoa.c:2138-2144 | b needs no more words than S |
| `Quotient.SubMulWords` | lualib-src/lua-cjson-2.1.0/dtoa.c:2161-2190 | The in-place loop subtracts q*S word by word with its borrow |
| `Quotient.SubtractMultiple` | lualib-src/lua-cjson-2.1.0/dtoa.c:2160-2197 | Subtracting q*S leaves the exact difference, normalised, possibly with no word in use |
| `Quotient.LastSubtraction` | lualib-src/lua-cjson-2.1.0/dtoa.c:2198-2239 | Corrects an estimate that was one too small |
| `Powers.Pow5Mult` | lualib-src/lua-cjson-2.1.0/dtoa.c:917-972 | The exact value b*5^k for every b; the cache only grows and stays right |
| `Powers.LargePower` | lualib-src/lua-cjson-2.1.0/dtoa.c:932-971 | The loop over the bits of the exponent multiplies by 5^(4k) |
| `Powers.PowerCache.Node` | lualib-src/lua-cjson-2.1.0/dtoa.c:934-969 | Node i of the cache holds 5^(4*2^i), computed from its predecessor when needed |
| `Powers.ExponentStep` | lualib-src/lua-cjson-2.1.0/dtoa.c:948-970 | Halving the exponent while squaring the base keeps the remaining factor |
| `Powers.S2b` | lualib-src/lua-cjson-2.1.0/dtoa.c:669-705 | The number that nd decimal digits around a point denote, for every nd |
| `Powers.AppendDigit` | lualib-src/lua-cjson-2.1.0/dtoa.c:693-703 | One more digit multiplies by ten and adds it |
| `DigitGeneration.FixedDigits` | lualib-src/lua-cjson-2.1.0/dtoa.c:4101-4329 | From b, b2, b5, s2, s5 and an estimate of k that is right or, when it is checked, one too large: the digits denote b*5^b5*2^b2 / (5^s5*2^s2) rounded half to even to ilim significant digits, with the decimal exponent that belongs to them |
| `DigitGeneration.ShiftBoth` | lualib-src/lua-cjson-2.1.0/dtoa.c:4101-4106 | The common factor comes off, the divisor is normalised, and the fraction stays the same |
| `DigitGeneration.FixEstimate` | lualib-src/lua-cjson-2.1.0/dtoa.c:4160-4168 | An estimate of k that was one too large is corrected, after which S <= b < 10*S |
| `DigitGeneration.RoundedRatio` | lualib-src/lua-cjson-2.1.0/dtoa.c:4152-4159 | Rounding depends only on the fraction, not on the common factor of b and S |
| `DigitGeneration.ModeTwo` | lualib-src/lua-cjson-2.1.0/dtoa.c:4284-4329 | For S <= b < 10*S and every ilim >= 1: the digits denote b/S rounded half to even to ilim significant digits, without trailing zeros, with k raised exactly when all digits were nines |
| `DigitGeneration.GenerateDigits` | lualib-src/lua-cjson-2.1.0/dtoa.c:4284-4297 | The digits are the integer part of the scaled quotient, and the loop stops early exactly at remainder 0 |
| `DigitGeneration.RoundOff` | lualib-src/lua-cjson-2.1.0/dtoa.c:4314-4321 | Adds one in the last place through any run of nines |
| `DigitGeneration.TrimZeros` | lualib-src/lua-cjson-2.1.0/dtoa.c:4323-4329 | Drops trailing zeros without changing the value |
| `DigitGeneration.RoundsUp` | lualib-src/lua-cjson-2.1.0/dtoa.c:4306-4312 | Compares twice the remainder with the divisor; a tie goes by the last digit |
| `DigitGeneration.FinalRounding` | lualib-src/lua-cjson-2.1.0/dtoa.c:4306-4312 | That comparison is rounding half to even |
| `DigitGeneration.ExactDenotes` | lualib-src/lua-cjson-2.1.0/dtoa.c:4286-4291 | Stopping at remainder 0 gives the exact value for any number of digits |
| `SocketWrite.Socket.Run` | skynet-dist/skynet-src/socket_server.c:1202-1282 | Every state of every run of commands and events keeps the write-path invariant; a socket that closed without I/O error, peer EOF or shutdown has every accepted byte on the wire; the kind, the result and the packages accepted at each priority after each operation are functions of the operation and of the kind before it |
| `SocketWrite.Socket.SendBuffer` | skynet-dist/skynet-src/socket_server.c:609-638 | Offers the high list and then the low list as one list, up to the first buffer that is not written whole; the bytes on the wire grow by exactly what the answers took; a partly written low package is raised; write interest goes off exactly when the high list ran empty with no low list behind it; closes exactly when an answer was a failure, or a half-closed socket without low list wrote its whole high list |
| `SocketWrite.Socket.SendList` | skynet-dist/skynet-src/socket_server.c:475-505 | For every sequence of answers of the system: buffers are offered in order up to the first that is not written whole, what is left is exactly what the answers left, the wire grows by the sum of the answers, and the socket fails exactly when the last answer is a failure |
| `SocketWrite.Socket.SendHigh` | skynet-dist/skynet-src/socket_server.c:611-614 | Step 1 leaves of the high list exactly what the answers left and keeps the order of everything accepted |
| `SocketWrite.Socket.SendLow` | skynet-dist/skynet-src/socket_server.c:615-625 | Steps 2 and 3 leave no partial package in the low list, and nothing exactly when everything was written |
| `SocketWrite.Socket.RaiseUncomplete` | skynet-dist/skynet-src/socket_server.c:584-599 | Moves the head of the low list to the empty high list |
| `SocketWrite.Socket.Send` | skynet-dist/skynet-src/socket_server.c:692-761 | A package is taken exactly in states connecting and connected; the system is asked exactly when the socket is connected with nothing waiting, and the new state is a function of its answer; closes exactly on a failure |
| `SocketWrite.Socket.SendDirect` | skynet-dist/skynet-src/socket_server.c:709-727 | An idle connected socket writes at once and queues the rest first in line, at any priority |
| `SocketWrite.Socket.AppendBuffer` | skynet-dist/skynet-src/socket_server.c:640-678 | Appends to the list of the priority and counts the bytes |
| `SocketWrite.Socket.CloseSocket` | skynet-dist/skynet-src/socket_server.c:784-809 | Tries once more to write what waits, and closes exactly on a failure, on a shutdown or with every accepted byte written; otherwise half closes with write interest on |
| `SocketWrite.Socket.ForceClose` | skynet-dist/skynet-src/socket_server.c:331-352 | Empties both lists and frees the slot |
| `SocketWrite.Socket.NewFd` | skynet-dist/skynet-src/socket_server.c:376-397 | The lists are empty as new_fd asserts; counters start at zero; a socket the poller does not take makes the slot invalid again |
| `SocketWrite.Socket.ReserveSlot` | skynet-dist/skynet-src/socket_server.c:245-266 | A free slot is reserved for a new id |
| `SocketWrite.Socket.Start` | skynet-dist/skynet-src/socket_server.c:828-858 | An accepted socket becomes connected and a listening one listens, or is closed with an error when the poller does not take it; nothing else changes |
| `SocketWrite.Socket.ReportConnect` | skynet-dist/skynet-src/socket_server.c:1103-1135 | Connecting ends with the lists kept and write interest on exactly while something is queued |
| `SocketWrite.Socket.ForwardMessage` | skynet-dist/skynet-src/socket_server.c:999-1043 | Read errors and EOF close the socket with ERROR and CLOSE; data and refusals leave the write path alone |
| `SocketWrite.ClosedDelivered` | skynet-dist/skynet-src/socket_server.c:784-809 | The invariant implies that a clean close delivered everything, in priority-wise FIFO order |
| `SocketWrite.EnqueueKeeps` | skynet-dist/skynet-src/socket_server.c:745-752 | Queueing a package keeps the invariant, including the order within each priority |
| `SocketWrite.DirectKeeps` | skynet-dist/skynet-src/socket_server.c:709-744 | A direct write keeps the invariant for every number of bytes taken |
| `SocketWrite.SentKeeps` | skynet-dist/skynet-src/socket_server.c:609-638 | Sending from the front keeps the invariant |
| `SocketWrite.UncompleteRight` | skynet-dist/skynet-src/socket_server.c:575-599 | After raising, only the head of the high list is partial |
| `SocketWrite.InsertOrder` | skynet-dist/skynet-src/socket_server.c:640-678 | A high package goes before the low ones without changing the order within either priority |
| `Seri.UnpackPack` | skynet-dist/lualib-src/lua-seri.c:553-610 | Unpacking the packed bytes of any list of values returns that list |
| `Seri.RoundTrip` | skynet-dist/lualib-src/lua-seri.c:294-530 | Unpacking an encoded value followed by any bytes gives the value and stops exactly behind it |
| `Seri.SelfDelimiting` | skynet-dist/lualib-src/lua-seri.c:294-530 | No encoding is the beginning of another |
| `Seri.IntRoundTrip` | skynet-dist/lualib-src/lua-seri.c:140-172 | Every 64-bit integer survives its width-dependent encoding |
| `Seri.StringRoundTrip` | skynet-dist/lualib-src/lua-seri.c:188-211 | Strings survive the short, 16-bit and 32-bit length forms |
| `Seri.SizeRoundTrip` | skynet-dist/lualib-src/lua-seri.c:432-446 | The size of the array part survives the cookie and the number behind a full cookie |
| `Seri.TableRoundTrip` | skynet-dist/lualib-src/lua-seri.c:215-292 | Tables survive: array part, then pairs up to a nil key |
| `Common.LittleEndianInverse` | skynet-dist/lualib-src/lua-seri.c:357-390 | Reading back k little-endian bytes gives the number |
| `Seri.Shortest` | skynet-dist/lualib-src/lua-seri.c:128-338 | Whatever bytes unpack to a value, the packed form of that value takes no more of them |
| `Seri.EncodeIsShortest` | skynet-dist/lualib-src/lua-seri.c:128-338 | The packed form of a value is among the shortest byte strings that unpack to it |
| `Seri.IntShortest` | skynet-dist/lualib-src/lua-seri.c:140-172 | A number takes the shortest of the five integer forms |
| `Seri.StringShortest` | skynet-dist/lualib-src/lua-seri.c:188-211 | A string takes the shortest head |
| `Seri.SizeShortest` | skynet-dist/lualib-src/lua-seri.c:218-227 | A table takes the shortest head |
| `Seri.WireHeads` | skynet-dist/lualib-src/lua-seri.c:14-33 | The first byte of every form, by number, and the nil at the end of a table |
| `Seri.NanBits` | skynet-dist/lualib-src/lua-seri.c:432-463 | What is refused as a key is what lies beyond infinity, without the sign |
| `Seri.WriteBlock.Push` | skynet-dist/lualib-src/lua-seri.c:63-83 | Any byte string is appended across the 128-byte blocks |
| `Seri.WriteBlock.Flatten` | skynet-dist/lualib-src/lua-seri.c:532-551 | The flattened chain is the concatenation of all pushes |
| `Seri.PackOne` | skynet-dist/lualib-src/lua-seri.c:294-338 | Writes the encoding, and succeeds exactly when the value holds no unsupported type and nothing deeper than MAX_DEPTH |
| `Seri.WbInteger` | skynet-dist/lualib-src/lua-seri.c:140-172 | Writes the encoding of the integer, which IntShortest shows to be the shortest of the five forms |
| `Seri.WbString` | skynet-dist/lualib-src/lua-seri.c:188-211 | Writes the length form and the bytes |
| `Seri.WbTableArray` | skynet-dist/lualib-src/lua-seri.c:215-235 | The loop over the array part writes the encodings in order |
| `Seri.WbTableHash` | skynet-dist/lualib-src/lua-seri.c:237-255 | The loop over the other fields writes key and value pairs and a final nil |
| `Seri.Pack` | skynet-dist/lualib-src/lua-seri.c:597-610 | One buffer with the encodings of all values, whose unpacking is the list; fails exactly on values that cannot be packed |
| `Seri.ReadBlock.Take` | skynet-dist/lualib-src/lua-seri.c:116-126 | Reads the next bytes or refuses without moving; a negative size moves the cursor back |
| `Seri.ReadBlock.GetInteger` | skynet-dist/lualib-src/lua-seri.c:357-398 | Reads the signed or unsigned number of the cookie, or reports a broken stream |
| `Seri.ReadBlock.UnpackOne` | skynet-dist/lualib-src/lua-seri.c:521-530 | The cursor-moving reader computes the decoding function on every input, broken streams and keys that are not a number included |
| `Seri.ReadBlock.PushValue` | skynet-dist/lualib-src/lua-seri.c:465-519 | The same for each tag |
| `Seri.ReadBlock.UnpackTable` | skynet-dist/lualib-src/lua-seri.c:432-463 | The same for tables, with both loops |
| `Seri.ReadBlock.UnpackAll` | skynet-dist/lualib-src/lua-seri.c:553-595 | Reads values until the buffer is used up |
| `Netpack.Run` | skynet-dist/lualib-src/lua-netpack.c:225-305 | For every way of cutting any number of streams into non-empty chunks, interleaving them, closing and popping: the packets handed out for a stream are exactly the frames of all its bytes, the remainder is kept exactly, and the queue pops in the order of the pushes |
| `Netpack.Queue.FilterData` | skynet-dist/lualib-src/lua-netpack.c:225-305 | One chunk hands out exactly the frames of remainder plus chunk: nothing, one packet directly, or all of them through the queue |
| `Netpack.Queue.PushMore` | skynet-dist/lualib-src/lua-netpack.c:186-213 | All whole frames go to the queue and the rest is saved |
| `Netpack.Queue.FindUncomplete` | skynet-dist/lualib-src/lua-netpack.c:90-112 | Takes out the one partial packet of the stream, if there is one, and leaves all others |
| `Netpack.Queue.SaveUncomplete` | skynet-dist/lualib-src/lua-netpack.c:167-178 | Adds the one partial packet of the stream to its chain |
| `Netpack.Queue.CloseUncomplete` | skynet-dist/lualib-src/lua-netpack.c:215-223 | Drops the remainder of a closed stream |
| `Netpack.Queue.PushData` | skynet-dist/lualib-src/lua-netpack.c:148-165 | The expanding ring refines appending to a sequence |
| `Netpack.Queue.ExpandQueue` | skynet-dist/lualib-src/lua-netpack.c:131-146 | A full ring is copied in queue order to one larger by 1024 |
| `Netpack.Queue.Pop` | skynet-dist/lualib-src/lua-netpack.c:394-408 | FIFO order |
| `Netpack.Queue.constructor` | skynet-dist/lualib-src/lua-netpack.c:114-129 | A new queue is empty |
| `Netpack.FramesSplit` | skynet-dist/lualib-src/lua-netpack.c:225-305 | Cutting a stream anywhere changes neither its frames nor its remainder |
| `Netpack.PackOne` | skynet-dist/lualib-src/lua-netpack.c:434-450 | lpack refuses exactly what does not fit the length field, and its output is one frame with that packet |
| `Netpack.PackedFrames` | skynet-dist/lualib-src/lua-netpack.c:428-450 | A stream built by lpack decodes to the packets it was built from |
| `Sharedata.SharedTable.Convert` | skynet-dist/lualib-src/lua-sharedata.c:274-323 | Builds a table that agrees with a source of 32-bit integer and string keys, and refuses a source exactly for a key that countsize rejects |
| `Sharedata.SharedTable.Index` | skynet-dist/lualib-src/lua-sharedata.c:530-564 | Answers like the source for the key truncated to a 32-bit int, and so for the key itself exactly unless truncation makes it another key of the source |
| `Sharedata.TruncatedLookup` | skynet-dist/lualib-src/lua-sharedata.c:543-551 | Truncating the looked-up key changes the answer exactly when it meets another key of the source |
| `Sharedata.WideKeyFails` | skynet-dist/lualib-src/lua-sharedata.c:543-551 | Key 2^32 + 1 finds the item 1 |
| `Sharedata.SharedTable.LookupKey` | skynet-dist/lualib-src/lua-sharedata.c:499-528 | Ends on every chain and finds the slot of a key exactly when the source has it |
| `Sharedata.SharedTable.Traverse` | skynet-dist/lualib-src/lua-sharedata.c:587-644 | Asking for the next key until there is none visits every key of the source exactly once |
| `Sharedata.SharedTable.NextKey` | skynet-dist/lualib-src/lua-sharedata.c:587-644 | The key behind a given one, truncated in the same way: the next item that is not nil, then the nodes in slot order; nothing behind a key outside the array part that is not there |
| `Sharedata.SharedTable.OrderComplete` | skynet-dist/lualib-src/lua-sharedata.c:587-644 | The order lists exactly the keys of the source |
| `Sharedata.SharedTable.OrderDistinct` | skynet-dist/lualib-src/lua-sharedata.c:587-644 | It lists each of them once |
| `Sharedata.SharedTable.InsertEntry` | skynet-dist/lualib-src/lua-sharedata.c:242-267 | A key whose main position is taken gets an empty slot, which always exists, linked behind the head of its chain |
| `Sharedata.SharedTable.SettleEntry` | skynet-dist/lualib-src/lua-sharedata.c:214-230 | The first key of each main position settles there |
| `Sharedata.SharedTable.FillNoColliding` | skynet-dist/lualib-src/lua-sharedata.c:210-233 | After the first pass every main position some key has is taken, and the array part is right |
| `Sharedata.SharedTable.FillColliding` | skynet-dist/lualib-src/lua-sharedata.c:235-270 | After the second pass every key outside the array part has a node |
| `Sharedata.SharedTable.StringIndex` | skynet-dist/lualib-src/lua-sharedata.c:100-118 | Equal strings get equal indices, different strings different ones |
| `Sharedata.SharedTable.ConvertStrings` | skynet-dist/lualib-src/lua-sharedata.c:375-400 | Each index leads back to its string |
| `Sharedata.SharedTable.Matches` | skynet-dist/lualib-src/lua-sharedata.c:504-522 | Comparing hash, type and content decides whether the node has the key |
| `Sharedata.HashedBytes` | skynet-dist/lualib-src/lua-sharedata.c:89-98 | calchash mixes the length and then at most 31 bytes, every step-th from the last one down |
| `Sharedata.HashExample` | skynet-dist/lualib-src/lua-sharedata.c:95-95 | One hash by hand fixes the mixing step |
| `Sharedata.CountSize` | skynet-dist/lualib-src/lua-sharedata.c:65-87 | Counts the keys outside the array part, or finds a key that cannot be converted |
| `Sharedata.EmptySlot` | skynet-dist/lualib-src/lua-sharedata.c:248-255 | By counting: while a key is still to be placed, a slot is still empty, so assert(n) holds |
| `Sharedata.AllFilled` | skynet-dist/lualib-src/lua-sharedata.c:248-265 | Once every key is placed, every slot is filled |
| `Sharedata.InsertKeeps` | skynet-dist/lualib-src/lua-sharedata.c:256-262 | Linking behind the head keeps every chain finite, on one main position, and without gaps |
| `Sharedata.SettleKeeps` | skynet-dist/lualib-src/lua-sharedata.c:219-227 | Settling a key keeps all chains right |
| `Sharedata.OnChain` | skynet-dist/lualib-src/lua-sharedata.c:499-522 | A key lies on the chain of its main position; a slot marked nocolliding has a chain of its own |
| `Sharedata.HomeDecides` | skynet-dist/lualib-src/lua-sharedata.c:244-246 | The test on the main position decides whether a key has been placed |
| `Des.DecodeExact` | skynet-dist/lualib-src/lua-crypt.c:363-436 | What decodes to a text is exactly its encoding, for every text, key schedule and S-box contents |
| `Des.DecodeEncode` | skynet-dist/lualib-src/lua-crypt.c:363-436 | Decoding an encoded text gives the text |
| `Des.DecodeStays` | skynet-dist/lualib-src/lua-crypt.c:419-430 | The scan for the padding stays inside the buffer exactly when there is more than one block or the block has a byte that is not zero |
| `Des.ZeroBlockLeaves` | skynet-dist/lualib-src/lua-crypt.c:419-430 | The block that deciphers to zeros makes the scan leave the buffer |
| `Des.CryptUndone` | skynet-dist/lualib-src/lua-crypt.c:313-335 | A block enciphered and then deciphered with reversed subkey pairs is the block |
| `Des.RoundsUndone` | skynet-dist/lualib-src/lua-crypt.c:227-240 | The rounds with reversed subkeys on swapped halves undo the rounds |
| `Des.FinalUndoesInitial` | skynet-dist/lualib-src/lua-crypt.c:201-223 | DES_FP undoes DES_IP |
| `Des.InitialUndoesFinal` | skynet-dist/lualib-src/lua-crypt.c:201-223 | DES_IP undoes DES_FP |
| `Des.RoundBoxes` | skynet-dist/lualib-src/lua-crypt.c:227-240 | The value of a round combines the eight boxes, each looked up by the six bits that table E of FIPS 46-3 names, added to the subkey bits of that box |
| `Des.IndexBits` | skynet-dist/lualib-src/lua-crypt.c:227-240 | The index of each box, bit by bit |
| `Des.InitialBits` | skynet-dist/lualib-src/lua-crypt.c:201-210 | Every one of the 64 bits of DES_IP is the bit that table IP of FIPS 46-3 names, with the halves kept rotated by one |
| `Des.FinalBits` | skynet-dist/lualib-src/lua-crypt.c:214-223 | Every one of the 64 bits of DES_FP is the bit that table IP^-1 names |
| `Des.ByteBits` | skynet-dist/lualib-src/lua-crypt.c:183-197 | Byte j of a block holds bits 8j + 1 to 8j + 8 |
| `Des.BitOfOne` | skynet-dist/lualib-src/lua-crypt.c:183-189 | The word with only one bit has that bit and no other |
| `Des.BitOfSum` | skynet-dist/lualib-src/lua-crypt.c:199-240 | Addition without carry goes bit by bit, so the numbered bits are the binary digits |
| `Des.LookedAt` | skynet-dist/lualib-src/lua-crypt.c:227-240 | A box is looked up at the number its six bits are |
| `Des.ScanResult` | skynet-dist/lualib-src/lua-crypt.c:419-434 | The scan accepts exactly padded texts and leaves the buffer exactly for one block of zeros |
| `Des.PadIsPadding` | skynet-dist/lualib-src/lua-crypt.c:379-391 | The padded form of a text is the one whose last bytes are 0x80 and zeros to a whole block |
| `Des.DesEncode` | skynet-dist/lualib-src/lua-crypt.c:363-396 | Whole blocks, then the padded tail |
| `Des.DesDecode` | skynet-dist/lualib-src/lua-crypt.c:398-436 | Deciphers block by block and strips the padding; refuses lengths that are not whole blocks and broken padding |
| `Des.CryptBlocks` | skynet-dist/lualib-src/lua-crypt.c:376-378 | The block loop enciphers each block where it stands |
| `Des.Tail` | skynet-dist/lualib-src/lua-crypt.c:379-391 | What is left of the text, 0x80 and zeros |
| `Des.Strip` | skynet-dist/lualib-src/lua-crypt.c:419-434 | The loop with its unsigned bound finds the 0x80 within eight bytes, refuses, or leaves the buffer exactly for one block of zeros |
| `Des.ReverseKeys` | skynet-dist/lualib-src/lua-crypt.c:400-406 | Subkey pairs in reverse order |
| `DiffieHellman.SameSecret` | skynet-dist/lualib-src/lua-crypt.c:722-757 | Both sides derive the same secret, bytes included, for every pair of nonzero private keys |
| `DiffieHellman.PublicNotZero` | skynet-dist/lualib-src/lua-crypt.c:739-757 | A public value is never 0 |
| `DiffieHellman.MulModP` | skynet-dist/lualib-src/lua-crypt.c:664-684 | a*b mod P under wrapping 64-bit arithmetic, for every a up to P and every 64-bit b |
| `DiffieHellman.PowModP` | skynet-dist/lualib-src/lua-crypt.c:686-697 | a^b mod P for every b >= 1, except base P with exponent 1 |
| `DiffieHellman.PowMod64` | skynet-dist/lualib-src/lua-crypt.c:700-705 | Right exactly unless the base is P and the exponent 1 |
| `DiffieHellman.BaseP` | skynet-dist/lualib-src/lua-crypt.c:700-705 | Base P with exponent 1 gives P instead of 0 |
| `DiffieHellman.PublicValue` | skynet-dist/lualib-src/lua-crypt.c:707-720 | A public value survives its eight little-endian bytes |
| `DiffieHellman.DhExchange` | skynet-dist/lualib-src/lua-crypt.c:739-757 | The public value, or an error for a key that is not 8 bytes or is 0 |
| `DiffieHellman.DhSecret` | skynet-dist/lualib-src/lua-crypt.c:722-735 | The shared secret, or an error for values that are not 8 bytes or are 0 |

## Left out

- Operating system calls, poll backends, DNS, socket options, log files, profiling and the text command table.
- TimerWheel.Timer.AddNode: the masks and shifts of the stamps are written as divisions and remainders by powers of two.
- Scheduler.InvStep: registering a context and setting its handle are one step, and a handle is not reused while its old queue lives. A write through a deleted context or an unset queue has no defined effect in C; here the former changes nothing and the latter reaches the queue, and Scheduler.InitWriteSafe and Scheduler.QueueUseSafe say when neither happens. The log line after a launch, which reads the context once more, is not modelled.
- Scheduler.CallbackExclusive: the weight loop is abstracted, a worker may give up its queue after any message.
- Scheduler.CallbacksInOrder: a service without a callback frees the message, which counts as handled here.
- Scheduler.MessagesConserved: says nothing of the logging, profiling and endless-loop monitoring around a delivery; skynet_context_dispatchall is not modelled.
- RwLock.StepRefines: assumes sequential consistency; nothing is said about fairness between threads that spin at the same time.
- MessageQueue.MessageQueue.Pop: the overload counter does not overflow.
- HandleStorage.Storage.Register: masks of a power of two are remainders, and or-ing the harbor is adding it; skynet_handle_retireall is not modelled.
- BigintArithmetic.Mult: the free lists of Balloc are not modelled; fresh memory holds anything.
- Powers.S2b: takes the value of the first nine digits, or of all digits of a shorter text, as given, as strtod computes it.
- DigitGeneration.FixedDigits: takes b, its exponents and the estimate of k as given; the floating-point estimates of dtoa and strtod, the shortest-digits mode, the fixed-point modes and the other rounding modes are not modelled.
- SocketWrite.Socket.SendList: a write that is interrupted is repeated, which is not modelled; the answers are arbitrary.
- SocketWrite.Socket.Send: UDP, user objects and sockets of type BIND are not modelled; commands for a slot that is only reserved cannot arrive, because the command pipe is first in, first out.
- SocketWrite.Socket.Run: one slot; pending events of a closed socket (clear_closed_event) are not modelled.
- Seri.RoundTrip: tables are their array part and their other fields in traversal order; table identity, `__pairs` and the meaning of light userdata are not modelled. Lengths are below 2^31.
- Seri.ReadBlock.UnpackTable: the fields are the pairs handed to lua_rawset, in order; what the interpreter makes of repeated keys, integral floats or nil values is not modelled.
- Netpack.Queue.FilterData: chunks are not empty, as the socket layer guarantees; lclear and the conversion to Lua strings are not modelled.
- Sharedata.SharedTable.Convert: nested tables, table keys (which countsize lets through and the conversion reads as empty strings) and source keys wider than 32 bits are not modelled; values are opaque, so string values share no index here.
- Des.DecodeEncode: any 32-word schedule stands for the key, so the key schedule and its check of the key length are not modelled; S-box contents are arbitrary.
- Des.DesEncode: texts are shorter than 2^31 bytes, beyond which the loop counter of the code overflows.
- DiffieHellman.PowModP: does not cover exponent 0, which both callers refuse.
- The hash, hmac and base64 functions of lua-crypt.c, the MIME, JSON and BSON codecs, the database drivers and the harbor and cluster protocols would add round trips of kinds already covered.
