# banip: a verified model of its core

banip is a daemon that reads IP addresses from a POSIX or System V message queue and bans them in a packet
filter.  This project models, in Dafny 4.11, what the daemon does between a sender's call and the packet filter,
and proves properties of it.  `dafny verify dfyconfig.toml` checks everything.

| file | models |
|---|---|
| Bits.dfy, Words.dfy | bitwise operators on unsigned integers; bytes, 32-bit words, host byte order, `htonl` |
| Cidr.dfy | networks as sets of addresses that share a prefix; what masking does to them |
| Netmask.dfy | the mask loops of `parse_addr` |
| CStrings.dfy | C strings and `strlcpy` |
| ErrorSlot.dfy | the error slot passed down as `char **` |
| ParseUlong.dfy, ParseAddr.dfy | `parse_ulong`, `parse_addr` |
| Pf.dfy | `pf_handle`: table entry, state-kill mask, de-duplicating kill loop |
| SystemVProtocol.dfy, PosixProtocol.dfy | both queue backends as state machines: many handles, calls broken at every system call, every system call free to fail, processes free to die |
| SystemVQueue.dfy, PosixQueue.dfy | the code of both backends on heap handles and reused buffers, proved to perform steps of those machines |
| Delivery.dfy | how a text travels through the buffers of either backend |
| Daemon.dfy | the receive-parse-handle loop interleaved with senders, as a machine: whole runs, and how they end |
| Queues.dfy | the queue API over either backend |
| Banipd.dfy | the code of the loop, on the heap, proved to perform the steps of that machine |
| Program.dfy | the program from `queue_open` on: start, senders that open the queue, loop |
| Cleanup.dfy | `cleanup` |

## How the source is read

- Memory of an address is 16 bytes.  Unsigned integers are natural numbers below the power of two of their
  width; shifts truncate where the source's types do.  `ULONG_MAX` is that of a 64-bit `long`.
- `inet_pton`, `getaddrinfo` and `ftok` are arbitrary functions.  `ftok` may map two files to one key.
- Socket addresses have the BSD layout PF works with: 16 bytes for IPv4 and 28 for IPv6, the first byte being
  that length.
- Failing system calls are boolean parameters, or events of a run.
- `strtoul` follows section 7.22.1.4 of C11 in the "C" locale.  A platform that also sets `errno` when nothing is
  converted changes which message `parse_ulong` reports, not whether it accepts.
- The overwrite branch of `_error_set` (queues/error.c:13-16) passes the address of the slot to `free`, not the
  message.  For banipd that is the address of a local of `main`, which no allocator has given out.  C leaves what
  follows undefined; here it is the end of the process, and no code runs after it.
- A receive on an empty queue blocks: the loop has no turn until a text is sent.

## Where the code and its documentation disagree

- queue.h:36-39 asks for attributes to be set before `queue_open`, and the options `-b` and `-s` of banipd do
  that.  The POSIX backend refuses it, so every queue it creates has the default attributes
  (`SetBeforeOpenRefused`, `OnlyDefaultQueues`).
- queue.h:65 asks for `queue_close` after a failed `queue_open`.  In the POSIX backend this removes the name of
  a queue that another owner created (`Takeover`); `OwnershipIff` says exactly which runs are free of that.
- `parse_addr` ignores the verdict of `parse_ulong`, so a refused prefix is used and its error stays in the slot
  (`ErrorCount`); `CleanRunIff` says exactly which runs keep the slot clean.
- The next error then ends the daemon, in the overwrite branch.  `CrashIff` says exactly which runs end so: a round
  with a refused prefix also fails, or any later turn reports an error.  The texts `10.0.0.1/x` and `zzz` do it, and
  what was sent after them is never banned (`EndsEarly`, `EndsEarlyWitness`).
- A refused prefix that is no number at all bans the whole address family, as a /0 (`RefusedAndBanned`).
- A negative prefix is read as a huge one and refused for its length (`NegativeRefused`), and what follows the digits
  of a prefix is reported but does not stop the ban (`TailIgnored`).
- A bare IPv6 address is banned as a /64 (`ParsedNetwork`).
- The loop of state kills takes IPv6 addresses for equal that differ after their first 64 bits.  The daemon passes
  it numeric hosts only, and for those the kills are exact at every prefix (`StatesKilledIff`); a list of different
  addresses is covered up to a /64 only (`CoverageIff`).
- A System V text as long as the message size or longer is sent without its terminator (`ArrivesIffFits`).

## Model

| member | source | states |
|---|---|---|
| Words.HtonlStoresNetworkOrder | parse.c:206-208 | bytes stored through `htonl` spell the word in network order on hosts of either byte order |
| Words.AndIsBytewise | parse.c:209-211 | the word-wise AND is the byte-wise AND in either byte order |
| Netmask.SetBit | parse.c:203-205 | one round of the bit loop turns the word with its `31 - i` top bits set into the one with `32 - i` set, and touches no other word |
| Netmask.StoreOnes | parse.c:200-202 | one round of the word loop sets the four bytes of word `j` and no others |
| Netmask.SetHighBits | parse.c:203-205 | the bit loop leaves, in host order, the word with its `b` top bits set |
| Netmask.ToNetworkOrder | parse.c:206-208 | the word read in host order before is the word read in network order after |
| Netmask.BuildMask | parse.c:196-208 | for every prefix length 0..128 the loops build the network mask of that length, byte for byte, on either byte order, within the four words |
| Netmask.AndInto | parse.c:209-211 | one round of the last loop ANDs the four bytes of word `i` with the mask's and touches no others, on either byte order |
| Netmask.ClearHostBits | parse.c:191-212 | exactly the first `netmask` bits of the address are kept and all others cleared, for every length 0..128 |
| Cidr.MaskBit | parse.c:190-212 | a bit of the masked address is set iff it was set and lies within the prefix |
| Cidr.MaskUnique | parse.c:190-212 | no other address has that property |
| Cidr.MaskEqualIffSamePrefix | parse.c:190-212 | two addresses mask equally iff they share the first `n` bits |
| Cidr.Remask | parse.c:190-212 | masking twice is masking once to the shorter prefix; in particular masking is idempotent |
| Cidr.MaskIsLeast | parse.c:190-212 | the masked address belongs to the network and is its least member |
| Cidr.MaskNamesSameNetwork | parse.c:190-212 | clearing the host bits does not change which addresses are meant |
| Cidr.NestedOrDisjoint | parse.c:190-212 | any two networks are nested or disjoint |
| CStrings.Strlcpy | missing/strlcpy.c:27-51 | returns the length of the source text; leaves as much of it as fits, a terminator and the old rest in the destination |
| CStrings.StrlcpyTruncates | missing/strlcpy.c:22-26 | terminates within `siz`; the destination holds the text iff the result is below `siz`; nothing from `siz` on changes |
| ErrorSlot.Cell.Set | queues/error.c:7-31 | an empty slot holds the error; a slot that holds one is the end of the process |
| ErrorSlot.Cell.Free | queues/error.c:33-39 | the slot is empty |
| ErrorSlot.PutAllCrashes | queues/error.c:13-16 | a sequence of errors ends the process iff there is more than one of them, the one already held included |
| ParseUlong.ParseUlong | parse.c:19-48 | stores the converted value whether or not it accepts; a refusal is reported once |
| ParseUlong.NumeralValue | parse.c:27 | what a numeral converts to, whatever follows it: its magnitude, 2^64 less its magnitude after a minus sign, 2^64 - 1 when out of range |
| ParseUlong.NumeralOrNothing | parse.c:27 | a text that begins with no numeral converts to 0 and consumes nothing |
| ParseUlong.ThreeDigits | parse.c:27 | what one, two and three digits are worth |
| ParseUlong.Reasons | parse.c:28-43 | which error is reported for a text that begins with a numeral |
| ParseUlong.AcceptedIff | parse.c:27-44 | accepts exactly white space, an optional sign and digits whose magnitude is 1..2^64 - 1, except, under a stale `ERANGE`, the magnitude 1 after a minus sign and 2^64 - 1 otherwise |
| ParseUlong.StaleErrno | parse.c:28-31 | a stale `errno` changes the verdict only for the value ULONG_MAX |
| ParseUlong.ParsesPrinted | parse.c:19-48 | inverts decimal printing on 1..ULONG_MAX |
| ParseAddr.ParseAddr | parse.c:115-227 | the in-place code computes the specification `Parse`: verdict, all fields of the address, and every error reported on the way, up to the end of the process |
| ParseAddr.ParseSlash | parse.c:128-175 | the branch for `address/prefix`, with the verdict of `parse_ulong` ignored and its error kept, unless the process ends there |
| ParseAddr.ParseSlashHost | parse.c:136-175 | the rest of that branch, for any number the prefix text gave |
| ParseAddr.ParseNoSlash | parse.c:176-189 | the branch for a bare address: /32 for IPv4, /64 for IPv6 |
| ParseAddr.ParsedNetwork | parse.c:115-227 | success means the network of the bytes that `inet_pton` returns for the text before the slash: their first bits and no others, size and prefix that fit the family, and `humanrepr` equal to that text |
| ParseAddr.NegativeRefused | parse.c:135-148 | a text with a negative prefix of magnitude 1..2^64 - 129 never parses |
| ParseAddr.TailIgnored | parse.c:135-148 | what follows the digits of a prefix is reported, and the digits are the prefix all the same |
| ParseAddr.AddrT.Complete | parse.c:190-216 | host bits cleared; success iff the text fits `humanrepr`, which then holds it |
| ParseAddr.ParsesIff | parse.c:128-189 | exactly which texts parse, and as which family, in both branches |
| ParseAddr.ErrorCount | parse.c:135-148 | one error for a refused prefix and one more for a failure, for every text |
| Pf.ShiftIsHighWord | pf.c:155 | the 64-bit shift of the 40-bit constant, cut to 32 bits, is the word with `n` leading ones for every n below 32 |
| Pf.PartialByte | pf.c:165-167 | `(0xff00 >> r) & 0xff` is the byte with `r` leading ones |
| Pf.StoreMask4 | pf.c:153-155 | the four bytes stored are the network mask of the prefix, on either byte order |
| Pf.StoreMask6 | pf.c:156-167 | byte fill and partial byte together are the network mask of the prefix |
| Pf.KillMask | pf.c:96-168 | the recomputed mask is the one `parse_addr` applied: first 4 bytes for IPv4 0..32, all 16 for IPv6 0..128, full lengths included |
| Pf.CarriedAddress | pf.c:193-196 | the address is taken from its place in a `sockaddr_in` and in a `sockaddr_in6`, which are given byte by byte |
| Pf.HeadIff | pf.c:182-189 | an entry leads to a kill iff it has an address whose first 16 bytes differ from those of the nearest entry before it that has one |
| Pf.KillLoop | pf.c:182-208 | one kill per run of adjacent equal keys, in order, up to the first unknown family or failed kill; success iff there is none; one error otherwise |
| Pf.KillHasAddress | pf.c:191-203 | the kill for an entry has the address in its socket address |
| Pf.PfHandle | pf.c:78-215 | adds exactly the parsed network, then the kills with its mask; exactly when it succeeds; a failure is reported exactly once |
| Pf.TableAndFilterAgree | pf.c:150-168 | the table entry (masked address and length) and the kill filter (the bytes `inet_pton` returned and the recomputed mask) match the same addresses |
| Pf.EveryKillMatchesTable | pf.c:150-208 | every kill issued for a parsed text matches exactly the network added to the table, if the text resolves to its own address |
| Pf.StatesKilledIff | pf.c:150-208 | when all kills of a parsed text succeed, some filter matches an address iff it is in the network of the bytes `inet_pton` returned, which is the one added to the table, at every prefix length |
| Pf.NumericHandled | pf.c:170-214 | for a numeric host of either family the call fails only if the table update or a kill does |
| Pf.KillMatchesIff | pf.c:189-203 | the filter of a kill matches exactly the network of the address it was made for |
| Pf.CoverageIff | pf.c:182-208 | the kills of every list of addresses of one family match all of them for IPv4, and for IPv6 iff the prefix is at most 64 |
| Pf.TwinsNotCovered | pf.c:186-189 | two IPv6 addresses that differ first in bit 64: no filter issued matches the second, for every prefix above 64 |
| SystemVProtocol.RunInv | queues/systemv.c:72-178 | the protocol invariant holds after every interleaved run with any failures and deaths |
| SystemVProtocol.ExclusiveOwnership | queues/systemv.c:102-135 | at most one handle has a name recorded, and the file at that name is the one it created |
| SystemVProtocol.OnlyOwnThingsRemoved | queues/systemv.c:253-266 | a queue disappears only by `IPC_RMID` of the handle that created it, a key file only by `unlink` of the handle that created it |
| SystemVProtocol.OwnThingsRemovable | queues/systemv.c:253-266 | a `IPC_RMID` or `unlink` that the system lets through does find and remove its object, in every reachable state |
| SystemVProtocol.LiveQueueHasKeyFile | queues/systemv.c:102-141 | while a queue is alive its key file exists, fully written, made by its creator, and gives its key; across failed closes and deaths |
| SystemVProtocol.SenderFindsOwner | queues/systemv.c:111-141 | a sender that read a fully written key file derives the owner's key and gets the owner's queue |
| SystemVProtocol.ClosedAtMostOnce | queues/systemv.c:243-279 | over any number of closes, `IPC_RMID`, `unlink` and the release of the handle each succeed at most once |
| SystemVProtocol.OwnerOpens | queues/systemv.c:87-175 | on any kernel where the name is free and the key is not taken, an owner whose calls succeed ends up with the file, the queue and the record of both |
| SystemVProtocol.SenderOpensOwned | queues/systemv.c:111-175 | a sender that then opens the name gets that queue and changes nothing |
| SystemVProtocol.CloseUndoesOpen | queues/systemv.c:252-273 | closing an owner restores the names, keys and queues to what they were before it opened |
| SystemVProtocol.CallContinuesRun | queues/queue.h:21-24 | a call made in a reachable state continues the run, so the results above hold after it |
| SystemVQueue.Handle.constructor | queues/systemv.c:32-45 | a fresh handle: no queue, no file, no buffer |
| SystemVQueue.Handle.OpenKeyFile | queues/systemv.c:87-118 | the steps up to the open key file, which an owner creates exclusively |
| SystemVQueue.Handle.DeriveKey | queues/systemv.c:106-130 | the steps from the identifier to the key |
| SystemVQueue.Handle.FindOrCreate | queues/systemv.c:131-145 | the steps from the key to the queue, with the file recorded before an owner creates it; exactly when there is one, and a created one is empty |
| SystemVQueue.Handle.Attach | queues/systemv.c:164-174 | the last step: `buffer_size` is an eighth of `msg_qbytes`, and the buffer has room for that many pointers behind `mtype`, iff the queue is still there and the calls succeed |
| SystemVQueue.Handle.Open | queues/systemv.c:72-178 | the code performs the protocol's steps in order up to the first failure; exactly when it succeeds; which queue it gets; an owner's is empty and can be found by its name |
| SystemVQueue.Handle.RemoveOwnQueue | queues/systemv.c:254-260 | the step that removes an owner's queue; a failure leaves the identifier for the next close |
| SystemVQueue.Handle.RemoveOwnFile | queues/systemv.c:261-266 | the step that removes an owner's key file; a failure leaves the name for the next close |
| SystemVQueue.Handle.RemoveOwn | queues/systemv.c:253-267 | both removals in order, from where the last close failed |
| SystemVQueue.Handle.Release | queues/systemv.c:252-273 | the code performs the protocol's close steps; it succeeds iff each call it still needs does |
| SystemVQueue.Handle.Close | queues/systemv.c:243-279 | the pointer becomes NULL exactly when the result is true, and the handle has gone through the protocol's close steps |
| SystemVQueue.Handle.GetMaxMessageSize | queues/systemv.c:180-202 | the value is `msg_qbytes`, if the queue is still there |
| SystemVQueue.Handle.Send | queues/systemv.c:220-241 | the text overwrites the front of the reused buffer, and an eighth of `msg_qbytes` bytes of it are appended to the queue, whatever length the caller passes; every write stays in the allocation |
| SystemVQueue.Handle.TakeFirst | queues/systemv.c:211 | the first message leaves the queue and overwrites the front of the buffer behind `mtype` |
| SystemVQueue.Handle.Receive | queues/systemv.c:204-218 | the first message, of whatever program, overwrites the front of the reused buffer, and the string there reaches the caller's; every access stays in bounds |
| Delivery.EncodeDecodes | queues/systemv.c:229-236 | what is transmitted decodes to the text, whatever stale bytes the sender's buffer holds |
| Delivery.HandsOverText | queues/systemv.c:211-213 | what reaches the daemon's buffer is the text that the handle's own buffer then holds, whatever stale bytes the daemon's held |
| Delivery.GoodReads | queues/systemv.c:211-213 | a message of the library can be received in bounds and reads as its text, whatever stale bytes the handle's own buffer held |
| Delivery.ArrivesIffFits | queues/systemv.c:232-233 | a text arrives for all contents of the buffers iff eight times its size with the terminator is at most `msg_qbytes` |
| PosixProtocol.RunInv | queues/posix.c:87-154 | the protocol invariant holds after every interleaved run with any failures and deaths |
| PosixProtocol.SetBeforeOpenRefused | queues/posix.c:64-85 | before `queue_open`, `queue_set_attribute` answers "not owner" and changes nothing, in every reachable state |
| PosixProtocol.OnlyDefaultQueues | queues/posix.c:56-57 | every queue created through the library takes 10 messages of 1024 bytes |
| PosixProtocol.CacheAgrees | queues/posix.c:111-149 | the cached attributes of an open handle are the kernel's, owner or not, unless an owner changed them afterwards to other than the defaults |
| PosixProtocol.OwnershipIff | queues/posix.c:103-131 | a run removes only names of queues their removers created iff no handle whose owner open failed at `mq_open` gets through `mq_unlink` |
| PosixProtocol.CloseAfterOpenIsSafe | queues/posix.c:103-131 | a run whose callers close owners only after `queue_open` returned true removes only names of their own queues |
| PosixProtocol.Takeover | queues/posix.c:229-236 | for every name, a run in which closing after a failed owner open removes another owner's live queue |
| PosixProtocol.ClosedAtMostOnce | queues/posix.c:212-244 | over any number of closes, `mq_close`, `mq_unlink` and the release of the handle each succeed at most once |
| PosixProtocol.OwnerOpens | queues/posix.c:97-150 | on any kernel where the name is free, an owner whose calls succeed gets a new queue for 10 messages of 1024 bytes |
| PosixProtocol.OtherOpens | queues/posix.c:97-150 | on any kernel where the name exists, another handle gets its queue and its attributes and changes nothing |
| PosixProtocol.CloseUndoesOpen | queues/posix.c:221-238 | closing an owner restores the names to what they were before it opened |
| PosixProtocol.CallContinuesRun | queues/queue.h:21-24 | a call made in a reachable state continues the run, so the results above hold after it |
| PosixQueue.Handle.constructor | queues/posix.c:30-62 | a fresh handle with 10 and 1024 as attributes |
| PosixQueue.Handle.SetAttribute | queues/posix.c:64-85 | the status; the attribute asked for, and no other, has the new value, as `GetAttribute` then answers |
| PosixQueue.Handle.GetAttribute | queues/posix.c:156-173 | the attribute in the cache, which `CacheAgrees` ties to the kernel's |
| PosixQueue.Handle.Open | queues/posix.c:87-154 | the code performs the protocol's steps in order up to the first failure; exactly when it succeeds; the handle is then ready to send and receive, and an owner's queue is empty |
| PosixQueue.Handle.CloseDescriptor | queues/posix.c:222-228 | the step that closes the descriptor; a failure leaves it for the next close |
| PosixQueue.Handle.RemoveOwnName | queues/posix.c:229-236 | the step that removes an owner's name; a failure leaves it for the next close |
| PosixQueue.Handle.Release | queues/posix.c:221-238 | the code performs the protocol's close steps; it succeeds iff each call it still needs does |
| PosixQueue.Handle.Close | queues/posix.c:212-244 | the pointer becomes NULL exactly when the result is true, and the handle has gone through the protocol's close steps |
| PosixQueue.Handle.Send | queues/posix.c:190-210 | the text, or as many bytes as the caller says, is appended to the queue iff it is no longer than the message size and the call succeeds |
| PosixQueue.Handle.Receive | queues/posix.c:175-188 | any first message and a terminator reach the caller's buffer, in bounds for a buffer of the cached size plus one |
| Daemon.EndToEnd | banipd.c:313-324 | over every interleaving of sends and rounds, both backends, any failures and stale bytes: the texts received are the first ones sent, in order, the rest is in flight, and the addresses handled are the parses of the texts received; all of them while the daemon lives |
| Daemon.RoundSlot | banipd.c:316-323 | a round ends the daemon iff it reports an error while the slot holds one, or reports two; it leaves the slot empty iff it was empty and the prefix was accepted |
| Daemon.CrashIff | banipd.c:313-324 | over every run, the daemon has ended iff a round with a refused prefix also failed or was followed by a turn that reported an error |
| Daemon.NextTurnIff | banipd.c:313-324 | after every run, the loop can take another turn iff that is not so and, to serve, a text is waiting |
| Daemon.RefusedAndBanned | parse.c:135-148 | an address with a prefix that is no number is reported, and banned as a /0 |
| Daemon.EndsEarly | queues/error.c:13-16 | a refused prefix that is banned, and then any error, end the daemon: the texts after them stay in the queue and no turn is possible |
| Daemon.EndsEarlyWitness | queues/error.c:13-16 | `10.0.0.1/x`, `zzz` and `10.0.0.2` are such texts, on both backends |
| Daemon.CleanRoundIff | banipd.c:316-323 | a round from an empty slot ends with an empty slot iff the prefix was accepted, whatever the engine does |
| Daemon.CleanRunIff | banipd.c:313-324 | over every run, the slot is empty at each loop head iff every received prefix was accepted |
| Queues.OpenQueue | queues/queue.h:53-67 | for both backends: exactly when it succeeds; the handle is then ready, an owner's queue is empty and announced under its name, another handle has the queue the name leads to |
| Queues.AllocateBuffer | banipd.c:287-294 | the buffer is one larger than the maximum message size of the backend; exactly when there is one |
| Queues.Receive | banipd.c:317 | for both backends the first message, of whatever program, is handed over and leaves the queue, in bounds |
| Queues.SendText | queues/queue.h:95-105 | for both backends the encoded text is appended iff it is accepted, and the sender's buffer is filled; any text that fits the allocation |
| Queues.CloseQueue | queues/queue.h:107-112 | for both backends: exactly when it succeeds, and then the handle is freed and has nothing left; what the handle has forgotten is gone from the system, and nothing else is, also when a call fails |
| Banipd.Submit | queues/queue.h:105 | a send on the heap is a step of the machine, for any sender among any number |
| Banipd.ParseAndHandle | banipd.c:318-323 | if the daemon lives through the parse, the table grows by the parsed network and its states are killed; the slot is as one round leaves it |
| Banipd.Take | banipd.c:317-322 | receiving on the heap is the first half of a step, or all of it if it fails |
| Banipd.Iterate | banipd.c:314-323 | the body of the loop on the heap is a step of the machine, contents of all buffers included and with the engine's own answer, and PF is told in this round what the machine hands to it |
| Banipd.Serve | banipd.c:313-324 | over any sends and turns the code performs the run that they determine, skipping only turns it cannot have; the addresses handled are those the operations determine, the table is exactly their entries in the rounds that let them in, and the kills are exactly theirs, in order |
| Banipd.TraceSends | queues/queue.h:105 | what is sent in that run is what the clients submitted, in order |
| Banipd.TableIsHandled | pf.c:170-173 | if the table takes an entry in every turn, it holds exactly the networks of the addresses handled, in order |
| Banipd.BanKillsNetwork | pf.c:78-215 | an address handled with success has had the states of exactly its network killed |
| Program.StartUp | banipd.c:284-294 | exactly when the start gets through; the queue is then ready, empty and announced, with a buffer for its messages |
| Program.PosixLimits | queues/posix.c:56-57 | on every POSIX queue that an owner creates, a text is sent iff the system lets it through and it has at most 1024 characters, and the daemon's buffer has 1025 |
| Program.Join | queues/queue.h:67 | a process becomes a sender of the daemon iff the name leads it to the daemon's queue; the system is unchanged |
| Program.JoinAll | queues/queue.h:67 | of any number of processes exactly those do, each with a handle and a buffer of its own |
| Program.AllJoin | queues/queue.h:67 | all of them, if none of their calls fails |
| Program.Accounting | banipd.c:313-324 | the run on the heap, the account of `EndToEnd`, the texts the clients submitted and the state of PF are put together |
| Program.Session | banipd.c:284-324 | from an idle handle: exactly when the daemon gets to its loop; then the whole account holds on the queue given, with its backend and with the senders that find it; what is in flight is in that queue, and PF holds exactly what the operations determine |
| Cleanup.Globals.Free | banipd.c:94-104 | only allocated memory may be freed, and it is not allocated afterwards |
| Cleanup.Cleanup | banipd.c:92-105 | buffer, context and queue are freed if they are there and, for the queue, if its close succeeds: exactly that memory; what the queue handle has forgotten is gone from the system and nothing else, and if it is freed it has nothing left |
| Cleanup.CleanupRepeatedly | banipd.c:92-105 | over any number of calls with any failures, the memory freed is what is no longer held, nothing is freed twice, and only the owner's own name and queue are gone from the system |

## Left out

- nftables.c, npf.c, ipset.c, iptables.c, dummy.c, command.c, engine.c: other engines and their look-up would only add easy members.
- The clients: glue for Apache, Varnish and PHP; the PHP client sends no terminator and is outside the System V delivery results.
- Options, logging, the pid file, signals, daemonizing, changes of user and group, capsicum, `umask`.
- Code under `#if 0`.
- The text of error messages: an error is reduced to its reason.
- Owner names with a colon in the System V backend: the copied name is not terminated there.
- Removal of names, key files or queues by anything but the library, in both backends, and queues of other programs in the System V backend.
- SystemVQueue.Handle.Send: the text must fit the allocation, since the code copies it unchecked.
- SystemVQueue.Handle.Receive: the message must fit the allocation and leave a terminator in it, since the code checks neither.
- Banipd.Iterate: the messages in a System V queue are those of the library.
- Banipd.Submit: System V texts are shorter than the message size; what the others read as depends on stale bytes (`ArrivesIffFits`).
- The second `queue_open` of a handle: the documented order has one.
- Program.Session: the messages printed when the start fails, and the engine's own start.
- Cleanup.Cleanup: the pid file and the log, and the buffer inside a System V handle.
