# lopack in Dafny

A model of the logic of lopack, a C++ wrapper for the liblo Open Sound Control library, and proofs about it.
`dafny verify dfyconfig.toml` checks the whole project (Dafny 4.11).

lopack has four pieces of logic of its own, and each is modelled here.

**The packet builder, `OscSender`.** A client issues commands (begin and end a message, add arguments, begin and end
bundles, send, clear) and the sender grows a packet tree. `SenderSpec` is the sender as a state machine on values:
`Step` says of every command whether it is accepted, throws, or is undefined C++ (NULL handed to liblo, `back()` on an
empty vector), and `Run` strings commands together the way a client does that catches every exception. The bundle
stack is a zipper, and `Root` is the tree below its first bundle. Every allocation has a serial number, so that
ownership can be stated. On top of it:

- `SenderRoundTrip`: every packet tree, of any depth and width, can be written as commands and is transmitted, unchanged
  exactly if no string in it holds a NUL (strings are cut there).
- `SenderDiscipline`: conversely, what a well-behaved client transmits is spelled by its accepted commands.
- `SenderTranscript`: for every run, behaved or not, exactly when that is so; a client can tell by counting brackets.
- `SenderPlacement`: for every run, in which bundle a message ends up, and exactly when that is the one it was begun in.
- `SenderRuns`: order conservation, frozen history, invisibility of rejected commands, exactly when behaviour stays
  defined, and exactly when bundle depth is begins minus ends; all for every run.
- `SenderHistory`: for every run, the address, the transmissions and the message flag, from the commands alone.
- `SenderOwnership`: no run frees twice, and exactly which runs lose an allocation.
- `OscSenders`: the sender as an object over liblo messages and bundles on the heap, where the stack aliases nodes
  inside the tree. Its invariant is that the stack is the rightmost path of the tree; every method is proved to do
  what `Step` says, and `Replay` what `Run` says.

**Dispatch, `OscObject::processOsc` and `OscReceiver::processMessage`.** Objects form a user-built graph of pointers.
`ObjectGraph` treats acyclicity, ranks and post-order on values; `ObjectLists` the vectors and the erasing of NULL
entries while iterating; `Dispatch` and `DispatchLoop` put them together; `OscObjects` and `OscReceivers` are the
recursive heap methods. A handler's answer may depend on the handlers called before it for this message and, in a
receiver, on all messages taken before and who was called for them, so stateful handlers are covered as long as they
leave the graph alone. `After` is the exact graph a dispatch leaves behind: which vectors lost
which NULLs.

**The life of a receiver.** `ReceiverSpec` is the step system of setup, start, stop, clear, ignore, poll, arrival and
server thread; `OscReceivers` implements its steps and replays whole interleavings.

**Time tags and typed arguments.** `TimeTags` bounds the error of `TimeTag::add` in real arithmetic;
`ReceivedMessages` follows every argument from the sender's `add*` to the reader's `as*` and `try*`.

## Where the code and its documentation disagree

The model follows the code.

- `clear` leaves the two in-progress flags set. After it, the next argument of an unfinished message goes to a NULL
  message (`ClearMidMessage`); `SafeStep` and `SafeExactly` say exactly what follows.
- Neither `endBundle` nor `beginBundle()` without a tag objects to a message in progress, although the exception text
  promises it. A message can be lost this way (`StrandedMessage`; `NothingLostExactly` says which runs lose one), or end
  up in another bundle than it was begun in with nothing lost: an inner one's message in the outer one (`Misplaced`), a
  message begun outside in a later bundle (`Captured`). `PlacedWhereBegun` says exactly when a message stays where it
  was begun; not only when no bundle is begun or ended meanwhile, as `LedBack` shows.
- `beginBundle()` without a tag is refused inside an open bundle (`UntaggedRefused`, `Rejections`), although the header
  says it can be called within other bundles. It nests exactly when the outermost bundle has been closed and is still
  there (`UntaggedNestsExactly`). `beginBundle(tag)` nests.
- Closing the outermost bundle keeps it on the stack. `ReopenNestsDeeper` shows the effect on depth and
  `DepthAccounting` when depth is off.
- `TimeTag::add` does not carry from the fraction to the seconds. `NoCarry` is an example and `AddAccurate` the exact
  condition.
- `asBlob` does not check the type, although the header says every `as*` does; `BlobUnchecked` says when it is defined.
  The `is*` tests do not throw on a bad index, as the header says, but return false (`TestsTell`).
- Strings are handed to liblo through `c_str()`, which cuts them at the first NUL; `WireFaithful` says when a packet
  is not affected.

## Model

| member | source | states |
|---|---|---|
| `OscTypes.CStr` | src/lopack/OscSender.cpp:163-168 | what liblo sees of a string is its longest NUL-free prefix, the whole string iff it holds no NUL |
| `Packets.WireFaithful` | src/lopack/OscSender.cpp:204-214 | a packet reaches liblo unchanged iff no address pattern and no string argument in it holds a NUL |
| `Packets.OutlineInjective` | src/lopack/OscSender.cpp:225-240 | no two packets have the same depth-labelled preorder, so the outline identifies a packet |
| `SenderSpec.RootMeasures` | src/lopack/OscSender.cpp:225-249 | the tree closed up from the stack has the outline and the allocations of the stack's frames, in order |
| `SenderRuns.StepOutline` | src/lopack/OscSender.cpp:200-254 | an accepted step appends its one contribution at the end of the tree's outline, or empties the stack iff it is a send or clear |
| `SenderRuns.OrderConservation` | src/lopack/OscSender.cpp:200-254 | in every run, the tree is the one packet whose preorder, with depths, is the list of messages ended and bundles begun since the stack was last empty |
| `SenderRuns.FrozenHistory` | src/lopack/OscSender.cpp:204-242 | through any commands up to send or clear, the old outline stays a prefix of the new one: nothing already placed changes |
| `SenderRuns.Rejections` | src/lopack/OscSender.h:37-63 | each of the four exceptions is thrown exactly in the situations listed, whatever the command |
| `SenderRuns.RejectedInvisible` | src/lopack/OscSender.cpp:56-254 | deleting every command that threw gives a run that throws nothing and ends in the same state with the same transmissions |
| `SenderRuns.SafeStep` | src/lopack/OscSender.cpp:72-82 | from a safe state no command is undefined, and safety is lost exactly by a clear with a flag set |
| `SenderRuns.SafeExactly` | src/lopack/OscSender.cpp:200-216 | flags have their objects iff no continuation without mid-build clear can reach undefined behaviour |
| `SenderRuns.UnsafeCrashes` | src/lopack/OscSender.cpp:95-216 | from every unsafe state at most two commands reach undefined behaviour |
| `SenderRuns.ClearMidMessage` | src/lopack/OscSender.cpp:72-101 | begin a message, clear, add an argument: undefined behaviour |
| `SenderRuns.DepthLaw` | src/lopack/OscSender.cpp:220-254 | in every run, depth is begins minus ends plus reopened bundles plus ends on an emptied stack |
| `SenderRuns.DepthAccounting` | src/lopack/OscSender.cpp:220-254 | depth equals begins minus ends iff no closed bundle was reopened and no end hit an emptied stack |
| `SenderRuns.ReopenNestsDeeper` | src/lopack/OscSender.cpp:244-254 | begin, end, begin, end leaves a bundle in progress: the failing case of depth accounting |
| `SenderRuns.UntaggedNestsExactly` | src/lopack/OscSender.cpp:220-230 | beginBundle without a tag is accepted and nests iff no bundle is in progress and the stack is not empty; it throws iff one is in progress |
| `SenderRuns.UntaggedRefused` | src/lopack/OscSender.h:115-117 | the failing case of the header's promise: refused right after beginning a bundle, where beginBundle with a tag nests |
| `SenderOwnership.RunAccounts` | src/lopack/OscSender.cpp:72-93 | every run keeps sole ownership, and allocations minus those reachable or freed is the number of losing commands |
| `SenderOwnership.NoDoubleFree` | src/lopack/OscSender.cpp:72-82 | in every run nothing is freed twice, no node of the tree is reachable twice, nothing reachable has been freed |
| `SenderOwnership.NothingLostExactly` | src/lopack/OscSender.cpp:72-93 | every allocation is reachable or freed exactly once iff the run never began over an unsent message nor emptied a bundle with a message beside it |
| `SenderOwnership.IdleFreedAll` | src/lopack/OscSender.cpp:72-82 | with nothing lost and nothing being built, everything ever allocated was freed exactly once |
| `SenderOwnership.StrandedMessage` | src/lopack/OscSender.cpp:244-254 | ending the outermost bundle inside a message sends the bundle without it and leaks the message |
| `SenderPlacement.PlacedWhereBegun` | src/lopack/OscSender.cpp:86-254 | for every message of every run: ending it is undefined iff it was begun after a clear emptied a bundle still in progress and no bundle was ended since; otherwise it becomes the last element of the bundle then in progress, or stands alone, and that is where it was begun iff the number of bundles begun or ended meanwhile is 0, or a multiple of 3 if it was begun in or beside the outermost bundle, or 2 modulo 3 if it was begun with no bundle there |
| `SenderPlacement.WritingRun` | src/lopack/OscSender.cpp:220-254 | inside a message, brackets leave a nested bundle for good, or lead around the outermost bundle in a cycle of three |
| `SenderPlacement.Misplaced` | src/lopack/OscSender.cpp:204-254 | a message begun in the inner of two bundles is transmitted in the outer one; everything allocated is freed once |
| `SenderPlacement.Captured` | src/lopack/OscSender.cpp:204-230 | a message begun outside any bundle ends up in a bundle begun later |
| `SenderPlacement.LedBack` | src/lopack/OscSender.cpp:204-254 | a message ends up in the bundle it was begun in although bundles were ended, begun and ended meanwhile |
| `SenderSpec.FeedIsRun` | src/lopack/OscSender.cpp:56-254 | a command sequence that throws nothing ends in the same state for a client that catches exceptions and one that does not |
| `SenderHistory.AddressHistory` | src/lopack/OscSender.cpp:47-82 | in every run the address is that of the last setup in the command list; nothing else, clear and send included, changes it |
| `SenderHistory.OnePacketPerSend` | src/lopack/OscSender.cpp:56-82 | in every run each accepted send, and nothing else, transmits one packet, and none is taken back |
| `SenderHistory.SentHistory` | src/lopack/OscSender.cpp:56-70 | every transmission of every run goes to the last address set up before its send, and is the bundle then on the stack, or else the message |
| `SenderHistory.MessageHistory` | src/lopack/OscSender.cpp:86-216 | a message is in progress iff the last accepted begin or end of a message is a begin |
| `SenderHistory.UntaggedImmediate` | src/lopack/OscSender.cpp:220-230 | a bundle begun without a tag is transmitted with time tag 0, 1, OSC's "immediately" |
| `SenderRoundTrip.RoundTrip` | src/lopack/OscSender.cpp:56-254 | from an idle addressed sender, writing any packet and sending throws nothing, transmits it (exactly iff NUL-free), frees all it allocated and leaves the sender idle |
| `SenderRoundTrip.RoundTrips` | src/lopack/OscSender.cpp:56-82 | any sequence of packets is transmitted in order by one sender |
| `SenderRoundTrip.SetupRoundTrip` | src/lopack/OscSender.cpp:47-70 | the packet goes to the address of the last setup |
| `SenderRoundTrip.LinearInjective` | src/lopack/OscSender.cpp:86-254 | no two packets are written with the same commands |
| `SenderDiscipline.StepWrites` | src/lopack/OscSender.cpp:86-254 | an accepted, disciplined build command extends what the state spells by exactly that command |
| `SenderDiscipline.TranscriptIsWritten` | src/lopack/OscSender.cpp:56-254 | disciplined runs are defined, and the state spells the accepted commands since the last send or clear |
| `SenderDiscipline.TransmitsTranscript` | src/lopack/OscSender.cpp:56-70 | the packet a disciplined run transmits is the one and only packet that linearises to its accepted commands since the last send or clear |
| `SenderTranscript.ScanLinear` | src/lopack/OscSender.cpp:86-254 | the bracket count accepts the commands of every packet, at any depth |
| `SenderTranscript.SpellsExactly` | src/lopack/OscSender.cpp:86-254 | commands, as they take effect, pass the bracket count iff they are the linearisation of some packet; a sender given them rejects none |
| `SenderTranscript.TransmitsExactly` | src/lopack/OscSender.cpp:56-254 | for every run that sends: the packet transmitted linearises to the accepted commands since the last send or clear iff their brackets match and make one packet |
| `SenderDiscipline.DisciplinedOwnership` | src/lopack/OscSender.cpp:72-93 | in disciplined runs each allocation is reachable or freed exactly once, and all are freed once the sender is idle |
| `SenderDiscipline.DisciplinedDepth` | src/lopack/OscSender.cpp:220-254 | in disciplined runs begins minus ends is the depth, and every set flag has its object |
| `OscSenders.SpineDenotes` | src/lopack/OscSender.cpp:225-249 | from the spine invariant, bundle k of the stack is, field by field on the heap, the root of what the frames from k on describe |
| `OscSenders.DenotesUnique` | src/lopack/OscSender.cpp:60-75 | a tree of heap objects stands for exactly one packet tree |
| `OscSenders.ObjectIds` | src/lopack/OscSender.cpp:72-76 | the heap objects a recursive free comes to, in preorder, are the allocations of the tree, in order |
| `OscSenders.OscSender.RootDenoted` | src/lopack/OscSender.cpp:60-75 | the heap object that send transmits and clear frees is the tree of the abstract state |
| `OscSenders.OscSender.TreeNotShared` | src/lopack/OscSender.cpp:72-76 | in every state of every run no heap object hangs in the tree twice, the message being built is not in it, and nothing in it was freed: one recursive free is sound |
| `OscSenders.OscSender.constructor` | src/lopack/OscSender.cpp:30-32 | a new sender is in the initial state |
| `OscSenders.OscSender.Setup` | src/lopack/OscSender.cpp:47-54 | follows `Step`, keeps the spine invariant |
| `OscSenders.OscSender.Send` | src/lopack/OscSender.cpp:56-70 | follows `Step`: both exceptions, bundle before message, then clear; what is transmitted is the value of the heap tree |
| `OscSenders.OscSender.Clear` | src/lopack/OscSender.cpp:72-82 | follows `Step`: frees the objects of the heap tree or the lone message, never both, and keeps the flags, the address and what was sent |
| `OscSenders.OscSender.BeginMessage` | src/lopack/OscSender.cpp:86-93 | follows `Step` with a fresh message object |
| `OscSenders.OscSender.Add` | src/lopack/OscSender.cpp:95-198 | the `add*` family: appends to the message in progress, through the pointer, and to no finished message |
| `OscSenders.OscSender.EndMessage` | src/lopack/OscSender.cpp:200-216 | follows `Step`, with the message handed to the current bundle if one is in progress |
| `OscSenders.OscSender.AppendMessage` | src/lopack/OscSender.cpp:208-212 | the message becomes the last element of the top bundle, seen through every alias |
| `OscSenders.OscSender.BeginBundle` | src/lopack/OscSender.cpp:220-230 | follows `Step`: refused while a bundle is in progress, immediate tag |
| `OscSenders.OscSender.BeginBundleAt` | src/lopack/OscSender.cpp:232-242 | follows `Step`: refused while a message is in progress, given tag |
| `OscSenders.OscSender.PushBundle` | src/lopack/OscSender.cpp:236-240 | a fresh bundle becomes the last element of the top bundle and the new top |
| `OscSenders.OscSender.EndBundle` | src/lopack/OscSender.cpp:244-254 | follows `Step`: pops, or clears the flag and keeps the outermost bundle |
| `OscSenders.OscSender.PopBundle` | src/lopack/OscSender.cpp:248-249 | the popped bundle is a finished element of the one below it |
| `OscSenders.OscSender.Perform` | src/lopack/OscSender.cpp:258-348 | every command of the stream interface does what `Step` says |
| `OscSenders.OscSender.Replay` | src/lopack/OscSender.cpp:56-254 | for every command sequence the object ends in the state of `Run`, so all results about runs hold of it |
| `ObjectGraph.AcyclicIffRanked` | src/lopack/OscObject.cpp:30-46 | attachments are acyclic iff some rank strictly decreases along them, which is what makes processOsc terminate |
| `ObjectGraph.EndsIff` | src/lopack/OscObject.cpp:30-46 | with every handler rejecting, dispatch from an object ends iff no cycle can be reached from it |
| `ObjectGraph.AllEndIff` | src/lopack/OscObject.cpp:30-46 | it ends from every object iff the attachments are acyclic |
| `ObjectGraph.AttachAcyclic` | src/lopack/OscObject.cpp:48-54 | adding an object keeps the graph acyclic iff the parent is not reachable from the object added |
| `ObjectGraph.PostOrderMembers` | src/lopack/OscObject.cpp:30-46 | the objects dispatch can come to are exactly those reachable by attachments |
| `ObjectGraph.StopsAtFirst` | src/lopack/OscObject.cpp:33-45 | the handlers called are the order up to and including the first that accepts, all earlier ones having rejected |
| `ObjectLists.SweepKeeps` | src/lopack/OscObject.cpp:33-44 | a pass over a vector keeps all its objects and their order |
| `ObjectLists.SweepErase` | src/lopack/OscObject.cpp:40-41 | erasing the NULL under the iterator is one step of that pass |
| `ObjectLists.SweepTwice` | src/lopack/OscObject.cpp:33-44 | two passes do what the longer one does |
| `ObjectLists.RemovedAt` | src/lopack/OscObject.cpp:61-66 | removal takes out exactly the first occurrence |
| `ObjectLists.Ignored` | src/lopack/OscObject.cpp:48-66 | adding NULL changes nothing, and removing changes nothing iff the argument is NULL or not attached |
| `ObjectLists.AddRemove` | src/lopack/OscObject.cpp:48-67 | removing undoes adding an object that was not attached |
| `ObjectLists.AddRemoveEntries` | src/lopack/OscObject.cpp:48-67 | in any case the vector keeps the same entries |
| `Dispatch.KidAccepts` | src/lopack/OscObject.cpp:34-37 | when an attached object takes the message, no later handler is called |
| `Dispatch.StopsTaker` | src/lopack/OscObject.cpp:33-39 | there is exactly one place in a vector where the loop stops |
| `Dispatch.AfterFacts` | src/lopack/OscObject.cpp:30-46 | of the exact graph after a dispatch: only NULLs are gone, only from vectors of reachable objects, and all of them where the object's own handler was called |
| `Dispatch.HandledIffReachable` | src/lopack/OscObject.cpp:30-46 | with stateless handlers a message is handled iff some reachable object accepts it |
| `Dispatch.BuiltWithoutNull` | src/lopack/OscObject.cpp:48-71 | no sequence of adds and removes, NULL arguments included, puts a NULL into a vector |
| `Dispatch.BuiltUnchanged` | src/lopack/OscObject.cpp:30-71 | dispatch leaves a graph built by adding and removing unchanged |
| `Dispatch.BuiltAfter` | src/lopack/OscObject.cpp:30-71 | the exact result of dispatch on such a graph is the graph itself |
| `Dispatch.AttachDispatchable` | src/lopack/OscObject.cpp:48-54 | after an add the graph is acyclic, equivalently dispatch that everyone rejects ends from every object, iff it was before and the parent is not reachable from the object added; NULL entries do not matter |
| `Dispatch.DetachDispatchable` | src/lopack/OscObject.cpp:56-71 | removing one or all objects keeps the graph acyclic |
| `Dispatch.BuiltDispatchable` | src/lopack/OscObject.cpp:48-71 | every graph built by adds that do not close a cycle, and any removes, can be dispatched to |
| `Dispatch.AttachDetach` | src/lopack/OscObject.cpp:48-67 | attaching a new object and detaching it restores the graph, hence every dispatch |
| `Dispatch.AttachDetachAgain` | src/lopack/OscObject.cpp:48-67 | if it was attached already, the vector is permuted and stateless handlers give every message the same result |
| `DispatchLoop.ReceivedUnchanged` | src/lopack/OscReceiver.cpp:182-207 | a receiver over a graph and a vector without NULLs leaves both unchanged |
| `DispatchLoop.ChangedNoNull` | src/lopack/OscReceiver.cpp:131-154 | no sequence of adds and removes, NULL arguments included, puts a NULL into the receiver's vector |
| `DispatchLoop.BuiltReceived` | src/lopack/OscReceiver.cpp:131-207 | dispatch leaves a receiver, and a graph, built by adding and removing unchanged |
| `DispatchLoop.ReceiverLast` | src/lopack/OscReceiver.cpp:182-207 | with stateless handlers a message is handled iff an object reachable from the receiver's vector or the receiver accepts it; the receiver is asked last, and iff no such object accepts |
| `OscObjects.Find` | src/lopack/OscObject.cpp:61-66 | the index of the first occurrence, or the length |
| `OscObjects.OscObject.AddOscObject` | src/lopack/OscObject.cpp:48-54 | appends, ignoring NULL; the program's graph changes by that attachment alone |
| `OscObjects.OscObject.RemoveOscObject` | src/lopack/OscObject.cpp:56-67 | erases the first occurrence; the vector is unchanged for NULL and for objects not in it; the program's graph changes by that alone |
| `OscObjects.OscObject.RemoveAllOscObjects` | src/lopack/OscObject.cpp:69-71 | empties the vector and touches no other |
| `OscObjects.Rewire` | src/lopack/OscObject.cpp:48-71 | any sequence of adds and removes takes the heap to the graph the value-level operations give, so the results about built graphs hold of it |
| `OscObjects.OscObject.EraseAt` | src/lopack/OscObject.cpp:40-41 | erases one entry of this vector and touches no other |
| `OscObjects.OscObject.Ask` | src/lopack/OscObject.cpp:34-39 | one iteration on a live entry: dispatch is done, or the loop goes on with the next entry |
| `OscObjects.OscObject.ProcessOsc` | src/lopack/OscObject.cpp:30-46 | on every acyclic graph, NULL entries included: calls exactly the post-order prefix up to the first acceptance, returns whether one accepted, and leaves exactly the graph `After`: vectors of objects asked themselves lose all NULLs, vectors on the way to the acceptor lose those before the stop, all others are untouched |
| `ReceiverSpec.AlwaysSound` | src/lopack/OscReceiver.cpp:51-111 | in every interleaving, running or multicast or pending messages imply a server |
| `ReceiverSpec.FlagHistory` | src/lopack/OscReceiver.cpp:51-111 | in every run, server, multicast, running and ignoring are each set iff some event set them and none since reset them |
| `ReceiverSpec.SetupOncePerClear` | src/lopack/OscReceiver.cpp:51-91 | between two successful setups of any run there is a clear |
| `ReceiverSpec.ThreadTakesAll` | src/lopack/OscReceiver.cpp:115-127 | while the thread runs, polling takes no message |
| `ReceiverSpec.IgnoredUnheard` | src/lopack/OscReceiver.cpp:182-186 | while messages are ignored no handler is called for any message taken |
| `ReceiverSpec.HeardExactly` | src/lopack/OscReceiver.cpp:182-207 | while messages are not ignored, dispatch is run for every message taken, on all that was taken before it |
| `ReceiverSpec.Drains` | src/lopack/OscReceiver.cpp:115-127 | n polls of a stopped receiver, or n turns of a running thread, take the n oldest waiting messages in order, or all there are, and change nothing else |
| `ReceiverSpec.TakenHistory` | src/lopack/OscReceiver.cpp:115-127 | in every run each message taken was taken by one event, a poll without thread or the thread running, was the oldest waiting, and was dispatched exactly if not ignored then |
| `ReceiverSpec.ClearResets` | src/lopack/OscReceiver.cpp:85-111 | clear makes every reachable receiver a new one, up to what it took and to ignoring without a server |
| `ReceiverSpec.StartsAgain` | src/lopack/OscReceiver.cpp:51-111 | after clear every receiver can be set up, either way, started and stopped |
| `OscReceivers.OscReceiver.constructor` | src/lopack/OscReceiver.cpp:31-33 | a new receiver is in the initial state |
| `OscReceivers.OscReceiver.Setup` | src/lopack/OscReceiver.cpp:51-66 | follows `Step` and returns whether it set up a server |
| `OscReceivers.OscReceiver.SetupMulticast` | src/lopack/OscReceiver.cpp:68-83 | follows `Step` and returns whether it set up a server |
| `OscReceivers.OscReceiver.Clear` | src/lopack/OscReceiver.cpp:85-91 | follows `Step` |
| `OscReceivers.OscReceiver.Start` | src/lopack/OscReceiver.cpp:95-102 | follows `Step` |
| `OscReceivers.OscReceiver.Stop` | src/lopack/OscReceiver.cpp:104-111 | follows `Step`, resetting ignore only when there is a server |
| `OscReceivers.OscReceiver.IgnoreMessages` | src/lopack/OscReceiver.h:113-113 | follows `Step` |
| `OscReceivers.OscReceiver.HandleMessages` | src/lopack/OscReceiver.cpp:115-127 | takes the oldest message, off the queue and recorded once, iff there is a server, no thread runs and one waits; then it returns liblo's byte count and the vectors are exactly as dispatch leaves them, otherwise it returns 0 and nothing changes; ready for the next call |
| `OscReceivers.OscReceiver.ThreadTakesNext` | src/lopack/OscReceiver.cpp:219-224 | the server thread takes the oldest message, off the queue and recorded once, only while running; the vectors are exactly as dispatch leaves them, or untouched |
| `OscReceivers.OscReceiver.AddOscObject` | src/lopack/OscReceiver.cpp:131-137 | appends, ignoring NULL |
| `OscReceivers.OscReceiver.RemoveOscObject` | src/lopack/OscReceiver.cpp:139-150 | erases the first occurrence; the vector is unchanged for NULL and for objects not in it |
| `OscReceivers.OscReceiver.RemoveAllOscObjects` | src/lopack/OscReceiver.cpp:152-154 | empties the vector |
| `OscReceivers.OscReceiver.ProcessMessage` | src/lopack/OscReceiver.cpp:182-207 | calls no one and changes nothing while ignoring; otherwise calls exactly the prefix, up to the first acceptance, of the post-order of all attached objects followed by the receiver's own handler, returns whether one accepted, and erases exactly the NULLs passed |
| `OscReceivers.OscReceiver.CallObjects` | src/lopack/OscReceiver.cpp:188-200 | the loop over the receiver's vector: exact calls, exact vectors afterwards |
| `OscReceivers.OscReceiver.TakeNext` | src/lopack/OscReceiver.cpp:219-224 | the oldest waiting message is removed, dispatched and recorded with the handlers called; the vectors are exactly as dispatch leaves them |
| `OscReceivers.OscReceiver.Hand` | src/lopack/OscReceiver.cpp:219-224 | one message is dispatched, exactly, and the receiver can dispatch the next one the same way |
| `OscReceivers.OscReceiver.Perform` | src/lopack/OscReceiver.cpp:51-127 | every event follows `Step`, and the vectors lose NULLs at most |
| `OscReceivers.OscReceiver.Replay` | src/lopack/OscReceiver.cpp:51-127 | for every interleaving of events, and handlers that answer depending on everything they have seen, the receiver ends in the state of `Run`, so all results about runs hold of it |
| `TimeTags.AddAccurate` | src/lopack/OscTypes.cpp:58-61 | add moves the time by the exact amount within one unit of 2^-32 s iff neither seconds nor fraction run over |
| `TimeTags.DriftBounded` | src/lopack/OscTypes.cpp:58-61 | any n additions that fit drift by less than n units |
| `TimeTags.NoCarry` | src/lopack/OscTypes.cpp:58-61 | half a second added to half a second does not carry |
| `TimeTags.TimeTagVar.Add` | src/lopack/OscTypes.cpp:58-61 | updates the tag in place; accurate iff the seconds do not wrap |
| `ReceivedMessages.ReaderFits` | src/lopack/OscTypes.cpp:104-122 | exactly one type-checked reader fits an argument, none fits nil, infinitum or a blob |
| `ReceivedMessages.TestsTell` | src/lopack/OscTypes.cpp:104-122 | at every index of a delivered message each of the is* tests holds iff the argument added is of that type; out of range all are false |
| `ReceivedMessages.NumbersBack` | src/lopack/OscTypes.cpp:92-164 | bools, chars and numbers arrive with their own tag and read back as added, chars modulo 256 |
| `ReceivedMessages.TextsBack` | src/lopack/OscTypes.cpp:166-192 | strings, symbols, MIDI messages and time tags arrive with their own tag and read back, texts up to the first NUL, MIDI bytes reversed |
| `ReceivedMessages.BlobUnchecked` | src/lopack/OscTypes.cpp:194-197 | asBlob returns the data of a blob, throws ArgException iff out of range, and is undefined iff the argument is no blob |
| `ReceivedMessages.AllTypes` | src/lptest/TestReceiver.h:70-70 | the test program's message with one argument of every type has the type string its receiver checks for |
| `ReceivedMessages.ReadersSee` | src/lopack/OscTypes.cpp:92-192 | at every index the fitting reader returns the value added (MIDI bytes reversed, chars modulo 256, strings cut at NUL) and all others throw TypeException, out of range included |
| `ReceivedMessages.ArgumentRoundTrip` | src/lopack/OscTypes.cpp:80-192 | from the sender's commands to the readers, for every message at any depth of any packet sent: tags in order, checkAddressAndTypes accepts exactly that address and type string, every is* test tells the type added, every reader sees what was added |
| `ReceivedMessages.TryBool` | src/lopack/OscTypes.cpp:199-221 | succeeds exactly on bools and numbers, with false exactly for false and the four zeros, else leaves the destination; never throws |
| `ReceivedMessages.TryChar` | src/lopack/OscTypes.cpp:223-237 | succeeds exactly on char and integer tags, modulo 256, else leaves the destination |
| `ReceivedMessages.TryInt` | src/lopack/OscTypes.cpp:239-261 | succeeds exactly on bools and numbers: 0 or 1, the int32 itself, an int64 modulo 2^32, a fraction cut towards zero; else leaves the destination |
| `ReceivedMessages.TryUnsigned` | src/lopack/OscTypes.cpp:263-285 | the same for unsigned destinations |
| `ReceivedMessages.TryString` | src/lopack/OscTypes.cpp:335-345 | succeeds exactly on strings and symbols, else leaves the destination |
| `ReceivedMessages.WrapUnique` | src/lopack/OscTypes.cpp:248-251 | a narrowing conversion is the one value of the destination that agrees modulo its width |
| `ReceivedMessages.UnsignedUnique` | src/lopack/OscTypes.cpp:268-275 | the same for unsigned destinations of 32 bits |
| `ReceivedMessages.TruncateTowardsZero` | src/lopack/OscTypes.cpp:252-259 | a number becomes the one integer next to it in the direction of zero |

## Left out

- liblo itself: sockets, wire encoding, server threads and reference counts. Messages and bundles are objects with elements, transmission is a log, freeing a bundle frees its whole tree once, and the messages of a packet are delivered as sent. Messages at a socket are a queue (`TakenInOrder` is about that queue, not about lopack).
- Failure of the network: lopack ignores the result of liblo's send functions.
- Printing, logging, `errorCB`, and the hostname, port and URL getters: input/output and forwarding.
- The `operator<<` overloads as separate members: each forwards to one command.
- The destructor of `OscSender`: it is `clear` without the address.
- Handlers that add or remove objects while a message is dispatched: handlers answer, possibly depending on earlier calls, but do not change the graph.
- Preemption inside a method: a step of the receiver is atomic.
- IEEE rounding: floats, doubles and the arithmetic of `TimeTag::add` are real numbers, so `tryNumber` for `float` and `double` destinations is not modelled.
- `TimeTag::now`, `diff`, subtraction, and construction from a liblo tag: they rest on the clock or on liblo.
- The lifetime of `Symbol` and `Blob` pointers: texts and blobs are immutable sequences.
- The leaked copy of the address pattern in `endMessage`: the copy is a string value here.
- `isListening`, root addresses, and the release of the server handle: nothing depends on them.
