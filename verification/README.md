# Verification of the 722 device software

A Dafny model of the parts of the 722 device that are hardest to get right by reading: the two
priority schedulers that carry its traffic, the buffer pools behind them, the XML tree, search,
printer and loader its configuration is read with, and the structures zlog keeps its categories,
rules and archives in.

`dafny verify dfyconfig.toml` checks everything.

## How the model is laid out

**Priority transmit scheduler.** `TransmitProtocol` is a system of interleaved steps. Each region
the program runs under one lock is one step and no two regions are merged: a push is three steps
(append, raise the cursor, set the event), a poll of the worker is five, and any number of pushes
may be in flight. `Reachable` means reachable from the state after start-up by any interleaving.
`TransmitObjects` (file `Transmit.dfy`) holds the event and the transmitter as classes updated in
place; each method makes exactly the protocol's change of state. `TlsList` is the intrusive
circular list. `BuffPool` is the life of transmit buffers as a second step system, and `Buffers`
the pools' class, whose methods record the steps they take. `Traffic` puts the two step systems
together: a push appends a buffer its caller holds, and the worker gives back what it has sent.

**Ring scheduler.** `ProxyProtocol` interleaves any number of submitters with one transmitter over
eight bounded rings; every look into a ring is a step of its own. `ProxyObjects` (file
`Proxy.dfy`) holds the ring arrays and the transmitter's loop, again tied to the steps.

**XML.** `XmlShape` gives what a set of linked nodes means (`kids` lists the children of each node,
`rank` shows there is no cycle, `Pre` and `Post` are the two orders), `XmlPath` the place of a
stackless walk, `XmlTree` the pointers and the add, remove and create operations on a `Document`,
`XmlDelete` the delete loop, `XmlWalk` and `XmlFind` the iterative walks and searches, `XmlAttr`
the attribute list and its array, `XmlIndex` the binary-search index, `XmlIndexValue` its finds by value
alone. `Utf8` is the codec, `XmlText` and
`XmlWrite` the printer, `XmlParse` what the loader makes of a stream of characters, `XmlLoad` the
loader's own loops, which build the tree from linked nodes in a document, `XmlBuild` how what has been
built stands for the loader's state. `XmlRoundTrip` and `XmlNoValue` say exactly when loading undoes
saving, from heap to heap, and `XmlUnclosed` what becomes of texts that end too early. `XmlEntity`,
`XmlTags` and `XmlMixed` say what any text means that a person may write: words, white space, numeric
entities, attributes in either quotes or none, and which texts are refused. `Unicode` says exactly
which bytes are read as which characters, and `XmlCollate` in which order the index compares them. A node has a ghost `live` flag that freeing clears, and every read of
a pointer by the delete loop asks for it.

`Common` has what several modules share: optional values, and facts about sequences.

**zlog.** `HashTable` is the chained table over a bucket array and doubly linked chains, `ArrayList`
the growable sorted list, `Rotater` both ways of rotating archives in a directory, with what renames
overwrite, `Category` the level
bitmap of a category over bytes.

Methods that change objects are proved against functions of the old state; what the source promises
is then proved about those functions, or about all reachable states.

## Where the code and its documentation differ

The model follows the code.

- The save functions are documented to wrap at column 72 when no options are given
  (`722device/config/mxml/mxml-file.c:330-331`); the code wraps only when options with a margin are.
- An attribute without a value is written as its bare name
  (`722device/config/mxml/mxml-file.c:2046-2053`), but the loader accepts no such attribute
  (`722device/config/mxml/mxml-file.c:1683-1687`). A tree with such an attribute is saved and cannot be
  loaded again; `XmlNoValue.LoadsBackExactly` states when the round trip holds, both ways.
- A text that ends while its root element is still open is loaded as if the end tag were there
  (`722device/config/mxml/mxml-file.c:1419-1440`), and refused when more elements are open:
  `XmlUnclosed.UnclosedLoads`.
- Removing the last attribute of an element frees the array and keeps the pointer
  (`722device/config/mxml/mxml-attr.c:57-61`); the next attribute set reallocates what has been freed
  (`722device/config/mxml/mxml-attr.c:253-258`). `XmlAttr.ClearedThenSet` is such a run, and
  `XmlAttr.DefinedExactly` says which runs are defined.
- A text that ends within the name of its first tag loads as an empty element
  (`722device/config/mxml/mxml-file.c:1366-1367`): `XmlMixed.CutTagLoads`.
- A UTF-16 surrogate pair whose second half is 0xdfff is refused
  (`722device/config/mxml/mxml-file.c:758` and `722device/config/mxml/mxml-file.c:782`), though it is the last
  low surrogate (section 2 of RFC 2781). `Unicode.Utf16Exactly` says which characters are read.
- A find in an index may be given a value without an element
  (`722device/config/mxml/mxml-index.c:66-76`), but the index is sorted by name first, and the binary search
  then misses nodes: `XmlIndexValue.ValueAloneMisses`. `XmlIndexValue.ValueAloneExactly` says for which
  indexes every find is complete.
- Rolling renames by place in the list and not by number (`722device/third/zlog-1.2.15/src/rotater.c:309-325`).
  Among archives with gaps a rename may overwrite a live archive: `Rotater.TwoAndFive`.
  `Rotater.OverwritesExactly` says when.
- The maximum is documented as the number of archives kept
  (`722device/third/zlog-1.2.15/doc/UsersGuide-EN.lyx:5560-5561`); sequence mode keeps one more
  (`722device/third/zlog-1.2.15/src/rotater.c:240-250`): `Rotater.Rotater.Kept`.

## Model

| member | source | states |
|---|---|---|
| TransmitProtocol.NoLostWakeup | 722device/server/tls_transmit.c:175-206 | In every reachable interleaving of any number of pushes with the worker: while the event is clear, each queued buffer belongs to a push that has not set the event yet, so a clear event with no push in flight means all eight queues are empty; the flag is set exactly when the pipe has unread bytes; a waiting worker with a set event can wake. |
| TransmitProtocol.NeverBypassed | 722device/server/tls_transmit.c:239-271 | When the worker is about to pop, any queued buffer whose push has raised the cursor has at most the cursor's priority, and lies in the queue of its own priority. |
| TransmitProtocol.ServedInOrder | 722device/server/tls_transmit.c:272-343 | In every reachable state and for each level, what was appended is what was sent, then what is in the worker's hand, then what is queued, in that order: first in, first out, with no loss and no duplicate. |
| TransmitProtocol.InvStep | 722device/server/tls_transmit.c:175-271 | The invariant behind the three results above is kept by each single step of a push or of the worker. |
| TransmitProtocol.ReachableInv | 722device/server/tls_server.c:433 | The zeroed start state meets the invariant, and so does every state reached from it. |
| TransmitProtocol.PollIsWorkerSteps | 722device/server/tls_transmit.c:219-271 | The worker's four or five steps from wait to wait, taken without interruption, make exactly the change of state of one poll. |
| TransmitProtocol.Drain | 722device/server/tls_transmit.c:239-343 | With producers idle, cursor at c and nothing queued above it, the worker sends q_c, ..., q_0 in order and clears the event after exactly the sum of max(1, size of q_p) polls for p from c down to 0, and at no earlier poll. |
| TransmitProtocol.QuiescentDrain | 722device/server/tls_transmit.c:219-343 | From every reachable state with the event set, no push in flight and the worker waiting, the drain sends everything ever appended, each level in its order of arrival. |
| TransmitProtocol.LeftByPriority | 722device/server/tls_transmit.c:219-343 | With producers idle, of any two buffers that wait, the one of the higher level is transmitted first. |
| TransmitObjects.Event.constructor | 722device/com/tls_event.c:7-19 | The new event is in its initial state, with the pipe unread exactly if it is set. |
| TransmitObjects.Event.Set | 722device/com/tls_event.c:88-100 | The event is set and its pipe holds one message, however often it is set. |
| TransmitObjects.Event.Reset | 722device/com/tls_event.c:101-113 | The event is clear and the pipe is empty: one bounded read takes the whole message. |
| TransmitObjects.Event.Readable | 722device/com/tls_event.c:30-47 | A wait on the pipe returns at once exactly when the flag is set. |
| TransmitObjects.Transmitter.constructor | 722device/server/tls_server.c:433 | The transmitter starts in the protocol's first state. |
| TransmitObjects.Transmitter.Push | 722device/server/tls_transmit.c:175-206 | Refused for a missing buffer, then for no data, size 0 or a priority above 7, then before the start; on success the state is the one after the push's three protocol steps, otherwise nothing has changed. Nothing is ever queued above the cursor, or while the event is clear. |
| TransmitObjects.Transmitter.UpdateTransmitQueue | 722device/server/tls_transmit.c:344-362 | The cursor becomes the higher of the old one and the given level; it is never lowered. |
| TransmitObjects.Transmitter.Handle | 722device/server/tls_transmit.c:272-343 | The head of the queue, if there is one, is taken and transmitted, the other queues are untouched, and the result says whether the queue is empty now. |
| TransmitObjects.Transmitter.ThreadPoll | 722device/server/tls_transmit.c:239-271 | The method's updates make exactly one protocol poll. |
| TransmitObjects.Transmitter.ThreadWork | 722device/server/tls_transmit.c:219-238 | From any state the transmitter can be in with the event set, the loop ends with the event clear and all queues empty, after exactly the stated number of polls; everything is sent highest level first, and the wire sees the UDP buffers among them in that order. |
| TransmitObjects.Transmitter.PushTwo | 722device/server/tls_transmit.c:175-343 | Two pushes one after the other and then the worker: if both are accepted, the buffer of higher priority is dealt with first, whichever was pushed first. |
| TlsList.Initialize | 722device/com/tls_list.c:4-7 | The head alone is the ring of the empty sequence. |
| TlsList.IsEmpty | 722device/com/tls_list.c:9-14 | True exactly for the empty sequence. |
| TlsList.InsertTail | 722device/com/tls_list.c:16-24 | The ring now stands for the old sequence with the node at its end; only the head, the node and the old last node are written. |
| TlsList.RemoveHead | 722device/com/tls_list.c:26-33 | Takes the first node, and the ring stands for the others; on an empty list the head comes back and nothing changes. |
| TlsList.RemoveNode | 722device/com/tls_list.c:35-55 | Takes the node out wherever it is in the sequence, or finds that it is not there and changes nothing. |
| BuffPool.ExactlyOnePlace | 722device/server/tls_buff_queue.c:189-223 | In every run, each transmit buffer is in exactly one of its home pool, its level's queue and some holder's hands, once; no other pool or queue ever holds it. |
| BuffPool.PoolBound | 722device/server/tls_work.c:68-85 | In every run, the buffers ever created for a level, with those about to be created, never exceed the larger of the initial number and the most that were outstanding at once. |
| BuffPool.StepInv | 722device/server/tls_work.c:49-85 | Homing and the bound are kept by each step: take, miss, create, push, pop, release. |
| BuffPool.TotalIsCreated | 722device/server/tls_buff_queue.c:225-249 | The buffers created for a level are as many as those in its pool, its queue and in hands together. |
| Traffic.ExactlyOnePlace | 722device/server/tls_transmit.c:175-343 | In every interleaving of producers, worker and pools, each buffer is in exactly one of the pool of its level, a producer's hands, the buffers brought by the items queued at its level, and the worker's hand, once; no other level ever has it. |
| Traffic.QuietMeansHome | 722device/server/tls_transmit.c:239-343 | While the event is clear and no push is in flight, no buffer is queued or with the worker: each is in its pool or with a producer. |
| Traffic.TransmitReturns | 722device/server/tls_transmit.c:316-341 | Each transmission gives the buffer that the item's push brought back to the end of the pool of its level. |
| Traffic.NeverBlocked | 722device/server/tls_transmit.c:293-341 | Whenever the scheduler may pop or transmit, the buffer it pops or gives back is where the pools have it. |
| Traffic.TxReachable | 722device/server/tls_transmit.c:175-271 | The scheduler's part of every run of the whole is a run of the scheduler, so all its results carry over. |
| Traffic.PoolRuns | 722device/server/tls_work.c:49-85 | The pools' part of every run of the whole is a run of the pools. |
| Traffic.StepInv | 722device/server/tls_transmit.c:175-343 | Each step of the whole keeps the scheduler's queues and the pools' lists the same lists, in the same order. |
| Buffers.Server.constructor | 722device/server/tls_server.c:319-354 | Each pool begins with the configured number of buffers of its own level, or with the default number of its level when 0 is configured; all are different, and the step system may start from there. |
| Buffers.Server.Allocate | 722device/server/tls_buff_queue.c:108-164 | Fills the empty pool with the given number of fresh buffers of the level and changes no other pool; a size of 0 or a number of 0 is refused. |
| Buffers.Server.Acquire | 722device/server/tls_buff_queue.c:189-213 | Gives the oldest buffer of the pool, as one take step, or finds it empty, as one miss step. |
| Buffers.Server.CreateBuff | 722device/server/tls_buff_queue.c:225-249 | Makes one new buffer of the level that found its pool empty, as one create step. |
| Buffers.Server.AcquireTransmitBuff | 722device/server/tls_work.c:68-85 | No buffer for a priority out of range; otherwise the oldest buffer of that priority's pool, or a new one when the pool is empty: a buffer of that very priority which nobody held before. |
| Buffers.Server.ReleaseBuff | 722device/server/tls_work.c:49-67 | The held buffer goes back to the end of the pool of its priority, as one release step. |
| ProxyProtocol.ExactlyOnePlace | 722device/network/tls_net_proxy.c:664-760 | In every reachable state each accepted node is in exactly one of its own level's ring, the transmitter's hand, the sent nodes and the dropped nodes, once; nodes never accepted are nowhere. |
| ProxyProtocol.OnlyLoss | 722device/network/tls_net_proxy.c:705-721 | A node is dropped only when it is put back into a full ring, and then a submission to that same level has been accepted since it was taken. |
| ProxyProtocol.PreemptionBound | 722device/network/tls_net_proxy.c:674-721 | In every run each preemption is charged to a submission of its own, at a higher level than the node put back; so there are no more preemptions than accepted submissions and at most two pops for each. |
| ProxyProtocol.ChargedInTurn | 722device/network/tls_net_proxy.c:647-661 | The submission a preemption is charged to was accepted during that same turn, at the level that was found waiting. |
| ProxyProtocol.SendOrder | 722device/network/tls_net_proxy.c:646-756 | When a node is sent, every node still queued at a higher level was accepted after the check that let it pass had begun. |
| ProxyProtocol.InvStep | 722device/network/tls_net_proxy.c:40-105 | The invariant behind these results is kept by each submission and each step of the transmitter. |
| ProxyProtocol.TurnIsTransmitterSteps | 722device/network/tls_net_proxy.c:674-755 | With producers idle, 2 * (8 - p) steps of the transmitter send the head of ring p, the highest with anything in it, and come back to the top. |
| ProxyProtocol.TurnSends | 722device/network/tls_net_proxy.c:674-755 | Such a turn sends the first node of ring7 ++ ... ++ ring0 and leaves exactly the others to be sent. |
| ProxyProtocol.SubmitGoesTo | 722device/network/tls_net_proxy.c:99-104 | A submission of priority p below 8 is appended, with level p, to ring p and to no other; one of 8 or more to ring 0; when that ring is full nothing changes. |
| ProxyProtocol.PutBackGoesTo | 722device/network/tls_net_proxy.c:705-721 | A preempted node goes behind all others of its own ring, or is dropped when that is full; nothing else changes. |
| ProxyProtocol.ByPriority | 722device/network/tls_net_proxy.c:99-105 | Of two accepted submissions of different priority, the node of the higher one comes first in the order of sending, whichever was submitted first. |
| ProxyObjects.Ring.Push | 722device/network/tls_net_proxy.c:40-54 | Adds at the tail of the ring's contents, across the wrap of the index, or refuses exactly when 256 nodes are in it. |
| ProxyObjects.Ring.Pop | 722device/network/tls_net_proxy.c:56-69 | Takes the first of the ring's contents, or reports exactly when there is none. |
| ProxyObjects.NetProxy.PushToPrioQueue | 722device/network/tls_net_proxy.c:72-105 | Refused without an address, a URL or data, with nothing changed; otherwise the node goes, with its priority as its level, to the end of the ring of its priority, or of ring 0 when that is out of range, and no other ring changes; it is refused exactly when that ring is full. |
| ProxyObjects.NetProxy.TakeHighest | 722device/network/tls_net_proxy.c:676-700 | Takes the head of the highest non-empty ring, or finds all empty. |
| ProxyObjects.NetProxy.CheckHigherPriorityWaiting | 722device/network/tls_net_proxy.c:647-661 | True exactly when some ring above the node's level holds a node, and the check stops at the highest such ring. |
| ProxyObjects.NetProxy.SendOrPutBack | 722device/network/tls_net_proxy.c:702-755 | Preempts exactly when a higher ring holds a node, and makes the corresponding steps: sent, put back at the tail, or dropped. |
| ProxyObjects.NetProxy.TransmitTurn | 722device/network/tls_net_proxy.c:664-760 | One turn of the loop with producers idle is the protocol's turn: the head of the highest non-empty ring is sent. |
| ProxyObjects.NetProxy.TransmitAll | 722device/network/tls_net_proxy.c:664-760 | With producers idle exactly ring7 ++ ... ++ ring0 is sent, each node once, in one pop for each, with no preemption and no drop. |
| ProxyObjects.NetProxy.SubmitTwo | 722device/network/tls_net_proxy.c:72-760 | Two submissions one after the other and then the transmit loop with producers idle: if both are accepted and in range, the one of higher priority is sent first, whichever came first. |
| XmlTree.Unlink | 722device/config/mxml/mxml-node.c:751-774 | The links of every node after unlinking, those of the neighbours and of the parent's first and last child included. |
| XmlTree.LinkFirst | 722device/config/mxml/mxml-node.c:55-66 | The links of every node after linking in front of all children. |
| XmlTree.LinkBefore | 722device/config/mxml/mxml-node.c:67-79 | The links of every node after linking just before a child. |
| XmlTree.LinkLast | 722device/config/mxml/mxml-node.c:83-95 | The links of every node after linking behind all children. |
| XmlTree.LinkAfter | 722device/config/mxml/mxml-node.c:96-108 | The links of every node after linking just behind a child. |
| XmlTree.Link | 722device/config/mxml/mxml-node.c:49-110 | Linking puts the node between the right neighbours of the parent's child sequence; a child that is not under the parent means the first or last place. |
| XmlTree.DetachLinked | 722device/config/mxml/mxml-node.c:751-774 | If the pointers agree with a tree, then after unlinking they agree with the tree without that child in its parent's sequence: parent, child, last_child, prev and next, and roots without brothers. |
| XmlTree.AttachLinked | 722device/config/mxml/mxml-node.c:33-111 | If the pointers agree with a tree, then after linking they agree with the tree with the node inserted in the parent's sequence, still without cycles. |
| XmlTree.Document.Remove | 722device/config/mxml/mxml-node.c:751-774 | The document stays well formed and differs only in that the node has left its parent's children. |
| XmlTree.Document.Add | 722device/config/mxml/mxml-node.c:33-111 | The document stays well formed; the node has left its old parent, if it had one, and stands in the new parent's children before or after the given child, or first or last when that is not a child there. |
| XmlTree.PositionPlaces | 722device/config/mxml/mxml-node.c:57-111 | The new child list is the old one with the node directly before or behind the given child, or in front of all or behind all when that is no child there. |
| XmlTree.Document.Create | 722device/config/mxml/mxml-node.c:921-949 | The new node is a root, or the last child of its parent; everything else is as it was. |
| XmlShape.PreNoDup | 722device/config/mxml/mxml-search.c:154-193 | The pre-order of a subtree lists no node twice. |
| XmlShape.PostIsPre | 722device/config/mxml/mxml-node.c:122-162 | Post-order and pre-order of a subtree list the same nodes equally often. |
| XmlShape.PostNoDup | 722device/config/mxml/mxml-node.c:122-162 | The post-order lists each node of the subtree exactly once and no other node. |
| XmlDelete.FreeAndGoOn | 722device/config/mxml/mxml-node.c:149-157 | Frees a childless node that is alive and finds the next one, its brother or its parent, from pointers read before the node is freed. |
| XmlDelete.Turn | 722device/config/mxml/mxml-node.c:139-158 | One turn of the delete loop: goes down and clears the child pointer, or frees and goes on; only live nodes are read, and the pair of nodes freed and rank of the current node makes progress. |
| XmlDelete.FreeTree | 722device/config/mxml/mxml-node.c:138-162 | The loop ends, and exactly the nodes of the subtree have been freed, in post-order, each once; no other node's child pointer has changed. |
| XmlDelete.PrunedLinked | 722device/config/mxml/mxml-node.c:122-162 | What is left after the subtree has gone is a well-formed tree with the same pointers. |
| XmlDelete.Delete | 722device/config/mxml/mxml-node.c:122-162 | Deleting a node takes it from its parent and frees its subtree in post-order, each node once; the rest of the document stays well formed. NULL does nothing. |
| XmlWalk.Climb | 722device/config/mxml/mxml-search.c:175-188 | Climbing without a stack finds the next node of the pre-order that is not in the subtree just left, or that there is none below top. |
| XmlWalk.WalkNext | 722device/config/mxml/mxml-search.c:154-193 | For each way of descending, the node that follows in the pre-order of the tree, or the one after the subtree, or NULL at the end; for any top, NULL included. |
| XmlWalk.WalkPrev | 722device/config/mxml/mxml-search.c:204-238 | The node that precedes in the pre-order, or the elder brother or parent without descending; NULL at top. |
| XmlWalk.BeforeKid | 722device/config/mxml/mxml-search.c:213-237 | The node before a child in the pre-order is its parent if it is the first child, and otherwise the last node of its elder brother's subtree. |
| XmlWalk.NextAndBack | 722device/config/mxml/mxml-search.c:154-238 | Walking on from a node and back again, with the pointers as they are, returns to the node, for every node but top; from the last node the walk on ends. |
| XmlWalk.WalkAll | 722device/config/mxml/mxml-search.c:154-193 | Walking on from top until there is nothing more visits exactly the pre-order of the subtree, each node once. |
| XmlFind.GetAttr | 722device/config/mxml/mxml-attr.c:76-105 | The value of the named attribute of an element, and nothing for other nodes. |
| XmlFind.Matches | 722device/config/mxml/mxml-search.c:50-64 | Whether the node is an element with the name, the attribute and the attribute value asked for, as far as they are asked for. |
| XmlFind.FindBelow | 722device/config/mxml/mxml-search.c:44-73 | The first match after the node in the pre-order of top, or nothing when there is none. |
| XmlFind.FindAmong | 722device/config/mxml/mxml-search.c:48-71 | Without descending, the first match among the node and its younger brothers. |
| XmlFind.FindElement | 722device/config/mxml/mxml-search.c:29-74 | Both of the above for each way of descending, and NULL for the argument combinations the function refuses. |
| XmlFind.FindEach | 722device/config/tls_config.c:424-435 | The configuration loader's search loop visits exactly the matching nodes below top, top left out, in document order. |
| XmlAttr.SetIsStored | 722device/config/mxml/mxml-attr.c:231-270 | An attribute can be set exactly if the array has not been freed; then the list fits in the array, what is read changes for that name and for no other, and names stay distinct. |
| XmlAttr.ClearIsStored | 722device/config/mxml/mxml-attr.c:29-62 | Clearing removes that name and no other, names stay distinct, and the array is freed exactly if that was the last attribute. |
| XmlAttr.DefinedExactly | 722device/config/mxml/mxml-attr.c:29-270 | A run of sets and clears on a new element is defined exactly if none of them sets an attribute at a point where the element has had one and has none; then the list is as if there were no array, and the array is freed exactly if there are none left. |
| XmlAttr.ClearedThenSet | 722device/config/mxml/mxml-attr.c:57-258 | Set x, clear x, set another: the last set is given to the freed array. |
| XmlAttr.Attributes.Get | 722device/config/mxml/mxml-attr.c:90-104 | The value of the first attribute of that name, or nothing. |
| XmlAttr.Attributes.Set | 722device/config/mxml/mxml-attr.c:231-270 | Unless the array has been freed, the value is replaced in place, or the attribute is added at the end, in an array that grows by sixteen when it is full; the other attributes keep their order. On a freed array it is not defined. |
| XmlAttr.Attributes.Clear | 722device/config/mxml/mxml-attr.c:29-62 | The attribute is taken out and those behind it close up; the array is freed with the last one. |
| XmlIndex.QueryFalls | 722device/config/mxml/mxml-index.c:308-328 | Along an index in sorted order, the comparison of a query that names an element never rises: this is what makes the binary search right. |
| XmlIndex.QueryIsZero | 722device/config/mxml/mxml-index.c:308-361 | A query compares as equal exactly with the nodes that have its name and its attribute value, as far as they are given. |
| XmlCollate.CompareIsLess | 722device/config/mxml/mxml-index.c:308-361 | The comparison of two byte strings is negative exactly if the first is a proper beginning of the second or smaller at the first byte where they differ, and positive the other way round. |
| XmlCollate.CollatesByCharacter | 722device/config/mxml/mxml-index.c:308-361 | Names and values in UTF-8 compare in the order of their characters (section 1 of RFC 3629). |
| XmlIndex.OneNameFalls | 722device/config/mxml/mxml-index.c:308-361 | The comparison of a query that gives a value alone never rises either, along an index in sorted order whose nodes all have the same name. |
| XmlIndex.Index.Reset | 722device/config/mxml/mxml-index.c:284-301 | The enumeration is back before the first node, which is returned. |
| XmlIndex.Index.Enum | 722device/config/mxml/mxml-index.c:53-64 | The node at the current place, and then the next place; NULL and no change at the end. |
| XmlIndex.Index.Search | 722device/config/mxml/mxml-index.c:110-168 | The binary search ends where its probes lead, whatever the index: at the first of the run of matches around the probe that hit, or at the first match of the last two places, or nowhere. |
| XmlIndex.Index.BackToFirst | 722device/config/mxml/mxml-index.c:124-138 | From a match the search goes back to the first of the unbroken run of matches that ends there. |
| XmlIndex.Index.Find | 722device/config/mxml/mxml-index.c:78-181 | Without a query the next node. Otherwise, from the start, the match where the search lands; later the next node if it matches; and else NULL with the enumeration at its end. |
| XmlIndex.Index.FindAll | 722device/config/mxml/mxml-index.c:78-181 | On any index, reset and repeated finds return the run of matches from where the search lands, in index order, then NULL with the enumeration at its end. |
| XmlIndex.Index.FindAllNamed | 722device/config/mxml/mxml-index.c:78-181 | On a sorted index, reset and repeated finds with an element's name, and a value or none, return exactly the nodes with that name and that value, all of them, in index order, and leave the enumeration at its end. |
| XmlIndexValue.FoundExactly | 722device/config/mxml/mxml-index.c:110-168 | For values along an index: the search finds all equal ones, whatever value is asked for, exactly if there are at most two or they never fall. |
| XmlIndexValue.ValueAloneExactly | 722device/config/mxml/mxml-index.c:78-181 | Reset and repeated finds with a value alone return all nodes that have it, whatever the value, exactly if the index has at most two nodes or the attribute's values never fall along it. |
| XmlIndexValue.ValueAloneMisses | 722device/config/mxml/mxml-index.c:110-168 | A sorted index of m, n and n with the values b, a and c: a find of b returns nothing. |
| Utf8.CharBuffer.Grow | 722device/config/mxml/mxml-file.c:505-522 | After growing there is room for the longest character and for the terminating NUL, with the contents kept. |
| Utf8.CharBuffer.Write | 722device/config/mxml/mxml-file.c:524-549 | Appends the one to four bytes that encode the character. |
| Utf8.CharBuffer.AddChar | 722device/config/mxml/mxml-file.c:495-552 | Appends the character's encoding and always leaves room for the terminating NUL. |
| Utf8.Reader.GetUtf8 | 722device/config/mxml/mxml-file.c:645-739 | One character or an error from the bytes at hand: every length, truncated and overlong forms and bad continuation bytes as in the source. |
| Utf8.Reader.GetUtf16 | 722device/config/mxml/mxml-file.c:741-787 | One UTF-16 character in either byte order, surrogate pairs included. |
| Utf8.Reader.Getc | 722device/config/mxml/mxml-file.c:625-797 | The next character of the stream the bytes spell, skipping byte-order marks, and EOF for ever at its end. |
| Utf8.ReadEncoded | 722device/config/mxml/mxml-file.c:625-748 | Reading the encoding of an allowed character gives that character and takes exactly its bytes. |
| Utf8.RoundTrip | 722device/config/mxml/mxml-file.c:495-797 | Any sequence of allowed characters but U+FEFF, written and read back, gives itself and then whatever follows it. |
| Utf8.RoundTripAll | 722device/config/mxml/mxml-file.c:495-797 | Such a sequence alone gives itself and then EOF (section 3 of RFC 3629). |
| Unicode.Utf8Exactly | 722device/config/mxml/mxml-file.c:639-739 | From UTF-8 a character is read exactly if it is an allowed one and its encoding is what the input begins with: no overlong form and no other bytes stand for it. |
| Unicode.Utf16Exactly | 722device/config/mxml/mxml-file.c:741-787 | From UTF-16, in either byte order, a character is read exactly if it is an allowed one, its encoding is what the input begins with, and its low surrogate, if it has one, is not 0xdfff. |
| Unicode.Utf16TextReads | 722device/config/mxml/mxml-file.c:656-787 | A text in UTF-16 behind its byte order mark is read as its characters, each with the low surrogate 0xdfff as an error, in either byte order. |
| XmlText.Output.WriteString | 722device/config/mxml/mxml-file.c:2183-2252 | Writes the bytes with the four special characters escaped when entities are asked for, whole fragments between them. |
| XmlWrite.WriteOpen | 722device/config/mxml/mxml-file.c:2029-2058 | A start tag with its attributes in order, closed by a slash when the element is empty. |
| XmlWrite.WriteClose | 722device/config/mxml/mxml-file.c:2159-2166 | An end tag. |
| XmlWrite.Ascend | 722device/config/mxml/mxml-file.c:2141-2171 | Climbing from a node without a younger brother writes the end tags of the elements that are complete, and finds where to go on. |
| XmlWrite.WriteNode | 722device/config/mxml/mxml-file.c:1970-2176 | The loop over the linked nodes, which keeps no stack, writes exactly the text of the tree under the node, defined by recursion. |
| XmlLoad.GetEntity | 722device/config/mxml/mxml-file.c:559-618 | One entity reference: named, decimal and hexadecimal, with the length limit, the cut to an int and the errors of the source. |
| XmlEntity.NumericReads | 722device/config/mxml/mxml-options.c:480-487 | A number sign and the decimal digits of n, or #x and its hexadecimal digits in either case, zeros before them or not, and a semicolon are read as n exactly if n fits an int and is a character XML allows. |
| XmlEntity.NamedEntities | 722device/config/mxml/mxml-options.c:488-507 | amp, lt, gt and quot are read as &, <, > and the double quote. |
| XmlEntity.WrittenEntities | 722device/config/mxml/mxml-options.c:437-459 | Those four characters are written as these entities, and every other byte as itself. |
| XmlEntity.OtherEntities | 722device/config/mxml/mxml-options.c:467-514 | Any other name of letters and digits is refused. |
| XmlEntity.EntityEndsBadly | 722device/config/mxml/mxml-file.c:575-603 | An entity is refused when anything but a semicolon ends it, and when its name is longer than 63 characters. |
| XmlLoad.GetWord | 722device/config/mxml/mxml-file.c:1560-1677 | An attribute name or value up to the character that ends it, with entities replaced. |
| XmlLoad.GetQuotedName | 722device/config/mxml/mxml-file.c:1536-1559 | An attribute name in quotes, the quotes included, with entities replaced. |
| XmlTags.QuotedNameReads | 722device/config/mxml/mxml-file.c:1536-1559 | A name in quotes is read with both its quotes, whatever other characters are in it. |
| XmlTags.EntityClosesName | 722device/config/mxml/mxml-file.c:1544-1557 | The entity of a double quote ends a name in double quotes. |
| XmlLoad.GetTagName | 722device/config/mxml/mxml-file.c:976-1017 | The word behind a less-than sign and the character that ended it. |
| XmlLoad.GetAttribute | 722device/config/mxml/mxml-file.c:1531-1687 | One attribute with its value added to the list; an error for a missing value or a name that is there already. |
| XmlLoad.ParseElement | 722device/config/mxml/mxml-file.c:1457-1720 | All attributes of a start tag and how the tag ended, or the error. |
| XmlTags.SettingsRead | 722device/config/mxml/mxml-file.c:1508-1720 | Attributes with any white space before their names and around the equals sign, with values in double or single quotes or in none and characters by name or number, are read as those attributes in that order, up to the end of the tag. |
| XmlTags.SetTwice | 722device/config/mxml/mxml-file.c:1587-1592 | An attribute that the element has already is refused. |
| XmlTags.BadEnds | 722device/config/mxml/mxml-file.c:1514-1529 | Within a tag the end of the input, another tag, and a slash or question mark without a bracket behind it are refused. |
| XmlLoad.AddTag | 722device/config/mxml/mxml-file.c:1318-1394 | An element with the tag's attributes is a new node under the parent, or the first node, and is the parent from now on unless it is empty; the loader's variables still stand for the state. |
| XmlLoad.Leave | 722device/config/mxml/mxml-file.c:1279-1296 | The parent pointer of the parent is followed, and the element that was open is a finished child of the one above it, or the finished root. |
| XmlLoad.EndWord | 722device/config/mxml/mxml-file.c:871-951 | At white space or a tag the gathered word becomes a text node under the parent, if words count; what that comes to over a whole text is `XmlMixed.DocumentLoads`. |
| XmlLoad.GetTag | 722device/config/mxml/mxml-file.c:976-1394 | Reads a tag and refuses it as the source does: a bad name, an end tag that does not match the parent, a second root, bad attributes. |
| XmlBuild.AddedSpine | 722device/config/mxml/mxml-file.c:1328-1333 | A childless node under the parent is one more finished child there; the trees of all other finished children, and all open elements, stay. |
| XmlBuild.OpenedSpine | 722device/config/mxml/mxml-file.c:1369-1372 | A new element under the parent is the last open element, and the finished children stay. |
| XmlBuild.ClosedSpine | 722device/config/mxml/mxml-file.c:1295-1296 | The parent that is closed stands for the tree gathered for it, and is a finished child of the element above. |
| XmlLoad.TakeStep | 722device/config/mxml/mxml-file.c:869-1412 | One turn of the loop on the linked nodes: words, white space, entities and tags do to the document exactly what the step does to the state. |
| XmlLoad.Conclude | 722device/config/mxml/mxml-file.c:1419-1440 | The climb over parent pointers tells whether more than the root is still open. |
| XmlBuild.AccountedKid | 722device/config/mxml/mxml-file.c:1328-1372 | While loading, every new node is under the root but for words outside it: a node added under the parent is under the root, and all others stay where they are. |
| XmlBuild.AccountedPruned | 722device/config/mxml/mxml-file.c:1442-1450 | Once the tree of the first node is deleted, the words outside it are all that is left of what has been built. |
| XmlLoad.LoadData | 722device/config/mxml/mxml-file.c:804-1450 | Loading into a well-formed document leaves it well formed and everything that was in it unchanged; the result is the root of new nodes whose tree is the one the input means, which `XmlMixed.DocumentLoads` spells out, or NULL when the input is refused. All other new nodes are words outside the root; when the input is refused, those are all that is left. |
| XmlRoundTrip.ValueReads | 722device/config/mxml/mxml-options.c:437-514 | A value of any allowed characters, escaped and quoted, is read back as itself: the entity tables undo each other. |
| XmlRoundTrip.AttributesRead | 722device/config/mxml/mxml-file.c:1457-1720 | The text of any list of attributes with distinct names is read back as that list, in the same order. |
| XmlRoundTrip.TreeReads | 722device/config/mxml/mxml-file.c:804-1450 | The text of a tree, read in any state of the loader between tags and before any further text, adds that tree and nothing else. |
| XmlRoundTrip.SavedLoads | 722device/config/mxml/mxml-file.c:804-2176 | For every element tree with names, distinct attribute names and values of allowed characters, loading the saved text, with white space after it, gives back the same tree. |
| XmlRoundTrip.TextIsInjective | 722device/config/mxml/mxml-file.c:1970-2176 | Two such trees with the same saved text are the same tree. |
| XmlRoundTrip.SaveAndLoad | 722device/config/mxml/mxml-file.c:336-356 | The same from heap to heap: the printer run on linked nodes and the loader run on its bytes give a new well-formed document whose root stands for the same tree. |
| XmlEntity.SampleText | 722device/config/mxml/mxml-file.c:2029-2166 | The text of one small tree, byte by byte. |
| XmlNoValue.LoadsBackExactly | 722device/config/mxml/mxml-file.c:1601-1687 | For every element tree whose attributes may lack values: the saved text loads as that tree if every attribute has a value, and fails to load if one has none. |
| XmlNoValue.BareAttributeIsRefused | 722device/config/mxml/mxml-file.c:1683-1687 | One such tree: an element a with an attribute b that has no value is saved as a text that the loader refuses. |
| XmlUnclosed.UnclosedLoads | 722device/config/mxml/mxml-file.c:1419-1440 | A text that ends, white space apart, while elements are open, each after any children: it loads, as if the end tag were there, exactly if only the root is open, and is refused otherwise. |
| XmlMixed.DocumentLoads | 722device/config/mxml/mxml-file.c:804-1450 | Any element with words, white space and elements inside, nested to any depth, loads as exactly this: each word is a text node with the flag whether white space came before it, white space alone before a tag is an empty text node with the flag, and each element has its attributes and its children in order. |
| XmlMixed.LoadDocument | 722device/config/mxml/mxml-file.c:804-1450 | The same on the heap: the loader run on such a text leaves the document well formed and makes new linked nodes that stand for exactly that element. |
| XmlTags.StartReads | 722device/config/mxml/mxml-file.c:1314-1394 | A start tag opens its element with the attributes set in it, or adds it at once when it is empty. |
| XmlTags.EndReads | 722device/config/mxml/mxml-file.c:1279-1296 | An end tag of the parent's name, white space behind it or not, makes the parent a child of the element above. |
| XmlMixed.WrongEndTag | 722device/config/mxml/mxml-file.c:1284-1289 | In any state of the loader an end tag of another name than the parent's, or without a parent, is refused. |
| XmlMixed.WrongEndIsRefused | 722device/config/mxml/mxml-file.c:1284-1289 | A document whose root is closed by another name is refused, whatever follows. |
| XmlMixed.SecondRootIsRefused | 722device/config/mxml/mxml-file.c:1321-1326 | A document with another element behind it is refused, whatever follows. |
| XmlMixed.BadNameIsRefused | 722device/config/mxml/mxml-file.c:987-1006 | In any state, a tag is refused whose name holds a less-than sign or a character below 0 other than the allowed ones. |
| XmlMixed.BadAttributesAreRefused | 722device/config/mxml/mxml-file.c:1337-1343 | In any state, a start tag whose attributes are refused is refused. |
| XmlMixed.LoneSlashIsRefused | 722device/config/mxml/mxml-file.c:1344-1354 | In any state, a slash behind a tag's name and no bracket behind it is refused. |
| XmlMixed.NoTagIsRefused | 722device/config/mxml/mxml-file.c:857-867 | A text that is empty or does not begin with a less-than sign is refused. |
| XmlMixed.CutTagLoads | 722device/config/mxml/mxml-file.c:1366-1367 | A text that ends within the name of its first tag loads as an empty element of that name. |
| HashTable.Insert | 722device/third/zlog-1.2.15/src/zc_hashtable.c:213-230 | The links of every entry and the slots after an entry is put in front of its chain. |
| HashTable.Extract | 722device/third/zlog-1.2.15/src/zc_hashtable.c:234-278 | The links of every entry and the slots after an entry is taken out of its chain, first, last or between. |
| HashTable.MoveAll | 722device/third/zlog-1.2.15/src/zc_hashtable.c:114-148 | Rehashing moves every entry, with its key and value, to a table whose chains are doubly linked and each in the bucket of its hash; no entry is lost. |
| HashTable.GrowAndAdd | 722device/third/zlog-1.2.15/src/zc_hashtable.c:179-232 | Adding, with a rehash first when the table is too full, binds the new key and keeps all other bindings and the load bound. |
| HashTable.Search | 722device/third/zlog-1.2.15/src/zc_hashtable.c:151-163 | The walk along a chain finds the entry of the key, or that the chain has none. |
| HashTable.FirstFrom | 722device/third/zlog-1.2.15/src/zc_hashtable.c:280-293 | The first entry of the listing from a bucket on. |
| HashTable.Next | 722device/third/zlog-1.2.15/src/zc_hashtable.c:295-312 | The entry that follows in the listing of the buckets, within the chain or in the next non-empty bucket. |
| HashTable.ForEach | 722device/third/zlog-1.2.15/src/zc_hashtable.c:280-312 | Begin and repeated next visit the whole listing, in order, and end. |
| HashTable.Listing | 722device/third/zlog-1.2.15/src/zc_hashtable.c:280-312 | The listing has one entry for each binding of the map, with its key and value, and no key twice. |
| HashTable.HashTable.constructor | 722device/third/zlog-1.2.15/src/zc_hashtable.c:28-58 | The new table is well formed and holds the empty map. |
| HashTable.HashTable.GetEntry | 722device/third/zlog-1.2.15/src/zc_hashtable.c:151-163 | The entry that holds the key's binding; NULL exactly if the map has none. |
| HashTable.HashTable.Get | 722device/third/zlog-1.2.15/src/zc_hashtable.c:165-177 | The map's value for the key, if it has one. |
| HashTable.HashTable.Put | 722device/third/zlog-1.2.15/src/zc_hashtable.c:179-232 | The table is well formed and holds the old map with the key bound to the value, whether it was bound before and whether the table has grown; nelem is the number of bindings and 10*nelem <= 13*tab_size + 10. |
| HashTable.HashTable.Remove | 722device/third/zlog-1.2.15/src/zc_hashtable.c:234-278 | The table is well formed and holds the old map without the key. |
| HashTable.HashTable.Clean | 722device/third/zlog-1.2.15/src/zc_hashtable.c:91-111 | The table holds the empty map, in the same buckets. |
| HashTable.HashTable.Entries | 722device/third/zlog-1.2.15/src/zc_hashtable.c:280-312 | Iterating lists each binding of the map exactly once. |
| ArrayList.List.Expand | 722device/third/zlog-1.2.15/src/zc_arraylist.c:58-75 | The array has grown and the contents are the same. |
| ArrayList.List.Add | 722device/third/zlog-1.2.15/src/zc_arraylist.c:77-95 | The element is at the end of the contents. |
| ArrayList.List.Insert | 722device/third/zlog-1.2.15/src/zc_arraylist.c:98-116 | An empty slot at the place is filled; otherwise the element is at its place and those behind it have moved up by one. |
| ArrayList.List.SortAdd | 722device/third/zlog-1.2.15/src/zc_arraylist.c:118-132 | The element is inserted just before the first that compares greater. |
| ArrayList.SortedInsert | 722device/third/zlog-1.2.15/src/zc_arraylist.c:118-132 | Such an insertion keeps a sorted list sorted and adds just that element. |
| Rotater.ListedNames | 722device/third/zlog-1.2.15/src/rotater.c:176-230 | The sorted list of archive files has each archive's number once, rising, whatever order the directory lists them in. |
| Rotater.AddArchiveFiles | 722device/third/zlog-1.2.15/src/rotater.c:181-230 | The list of archive files is sorted and holds exactly the listed files. |
| Rotater.RollFiles | 722device/third/zlog-1.2.15/src/rotater.c:285-345 | For any archives: what each rename puts under each number, chains of moved archives included, what is removed, and what renames overwrite; the log becomes archive 0. |
| Rotater.TurnOverwrites | 722device/third/zlog-1.2.15/src/rotater.c:309-325 | The rename of a place of the list overwrites another archive exactly if a place before it has the number it renames to, and what is lost is what that archive held from the start. |
| Rotater.OverwritesExactly | 722device/third/zlog-1.2.15/src/rotater.c:292-325 | With the archives' numbers rising and m of them to be renamed, rolling overwrites no archive exactly if no place j has a number from j + 2 to m; a rename onto itself overwrites nothing. |
| Rotater.RolledInOrder | 722device/third/zlog-1.2.15/src/rotater.c:292-345 | If no place has such a number, the archives are afterwards 0 to m: the log, and each archive that is kept one place further up than it was in the list. |
| Rotater.TwoAndFive | 722device/third/zlog-1.2.15/src/rotater.c:292-325 | Archives 2 and 5: 5 is renamed to 2, and what was in 2 is lost. |
| Rotater.RolledIsRotated | 722device/third/zlog-1.2.15/src/rotater.c:285-345 | Archives numbered from 0 on without a gap lose nothing: the log is put before their logs, and those beyond the maximum go. |
| Rotater.Roll | 722device/third/zlog-1.2.15/src/rotater.c:176-345 | One rotation of any archives, whatever order they are listed in, overwrites nothing exactly if no place has a number from j + 2 to m. |
| Rotater.SeqFiles | 722device/third/zlog-1.2.15/src/rotater.c:232-282 | In sequence mode the lowest archives beyond the maximum are removed, the rest stay, the log gets a number above all others, and nothing is overwritten, whatever the archives. |
| Rotater.SequencedIsNext | 722device/third/zlog-1.2.15/src/rotater.c:232-282 | From archives that are the latest logs under their places in the history, one rotation in sequence mode leads to such archives. |
| Rotater.Rotater.Rotate | 722device/third/zlog-1.2.15/src/rotater.c:427-466 | One rotation in either mode, whatever order the files are listed in, keeps the archives in step with the history of logs and overwrites none. |
| Rotater.Rotater.Latest | 722device/third/zlog-1.2.15/src/rotater.c:285-345 | In rolling mode, after any number of rotations, the archives are exactly 0..k-1, with k the number of rotations or the maximum, and archive i is the log rotated i rotations before the latest. |
| Rotater.Rotater.Kept | 722device/third/zlog-1.2.15/src/rotater.c:232-325 | After any number of rotations there are as many archives as rotations, up to the maximum, and in sequence mode up to one more. |
| Rotater.ArchivesAreLatest | 722device/third/zlog-1.2.15/src/rotater.c:285-345 | Rolling one log after the other leaves the latest ones, newest first. |
| Category.ByteForReaches | 722device/third/zlog-1.2.15/src/rule.c:672-690 | In the byte a rule's bitmap gets for its sign and level, the bit of a level is set exactly if the rule's own comparison would output at that level. |
| Category.Rule.constructor | 722device/third/zlog-1.2.15/src/rule.c:672-690 | A new rule's bitmap says, for all 256 levels, what its sign says: all, from its level on, its level only, or all but its level. |
| Category.PrefixRule | 722device/third/zlog-1.2.15/src/rule.c:1012-1040 | A rule whose category ends in an underscore matches exactly the name before the underscore and the names that continue it behind an underscore. |
| Category.StarRule | 722device/third/zlog-1.2.15/src/rule.c:1017-1019 | A rule * is for every name. |
| Category.OwnNameRule | 722device/third/zlog-1.2.15/src/rule.c:1020-1040 | A rule that is not * and does not end in an underscore is for its own name and no other. |
| Category.MatchesIsFor | 722device/third/zlog-1.2.15/src/rule.c:1012-1040 | A rule is for a name exactly if it is *, or has that name, or is a stem and an underscore and the name is the stem or begins with both. |
| Category.FitRulesGoBy | 722device/third/zlog-1.2.15/src/category.c:74-105 | The rules picked for a name are exactly those that are for it, each at its place in the order; when there is none, the last rule ! alone, if there is one. |
| Category.OutputsArePutOut | 722device/third/zlog-1.2.15/src/category.c:227-230 | The rules that put an event out are the ones at a strictly rising sequence of places that holds exactly the places whose rule would output at the level. |
| Category.OverlapExact | 722device/third/zlog-1.2.15/src/category.c:49-55 | If a bitmap is exact for some rules, then ORed with the bytes of one more rule it is exact for all of them. |
| Category.Overlap | 722device/third/zlog-1.2.15/src/category.c:49-55 | The loop over the bytes makes the category's bitmap exact for one more rule. |
| Category.Category.constructor | 722device/third/zlog-1.2.15/src/category.c:114-144 | A new category goes by exactly the rules for its name in their order, or by the wastebin rule when there is none, and has an exact bitmap. |
| Category.Category.ObtainRules | 722device/third/zlog-1.2.15/src/category.c:57-112 | Exactly the rules that are for the name, each at its place in the order, or the last wastebin rule when there is none, and a bitmap whose bit for a level is set exactly if one of them would output at it. |
| Category.Category.NeedlessLevel | 722device/third/zlog-1.2.15/src/category.h:34-35 | The quick test says needless exactly if no fitting rule would output at the level. |
| Category.Category.Output | 722device/third/zlog-1.2.15/src/category.c:221-232 | All rules that would output at the level do so, and no others, each at its place in the order. |
| Category.NeedlessIsSilent | 722device/third/zlog-1.2.15/src/rule.c:967-997 | Some rule would output at a level exactly if going through the rules outputs something: the quick test changes nothing that is logged. |
| Category.Category.Update | 722device/third/zlog-1.2.15/src/category.c:148-170 | Exactly the new rules for the name are in force with an exact bitmap, and the old rules and bitmap are kept for a rollback. |
| Category.Category.Commit | 722device/third/zlog-1.2.15/src/category.c:174-187 | The kept rules are dropped, so that nothing is left to roll back to; the rules in force stay. |
| Category.Category.Rollback | 722device/third/zlog-1.2.15/src/category.c:192-217 | The kept rules and bitmap are in force again; without any, nothing changes. |
| Category.Category.TryOut | 722device/third/zlog-1.2.15/src/category.c:148-217 | An update followed by a rollback restores rules and bitmap. |

## Left out

Schedulers and pools:

- Sockets, VSOA calls, epoll, logging and thread creation: a send appends to a ghost sequence.
- Start, stop and teardown of both schedulers and allocation failure; the results are about running systems.
- The receive loop (`722device/server/tls_server.c:523-539`): there the empty pop and the reset of the event are not under one lock, so the result about lost wake-ups does not carry over.
- The transmitter's queues are sequences in `TransmitObjects`; that the intrusive lists behave as sequences is proved in `TlsList`.
- TransmitObjects.Transmitter.Handle: the error results for NULL arguments are not modelled; that the buffer goes back to its pool is `Traffic.TransmitReturns`.
- The methods of `TransmitObjects`, `ProxyObjects` and `Buffers` run one after the other; interleavings are those of the step systems they are tied to.
- The priority field of a buffer is fixed when the buffer is made; header fields and the sequence counter are not modelled.
- First in, first out within a level of the ring scheduler across preemption: a preempted node goes to the tail (`722device/network/tls_net_proxy.c:711`), so this is not true of the code.

XML:

- Comments, CDATA sections, directives and declarations: the loader's outcome is OtherMarkup, and the model ends there.
- XmlText.Output.WriteString: the column that the source returns is not modelled.
- XmlWrite.WriteOpen: no options, so neither wrapping nor white-space callbacks.
- XmlWrite.WriteClose: no options, so no white-space callbacks.
- XmlLoad.TakeStep: other markup than elements is not followed, as said above.
- XmlWrite.WriteNode: element trees only; text, integer, real, opaque and custom nodes are not written, because adjacent texts merge and numbers lose digits.
- XmlLoad.LoadData: no options and no top node are given; an element's node is made when its attributes have been read, and a tag is read before the word in front of it becomes a node; line numbers and messages are not modelled.
- Error and SAX callbacks, and failures of the read and write callbacks. A word outside the root becomes a node that nothing refers to, as in the source.
- XmlAttr.Attributes.Set: allocation failure is not modelled, and what a set on a freed array does is not said, only that it happens.
- Shifts and masks of the codec are written as division and remainder.
- XmlFind.FindElement: a start node that is not under top is not modelled.
- XmlTree.Document.Add: asks that the child is not the node and that the parent is not inside the node's subtree, which the source assumes without a check.
- Node values do not change after creation; reference counts and mxmlFindPath are not modelled.
- XmlIndex.Index.FindAllNamed: that the index is sorted is asked for; index_sort is not modelled, because it computes `tempr - 1` in an unsigned type (`722device/config/mxml/mxml-index.c:414`).

zlog:

- HashTable: keys are compared by value; key and value destructors and freeing are not modelled; the load factor 1.3 is exact.
- Rotater: the format of paths, locking between processes, and failures of unlink and rename; an archive's path is its number.
- Rotater.AddArchiveFiles: the directory holds archives only. The source drops a file whose number is too short for the width asked for, but when no width is asked for it takes every file its pattern matches for an archive (`722device/third/zlog-1.2.15/src/rotater.c:159-167`).
- Category: parsing of rules, formats and outputs of rules, zlog_level_switch, and the atomicity of a reload; rule levels are within 0..255.

Elsewhere:

- net_proxy_v2, cJSON, the configuration loaders' field copying, rate statistics, link information requests and file relay.
