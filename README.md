# PushChannel model

A Dafny model of the push channel of the Husky data-parallel engine
(`core/channel/push_channel.hpp`). Each worker owns one channel per message stream.
`push(msg, key)` routes a keyed message, through the hash ring of the worker
information, into one outbound buffer per destination worker id. At the end of an
epoch, `send()` visits every destination once, starting at the channel's global id
modulo the number of destinations. It hands each non-empty buffer to the mailbox,
tagged with the next epoch, and purges it. `post_send()` advances the epoch counter
and announces completion with the worker's local thread ids and process ids. On the
receiving side, `get` and `has_msgs` read a per-object inbound store. `get(obj)`
grows that store lazily to the size of the object list.

Layout:

- `types.dfy` (`ChannelTypes`): buffers as sequences of `(key, message)` pairs, the
  worker information (with the hash ring kept as its lookup function), mailbox call
  records, and the `Result` returned by `has_msgs(obj)`.
- `vectors.dfy` (`Vectors`): `std::vector::resize`, which resizes both the outbound
  array and the inbound store.
- `rotation.dfy` (`Rotation`): the visiting order `(start + i) % n` of `send`, proved
  to be a permutation of `[0, n)`.
- `outbound.dfy` (`Outbound`): pushes and flush passes as functions on the buffer
  array, and the lemmas about them: routing, no loss, exactly one record per
  non-empty buffer, and idempotence.
- `mailbox.dfy` (`Mail`): the mailbox, kept only as an append-only log of its
  `send` and `send_complete` calls.
- `push_channel.dfy` (`Channel`): the class `PushChannel`, with its fields and its
  methods. Each method's `ensures` ties the new state and the mailbox log to the
  functions of `Outbound` and `Vectors`.

State that belongs to the channel's base class (`channel_id_`, `global_id_`,
`progress_`, `mailbox_` and `obj_start_ptr_`) is set by code that is not part of this
model. The constructor takes it as parameters. Only `progress_` changes afterwards.

Behaviour of the code that the model keeps:

- `has_msgs(obj)` fails when the base class's `obj_start_ptr_` is null. That pointer
  is not the object-list pointer that `set_obj_list` sets. The model keeps the two
  apart: `objStartSet` is the flag the error depends on, and `objList` is set by
  `SetObjList`. `get(obj)` has no such check; it requires an object list.
- `get(obj)` takes the object's index from the list's `get_data()` but grows the
  inbound store to its `get_size()`, and the file does not say the two agree. The
  model keeps both (`ObjList.data` and `ObjList.size`). It requires the object to lie
  inside the store once grown, because the entry is read unchecked.
- `set_worker_info` resizes the outbound array to `largest_tid + 1` in either
  direction when its length differs, so it can shrink the array and drop buffered pairs.
  `Vectors.Resize` states exactly that.
- `get(int idx)` does not grow the inbound store and does no bounds check, so
  `GetByIndex` requires an index inside the store.
- The completion announcement carries the worker's local thread ids and process ids.
- The rotation offset is the channel's global id, which does not change between calls.
  So one channel starts every `send` at the same destination, `global_id % n` for `n`
  destinations. Channels whose global ids differ modulo `n` start at different
  destinations; ids that agree modulo `n`, such as 1 and 5 with 4 destinations,
  start at the same one.

Objects are addressed by an explicit index into the object list (`objIndex`). The
source computes this index by pointer subtraction.

## Model

| member | source | states |
|---|---|---|
| `Channel.PushChannel.constructor` | core/channel/push_channel.hpp:32 | a new channel has no worker information, no object list, and empty outbound and inbound stores |
| `Channel.PushChannel.Send` | core/channel/push_channel.hpp:36-45 | the mailbox log grows by exactly the records of one rotating pass over the buffers as they were, tagged with `progress + 1`, so by the number of non-empty buffers; afterwards every buffer is empty, the array keeps its length, another pass would send nothing, and `progress`, the inbound store and the completion log are untouched |
| `Channel.PushChannel.FlushSlot` | core/channel/push_channel.hpp:40-43 | one step of the pass: an empty buffer sends nothing; a non-empty one is logged with its full contents and then purged |
| `Channel.PushChannel.PostSend` | core/channel/push_channel.hpp:47-51 | `progress` grows by exactly one, and one completion announcement is logged carrying the channel id, the new `progress`, the local thread ids and the process ids |
| `Channel.PushChannel.SetWorkerInfo` | core/channel/push_channel.hpp:53-57 | the worker information is installed; the outbound array has length `largest_tid + 1`, is untouched when it already had that length, and otherwise keeps its first min(old length, `largest_tid + 1`) buffers, drops the rest, and every added buffer is empty |
| `Channel.PushChannel.Push` | core/channel/push_channel.hpp:61-64 | exactly `(key, msg)` is appended to the buffer of `hash_lookup(key)`, which the ring's range keeps inside the array; every other buffer is unchanged |
| `Channel.PushChannel.GetByObj` | core/channel/push_channel.hpp:66-72 | the inbound store is grown to the list's reported size only when the object's index lies outside it, keeping every existing entry; the result is the store's entry for the object, and it is empty when the store had to grow |
| `Channel.ObjList.constructor` | core/channel/push_channel.hpp:67-69 | an object list holds the given objects and reports the given size |
| `Channel.PushChannel.GetByIndex` | core/channel/push_channel.hpp:74 | inside the store, the list at `idx` is non-empty exactly when `has_msgs(idx)` holds |
| `Channel.PushChannel.HasMsgsByObj` | core/channel/push_channel.hpp:76-84 | an error exactly when the object-start pointer is unset; otherwise the answer of `has_msgs` at the object's index |
| `Channel.PushChannel.HasMsgsByIndex` | core/channel/push_channel.hpp:86-90 | never true for an index outside the inbound store (negative ones included, as the signed-to-unsigned comparison makes them); reads state only |
| `Channel.PushChannel.SetObjList` | core/channel/push_channel.hpp:92 | the object list is the one given |
| `Mail.Mailbox.Send` | core/channel/push_channel.hpp:42 | a send call appends one record with destination, channel id, epoch and payload to the log |
| `Mail.Mailbox.SendComplete` | core/channel/push_channel.hpp:49-50 | a completion call appends one announcement to the completion log |
| `Rotation.Dst` | core/channel/push_channel.hpp:39 | the destination of step `i`, `(start + i) % n`, lies in `[0, n)` |
| `Rotation.Order` | core/channel/push_channel.hpp:37-39 | the destinations of one pass, in visiting order, one per step |
| `Rotation.OrderIsPermutation` | core/channel/push_channel.hpp:37-39 | the pass visits `n` destinations, all in `[0, n)`, none twice and every one of them, starting at `global_id % n` |
| `Rotation.OrderDistinct` | core/channel/push_channel.hpp:38-39 | two different steps of a pass never visit the same destination |
| `Rotation.OrderCovers` | core/channel/push_channel.hpp:38-39 | every destination in `[0, n)` is visited by some step |
| `Vectors.Resize` | core/channel/push_channel.hpp:56 | a resized vector has the new length, keeps its elements below the new length, and fills new places with the default value |
| `Vectors.ResizeGrowKeepsPrefix` | core/channel/push_channel.hpp:68-70 | growing keeps the old contents as a prefix |
| `Outbound.Routed` | core/channel/push_channel.hpp:61-64 | a push changes only the chosen buffer, by appending the pair |
| `Outbound.PushAll` | core/channel/push_channel.hpp:61-64 | a sequence of pushes, in order, keeps the number of buffers |
| `Outbound.RoutedTo` | core/channel/push_channel.hpp:61-64 | the pairs of a push sequence whose key the ring sends to one worker: no more than were pushed, and every one routed there |
| `Outbound.Purged` | core/channel/push_channel.hpp:43 | the buffers after a pass: as many as before, every one empty |
| `Outbound.SlotRecords` | core/channel/push_channel.hpp:40-42 | visiting one destination logs at most one record, exactly one when its buffer is non-empty, carrying the destination, that buffer and the epoch |
| `Outbound.Flush` | core/channel/push_channel.hpp:38-43 | the records of a pass over `order`: the records of all but the last destination, then the last one's |
| `Outbound.PushAllRoutes` | core/channel/push_channel.hpp:61-64 | after a sequence of pushes, each buffer holds what it held followed by exactly the pairs whose key hashes to it, in push order |
| `Outbound.RoutedToContains` | core/channel/push_channel.hpp:62-63 | every pushed pair is among those routed to the worker its key hashes to |
| `Outbound.FlushStep` | core/channel/push_channel.hpp:38-43 | visiting one more destination appends its record if its buffer is non-empty and nothing otherwise |
| `Outbound.FlushRecordsWellFormed` | core/channel/push_channel.hpp:40-42 | every record of a pass names a visited destination whose buffer was non-empty, and carries that whole buffer, the channel id and the epoch |
| `Outbound.FlushCovers` | core/channel/push_channel.hpp:38-42 | every visited destination with a non-empty buffer gets a record |
| `Outbound.FlushDistinct` | core/channel/push_channel.hpp:37-42 | when no destination is visited twice, no destination gets two records |
| `Outbound.SendPassSpec` | core/channel/push_channel.hpp:36-45 | one pass of `send` logs exactly one record per non-empty buffer and none for an empty one, each with its buffer's full contents, the channel id and the epoch; the log grows by the number of non-empty buffers |
| `Outbound.FlushPurgedIsEmpty` | core/channel/push_channel.hpp:40-43 | a pass over purged buffers sends nothing, so a second `send` with no `push` in between adds no record |
| `Outbound.PassStep` | core/channel/push_channel.hpp:38-43 | the loop state of `send` (visited buffers purged, the others untouched, the log holding the records so far) is kept by one more visit |
| `Outbound.PassDone` | core/channel/push_channel.hpp:36-45 | at the end of a pass that covers every destination, all buffers are purged and the log holds the whole pass |
| `Outbound.PassComplete` | core/channel/push_channel.hpp:36-45 | a finished pass leaves every buffer purged, has logged one record per non-empty buffer, and leaves nothing for another pass to send |
| `Outbound.AllVisitedPurged` | core/channel/push_channel.hpp:43 | buffers purged at every destination of a covering pass are all empty |
| `Outbound.PushThenSendDelivers` | core/channel/push_channel.hpp:36-64 | no loss within an epoch: after pushes and one pass, each pushed pair's destination receives one record that holds its earlier contents followed by exactly the pairs routed to it, the pair among them |

## Left out

- lib/eigen_matrix_base_plugin.hpp: a floating-point forwarding shim into the Eigen library, which is foreign code.
- Mailbox transport, delivery and FIFO order: the mailbox is only the log of the calls it receives.
- The byte encoding of the serialisation stream: a buffer is a sequence of `(key, message)` pairs, and `purge` empties it.
- Hash-ring construction and uniformity: the ring is its lookup function. `SetWorkerInfo` requires that function to map every key into `[0, largest_tid]` (the range of a ring over those worker ids), so every push lands inside the outbound array, which the source indexes unchecked.
- The internals of the worker information: the local thread ids and process ids are plain sequences passed through to the completion announcement.
- `get_recv_buffer` (line 94), and how the inbound store gets filled: receiving is not in this file. The store is the public field `recvBuffer`, which the code that fills it can assign.
- The base class's setters and `inc_progress`: the base-class state is given to the constructor, and `PostSend` increments `progress` itself.
- Integer widths: `global_id_`, the loop index and `dst` are `int` in the source, `progress_` can overflow, and the object index is narrowed to `int`. The model uses unbounded naturals, except that `HasMsgsByIndex` keeps the signed index and its negative case.
- `largest_tid`: the model takes it as a natural, so `SetWorkerInfo` always leaves at least one outbound buffer; the type of `get_largest_tid()` is not part of this model, and were it a signed -1, the source's `largest_tid + 1` would be 0 and the array empty, which the model cannot express.
- `Channel.PushChannel.GetByObj` and `Channel.PushChannel.GetByIndex`: both return the store's entry as a value, whereas the source returns a reference into `recv_buffer_`. So a caller's view of later changes to that entry (aliasing), and the dangling of an earlier result when `get(obj)` grows the store (invalidation), are not modelled.
- Pointer-subtraction addressing: an object is given by its index into the object list.
- `Channel.PushChannel.FlushSlot`: an empty buffer is not purged by the source. Purging it would leave the same empty buffer, so the contract states a single new state for both cases.
- Concurrency, barriers, and the shard-granular and randomly-rotated channel variants: none of them is in this file.
