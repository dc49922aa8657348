/** The push channel of one worker: per-destination outbound buffers filled by `push`
    and flushed to the mailbox by `send`, an epoch counter advanced by `post_send`,
    and a per-object inbound store read by `get` and `has_msgs`. */
module Channel {
  import opened ChannelTypes
  import opened Vectors
  import opened Rotation
  import opened Outbound
  import opened Mail

  /** The object list the channel addresses receivers by. Objects are known by their
      index in `data` (its `get_data()`); `size` is what its `get_size()` reports,
      which this file does not tie to the length of `data`. */
  class ObjList<Obj> {
    var data: seq<Obj>
    var size: nat

    constructor (data: seq<Obj>, size: nat)
      ensures this.data == data && this.size == size
    {
      this.data := data;
      this.size := size;
    }
  }

  class PushChannel<M, Obj, K(!new)> {
    /** State of the channel base class, fixed for the lifetime of the channel. */
    const channelId: nat
    const globalId: nat
    const mailbox: Mailbox<K, M>
    /** Whether the base class's object-start pointer is set; `has_msgs(obj)` checks it. */
    const objStartSet: bool

    /** The epoch counter. */
    var progress: nat
    var workerInfo: Option<WorkerInfo<K>>
    /** One outbound buffer per destination worker id. */
    var sendBuffer: seq<Buffer<K, M>>
    /** One inbound message list per local object index. */
    var recvBuffer: seq<seq<M>>
    var objList: ObjList?<Obj>

    /** Once worker information is set, there is one outbound buffer per worker id,
        and the hash ring maps every key to one of them. */
    ghost predicate Valid()
      reads this
    {
      workerInfo.Some? ==> |sendBuffer| == workerInfo.value.largestTid + 1 && RingWithin(workerInfo.value)
    }

    constructor (channelId: nat, globalId: nat, progress: nat, mailbox: Mailbox<K, M>, objStartSet: bool)
      ensures Valid()
      ensures this.channelId == channelId && this.globalId == globalId && this.progress == progress
      ensures this.mailbox == mailbox && this.objStartSet == objStartSet
      ensures workerInfo == None && sendBuffer == [] && recvBuffer == [] && objList == null
    {
      this.channelId := channelId;
      this.globalId := globalId;
      this.progress := progress;
      this.mailbox := mailbox;
      this.objStartSet := objStartSet;
      workerInfo := None;
      sendBuffer := [];
      recvBuffer := [];
      objList := null;
    }

    /** Flushes every non-empty outbound buffer to the mailbox, tagged with the next
        epoch, visiting the destinations once each starting at `globalId` modulo their
        number, and purges each flushed buffer. */
    method Send()
      requires Valid()
      modifies this`sendBuffer, mailbox`sent
      ensures Valid()
      ensures mailbox.sent == old(mailbox.sent) + Flush(old(sendBuffer), Order(globalId, |old(sendBuffer)|), channelId, old(progress) + 1)
      ensures sendBuffer == Purged(|old(sendBuffer)|)
      ensures |mailbox.sent| == |old(mailbox.sent)| + |NonEmptySlots(old(sendBuffer))|
      ensures Flush(sendBuffer, Order(globalId, |sendBuffer|), channelId, old(progress) + 1) == []
    {
      var n := |sendBuffer|;
      ghost var bufs := sendBuffer;
      ghost var order := Order(globalId, n);
      ghost var log := mailbox.sent;
      var epoch := progress + 1;
      OrderDistinct(globalId, n);
      assert order[..0] == [];
      for i := 0 to n
        invariant PassAt(sendBuffer, mailbox.sent, bufs, log, order, i, channelId, epoch)
      {
        var dst := Dst(globalId, i, n);
        assert dst == order[i];
        PassStep(sendBuffer, mailbox.sent, bufs, log, order, i, channelId, epoch);
        FlushSlot(dst);
      }
      PassComplete(sendBuffer, mailbox.sent, bufs, log, globalId, channelId, epoch);
    }

    /** One step of `send`: hands buffer `dst` to the mailbox and purges it, unless it is empty. */
    method FlushSlot(dst: nat)
      requires dst < |sendBuffer|
      modifies this`sendBuffer, mailbox`sent
      ensures mailbox.sent == old(mailbox.sent) + SlotRecords(dst, old(sendBuffer)[dst], channelId, progress + 1)
      ensures sendBuffer == old(sendBuffer)[dst := []]
    {
      if |sendBuffer[dst]| != 0 {
        mailbox.Send(dst, channelId, progress + 1, sendBuffer[dst]);
        sendBuffer := sendBuffer[dst := []];
      }
    }

    /** Advances the epoch and announces its completion to every local receiver. */
    method PostSend()
      requires workerInfo.Some?
      modifies this`progress, mailbox`completions
      ensures progress == old(progress) + 1
      ensures mailbox.completions == old(mailbox.completions)
        + [Completion(channelId, progress, workerInfo.value.localTids, workerInfo.value.pids)]
    {
      progress := progress + 1;
      mailbox.SendComplete(channelId, progress, workerInfo.value.localTids, workerInfo.value.pids);
    }

    /** Installs the worker information and sizes the outbound buffers to one per
        worker id, resizing only when the length differs. */
    method SetWorkerInfo(info: WorkerInfo<K>)
      requires RingWithin(info)
      modifies this`workerInfo, this`sendBuffer
      ensures Valid()
      ensures workerInfo == Some(info)
      ensures sendBuffer == Resize(old(sendBuffer), info.largestTid + 1, [])
      ensures |old(sendBuffer)| == info.largestTid + 1 ==> sendBuffer == old(sendBuffer)
    {
      workerInfo := Some(info);
      if |sendBuffer| != info.largestTid + 1 {
        sendBuffer := Resize(sendBuffer, info.largestTid + 1, []);
      }
    }

    /** Appends `(key, msg)` to the buffer of the worker the hash ring maps `key` to. */
    method Push(msg: M, key: K)
      requires Valid() && workerInfo.Some?
      modifies this`sendBuffer
      ensures Valid()
      ensures sendBuffer == Routed(old(sendBuffer), workerInfo.value.hashRing(key), key, msg)
    {
      var dst := workerInfo.value.hashRing(key);
      sendBuffer := sendBuffer[dst := sendBuffer[dst] + [(key, msg)]];
    }

    /** The messages received for object `objIndex` of the object list; the inbound
        store is first grown to the list's size when it does not reach the object. The
        entry is read unchecked, so the object must lie inside the store once grown. */
    method GetByObj(objIndex: nat) returns (msgs: seq<M>)
      requires objList != null && objIndex < |objList.data|
      requires objIndex < |recvBuffer| || objIndex < objList.size
      modifies this`recvBuffer
      ensures recvBuffer == if objIndex < |old(recvBuffer)| then old(recvBuffer)
                            else Resize(old(recvBuffer), objList.size, [])
      ensures |old(recvBuffer)| <= |recvBuffer| && recvBuffer[..|old(recvBuffer)|] == old(recvBuffer)
      ensures objIndex < |recvBuffer| && msgs == recvBuffer[objIndex]
      ensures objIndex >= |old(recvBuffer)| ==> msgs == []
    {
      if objIndex >= |recvBuffer| {
        ResizeGrowKeepsPrefix(recvBuffer, objList.size, []);
        recvBuffer := Resize(recvBuffer, objList.size, []);
      }
      msgs := recvBuffer[objIndex];
    }

    /** The messages received at index `idx`, which must lie inside the inbound store. */
    function GetByIndex(idx: nat): (msgs: seq<M>)
      reads this
      requires idx < |recvBuffer|
      ensures |msgs| != 0 <==> HasMsgsByIndex(idx)
    {
      recvBuffer[idx]
    }

    /** Whether messages were received at `idx`; an index outside the inbound store,
        negative ones included, has none. */
    function HasMsgsByIndex(idx: int): (r: bool)
      reads this
      ensures r ==> 0 <= idx < |recvBuffer|
    {
      if idx < 0 || idx >= |recvBuffer| then false else |recvBuffer[idx]| != 0
    }

    /** Whether messages were received for object `objIndex`; an error when the
        object-start pointer is not set. */
    function HasMsgsByObj(objIndex: nat): (r: Result<bool>)
      reads this
      ensures r.Err? <==> !objStartSet
      ensures r.Ok? ==> r.value == HasMsgsByIndex(objIndex)
    {
      if !objStartSet then Err(ObjListNotSet) else Ok(HasMsgsByIndex(objIndex))
    }

    method SetObjList(list: ObjList?<Obj>)
      modifies this`objList
      ensures objList == list
    {
      objList := list;
    }
  }
}
