/** Values shared by the push channel and its collaborators. */
module ChannelTypes {

  datatype Option<+T> = None | Some(value: T)

  /** The one error the channel reports to its caller. */
  datatype Error = ObjListNotSet

  datatype Result<+T> = Ok(value: T) | Err(error: Error)

  /** An outbound buffer: the (key, message) pairs pushed since the last flush,
      in push order. The byte encoding of the serialisation stream is not modelled. */
  type Buffer<K, M> = seq<(K, M)>

  /** The worker information a channel is configured with. The hash ring is kept
      only as its lookup function from keys to worker ids; the local thread ids and
      process ids are passed through unchanged to the completion announcement. */
  datatype WorkerInfo<!K> = WorkerInfo(
    largestTid: nat,
    localTids: seq<nat>,
    pids: seq<nat>,
    hashRing: K -> nat)

  /** The lookup contract of a hash ring built over the worker ids 0..largestTid. */
  ghost predicate RingWithin<K(!new)>(info: WorkerInfo<K>)
  {
    forall k: K :: info.hashRing(k) <= info.largestTid
  }

  /** One call of the mailbox's send primitive. */
  datatype SendRecord<K, M> = SendRecord(dst: nat, channel: nat, epoch: nat, payload: Buffer<K, M>)

  /** One call of the mailbox's completion announcement. */
  datatype Completion = Completion(channel: nat, epoch: nat, localTids: seq<nat>, pids: seq<nat>)
}
