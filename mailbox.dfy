/** The mailbox the channel hands its buffers to, kept only as the log of the calls
    it receives; transport and delivery are not modelled. */
module Mail {
  import opened ChannelTypes

  class Mailbox<K, M> {
    /** Every `send(dst, channel_id, epoch, payload)` call, oldest first. */
    var sent: seq<SendRecord<K, M>>
    /** Every `send_complete(channel_id, epoch, local_tids, pids)` call, oldest first. */
    var completions: seq<Completion>

    constructor ()
      ensures sent == [] && completions == []
    {
      sent := [];
      completions := [];
    }

    method Send(dst: nat, channel: nat, epoch: nat, payload: Buffer<K, M>)
      modifies this`sent
      ensures sent == old(sent) + [SendRecord(dst, channel, epoch, payload)]
    {
      sent := sent + [SendRecord(dst, channel, epoch, payload)];
    }

    method SendComplete(channel: nat, epoch: nat, localTids: seq<nat>, pids: seq<nat>)
      modifies this`completions
      ensures completions == old(completions) + [Completion(channel, epoch, localTids, pids)]
    {
      completions := completions + [Completion(channel, epoch, localTids, pids)];
    }
  }
}
