/** From the daemon's stored sample to the client: the freshness answer, the server's plan, the reader. */
module NetworkDelivery {
  import opened Wrappers
  import opened Common
  import opened IpcFrame
  import opened IpcStream
  import opened IpcPlan
  import NetworkDomain
  import NetworkFreshness
  import NetworkStream
  import NetworkPlan

  /**
   After any run of successes and failures, at any time: a response that is built is read by the client
   as exactly the daemon's answer, which is honest about the last success; and it is built whenever the
   drawn identifier is not nil and the messages fit their frames.
   */
  method Deliver(id: Uuid, events: seq<NetworkFreshness.Event>, now: nat, drawn: Uuid, requestId: Uuid,
                 size: NetworkPlan.Sizing)
    returns (r: Option<Wire<Body<NetworkStream.StartBody, NetworkStream.ChunkBody, NetworkStream.EndBody>>>)
    ensures r.Some? ==>
      var read := Read(NetworkStream.Reader(), r.value, requestId, RESPONSE_BUDGET).result;
      && read == Ok(NetworkFreshness.Answer(NetworkFreshness.Run(id, events).stored, now, drawn))
      && NetworkFreshness.Honest(read.value, NetworkFreshness.PastOf(events), now)
    ensures
      var answer := NetworkFreshness.Answer(NetworkFreshness.Run(id, events).stored, now, drawn);
      answer.id != 0 && NetworkPlan.AllFit(Context(requestId, answer.id, size), answer) ==> r.Some?
  {
    var answer := NetworkFreshness.Answer(NetworkFreshness.Run(id, events).stored, now, drawn);
    NetworkFreshness.AnswersAreHonest(id, events, now, drawn);
    r := NetworkPlan.BuildPlan(requestId, answer, size);
  }
}
