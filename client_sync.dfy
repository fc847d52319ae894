/**
 * The subscription loop of `ServerSynchronization::process`
 * (src/libs/client/client.h): subscribe to the server's updates, then turn
 * every `FileUpdate` pushed by the server into a `ServerUpdate` operation on
 * the local manager's queue, acknowledging each with Ok.
 */
module ClientSync {
  import opened Basics
  import Codec
  import opened ClientFiles
  import CommonQueues

  /**
   * How the loop ends: the subscription was refused and the process exits,
   * the server ended the stream, an unexpected message was reported, or the
   * pushed messages at hand ran out while the loop waits for the next one.
   */
  datatype SyncOutcome = ExitProcess | EndOfUpdates | Panicked(message: Codec.Message) | AwaitingMessage

  /**
   * The loop after `Start`: the messages the client sends back and the
   * operations it queues, for the messages the server pushes in turn.
   */
  function Subscription(pushes: seq<Codec.Message>, now: int): (r: (SyncOutcome, seq<Codec.Message>, seq<FileOperation>)) {
    if pushes == [] then (AwaitingMessage, [], [])
    else
      match pushes[0]
      case EndCommand => (EndOfUpdates, [], [])
      case FileUpdate(filename, timestamp) =>
        var rest := Subscription(pushes[1..], now);
        (rest.0, [Codec.Message.Response(Codec.ResponseOk)] + rest.1,
         [ServerUpdateOperation(filename, timestamp, now)] + rest.2)
      case _ => (Panicked(pushes[0]), [], [])
  }

  /** The whole of `process`, from the reply to the subscription request on. */
  function Synchronization(subscribeReply: Codec.Message, pushes: seq<Codec.Message>, now: int)
    : (r: (SyncOutcome, seq<Codec.Message>, seq<FileOperation>))
    ensures !Codec.IsOk(subscribeReply) <==> r.0 == ExitProcess
    ensures !Codec.IsOk(subscribeReply) ==> r.1 == [Codec.Message.SubscribeUpdates] && r.2 == []
    ensures Codec.IsOk(subscribeReply) ==> |r.1| >= 2 && r.1[..2] == [Codec.Message.SubscribeUpdates, Codec.Message.Start]
  {
    if !Codec.IsOk(subscribeReply) then (ExitProcess, [Codec.Message.SubscribeUpdates], [])
    else
      var r := Subscription(pushes, now);
      SubscriptionCharacterised(pushes, now);
      (r.0, [Codec.Message.SubscribeUpdates, Codec.Message.Start] + r.1, r.2)
  }

  /**
   * What the subscription loop does: the leading `FileUpdate` messages are
   * each queued as a `ServerUpdate` with the pushed file name and timestamp
   * and each answered Ok, in order; the first other message ends the loop,
   * `EndCommand` quietly and anything else with a report.  The loop itself
   * never exits the process.
   */
  lemma {:induction false} SubscriptionCharacterised(pushes: seq<Codec.Message>, now: int)
    ensures var r := Subscription(pushes, now);
            var n := |r.2|;
            r.0 != ExitProcess &&
            n <= |pushes| && r.1 == seq(n, _ => Codec.Message.Response(Codec.ResponseOk)) &&
            (forall k :: 0 <= k < n ==>
               pushes[k].FileUpdate? &&
               r.2[k] == ServerUpdateOperation(pushes[k].filename, pushes[k].timestamp, now)) &&
            (r.0 == AwaitingMessage <==> n == |pushes|) &&
            (r.0 == EndOfUpdates <==> n < |pushes| && pushes[n].EndCommand?) &&
            (r.0.Panicked? <==> n < |pushes| && !pushes[n].EndCommand? && !pushes[n].FileUpdate?) &&
            (r.0.Panicked? ==> r.0.message == pushes[n])
  {
    if pushes != [] && pushes[0].FileUpdate? {
      SubscriptionCharacterised(pushes[1..], now);
      var rest := Subscription(pushes[1..], now);
      var r := Subscription(pushes, now);
      assert r.2 == [ServerUpdateOperation(pushes[0].filename, pushes[0].timestamp, now)] + rest.2;
      assert forall k :: 1 <= k < |r.2| ==> pushes[k] == pushes[1..][k - 1];
    }
  }

  /**
   * `process` with the subscription reply `subscribeReply` and the messages
   * the server then pushes; `now` is the clock reading the operation
   * constructor takes (the factory overwrites it).
   */
  method Synchronize(subscribeReply: Codec.Message, pushes: seq<Codec.Message>, now: int,
                     queue: CommonQueues.ThreadSafeQueue<FileOperation>)
    returns (outcome: SyncOutcome, sent: seq<Codec.Message>)
    modifies queue
    ensures var r := Synchronization(subscribeReply, pushes, now);
            outcome == r.0 && sent == r.1 && queue.contents == old(queue.contents) + r.2
  {
    sent := [Codec.Message.SubscribeUpdates];
    if !Codec.IsOk(subscribeReply) {
      outcome := ExitProcess;
      return;
    }
    sent := sent + [Codec.Message.Start];
    ghost var header := sent;
    ghost var queuedBefore := queue.contents;
    var i := 0;
    while i < |pushes|
      invariant 0 <= i <= |pushes|
      invariant var whole, rest := Subscription(pushes, now), Subscription(pushes[i..], now);
                whole.0 == rest.0 &&
                header + whole.1 == sent + rest.1 &&
                queuedBefore + whole.2 == queue.contents + rest.2
    {
      var message := pushes[i];
      assert pushes[i..][0] == message && pushes[i..][1..] == pushes[i + 1..];
      if message.EndCommand? {
        outcome := EndOfUpdates;
        assert sent + [] == sent && queue.contents + [] == queue.contents;
        return;
      }
      if message.FileUpdate? {
        var operation := ServerUpdateOperation(message.filename, message.timestamp, now);
        ghost var rest := Subscription(pushes[i + 1..], now);
        assert queue.contents + ([operation] + rest.2) == (queue.contents + [operation]) + rest.2;
        queue.Queue(operation);
        assert sent + ([Codec.Message.Response(Codec.ResponseOk)] + rest.1) ==
               (sent + [Codec.Message.Response(Codec.ResponseOk)]) + rest.1;
        sent := sent + [Codec.Message.Response(Codec.ResponseOk)];
        i := i + 1;
        continue;
      }
      outcome := Panicked(message);
      assert sent + [] == sent && queue.contents + [] == queue.contents;
      return;
    }
    assert pushes[i..] == [];
    assert sent + [] == sent && queue.contents + [] == queue.contents;
    outcome := AwaitingMessage;
  }
}
