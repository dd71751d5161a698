/**
 Activation of names (src/bus/activation.c): what is queued on a name without an owner
 until the controller has started it or has given up.
 */
module Activation {

  // ActivationRequest: a StartServiceByName() call that waits for its reply
  datatype Request = Request(sender: nat, serial: nat)

  // ActivationMessage: a message for the name; serial is 0 if no reply is expected
  datatype Message = Message(sender: nat, serial: nat, token: nat)

  datatype QueueResult = Done | Quota | Failure

  // How a queued item was resolved
  datatype Resolution =
    | Served      // a request was answered if its sender is still there, a message forwarded to the new owner
    | Refused     // the new owner did not get the message; its sender was told, if still there
    | Failed      // the activation failed
    | Released    // the name is not activatable any more

  // Everything that was ever queued on a name, and what was resolved, in sequence.
  datatype History = History(
    requests: seq<Request>,
    resolvedRequests: seq<(Request, Resolution)>,
    messages: seq<Message>,
    resolvedMessages: seq<(Message, Resolution)>)

  function Items<T>(resolved: seq<(T, Resolution)>): seq<T> {
    seq(|resolved|, i requires 0 <= i < |resolved| => resolved[i].0)
  }

  lemma ItemsSnoc<T>(resolved: seq<(T, Resolution)>, x: T, how: Resolution)
    ensures Items(resolved + [(x, how)]) == Items(resolved) + [x]
  {
  }

  // items that were all resolved in the same way
  function All<T>(items: seq<T>, how: Resolution): seq<(T, Resolution)> {
    seq(|items|, i requires 0 <= i < |items| => (items[i], how))
  }

  lemma AllStep<T>(done: seq<(T, Resolution)>, items: seq<T>, how: Resolution)
    requires items != []
    ensures done + [(items[0], how)] + All(items[1..], how) == done + All(items, how)
  {
  }

  lemma AllNone<T>(done: seq<(T, Resolution)>, items: seq<T>, how: Resolution)
    ensures done + All<T>([], how) == done
  {
  }

  class Activation {
    var pending: nat                 // serial of the running activation, or 0
    var requests: seq<Request>
    var messages: seq<Message>
    ghost var history: History

    // Exactly once, first in first out: what was queued is what was resolved, followed by
    // what still waits.
    ghost predicate InOrder()
      reads this
    {
      && history.requests == Items(history.resolvedRequests) + requests
      && history.messages == Items(history.resolvedMessages) + messages
    }

    predicate Quiet()
      reads this
    {
      requests == [] && messages == []
    }

    // the controller speaks of another activation than the pending one, or none is pending
    static predicate Stale(serial: nat, pending: nat) {
      pending == 0 || serial != pending
    }

    // between calls, whatever waits waits for a pending activation
    ghost predicate Valid()
      reads this
    {
      InOrder() && (pending == 0 ==> Quiet())
    }

    constructor ()
      ensures Valid() && Quiet() && pending == 0
      ensures history == History([], [], [], [])
    {
      pending, requests, messages := 0, [], [];
      history := History([], [], [], []);
    }

    // activation_request(): ask the controller unless it was asked already; ids is
    // bus->activation_ids, ok the controller's answer
    method Ask(ids: nat, ok: bool) returns (ids': nat, r: bool)
      requires pending <= ids
      modifies this`pending
      ensures r <==> old(pending) != 0 || ok
      ensures pending == (if old(pending) == 0 && ok then ids' else old(pending)) <= ids'
      ensures ids' == if old(pending) == 0 then ids + 1 else ids
    {
      if pending != 0 {
        return ids, true;
      }
      ids' := ids + 1;
      if !ok {
        return ids', false;
      }
      pending := ids';
      return ids', true;
    }

    // activation_queue_message(); a refusal may leave an activation pending
    method QueueMessage(m: Message, ids: nat, ok: bool, quota: bool) returns (ids': nat, r: QueueResult)
      requires Valid() && pending <= ids
      modifies this
      ensures Valid() && pending <= ids' && ids <= ids'
      ensures requests == old(requests)
      ensures r == Failure <==> old(pending) == 0 && !ok
      ensures r == Quota <==> (old(pending) != 0 || ok) && !quota
      ensures if r == Done
              then messages == old(messages) + [m]
                && history == old(history).(messages := old(history).messages + [m])
              else messages == old(messages) && history == old(history)
      ensures r == Done ==> pending != 0
      ensures old(pending) != 0 ==> pending == old(pending)
    {
      var asked;
      ids', asked := Ask(ids, ok);
      if !asked {
        return ids', Failure;
      }
      if !quota {
        return ids', Quota;
      }
      messages := messages + [m];
      history := history.(messages := history.messages + [m]);
      return ids', Done;
    }

    // activation_queue_request(); without a serial nobody waits and nothing is stored
    method QueueRequest(q: Request, ids: nat, ok: bool, quota: bool) returns (ids': nat, r: QueueResult)
      requires Valid() && pending <= ids
      modifies this
      ensures Valid() && pending <= ids' && ids <= ids'
      ensures messages == old(messages)
      ensures r == Failure <==> old(pending) == 0 && !ok
      ensures r == Quota <==> (old(pending) != 0 || ok) && q.serial != 0 && !quota
      ensures if r == Done && q.serial != 0
              then requests == old(requests) + [q]
                && history == old(history).(requests := old(history).requests + [q])
              else requests == old(requests) && history == old(history)
      ensures r == Done ==> pending != 0
      ensures old(pending) != 0 ==> pending == old(pending)
    {
      var asked;
      ids', asked := Ask(ids, ok);
      if !asked {
        return ids', Failure;
      }
      if q.serial == 0 {
        return ids', Done;
      }
      if !quota {
        return ids', Quota;
      }
      requests := requests + [q];
      history := history.(requests := history.requests + [q]);
      return ids', Done;
    }

    // activation_request_free() of the first request
    method PopRequest(ghost how: Resolution) returns (q: Request)
      requires InOrder() && requests != []
      modifies this`requests, this`history
      ensures InOrder() && q == old(requests)[0] && requests == old(requests)[1..]
      ensures history == old(history).(resolvedRequests := old(history).resolvedRequests + [(q, how)])
    {
      q := requests[0];
      ItemsSnoc(history.resolvedRequests, q, how);
      requests := requests[1..];
      history := history.(resolvedRequests := history.resolvedRequests + [(q, how)]);
    }

    // activation_message_free() of the first message
    method PopMessage(ghost how: Resolution) returns (m: Message)
      requires InOrder() && messages != []
      modifies this`messages, this`history
      ensures InOrder() && m == old(messages)[0] && messages == old(messages)[1..]
      ensures history == old(history).(resolvedMessages := old(history).resolvedMessages + [(m, how)])
    {
      m := messages[0];
      ItemsSnoc(history.resolvedMessages, m, how);
      messages := messages[1..];
      history := history.(resolvedMessages := history.resolvedMessages + [(m, how)]);
    }

    // activation_deinit(): what still waits is released, in sequence
    method Deinit()
      requires Valid()
      modifies this
      ensures Valid() && Quiet() && pending == old(pending)
      ensures history == old(history).(
        resolvedRequests := old(history).resolvedRequests + All(old(requests), Released),
        resolvedMessages := old(history).resolvedMessages + All(old(messages), Released))
    {
      AllNone(history.resolvedMessages, messages, Released);
      AllNone(history.resolvedRequests, requests, Released);
      while messages != []
        invariant InOrder() && pending == old(pending)
        invariant requests == old(requests)
        invariant history == old(history).(resolvedMessages := history.resolvedMessages)
        invariant history.resolvedMessages + All(messages, Released) ==
          old(history).resolvedMessages + All(old(messages), Released)
        decreases |messages|
      {
        AllStep(history.resolvedMessages, messages, Released);
        var m := PopMessage(Released);
      }
      while requests != []
        invariant InOrder() && messages == [] && pending == old(pending)
        invariant history.requests == old(history).requests && history.messages == old(history).messages
        invariant history.resolvedMessages == old(history).resolvedMessages + All(old(messages), Released)
        invariant history.resolvedRequests + All(requests, Released) ==
          old(history).resolvedRequests + All(old(requests), Released)
        decreases |requests|
      {
        AllStep(history.resolvedRequests, requests, Released);
        var q := PopRequest(Released);
      }
    }
  }
}
