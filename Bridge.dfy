/** The bridge between the request/reply broker channel and the live
    listeners: a message counter and a registry of listener handles, updated
    in place by one atomic step per broker message, per connection and per
    disconnection. A listener handle is any value of type `L`; whether
    delivering to a listener succeeds in a round is the outcome function
    `ok` given to that round. */
module Bridge {
  import opened Format

  /** What one step sends out: the acknowledgement to the broker, or one push
      attempt to a listener together with whether it was delivered. */
  datatype Output<L> = Reply(text: string) | Push(to: L, text: string, delivered: bool)

  /** The snapshot members whose delivery fails under `ok`. */
  function Failed<L>(snapshot: set<L>, ok: L -> bool): (f: set<L>) {
    set l | l in snapshot && !ok(l)
  }

  /** Visiting one more listener adds it to the failures exactly when its
      delivery fails. */
  lemma FailedExtends<L>(visited: set<L>, ok: L -> bool, l: L)
    ensures Failed(visited, ok) <= visited
    ensures Failed(visited + {l}, ok) == if ok(l) then Failed(visited, ok) else Failed(visited, ok) + {l}
  {
  }

  /** The listeners that log entries were addressed to. */
  function Recipients<L>(log: seq<Output<L>>): (to: set<L>) {
    set i | 0 <= i < |log| && log[i].Push? :: log[i].to
  }

  /** `log` is one complete fan-out round over `snapshot`, in the order the
      attempts were made: the last attempt pushed `text` to some member of the
      snapshot, marked delivered exactly as `ok` says, and the attempts before
      it form a round over the other members. */
  predicate IsRound<L>(log: seq<Output<L>>, snapshot: set<L>, text: string, ok: L -> bool)
    decreases |log|
  {
    if log == [] then snapshot == {}
    else
      var last := log[|log| - 1];
      last.Push? && last.to in snapshot && last.text == text && last.delivered == ok(last.to)
      && IsRound(log[..|log| - 1], snapshot - {last.to}, text, ok)
  }

  /** Every member of the snapshot is attempted exactly once, each attempt
      carrying `text`, and failures do not stop the attempts to the others: a
      round holds exactly these properties. */
  predicate AttemptsEachOnce<L>(log: seq<Output<L>>, snapshot: set<L>, text: string, ok: L -> bool) {
    |log| == |snapshot|
    && (forall i :: 0 <= i < |log| ==>
          log[i].Push? && log[i].text == text && log[i].delivered == ok(log[i].to))
    && (forall i, j :: 0 <= i < j < |log| ==> log[i].to != log[j].to)
    && Recipients(log) == snapshot
  }

  lemma {:induction false} RoundAttemptsEachOnce<L>(log: seq<Output<L>>, snapshot: set<L>, text: string, ok: L -> bool)
    requires IsRound(log, snapshot, text, ok)
    ensures AttemptsEachOnce(log, snapshot, text, ok)
  {
    if log != [] {
      var init := log[..|log| - 1];
      var last := log[|log| - 1];
      RoundAttemptsEachOnce(init, snapshot - {last.to}, text, ok);
      EachOnceSnoc(init, last, snapshot, text, ok);
      assert log == init + [last];
    }
  }

  /** An attempt to a member not yet attempted extends the attempts to the others. */
  lemma EachOnceSnoc<L>(init: seq<Output<L>>, last: Output<L>, snapshot: set<L>, text: string, ok: L -> bool)
    requires last.Push? && last.to in snapshot && last.text == text && last.delivered == ok(last.to)
    requires AttemptsEachOnce(init, snapshot - {last.to}, text, ok)
    ensures AttemptsEachOnce(init + [last], snapshot, text, ok)
  {
    var log := init + [last];
    RecipientsSnoc(init, last);
    forall i | 0 <= i < |init| ensures init[i].to != last.to {
      assert init[i].to in Recipients(init);
    }
    forall i | 0 <= i < |log| ensures log[i].Push? && log[i].text == text && log[i].delivered == ok(log[i].to) {
      if i < |init| {
        assert log[i] == init[i];
      }
    }
    forall i, j | 0 <= i < j < |log| ensures log[i].to != log[j].to {
      assert log[i] == init[i];
      if j < |init| {
        assert log[j] == init[j];
      }
    }
  }

  lemma {:induction false} AttemptsEachOnceIsRound<L>(log: seq<Output<L>>, snapshot: set<L>, text: string, ok: L -> bool)
    requires AttemptsEachOnce(log, snapshot, text, ok)
    ensures IsRound(log, snapshot, text, ok)
  {
    if log != [] {
      var init := log[..|log| - 1];
      var last := log[|log| - 1];
      assert log == init + [last];
      RecipientsSnoc(init, last);
      assert last.to !in Recipients(init);
      assert Recipients(init) == snapshot - {last.to};
      assert forall i :: 0 <= i < |init| ==> log[i] == init[i];
      AttemptsEachOnceIsRound(init, snapshot - {last.to}, text, ok);
    } else {
      assert Recipients(log) == {};
    }
  }

  lemma RecipientsSnoc<L>(log: seq<Output<L>>, o: Output<L>)
    requires o.Push?
    ensures Recipients(log + [o]) == Recipients(log) + {o.to}
  {
    var log' := log + [o];
    forall x | x in Recipients(log') ensures x in Recipients(log) + {o.to} {
      var i :| 0 <= i < |log'| && log'[i].Push? && log'[i].to == x;
      if i < |log| {
        assert log[i] == log'[i];
      }
    }
    forall x | x in Recipients(log) ensures x in Recipients(log') {
      var i :| 0 <= i < |log| && log[i].Push? && log[i].to == x;
      assert log'[i] == log[i];
    }
    assert log'[|log|].to == o.to;
  }

  /** Attempting one more listener, not yet visited, extends a round. */
  lemma RoundExtends<L>(log: seq<Output<L>>, visited: set<L>, text: string, ok: L -> bool, l: L)
    requires IsRound(log, visited, text, ok) && l !in visited
    ensures IsRound(log + [Push(l, text, ok(l))], visited + {l}, text, ok)
  {
    var log' := log + [Push(l, text, ok(l))];
    assert log'[..|log|] == log;
    assert (visited + {l}) - {l} == visited;
  }

  /** The registry after successive fan-out rounds with outcomes `rounds`,
      each round evicting the failures among the listeners still present. */
  function Survivors<L>(registry: set<L>, rounds: seq<L -> bool>): (live: set<L>) {
    if rounds == [] then registry
    else
      var before := Survivors(registry, rounds[..|rounds| - 1]);
      before - Failed(before, rounds[|rounds| - 1])
  }

  /** A listener survives a series of rounds exactly when it was registered
      and none of its deliveries failed; an evicted listener never returns
      during `Run` or `Serve`, which connect no one between rounds. (The class
      itself would let a caller `Connect` an evicted handle again; the source
      cannot, since each connection brings a new socket object.) */
  lemma {:induction false} SurvivorsExactly<L>(registry: set<L>, rounds: seq<L -> bool>, l: L)
    ensures l in Survivors(registry, rounds) <==>
            l in registry && forall k :: 0 <= k < |rounds| ==> rounds[k](l)
  {
    if rounds != [] {
      var init := rounds[..|rounds| - 1];
      SurvivorsExactly(registry, init, l);
      assert forall k :: 0 <= k < |init| ==> init[k] == rounds[k];
    }
  }

  /** One more round of outcomes evicts that round's failures. */
  lemma SurvivorsStep<L>(registry: set<L>, rounds: seq<L -> bool>, i: nat)
    requires i < |rounds|
    ensures Survivors(registry, rounds[..i + 1]) ==
            Survivors(registry, rounds[..i]) - Failed(Survivors(registry, rounds[..i]), rounds[i])
  {
    assert rounds[..i + 1][..i] == rounds[..i];
  }

  class Bridge<L(==)> {
    /** Broker messages accepted so far. */
    var count: nat
    /** Handles of the live listeners. */
    var listeners: set<L>

    /** The state at process start: no message seen, no listener. */
    constructor ()
      ensures count == 0 && listeners == {}
    {
      count := 0;
      listeners := {};
    }

    /** The status query: the current count, nothing changed. */
    method GetCount() returns (c: nat)
      ensures c == count
    {
      c := count;
    }

    /** A listener completed its handshake; adding a present handle is a no-op. */
    method Connect(l: L)
      modifies this
      ensures listeners == old(listeners) + {l}
      ensures count == old(count)
    {
      listeners := listeners + {l};
    }

    /** The registry's `remove`, which fails when the handle is absent. */
    method Remove(l: L)
      requires l in listeners
      modifies this
      ensures listeners == old(listeners) - {l}
      ensures count == old(count)
    {
      listeners := listeners - {l};
    }

    /** Connection cleanup as written: it removes the handle with `Remove`, so
        the handle must still be registered. */
    method Disconnect(l: L)
      requires l in listeners
      modifies this
      ensures listeners == old(listeners) - {l}
      ensures count == old(count)
    {
      Remove(l);
    }

    /** Connection cleanup that tolerates a handle already evicted by a
        failed delivery. */
    method Discard(l: L)
      modifies this
      ensures listeners == old(listeners) - {l}
      ensures count == old(count)
    {
      if l in listeners {
        Remove(l);
      }
    }

    /** One fan-out round for `message` with sequence number `n`, over a copy of
        the registry taken on entry. Every failed member is removed from the
        registry with `Remove`, whose requirement holds at each call because a
        member is visited once and the copy is part of the registry. */
    method NotifyClients(message: string, n: nat, ok: L -> bool) returns (log: seq<Output<L>>)
      modifies this
      ensures IsRound(log, old(listeners), NotificationText(message, n), ok)
      ensures AttemptsEachOnce(log, old(listeners), NotificationText(message, n), ok)
      ensures listeners == old(listeners) - Failed(old(listeners), ok)
      ensures count == old(count)
    {
      var snapshot := listeners;
      var text := NotificationText(message, n);
      var remaining := snapshot;
      ghost var visited := {};
      log := [];
      while remaining != {}
        invariant visited + remaining == snapshot && visited !! remaining
        invariant count == old(count)
        invariant listeners == snapshot - Failed(visited, ok)
        invariant IsRound(log, visited, text, ok)
        decreases remaining
      {
        var ws :| ws in remaining;
        var delivered := ok(ws);
        RoundExtends(log, visited, text, ok, ws);
        FailedExtends(visited, ok, ws);
        log := log + [Push(ws, text, delivered)];
        if !delivered {
          Remove(ws);
        }
        visited := visited + {ws};
        remaining := remaining - {ws};
      }
      assert visited == snapshot;
      RoundAttemptsEachOnce(log, snapshot, text, ok);
    }

    /** One turn of the broker loop: count the message, acknowledge it with the
        new count, then fan it out with that same count. The acknowledgement
        is the first output and does not depend on any delivery outcome. */
    method HandleMessage(message: string, ok: L -> bool) returns (out: seq<Output<L>>)
      modifies this
      ensures count == old(count) + 1
      ensures IsTurn(out, count, old(listeners), message, ok)
      ensures listeners == old(listeners) - Failed(old(listeners), ok)
    {
      count := count + 1;
      var current := count;
      var reply := ReplyText(current);
      var pushes := NotifyClients(message, current, ok);
      out := [Reply(reply)] + pushes;
      assert out[1..] == pushes;
    }

    /** The broker loop over the messages `messages`, round `k` having delivery
        outcomes `rounds[k]`: turn `k` acknowledges and pushes the count
        `old(count) + k + 1` to the listeners that survived the earlier rounds. */
    method Run(messages: seq<string>, rounds: seq<L -> bool>) returns (outs: seq<seq<Output<L>>>)
      requires |rounds| == |messages|
      modifies this
      ensures count == old(count) + |messages|
      ensures |outs| == |messages|
      ensures AreTurns(outs, old(count) + 1, old(listeners), messages, rounds)
      ensures listeners == Survivors(old(listeners), rounds)
    {
      ghost var initial := listeners;
      ghost var first := count + 1;
      outs := [];
      var i := 0;
      while i < |messages|
        invariant 0 <= i <= |messages|
        invariant count + 1 == first + i
        invariant listeners == Survivors(initial, rounds[..i])
        invariant |outs| == i
        invariant AreTurns(outs, first, initial, messages, rounds)
      {
        var out := HandleMessage(messages[i], rounds[i]);
        TurnsExtend(outs, first, initial, messages, rounds, out);
        SurvivorsStep(initial, rounds, i);
        outs := outs + [out];
        i := i + 1;
      }
      assert rounds[..|rounds|] == rounds;
    }
  }

  /** `out` is the output of the broker turn that assigned sequence number
      `n`: the acknowledgement of `n` first, then one round of pushes of the
      message with `n` over `registry`. */
  predicate IsTurn<L>(out: seq<Output<L>>, n: nat, registry: set<L>, message: string, ok: L -> bool) {
    |out| >= 1 && out[0] == Reply(ReplyText(n))
    && IsRound(out[1..], registry, NotificationText(message, n), ok)
  }

  /** `outs` are the outputs of consecutive broker turns numbered from
      `first`, turn `k` handling `messages[k]` with outcomes `rounds[k]` over
      the listeners that survived the turns before it. */
  predicate AreTurns<L>(outs: seq<seq<Output<L>>>, first: nat, registry: set<L>,
                        messages: seq<string>, rounds: seq<L -> bool>) {
    |outs| <= |messages| && |outs| <= |rounds|
    && forall k :: 0 <= k < |outs| ==>
         IsTurn(outs[k], first + k, Survivors(registry, rounds[..k]), messages[k], rounds[k])
  }

  lemma TurnsExtend<L>(outs: seq<seq<Output<L>>>, first: nat, registry: set<L>,
                       messages: seq<string>, rounds: seq<L -> bool>, out: seq<Output<L>>)
    requires AreTurns(outs, first, registry, messages, rounds)
    requires |outs| < |messages| && |outs| < |rounds|
    requires IsTurn(out, first + |outs|, Survivors(registry, rounds[..|outs|]),
                    messages[|outs|], rounds[|outs|])
    ensures AreTurns(outs + [out], first, registry, messages, rounds)
  {
    var outs' := outs + [out];
    forall k | 0 <= k < |outs'|
      ensures IsTurn(outs'[k], first + k, Survivors(registry, rounds[..k]), messages[k], rounds[k])
    {
      if k < |outs| {
        assert outs'[k] == outs[k];
      }
    }
  }

  /** Reading the outputs of consecutive turns back: the acknowledgement of
      turn `k` parses as the sequence number `first + k`, whether or not that
      turn pushed anything, and every push of turn `k` parses as that turn's
      message with that turn's number. */
  lemma TurnsAreNumbered<L>(outs: seq<seq<Output<L>>>, first: nat, registry: set<L>,
                            messages: seq<string>, rounds: seq<L -> bool>, k: nat)
    requires AreTurns(outs, first, registry, messages, rounds)
    requires k < |outs|
    ensures ParseReply(outs[k][0].text) == Some(first + k)
    ensures forall i :: 1 <= i < |outs[k]| ==>
              outs[k][i].Push? && ParseNotification(outs[k][i].text) == Some((messages[k], (first + k) as nat))
  {
    var out := outs[k];
    var round := out[1..];
    var registry := Survivors(registry, rounds[..k]);
    var text := NotificationText(messages[k], first + k);
    assert IsTurn(out, first + k, registry, messages[k], rounds[k]);
    ReplyCodec(out[0].text, first + k);
    RoundAttemptsEachOnce(round, registry, text, rounds[k]);
    NotificationRoundTrip(messages[k], first + k);
    forall i | 1 <= i < |out|
      ensures out[i].Push? && ParseNotification(out[i].text) == Some((messages[k], (first + k) as nat))
    {
      assert round[i - 1] == out[i];
    }
  }

  /** The broker loop run from process start: the listeners in `initial`
      connect, then the broker sends `messages` one at a time, round `k`
      having delivery outcomes `rounds[k]`. The `k`-th acknowledgement carries
      `k + 1`, the `k`-th fan-out goes to the listeners that survived the rounds
      before it, and the final count is the number of messages. */
  method Serve<L(==)>(initial: set<L>, messages: seq<string>, rounds: seq<L -> bool>)
    returns (outs: seq<seq<Output<L>>>, total: nat, live: set<L>)
    requires |rounds| == |messages|
    ensures total == |messages|
    ensures |outs| == |messages|
    ensures AreTurns(outs, 1, initial, messages, rounds)
    ensures live == Survivors(initial, rounds)
  {
    var bridge := new Bridge<L>();
    var pending := initial;
    while pending != {}
      invariant pending <= initial
      invariant bridge.count == 0
      invariant bridge.listeners == initial - pending
      decreases pending
    {
      var l :| l in pending;
      bridge.Connect(l);
      pending := pending - {l};
    }
    assert bridge.listeners == initial;
    outs := bridge.Run(messages, rounds);
    total := bridge.GetCount();
    live := bridge.listeners;
  }
}
