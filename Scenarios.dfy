/** Concrete runs of the bridge, with small natural numbers as listener
    handles, proved from the contracts of the bridge's operations alone. */
module Scenarios {
  import opened Format
  import opened Bridge

  /** One listener is connected and the broker sends "ping": the broker is
      told 1, and the listener receives the message with sequence number 1. */
  method Ping() returns (out: seq<Output<nat>>)
    ensures out == [Reply("Messages received: 1"),
                    Push(7, "Messages received: ping, sequence: 1", true)]
  {
    ReplyTexts();
    PushTexts();
    var bridge := new Bridge<nat>();
    bridge.Connect(7);
    assert bridge.listeners == {7};
    var ok := (l: nat) => true;
    out := bridge.HandleMessage("ping", ok);
    assert IsTurn(out, 1, {7}, "ping", ok);
    RoundOfOne(out[1..], 7, NotificationText("ping", 1), ok);
    assert out == [out[0]] + out[1..];
  }

  /** Two listeners; the broker sends "a" and then "b". Both listeners receive
      "a" with sequence number 1 in the first round and "b" with 2 in the
      second. */
  method TwoListeners() returns (first: seq<Output<nat>>, second: seq<Output<nat>>)
    ensures |first| == 3 && first[0] == Reply("Messages received: 1")
    ensures forall i :: 1 <= i < 3 ==>
              first[i].Push? && first[i].text == "Messages received: a, sequence: 1" && first[i].delivered
    ensures {first[1].to, first[2].to} == {1, 2}
    ensures |second| == 3 && second[0] == Reply("Messages received: 2")
    ensures forall i :: 1 <= i < 3 ==>
              second[i].Push? && second[i].text == "Messages received: b, sequence: 2" && second[i].delivered
    ensures {second[1].to, second[2].to} == {1, 2}
  {
    ReplyTexts();
    PushTexts();
    var bridge := new Bridge<nat>();
    bridge.Connect(1);
    bridge.Connect(2);
    assert bridge.listeners == {1, 2};
    var ok := (l: nat) => true;
    first := bridge.HandleMessage("a", ok);
    assert IsTurn(first, 1, {1, 2}, "a", ok);
    RoundOfTwo(first[1..], {1, 2}, NotificationText("a", 1), ok);
    assert bridge.listeners == {1, 2};
    second := bridge.HandleMessage("b", ok);
    assert IsTurn(second, 2, {1, 2}, "b", ok);
    RoundOfTwo(second[1..], {1, 2}, NotificationText("b", 2), ok);
    assert forall i :: 1 <= i < 3 ==> first[i] == first[1..][i - 1] && second[i] == second[1..][i - 1];
  }

  /** The acknowledgements these scenarios expect, spelled out. */
  lemma ReplyTexts()
    ensures ReplyText(1) == "Messages received: 1"
    ensures ReplyText(2) == "Messages received: 2"
  {
    assert Decimal(1) == "1" && Decimal(2) == "2";
  }

  /** The pushes these scenarios expect, spelled out. */
  lemma PushTexts()
    ensures NotificationText("ping", 1) == "Messages received: ping, sequence: 1"
    ensures NotificationText("a", 1) == "Messages received: a, sequence: 1"
    ensures NotificationText("b", 2) == "Messages received: b, sequence: 2"
    ensures NotificationText("x", 1) == "Messages received: x, sequence: 1"
  {
    assert Decimal(1) == "1" && Decimal(2) == "2";
    assert Prefix + "ping" + SequenceTag == "Messages received: ping, sequence: ";
    assert Prefix + "a" + SequenceTag == "Messages received: a, sequence: ";
    assert Prefix + "b" + SequenceTag == "Messages received: b, sequence: ";
    assert Prefix + "x" + SequenceTag == "Messages received: x, sequence: ";
  }

  /** A round over two listeners lists both, in some order. */
  lemma RoundOfTwo(log: seq<Output<nat>>, S: set<nat>, text: string, ok: nat -> bool)
    requires IsRound(log, S, text, ok) && S == {1, 2}
    ensures |log| == 2
    ensures forall i :: 0 <= i < 2 ==> log[i].Push? && log[i].text == text && log[i].delivered == ok(log[i].to)
    ensures {log[0].to, log[1].to} == {1, 2}
  {
    RoundAttemptsEachOnce(log, S, text, ok);
    forall x | x in Recipients(log) ensures x in {log[0].to, log[1].to} {
      var i :| 0 <= i < |log| && log[i].Push? && log[i].to == x;
    }
    assert log[0].to in Recipients(log) && log[1].to in Recipients(log);
  }

  /** A round over one listener is a single attempt to it. */
  lemma RoundOfOne(log: seq<Output<nat>>, l: nat, text: string, ok: nat -> bool)
    requires IsRound(log, {l}, text, ok)
    ensures log == [Push(l, text, ok(l))]
  {
    RoundAttemptsEachOnce(log, {l}, text, ok);
    assert log[0].to in Recipients(log);
  }

  /** A round over no listener attempts nothing. */
  lemma RoundOfNone(log: seq<Output<nat>>, text: string, ok: nat -> bool)
    requires IsRound(log, {}, text, ok)
    ensures log == []
  {
    RoundAttemptsEachOnce(log, {}, text, ok);
  }

  /** The only listener's first delivery fails, as when its connection has
      gone: it is evicted, and the next broadcast completes with no push and
      the broker still acknowledged. */
  method EvictedListener() returns (first: seq<Output<nat>>, second: seq<Output<nat>>, live: set<nat>)
    ensures first == [Reply("Messages received: 1"),
                      Push(7, "Messages received: x, sequence: 1", false)]
    ensures second == [Reply("Messages received: 2")]
    ensures live == {}
  {
    ReplyTexts();
    PushTexts();
    var bridge := new Bridge<nat>();
    bridge.Connect(7);
    assert bridge.listeners == {7};
    var fails := (l: nat) => false;
    var succeeds := (l: nat) => true;
    first := bridge.HandleMessage("x", fails);
    assert IsTurn(first, 1, {7}, "x", fails);
    RoundOfOne(first[1..], 7, NotificationText("x", 1), fails);
    assert bridge.listeners == {};
    second := bridge.HandleMessage("y", succeeds);
    assert IsTurn(second, 2, {}, "y", succeeds);
    RoundOfNone(second[1..], NotificationText("y", 2), succeeds);
    assert first == [first[0]] + first[1..];
    assert second == [second[0]] + second[1..];
    live := bridge.listeners;
  }

  /** No listener is connected: the broker is still acknowledged with the
      incremented count, and nothing is pushed. */
  method NoListeners() returns (out: seq<Output<nat>>)
    ensures out == [Reply("Messages received: 1")]
  {
    ReplyTexts();
    PushTexts();
    var bridge := new Bridge<nat>();
    var ok := (l: nat) => true;
    out := bridge.HandleMessage("ping", ok);
    assert bridge.count == 1;
    assert IsTurn(out, 1, {}, "ping", ok);
    RoundOfNone(out[1..], NotificationText("ping", 1), ok);
    assert out[0] == Reply(ReplyText(1));
    assert out == [out[0]] + out[1..];
  }

  /** Cleanup as written after an eviction: listener 7's delivery fails, so
      fan-out removes it, and when its connection handler then exits, the
      requirement of `Disconnect` (the handle is still registered) is false. */
  method CleanupAfterEvictionAsWritten() returns (cleanupPermitted: bool)
    ensures !cleanupPermitted
  {
    ReplyTexts();
    PushTexts();
    var bridge := new Bridge<nat>();
    bridge.Connect(7);
    var out := bridge.HandleMessage("x", (l: nat) => false);
    cleanupPermitted := 7 in bridge.listeners;
  }

  /** Cleanup that tolerates an evicted handle: after listener 7 is evicted
      its cleanup succeeds, leaves 7 absent, and listener 8 stays
      registered; cleaning up 7 again changes nothing. */
  method CleanupAfterEviction() returns (afterCleanup: set<nat>, afterSecond: set<nat>)
    ensures afterCleanup == {8}
    ensures afterSecond == afterCleanup
  {
    ReplyTexts();
    PushTexts();
    var bridge := new Bridge<nat>();
    bridge.Connect(7);
    bridge.Connect(8);
    var out := bridge.HandleMessage("x", (l: nat) => l != 7);
    bridge.Discard(7);
    afterCleanup := bridge.listeners;
    bridge.Discard(7);
    afterSecond := bridge.listeners;
  }
}
