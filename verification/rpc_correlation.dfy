/**
 Matching replies to calls over one asynchronous transport. Calls run at the same time as the receive loop;
 what is done under the lock is one step, and so is every channel operation. Call number `c` waits on its own
 channel, which holds one reply.
 */
module RpcCorrelation {
  import opened Common

  const WRAP := 0x1_0000_0000_0000_0000

  datatype Reply = Reply(id: nat, body: int)

  // ---------------------------------------------------------------- the shared fields

  /** The counter, the calls waiting for a reply by id, and whether the client was closed. */
  datatype Shared = Shared(issued: nat, pending: map<nat, nat>, stopped: bool)

  function NextId(s: Shared): nat {
    (s.issued + 1) % WRAP
  }

  function AfterNumber(s: Shared): Shared {
    s.(issued := s.issued + 1)
  }

  function AfterRegister(s: Shared, id: nat, call: nat): Shared {
    if s.stopped then s else s.(pending := s.pending[id := call])
  }

  /** A reply's call, if it is still waiting, is taken out of the map. */
  function AfterForget(s: Shared, id: nat): Shared {
    s.(pending := s.pending - {id})
  }

  class Rpc {
    var issued: nat
    var pending: map<nat, nat>
    var stopped: bool

    function Model(): Shared
      reads this
    {
      Shared(issued, pending, stopped)
    }

    constructor ()
      ensures Model() == Shared(0, map[], false)
    {
      issued, pending, stopped := 0, map[], false;
    }

    method Number() returns (id: nat)
      modifies this`issued
      ensures Model() == AfterNumber(old(Model())) && id == NextId(old(Model()))
    {
      issued := issued + 1;
      id := issued % WRAP;
    }

    /** False is the closed client's error. */
    method Register(id: nat, call: nat) returns (ok: bool)
      modifies this`pending
      ensures Model() == AfterRegister(old(Model()), id, call) && (ok <==> !stopped)
    {
      if stopped {
        return false;
      }
      pending := pending[id := call];
      return true;
    }

    method Take(id: nat) returns (call: Option<nat>)
      modifies this`pending
      ensures Model() == AfterForget(old(Model()), id)
      ensures call == if id in old(pending) then Some(old(pending)[id]) else None
    {
      call := if id in pending then Some(pending[id]) else None;
      pending := pending - {id};
    }

    method Forget(id: nat)
      modifies this`pending
      ensures Model() == AfterForget(old(Model()), id)
    {
      pending := pending - {id};
    }

    method Stop()
      modifies this`stopped
      ensures Model() == old(Model()).(stopped := true)
    {
      stopped := true;
    }
  }

  // ---------------------------------------------------------------- the interleaving

  datatype Result = Replied(reply: Reply) | TimedOut | Closed

  /** A call: numbered, waiting on its channel, leaving with a result, returned. */
  datatype Phase = Numbered | Waiting | Leaving(result: Result) | Returned(result: Result)

  /** `buffer` is the call's channel and `sends` how often anything was sent to it. */
  datatype Call = Call(id: nat, phase: Phase, buffer: Option<Reply>, sends: nat)

  /** The receive loop: about to look at stop, in Receive, holding a reply for a call's channel, gone. */
  datatype Loop = Top | Listening | Delivering(call: nat, reply: Reply) | Gone

  datatype State = State(shared: Shared, calls: seq<Call>, loop: Loop, received: seq<Reply>)

  const INITIAL := State(Shared(0, map[], false), [], Top, [])

  datatype Event =
    | Begin                               // a call takes its number
    | Register(c: nat)                    // under the lock: closed, or registered and sent
    | Timeout(c: nat)                     // the context ends
    | SeeDone(c: nat)                     // the receive loop has ended
    | TakeReply(c: nat)                   // the channel holds a reply
    | Return(c: nat)                      // the deferred deletion
    | Look                                // the loop looks at stop
    | Receive(reply: Option<Reply>)       // nothing, or a reply, looked up and deleted under the lock
    | Deliver                             // the send to the channel
    | Stop

  predicate InPhase(s: State, c: nat, phase: Phase) {
    c < |s.calls| && s.calls[c].phase == phase
  }

  predicate Allowed(s: State, e: Event) {
    match e
    case Begin => true
    case Register(c) => InPhase(s, c, Numbered)
    case Timeout(c) => InPhase(s, c, Waiting)
    case SeeDone(c) => InPhase(s, c, Waiting) && s.loop.Gone?
    case TakeReply(c) => InPhase(s, c, Waiting) && s.calls[c].buffer.Some?
    case Return(c) => c < |s.calls| && s.calls[c].phase.Leaving?
    case Look => s.loop.Top?
    case Receive(_) => s.loop.Listening?
    // A send to a full channel waits.
    case Deliver => s.loop.Delivering? && s.loop.call < |s.calls| && s.calls[s.loop.call].buffer.None?
    case Stop => true
  }

  function Put(s: State, c: nat, call: Call): State
    requires c < |s.calls|
  {
    s.(calls := s.calls[c := call])
  }

  function Apply(s: State, e: Event): State
    requires Allowed(s, e)
  {
    match e
    case Begin => s.(shared := AfterNumber(s.shared), calls := s.calls + [Call(NextId(s.shared), Numbered, None, 0)])
    case Register(c) =>
      var me := s.calls[c];
      Put(s, c, me.(phase := if s.shared.stopped then Phase.Returned(Closed) else Waiting))
        .(shared := AfterRegister(s.shared, me.id, c))
    case Timeout(c) => Put(s, c, s.calls[c].(phase := Leaving(TimedOut)))
    case SeeDone(c) => Put(s, c, s.calls[c].(phase := Leaving(Closed)))
    case TakeReply(c) => Put(s, c, s.calls[c].(phase := Leaving(Replied(s.calls[c].buffer.value)), buffer := None))
    case Return(c) =>
      Put(s, c, s.calls[c].(phase := Phase.Returned(s.calls[c].phase.result))).(shared := AfterForget(s.shared, s.calls[c].id))
    case Look => s.(loop := if s.shared.stopped then Gone else Listening)
    case Receive(None) => s.(loop := Top)
    case Receive(Some(reply)) =>
      var heard := s.(received := s.received + [reply]);
      if reply.id in s.shared.pending
      then heard.(loop := Delivering(s.shared.pending[reply.id], reply), shared := AfterForget(s.shared, reply.id))
      else heard.(loop := Top)
    case Deliver =>
      var c := s.loop.call;
      Put(s, c, s.calls[c].(buffer := Some(s.loop.reply), sends := s.calls[c].sends + 1)).(loop := Top)
    case Stop => s.(shared := s.shared.(stopped := true))
  }

  ghost predicate Run(states: seq<State>, events: seq<Event>) {
    && |states| == |events| + 1 && states[0] == INITIAL
    && forall i :: 0 <= i < |events| ==> Allowed(states[i], events[i]) && states[i + 1] == Apply(states[i], events[i])
  }

  /** A call's number is its place in the order of numbering, cut to the counter's width. */
  ghost predicate Numbers(s: State) {
    && s.shared.issued == |s.calls|
    && forall c :: 0 <= c < |s.calls| ==> s.calls[c].id == (c + 1) % WRAP
  }

  /** An entry of the map is a waiting or leaving call of that number to which nothing was sent yet. */
  ghost predicate PendingWait(s: State) {
    forall id :: id in s.shared.pending ==>
      var c := s.shared.pending[id];
      c < |s.calls| && s.calls[c].id == id && s.calls[c].sends == 0 && s.calls[c].buffer.None?
      && (s.calls[c].phase.Waiting? || s.calls[c].phase.Leaving?)
  }

  /** A reply in the loop's hands is for a call that nothing was sent to and that no entry of the map names. */
  ghost predicate DeliveryIsFirst(s: State) {
    s.loop.Delivering? ==>
      && s.loop.call < |s.calls| && s.calls[s.loop.call].id == s.loop.reply.id
      && s.calls[s.loop.call].sends == 0 && s.calls[s.loop.call].buffer.None? && !s.calls[s.loop.call].phase.Numbered?
      && s.loop.reply in s.received
      && forall id :: id in s.shared.pending ==> s.shared.pending[id] != s.loop.call
  }

  predicate Own(s: State, call: Call, reply: Reply) {
    reply.id == call.id && reply in s.received
  }

  /** What a call holds is its own. */
  ghost predicate HoldsOwn(s: State) {
    forall c :: 0 <= c < |s.calls| ==>
      var call := s.calls[c];
      && call.sends <= 1
      && (call.buffer.Some? ==> call.sends == 1 && Own(s, call, call.buffer.value))
      && (call.phase.Numbered? ==> call.sends == 0)
      && (call.phase.Leaving? && call.phase.result.Replied? ==> call.sends == 1 && Own(s, call, call.phase.result.reply))
      && (call.phase.Returned? && call.phase.result.Replied? ==> call.sends == 1 && Own(s, call, call.phase.result.reply))
  }

  ghost predicate Inv(s: State) {
    Numbers(s) && PendingWait(s) && DeliveryIsFirst(s) && HoldsOwn(s) && (s.loop.Gone? ==> s.shared.stopped)
  }

  lemma StepKeepsNumbers(s: State, e: Event)
    requires Numbers(s) && Allowed(s, e)
    ensures Numbers(Apply(s, e))
  {
  }

  lemma StepKeepsPendingWait(s: State, e: Event)
    requires Inv(s) && Allowed(s, e)
    ensures PendingWait(Apply(s, e))
  {
  }

  lemma StepKeepsDelivery(s: State, e: Event)
    requires Inv(s) && Allowed(s, e)
    ensures DeliveryIsFirst(Apply(s, e))
  {
  }

  lemma StepKeepsHoldsOwn(s: State, e: Event)
    requires Inv(s) && Allowed(s, e)
    ensures HoldsOwn(Apply(s, e))
  {
    assert forall r :: r in s.received ==> r in Apply(s, e).received;
  }

  lemma {:induction false} RunKeepsInv(states: seq<State>, events: seq<Event>, i: nat)
    requires Run(states, events) && i < |states|
    ensures Inv(states[i])
  {
    if i > 0 {
      RunKeepsInv(states, events, i - 1);
      StepKeepsNumbers(states[i - 1], events[i - 1]);
      StepKeepsPendingWait(states[i - 1], events[i - 1]);
      StepKeepsDelivery(states[i - 1], events[i - 1]);
      StepKeepsHoldsOwn(states[i - 1], events[i - 1]);
    }
  }

  // ---------------------------------------------------------------- main results

  /** In a run of any length a call that returns a reply returns one that was received and bears its own id. */
  lemma RepliesAreOwn(states: seq<State>, events: seq<Event>, i: nat, c: nat)
    requires Run(states, events) && i < |states| && c < |states[i].calls|
    requires states[i].calls[c].phase.Returned? && states[i].calls[c].phase.result.Replied?
    ensures Own(states[i], states[i].calls[c], states[i].calls[c].phase.result.reply)
  {
    RunKeepsInv(states, events, i);
  }

  /** In a run of any length each channel is sent to at most once, so the loop's next send always has room. */
  lemma ReceiveLoopNeverBlocks(states: seq<State>, events: seq<Event>, i: nat)
    requires Run(states, events) && i < |states|
    ensures states[i].loop.Delivering? ==> Allowed(states[i], Deliver)
    ensures forall c :: 0 <= c < |states[i].calls| ==> states[i].calls[c].sends <= 1
  {
    RunKeepsInv(states, events, i);
  }

  /** After the client is closed the map only shrinks, and a call that comes to register is told so. */
  lemma {:induction false} NothingRegisteredAfterClose(states: seq<State>, events: seq<Event>, i: nat, j: nat)
    requires Run(states, events) && i <= j < |states| && states[i].shared.stopped
    ensures states[j].shared.stopped && states[j].shared.pending.Keys <= states[i].shared.pending.Keys
    ensures j < |events| && events[j].Register? ==> states[j + 1].calls[events[j].c].phase == Phase.Returned(Closed)
    decreases j - i
  {
    assert i < |events| ==> Allowed(states[i], events[i]) && states[i + 1] == Apply(states[i], events[i]);
    if i < j {
      NothingRegisteredAfterClose(states, events, i + 1, j);
    }
  }

  /** A request is handed to the transport only while the receive loop, which destroys the transport, is there. */
  lemma NothingSentAfterDestroy(states: seq<State>, events: seq<Event>, i: nat)
    requires Run(states, events) && i < |events| && events[i].Register?
    requires states[i + 1].calls[events[i].c].phase.Waiting?
    ensures !states[i].loop.Gone?
  {
    RunKeepsInv(states, events, i);
    assert Allowed(states[i], events[i]);
  }

  // ---------------------------------------------------------------- numbers that come round again

  /** The call has taken a number and not returned. */
  predicate Open(s: State, c: int) {
    0 <= c < |s.calls| && !s.calls[c].phase.Returned?
  }

  lemma SameRemainder(a: nat, b: nat)
    requires a <= b
    ensures a % WRAP == b % WRAP <==> (b - a) % WRAP == 0
  {
    var q, r := b / WRAP - a / WRAP, b % WRAP - a % WRAP;
    assert b - a == q * WRAP + r;
    if r == 0 {
      assert (b - a) == q * WRAP;
    }
  }

  /** Two calls have one number exactly when their places differ by a multiple of the counter's range. */
  lemma NumbersCollideIff(states: seq<State>, events: seq<Event>, i: nat, b: nat, c: nat)
    requires Run(states, events) && i < |states| && b < c < |states[i].calls|
    ensures states[i].calls[b].id == states[i].calls[c].id <==> (c - b) % WRAP == 0
  {
    RunKeepsInv(states, events, i);
    SameRemainder(b + 1, c + 1);
  }

  /** Some call is still open when one that is numbered a whole range, or several, after it is open too. */
  ghost predicate OutlivesRange(s: State) {
    exists b, c :: Open(s, b) && Open(s, c) && b < c && (c - b) % WRAP == 0
  }

  /**
   The open calls' numbers are distinct exactly when no call stays open until one that is numbered whole ranges
   after it. Fewer than 2^64 numbers between the oldest and the newest open call are enough.
   */
  lemma OpenNumbersDistinctIff(states: seq<State>, events: seq<Event>, i: nat)
    requires Run(states, events) && i < |states|
    ensures var s := states[i];
            && ((forall b, c :: Open(s, b) && Open(s, c) && b < c ==> s.calls[b].id != s.calls[c].id) <==> !OutlivesRange(s))
            && ((forall b, c :: Open(s, b) && Open(s, c) ==> c - b < WRAP) ==> !OutlivesRange(s))
  {
    var s := states[i];
    forall b, c | Open(s, b) && Open(s, c) && b < c
      ensures s.calls[b].id == s.calls[c].id <==> (c - b) % WRAP == 0
      ensures (c - b) % WRAP == 0 ==> c - b >= WRAP
    {
      NumbersCollideIff(states, events, i, b, c);
    }
  }

  // ---------------------------------------------------------------- a run that gets there

  /** A run that goes on with one more step. */
  lemma Extended(states: seq<State>, events: seq<Event>, e: Event) returns (longer: seq<State>)
    requires Run(states, events) && Allowed(states[|events|], e)
    ensures Run(longer, events + [e]) && longer[|events| + 1] == Apply(states[|events|], e)
    ensures |longer| == |events| + 2
  {
    longer := states + [Apply(states[|events|], e)];
    var all := events + [e];
    forall i | 0 <= i < |all| ensures Allowed(longer[i], all[i]) && longer[i + 1] == Apply(longer[i], all[i]) {
      if i < |events| {
        assert longer[i] == states[i] && longer[i + 1] == states[i + 1] && all[i] == events[i];
      }
    }
  }

  /** n more calls take their numbers and nothing else happens. */
  lemma {:induction false} ManyNumbered(states: seq<State>, events: seq<Event>, n: nat)
    returns (longer: seq<State>, all: seq<Event>)
    requires Run(states, events)
    ensures Run(longer, all)
    ensures var s, t := states[|events|], longer[|all|];
            && t == s.(shared := t.shared, calls := t.calls)
            && t.shared == s.shared.(issued := s.shared.issued + n)
            && |t.calls| == |s.calls| + n && s.calls <= t.calls
            && (n > 0 ==> t.calls[|t.calls| - 1].phase == Numbered)
    decreases n
  {
    longer, all := states, events;
    if n > 0 {
      longer, all := ManyNumbered(states, events, n - 1);
      var next := Extended(longer, all, Begin);
      longer, all := next, all + [Begin];
    }
  }

  /** The first call is registered, its request sent, and the loop listens. */
  lemma FirstCallWaits() returns (states: seq<State>, events: seq<Event>)
    ensures Run(states, events)
    ensures states[|events|] == State(Shared(1, map[1 := 0], false), [Call(1, Waiting, None, 0)], Listening, [])
  {
    states, events := [INITIAL], [];
    assert Run(states, events);
    var next := Extended(states, events, Begin);
    states, events := next, events + [Begin];
    next := Extended(states, events, Register(0));
    states, events := next, events + [Register(0)];
    next := Extended(states, events, Look);
    states, events := next, events + [Look];
  }

  /**
   A run in which a call stays open while 2^64 more are numbered: the last of them has its number, takes over its
   entry, and is handed the reply to its request.
   */
  lemma WrappedNumberTakesReply() returns (states: seq<State>, events: seq<Event>)
    ensures Run(states, events)
    ensures var s := states[|events|];
            && |s.calls| == WRAP + 1 && s.calls[0].phase == Waiting && s.calls[0].id == s.calls[WRAP].id == 1
            && s.loop == Delivering(WRAP, Reply(1, 5)) && 1 !in s.shared.pending
  {
    states, events := FirstCallWaits();
    states, events := ManyNumbered(states, events, WRAP);
    RunKeepsInv(states, events, |events|);
    assert WRAP % WRAP == 0 && (WRAP + 1) % WRAP == 1;
    var next := Extended(states, events, Register(WRAP));
    states, events := next, events + [Register(WRAP)];
    next := Extended(states, events, Receive(Some(Reply(1, 5))));
    states, events := next, events + [Receive(Some(Reply(1, 5)))];
  }

  // ---------------------------------------------------------------- a reply reaches its call

  /** No event of these between two states. */
  ghost predicate Without(events: seq<Event>, from: nat, to: nat, avoid: Event -> bool) {
    forall m :: from <= m < to && m < |events| ==> !avoid(events[m])
  }

  lemma {:induction false} DeliveringStays(states: seq<State>, events: seq<Event>, i: nat, k: nat)
    requires Run(states, events) && i <= k < |states| && states[i].loop.Delivering?
    requires Without(events, i, k, e => e == Deliver)
    ensures states[k].loop == states[i].loop
    decreases k - i
  {
    if i < k {
      DeliveringStays(states, events, i, k - 1);
      assert Allowed(states[k - 1], events[k - 1]);
    }
  }

  lemma StepKeepsBuffer(s: State, e: Event, c: nat)
    requires Allowed(s, e) && e != TakeReply(c) && c < |s.calls| && s.calls[c].buffer.Some?
    ensures c < |Apply(s, e).calls| && Apply(s, e).calls[c].buffer == s.calls[c].buffer
  {
  }

  lemma {:induction false} BufferStays(states: seq<State>, events: seq<Event>, i: nat, k: nat, c: nat)
    requires Run(states, events) && i <= k < |states| && c < |states[i].calls| && states[i].calls[c].buffer.Some?
    requires Without(events, i, k, e => e == TakeReply(c))
    ensures c < |states[k].calls| && states[k].calls[c].buffer == states[i].calls[c].buffer
    decreases k - i
  {
    if i < k {
      BufferStays(states, events, i, k - 1, c);
      StepKeepsBuffer(states[k - 1], events[k - 1], c);
    }
  }

  lemma {:induction false} LeavingStays(states: seq<State>, events: seq<Event>, i: nat, k: nat, c: nat)
    requires Run(states, events) && i <= k < |states| && c < |states[i].calls| && states[i].calls[c].phase.Leaving?
    requires Without(events, i, k, e => e == Return(c))
    ensures c < |states[k].calls| && states[k].calls[c].phase == states[i].calls[c].phase
    decreases k - i
  {
    if i < k {
      LeavingStays(states, events, i, k - 1, c);
      assert Allowed(states[k - 1], events[k - 1]);
    }
  }

  /** A received reply is handed to the call its number is registered for, and to nobody else. */
  lemma ReceivedIsDelivered(states: seq<State>, events: seq<Event>, i: nat, k: nat, reply: Reply)
    requires Run(states, events) && i < k < |events| && events[i] == Receive(Some(reply))
    requires reply.id in states[i].shared.pending && events[k] == Deliver && Without(events, i + 1, k, e => e == Deliver)
    ensures var c := states[i].shared.pending[reply.id];
            && c < |states[k + 1].calls| && states[k + 1].calls[c].buffer == Some(reply)
            && forall d :: 0 <= d < |states[k].calls| && d != c ==> states[k + 1].calls[d] == states[k].calls[d]
  {
    assert Allowed(states[i], events[i]);
    DeliveringStays(states, events, i + 1, k);
    assert Allowed(states[k], events[k]);
  }

  /** A call that takes the reply in its channel returns it. */
  lemma DeliveredIsReturned(states: seq<State>, events: seq<Event>, i: nat, k: nat, m: nat, c: nat)
    requires Run(states, events) && i <= k < m < |events| && c < |states[i].calls| && states[i].calls[c].buffer.Some?
    requires events[k] == TakeReply(c) && Without(events, i, k, e => e == TakeReply(c))
    requires events[m] == Return(c) && Without(events, k + 1, m, e => e == Return(c))
    ensures c < |states[m + 1].calls|
    ensures states[m + 1].calls[c].phase == Phase.Returned(Replied(states[i].calls[c].buffer.value))
  {
    BufferStays(states, events, i, k, c);
    assert Allowed(states[k], events[k]);
    LeavingStays(states, events, k + 1, m, c);
    assert Allowed(states[m], events[m]);
  }

  /** A call that gives up returns why: its context ended, or the receive loop did. */
  lemma GivingUpIsReturned(states: seq<State>, events: seq<Event>, k: nat, m: nat, c: nat)
    requires Run(states, events) && k < m < |events| && (events[k] == Timeout(c) || events[k] == SeeDone(c))
    requires events[m] == Return(c) && Without(events, k + 1, m, e => e == Return(c))
    ensures c < |states[m + 1].calls|
    ensures states[m + 1].calls[c].phase == Phase.Returned(if events[k].Timeout? then TimedOut else Closed)
    ensures states[m + 1].calls[c].id !in states[m + 1].shared.pending
  {
    assert Allowed(states[k], events[k]);
    LeavingStays(states, events, k + 1, m, c);
    assert Allowed(states[m], events[m]);
  }

  /** A registered call stays registered until its reply is received, it returns, or its number is registered again. */
  lemma {:induction false} RegisteredStays(states: seq<State>, events: seq<Event>, i: nat, k: nat, id: nat)
    requires Run(states, events) && i <= k < |states| && id in states[i].shared.pending
    requires forall m :: i <= m < k && m < |events| ==> LeavesEntry(states[m], events[m], id)
    ensures id in states[k].shared.pending && states[k].shared.pending[id] == states[i].shared.pending[id]
    decreases k - i
  {
    if i < k {
      RegisteredStays(states, events, i, k - 1, id);
      assert Allowed(states[k - 1], events[k - 1]);
      assert LeavesEntry(states[k - 1], events[k - 1], id);
    }
  }

  /** The event is none of those that touch the number's entry. */
  predicate LeavesEntry(s: State, e: Event, id: nat) {
    match e
    case Receive(Some(reply)) => reply.id != id
    case Return(c) => c < |s.calls| ==> s.calls[c].id != id
    case Register(c) => c < |s.calls| ==> s.calls[c].id != id
    case _ => true
  }

  /** A call that registers while the client is open has its number's entry. */
  lemma RegistersWhileOpen(states: seq<State>, events: seq<Event>, i: nat)
    requires Run(states, events) && i < |events| && events[i].Register?
    ensures events[i].c < |states[i].calls|
    ensures var c := events[i].c;
            if states[i].shared.stopped
            then states[i + 1].shared == states[i].shared && states[i + 1].calls[c].phase == Phase.Returned(Closed)
            else && states[i].calls[c].id in states[i + 1].shared.pending
                 && states[i + 1].shared.pending[states[i].calls[c].id] == c && states[i + 1].calls[c].phase == Waiting
  {
    assert Allowed(states[i], events[i]);
  }

  /** Once the client is stopped, the loop's next look is its last. */
  lemma StopEndsTheLoop(states: seq<State>, events: seq<Event>, i: nat)
    requires Run(states, events) && i < |events| && events[i].Look?
    ensures states[i + 1].loop == if states[i].shared.stopped then Gone else Listening
    ensures i > 0 && events[i - 1].Stop? ==> states[i + 1].loop == Gone
  {
    assert Allowed(states[i], events[i]);
    assert i > 0 ==> Allowed(states[i - 1], events[i - 1]);
  }
}
