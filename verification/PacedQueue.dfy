/** The paced send queue of kcp_transport.cpp; times are nanoseconds of the steady clock. */
module PacedQueues {
  import opened Bytes
  import opened Numbers

  type Packet = seq<byte>

  const MICROSECOND: int := 1000
  const SECOND: int := 1_000_000 * MICROSECOND

  datatype Send = Send(at: int, packet: Packet)

  /** The fields of the transport, the expiry of its timer, and what has happened: the packets handed in, the packets
      handed to the socket and when, the last reading of the clock. */
  datatype Queue = Queue(pendingUdp: seq<Packet>, nextTxTime: int, rateSendActive: bool, expiry: int, closing: bool,
                         enqueued: seq<Packet>, sends: seq<Send>, clock: int)

  const EMPTY: Queue := Queue([], 0, false, 0, false, [], [], 0)

  /** The pause after a packet, in whole microseconds and at least one. */
  function Pause(rate: int, size: nat): (pause: int)
    requires rate > 0
    ensures pause >= MICROSECOND
    ensures size * SECOND <= rate * (pause + MICROSECOND)
    ensures NoLonger(rate, size, pause)
  {
    var delay := size * 1_000_000 / rate;
    assert rate * delay <= size * 1_000_000 < rate * (delay + 1) by { DivUp(size * 1_000_000, rate); }
    MICROSECOND * Max(1, delay)
  }

  /** A wait after a packet of the given size that is no longer than the limit asks, or a single microsecond. */
  predicate NoLonger(rate: int, size: nat, wait: int) {
    rate * wait <= size * SECOND || wait == MICROSECOND
  }

  lemma DivUp(n: int, d: int)
    requires d > 0
    ensures d * (n / d) <= n < d * (n / d + 1)
  {}

  // ----- what the handlers do

  function Schedule(q: Queue, now: int): Queue {
    if q.closing || q.rateSendActive || q.pendingUdp == [] then q
    else
      var next := Max(q.nextTxTime, now);
      q.(rateSendActive := true, nextTxTime := next, expiry := next)
  }

  function Enqueue(rate: int, q: Queue, packet: Packet, now: int): Queue {
    var q1 := q.(enqueued := q.enqueued + [packet], clock := now);
    if rate <= 0 then q1.(sends := q.sends + [Send(now, packet)])
    else
      Schedule(q1.(pendingUdp := q.pendingUdp + [packet]), now)
  }

  /** The timer has expired; the clock is read once for the send and once more for the next one. */
  function Fire(rate: int, q: Queue, now: int, later: int): Queue {
    var q1 := q.(rateSendActive := false, clock := later);
    if q.closing || q.pendingUdp == [] then q1
    else
      var front := q.pendingUdp[0];
      var pause := if rate <= 0 then Pause(1, |front|) else Pause(rate, |front|);
      Schedule(q1.(pendingUdp := q.pendingUdp[1..], nextTxTime := Max(q.nextTxTime, now) + pause,
                   sends := q.sends + [Send(now, front)]), later)
  }

  datatype Event =
    | Handed(packet: Packet, now: int)
    | Expired(now: int, later: int)
    | Cancelled
    | Closed

  /** The clock never goes back, the timer does not expire early, and is only cancelled by closing. */
  predicate Possible(q: Queue, e: Event) {
    match e
    case Handed(_, now) => q.clock <= now
    case Expired(now, later) => q.rateSendActive && q.clock <= now && q.expiry <= now <= later
    case Cancelled => q.rateSendActive && q.closing
    case Closed => true
  }

  function Next(rate: int, q: Queue, e: Event): Queue {
    if !Possible(q, e) then q
    else
      match e
      case Handed(packet, now) => Enqueue(rate, q, packet, now)
      case Expired(now, later) => Fire(rate, q, now, later)
      case Cancelled => q.(rateSendActive := false)
      case Closed => q.(closing := true)
  }

  function Run(rate: int, events: seq<Event>): Queue {
    if events == [] then EMPTY else Next(rate, Run(rate, events[..|events| - 1]), events[|events| - 1])
  }

  // ----- what holds at every point

  function Packets(sends: seq<Send>): (r: seq<Packet>)
    ensures |r| == |sends|
  {
    seq(|sends|, i requires 0 <= i < |sends| => sends[i].packet)
  }

  /** Between one send and the next lies the pause of the first. */
  ghost predicate Paced(rate: int, sends: seq<Send>)
    requires rate > 0
  {
    forall i :: 0 < i < |sends| ==> sends[i - 1].at + Pause(rate, |sends[i - 1].packet|) <= sends[i].at
  }

  ghost predicate QueueOk(rate: int, q: Queue) {
    && Packets(q.sends) + q.pendingUdp == q.enqueued
    && (rate <= 0 ==> q.pendingUdp == [] && !q.rateSendActive)
    && (rate > 0 ==> PacingOk(rate, q))
  }

  ghost predicate PacingOk(rate: int, q: Queue)
    requires rate > 0
  {
    && Paced(rate, q.sends)
    && (q.sends != [] ==>
          q.sends[|q.sends| - 1].at + Pause(rate, |q.sends[|q.sends| - 1].packet|) <= q.nextTxTime)
    && (q.rateSendActive ==> q.expiry == q.nextTxTime)
    && (!q.closing && q.pendingUdp != [] ==> q.rateSendActive)
  }

  lemma PacketsMore(sends: seq<Send>, s: Send)
    ensures Packets(sends + [s]) == Packets(sends) + [s.packet]
  {}

  lemma PacedMore(rate: int, sends: seq<Send>, s: Send)
    requires rate > 0 && Paced(rate, sends)
    requires sends != [] ==> sends[|sends| - 1].at + Pause(rate, |sends[|sends| - 1].packet|) <= s.at
    ensures Paced(rate, sends + [s])
  {
    hide Pause;
  }

  lemma NextKeeps(rate: int, q: Queue, e: Event)
    requires QueueOk(rate, q)
    ensures QueueOk(rate, Next(rate, q, e))
  {
    hide Pause, Paced, Packets, Enqueue, Fire;
    if Possible(q, e) {
      if e.Handed? {
        EnqueueKeeps(rate, q, e.packet, e.now);
      } else if e.Expired? {
        FireKeeps(rate, q, e.now, e.later);
      }
    }
  }

  lemma EnqueueKeeps(rate: int, q: Queue, packet: Packet, now: int)
    requires QueueOk(rate, q)
    ensures QueueOk(rate, Enqueue(rate, q, packet, now))
  {
    hide Pause, Paced, Packets;
    PacketsMore(q.sends, Send(now, packet));
  }

  lemma FireKeeps(rate: int, q: Queue, now: int, later: int)
    requires QueueOk(rate, q) && q.rateSendActive && q.expiry <= now
    ensures QueueOk(rate, Fire(rate, q, now, later))
  {
    hide Pause, Paced, Packets;
    if q.pendingUdp != [] && !q.closing {
      var front := q.pendingUdp[0];
      PacketsMore(q.sends, Send(now, front));
      assert q.pendingUdp == [front] + q.pendingUdp[1..];
      PacedMore(rate, q.sends, Send(now, front));
    }
  }

  lemma {:induction false} RunOk(rate: int, events: seq<Event>)
    ensures QueueOk(rate, Run(rate, events))
    decreases |events|
  {
    hide QueueOk, Next;
    if events == [] {
      EmptyOk(rate);
    } else {
      RunOk(rate, events[..|events| - 1]);
      NextKeeps(rate, Run(rate, events[..|events| - 1]), events[|events| - 1]);
    }
  }

  lemma EmptyOk(rate: int)
    ensures QueueOk(rate, EMPTY)
  {}

  // ----- what that means

  /** Packets leave in the order in which they came, each once. */
  lemma SentInOrder(rate: int, events: seq<Event>)
    ensures Packets(Run(rate, events).sends) + Run(rate, events).pendingUdp == Run(rate, events).enqueued
  {
    RunOk(rate, events);
  }

  /** While the transport is not closing, a packet that waits has the timer armed for it, and when the timer expires,
      at whatever time, exactly that packet leaves. */
  lemma TimerArmed(rate: int, events: seq<Event>, now: int, later: int)
    requires var q := Run(rate, events);
             !q.closing && q.pendingUdp != [] && q.clock <= now && q.expiry <= now <= later
    ensures var q := Run(rate, events);
            Run(rate, events + [Expired(now, later)]).sends == q.sends + [Send(now, q.pendingUdp[0])]
  {
    hide Pause, Paced, Packets;
    RunOk(rate, events);
    assert (events + [Expired(now, later)])[..|events|] == events;
  }

  function Total(sends: seq<Send>): nat {
    if sends == [] then 0 else Total(sends[..|sends| - 1]) + |sends[|sends| - 1].packet|
  }

  /** One send more: its bytes take as long as the gap after it. */
  lemma OneGap(rate: int, sends: seq<Send>, j: nat)
    requires rate > 0 && Paced(rate, sends) && 0 < j < |sends|
    ensures SECOND * |sends[j - 1].packet| <= rate * (sends[j].at - sends[j - 1].at + MICROSECOND)
  {
    hide NoLonger;
    var last := sends[j - 1];
    var gap, pause := sends[j].at - last.at, Pause(rate, |last.packet|);
    assert SECOND * |last.packet| <= rate * (pause + MICROSECOND);
    hide *;
    Scale(rate, pause + MICROSECOND, gap + MICROSECOND);
  }

  lemma TotalMore(sends: seq<Send>, i: nat, j: nat)
    requires i < j <= |sends|
    ensures Total(sends[i..j]) == Total(sends[i..j - 1]) + |sends[j - 1].packet|
  {
    assert sends[i..j][..j - 1 - i] == sends[i..j - 1] && sends[i..j][j - 1 - i] == sends[j - 1];
  }

  lemma {:induction false} PacedRate(rate: int, sends: seq<Send>, i: nat, j: nat)
    requires rate > 0 && Paced(rate, sends) && i <= j < |sends|
    ensures SECOND * Total(sends[i..j]) <= rate * (sends[j].at - sends[i].at + MICROSECOND * (j - i))
    decreases j - i
  {
    hide Pause, Paced;
    if i < j {
      PacedRate(rate, sends, i, j - 1);
      OneGap(rate, sends, j);
      TotalMore(sends, i, j);
      hide Total;
      Spread(rate, sends[j - 1].at - sends[i].at + MICROSECOND * (j - 1 - i),
             sends[j].at - sends[j - 1].at + MICROSECOND);
    }
  }

  lemma Scale(rate: int, a: int, b: int)
    requires rate > 0 && a <= b
    ensures rate * a <= rate * b
  {}

  lemma Spread(rate: int, a: int, b: int)
    ensures rate * a + rate * b == rate * (a + b)
  {}

  /** The rate: in any run, from one send to a later one the bytes sent in between, the last not counted, take at least
      as long as the limit asks, up to a microsecond for each. */
  lemma RateBound(rate: int, events: seq<Event>, i: nat, j: nat)
    requires rate > 0 && i <= j < |Run(rate, events).sends|
    ensures var sends := Run(rate, events).sends;
            SECOND * Total(sends[i..j]) <= rate * (sends[j].at - sends[i].at + MICROSECOND * (j - i))
  {
    hide Run, Total, Pause;
    RunOk(rate, events);
    PacedRate(rate, Run(rate, events).sends, i, j);
  }

  // ----- no packet waits longer than the limit asks

  /** The next send is due when the clock was last read, or after no longer than the limit asks from the last send. */
  ghost predicate DueInTime(rate: int, q: Queue) {
    && (q.rateSendActive ==> q.pendingUdp != [] && q.expiry == q.nextTxTime)
    && (q.nextTxTime <= q.clock || (q.sends != [] && AfterLast(rate, q.sends, q.nextTxTime)))
  }

  /** The time lies no later after the last send than the limit asks. */
  predicate AfterLast(rate: int, sends: seq<Send>, time: int)
    requires sends != []
  {
    var last := sends[|sends| - 1];
    NoLonger(rate, |last.packet|, time - last.at)
  }

  lemma NextInTime(rate: int, q: Queue, e: Event)
    requires rate > 0 && DueInTime(rate, q)
    ensures DueInTime(rate, Next(rate, q, e))
  {
    hide Pause, NoLonger;
  }

  lemma {:induction false} RunInTime(rate: int, events: seq<Event>)
    requires rate > 0
    ensures DueInTime(rate, Run(rate, events))
    decreases |events|
  {
    hide DueInTime, Next;
    if events == [] {
      EmptyInTime(rate);
    } else {
      RunInTime(rate, events[..|events| - 1]);
      NextInTime(rate, Run(rate, events[..|events| - 1]), events[|events| - 1]);
    }
  }

  lemma EmptyInTime(rate: int)
    ensures DueInTime(rate, EMPTY)
  {}

  /** A packet handed to an idle queue is due at once, or after no longer than the limit asks from the last send. */
  lemma IdleIsDueInTime(rate: int, events: seq<Event>, packet: Packet, now: int)
    requires rate > 0
    requires var q := Run(rate, events);
             !q.closing && q.pendingUdp == [] && q.clock <= now
    ensures var q, q' := Run(rate, events), Run(rate, events + [Handed(packet, now)]);
            && q'.rateSendActive && q'.pendingUdp == [packet] && q'.sends == q.sends
            && (q'.expiry == now || (q.sends != [] && AfterLast(rate, q.sends, q'.expiry)))
  {
    hide Pause, NoLonger;
    RunInTime(rate, events);
    assert (events + [Handed(packet, now)])[..|events|] == events;
  }

  /** Without a limit a packet leaves when it comes. */
  lemma UnlimitedLeavesAtOnce(rate: int, events: seq<Event>, packet: Packet, now: int)
    requires rate <= 0 && Run(rate, events).clock <= now
    ensures Run(rate, events + [Handed(packet, now)]).sends == Run(rate, events).sends + [Send(now, packet)]
  {
    assert (events + [Handed(packet, now)])[..|events|] == events;
  }

  /** Once the transport is closing, nothing that waits leaves. */
  lemma {:induction false} NothingAfterClosing(rate: int, before: seq<Event>, after: seq<Event>)
    requires rate > 0 && Run(rate, before).closing
    ensures Run(rate, before + after).closing && Run(rate, before + after).sends == Run(rate, before).sends
    decreases |after|
  {
    hide Pause;
    if after == [] {
      assert before + after == before;
    } else {
      assert (before + after)[..|before + after| - 1] == before + after[..|after| - 1];
      NothingAfterClosing(rate, before, after[..|after| - 1]);
    }
  }

  /** Every expiry of the run is taken at its time. */
  ghost predicate Punctual(rate: int, events: seq<Event>) {
    forall k :: 0 <= k < |events| && events[k].Expired? ==> events[k].now == Run(rate, events[..k]).expiry
  }

  /** Send number n lies at the given time, or is due then, or the transport closes before. */
  ghost predicate DueAt(q: Queue, n: nat, time: int) {
    if |q.sends| > n then q.sends[n].at == time
    else |q.sends| == n && (q.closing || (q.rateSendActive && q.pendingUdp != [] && q.expiry == time))
  }

  lemma NextKeepsDue(rate: int, q: Queue, e: Event, n: nat, time: int)
    requires rate > 0 && DueAt(q, n, time) && (e.Expired? ==> e.now == q.expiry)
    ensures DueAt(Next(rate, q, e), n, time) && q.sends <= Next(rate, q, e).sends
  {
    hide Pause;
  }

  lemma {:induction false} RunKeepsDue(rate: int, events: seq<Event>, k: nat, n: nat, time: int)
    requires rate > 0 && k <= |events| && Punctual(rate, events) && DueAt(Run(rate, events[..k]), n, time)
    ensures DueAt(Run(rate, events), n, time) && Run(rate, events[..k]).sends <= Run(rate, events).sends
    decreases |events|
  {
    hide DueAt, Next;
    if k == |events| {
      assert events[..k] == events;
    } else {
      var front, e := events[..|events| - 1], events[|events| - 1];
      assert forall j :: 0 <= j <= |front| ==> front[..j] == events[..j];
      RunKeepsDue(rate, front, k, n, time);
      NextKeepsDue(rate, Run(rate, front), e, n, time);
    }
  }

  /** No packet waits longer than the limit asks: when a packet leaves and others wait, the timer is set, and in a run
      whose expiries are taken at their times the next packet leaves, no later after this one than the limit asks, or a
      microsecond; unless the handler of the timer itself took longer, and then when it was through. */
  lemma WaitingLeavesInTime(rate: int, events: seq<Event>, k: nat)
    requires rate > 0 && k < |events| && events[k].Expired? && Punctual(rate, events)
    requires var q := Run(rate, events[..k]);
             Possible(q, events[k]) && !q.closing && |q.pendingUdp| >= 2
    ensures var q, q', now, later := Run(rate, events[..k]), Run(rate, events[..k + 1]), events[k].now, events[k].later;
            var n, size, sends := |q.sends|, |q.pendingUdp[0]|, Run(rate, events).sends;
            && q'.sends == q.sends + [Send(now, q.pendingUdp[0])] && q'.sends <= sends
            && q'.rateSendActive && (q'.expiry == later || NoLonger(rate, size, q'.expiry - now))
            && (|sends| > n + 1 ==> sends[n + 1].at == q'.expiry)
  {
    hide Pause, NoLonger, Punctual;
    RunInTime(rate, events[..k]);
    assert events[..k + 1][..k] == events[..k];
    RunKeepsDue(rate, events, k + 1, |Run(rate, events[..k]).sends| + 1, Run(rate, events[..k + 1]).expiry);
  }

  // ----- the object

  class PacedQueue {
    const ratelimit: int
    var pendingUdp: seq<Packet>
    var nextTxTime: int
    var rateSendActive: bool
    var expiry: int
    var closing: bool
    ghost var enqueued: seq<Packet>
    ghost var sends: seq<Send>
    ghost var clock: int

    ghost function State(): Queue
      reads this
    {
      Queue(pendingUdp, nextTxTime, rateSendActive, expiry, closing, enqueued, sends, clock)
    }

    constructor (ratelimit: int)
      ensures this.ratelimit == ratelimit && State() == EMPTY
    {
      this.ratelimit := ratelimit;
      pendingUdp, nextTxTime, rateSendActive, expiry, closing := [], 0, false, 0, false;
      enqueued, sends, clock := [], [], 0;
    }

    /** Hands a packet to the socket. */
    ghost method SendTo(packet: Packet, now: int)
      modifies this`sends
      ensures sends == old(sends) + [Send(now, packet)]
    {
      sends := sends + [Send(now, packet)];
    }

    method ScheduleRateLimitedSend(now: int)
      modifies this`rateSendActive, this`nextTxTime, this`expiry
      ensures State() == Schedule(old(State()), now)
    {
      if closing || rateSendActive || pendingUdp == [] {
        return;
      }
      rateSendActive := true;
      if nextTxTime < now {
        nextTxTime := now;
      }
      expiry := nextTxTime;
    }

    method EnqueueUdpPacket(packet: Packet, now: int)
      modifies this
      ensures State() == Enqueue(ratelimit, old(State()), packet, now)
    {
      enqueued, clock := enqueued + [packet], now;
      if ratelimit <= 0 {
        SendTo(packet, now);
        return;
      }
      pendingUdp := pendingUdp + [packet];
      ScheduleRateLimitedSend(now);
    }

    /** The handler of the timer; an error is a cancellation. */
    method OnRateTimer(error: bool, now: int, later: int)
      modifies this
      ensures error ==> State() == old(State()).(rateSendActive := false)
      ensures !error ==> State() == Fire(ratelimit, old(State()), now, later)
    {
      hide Pause;
      rateSendActive := false;
      if error {
        return;
      }
      clock := later;
      if closing || pendingUdp == [] {
        return;
      }
      var packet := pendingUdp[0];
      pendingUdp := pendingUdp[1..];
      var bytesPerSecond := Max(1, ratelimit);
      var pause := Pause(bytesPerSecond, |packet|);
      nextTxTime := Max(nextTxTime, now) + pause;
      SendTo(packet, now);
      ScheduleRateLimitedSend(later);
    }

    method Close()
      modifies this`closing
      ensures State() == old(State()).(closing := true)
    {
      if closing {
        return;
      }
      closing := true;
    }
  }
}
