/**
 The loop sensor across its two threads: a sampler that turns two pin values into ON and OFF events, a queue, and a
 consumer that keeps the flag saying whether a vehicle is on the loop.
 */
module LoopSensor {

  const LOW := 0
  const HIGH := 1

  // The values of loops A and B; a pin that cannot be read gives -1.
  datatype Sample = Sample(a: int, b: int)

  // Events of other inputs share the queue and leave the flag alone.
  datatype Event = LoopOn | LoopOff | Other(code: int)

  predicate Present(s: Sample) {
    s.a == HIGH || s.b == HIGH
  }

  predicate Readable(s: Sample) {
    (s.a == LOW || s.a == HIGH) && (s.b == LOW || s.b == HIGH)
  }

  // ---------- Edges ----------

  /** The event between two samples: a change of presence that both of them show clearly. */
  function Edge(last: Sample, curr: Sample): seq<Event> {
    if !Readable(last) || !Readable(curr) || Present(last) == Present(curr) then []
    else if Present(curr) then [LoopOn] else [LoopOff]
  }

  predicate IsPin(value: int) {
    value == 0 || value == 1
  }

  /** With 1 for a vehicle on either loop: an arrival on empty loops is ON, leaving both empty is OFF, and nothing else, nor a
      pin that cannot be read, is an event. */
  lemma EdgeMeaning(last: Sample, curr: Sample)
    ensures Edge(last, curr)
         == if !IsPin(last.a) || !IsPin(last.b) || !IsPin(curr.a) || !IsPin(curr.b) then []
            else if last.a + last.b == 0 && curr.a + curr.b > 0 then [LoopOn]
            else if last.a + last.b > 0 && curr.a + curr.b == 0 then [LoopOff]
            else []
  {
  }

  function Edges(last: Sample, samples: seq<Sample>): seq<Event>
    decreases |samples|
  {
    if samples == [] then [] else Edge(last, samples[0]) + Edges(samples[0], samples[1..])
  }

  function LastOf(last: Sample, samples: seq<Sample>): Sample {
    if samples == [] then last else samples[|samples| - 1]
  }

  function After(flag: bool, e: Event): bool {
    match e
    case LoopOn => true
    case LoopOff => false
    case Other(_) => flag
  }

  // The flag after the events.
  function Replay(flag: bool, events: seq<Event>): bool
    decreases |events|
  {
    if events == [] then flag else Replay(After(flag, events[0]), events[1..])
  }

  function LoopEvents(events: seq<Event>): seq<Event> {
    if events == [] then []
    else (if events[0].Other? then [] else [events[0]]) + LoopEvents(events[1..])
  }

  // The first is ON when no vehicle was present, and each is the opposite of the one before.
  predicate Alternates(present: bool, events: seq<Event>)
    decreases |events|
  {
    events == []
    || (!events[0].Other? && events[0].LoopOn? == !present && Alternates(!present, events[1..]))
  }

  // ---------- The objects of the two threads ----------

  class EventQueue {
    var events: seq<Event>

    constructor ()
      ensures events == []
    {
      events := [];
    }

    method Enqueue(e: Event)
      modifies this
      ensures events == old(events) + [e]
    {
      events := events + [e];
    }

    method PopFront() returns (e: Event)
      requires events != []
      modifies this
      ensures [e] + events == old(events)
    {
      e := events[0];
      events := events[1..];
    }
  }

  class Sampler {
    var lastA: int
    var lastB: int
    const queue: EventQueue

    function Last(): Sample
      reads this
    {
      Sample(lastA, lastB)
    }

    constructor (queue: EventQueue)
      ensures this.queue == queue && Last() == Sample(LOW, LOW)
    {
      this.queue, lastA, lastB := queue, LOW, LOW;
    }

    /** One turn of the polling loop, with the source's six cases. */
    method Turn(a: int, b: int)
      modifies this, queue
      ensures queue.events == old(queue.events) + Edge(old(Last()), Sample(a, b))
      ensures Last() == Sample(a, b)
    {
      if a == HIGH && lastA == LOW && b == LOW && lastB == LOW {
        queue.Enqueue(LoopOn);
      } else if b == HIGH && lastB == LOW && a == LOW && lastA == LOW {
        queue.Enqueue(LoopOn);
      } else if a == HIGH && lastA == LOW && b == HIGH && lastB == LOW {
        queue.Enqueue(LoopOn);
      }
      if a == LOW && lastA == HIGH && b == LOW && lastB == LOW {
        queue.Enqueue(LoopOff);
      } else if b == LOW && lastB == HIGH && a == LOW && lastA == LOW {
        queue.Enqueue(LoopOff);
      } else if a == LOW && lastA == HIGH && b == LOW && lastB == HIGH {
        queue.Enqueue(LoopOff);
      }
      lastA, lastB := a, b;
    }

    method Monitor(samples: seq<Sample>)
      modifies this, queue
      ensures queue.events == old(queue.events) + Edges(old(Last()), samples)
      ensures Last() == LastOf(old(Last()), samples)
    {
      assert samples[0..] == samples;
      for i := 0 to |samples|
        invariant queue.events + Edges(Last(), samples[i..]) == old(queue.events) + Edges(old(Last()), samples)
        invariant Last() == LastOf(old(Last()), samples[..i])
      {
        assert samples[i..][1..] == samples[i + 1..];
        ghost var before, last := queue.events, Last();
        Turn(samples[i].a, samples[i].b);
        assert before + Edges(last, samples[i..])
            == before + Edge(last, samples[i]) + Edges(samples[i], samples[i + 1..]);
      }
      assert samples[..|samples|] == samples;
    }
  }

  class Consumer {
    var loopPresent: bool
    const queue: EventQueue

    constructor (queue: EventQueue)
      ensures this.queue == queue && !loopPresent
    {
      this.queue, loopPresent := queue, false;
    }

    method HandleDIOEvent(e: Event)
      modifies this
      ensures loopPresent == After(old(loopPresent), e)
    {
      match e
      case LoopOn => loopPresent := true;
      case LoopOff => loopPresent := false;
      case Other(_) =>
    }

    /** All events of the queue, in order. */
    method ProcessEventsFromQueue()
      modifies this, queue
      ensures queue.events == [] && loopPresent == Replay(old(loopPresent), old(queue.events))
    {
      while |queue.events| > 0
        invariant Replay(loopPresent, queue.events) == Replay(old(loopPresent), old(queue.events))
        decreases |queue.events|
      {
        var front := queue.PopFront();
        HandleDIOEvent(front);
      }
    }
  }

  // ---------- The two threads interleaved ----------

  /** The last sample, the queue, the event taken from it but not handled yet, the flag, and the events handled so far. */
  datatype State = State(last: Sample, queue: seq<Event>, taken: seq<Event>, flag: bool, handled: seq<Event>)

  datatype Action = Poll(sample: Sample) | Post(code: int) | Take | Handle

  const INITIAL := State(Sample(LOW, LOW), [], [], false, [])

  predicate Enabled(s: State, a: Action) {
    match a
    case Take => s.taken == [] && s.queue != []
    case Handle => s.taken != []
    case _ => true
  }

  function Apply(s: State, a: Action): State
    requires Enabled(s, a)
  {
    match a
    case Poll(sample) => s.(last := sample, queue := s.queue + Edge(s.last, sample))
    case Post(code) => s.(queue := s.queue + [Other(code)])
    case Take => s.(taken := [s.queue[0]], queue := s.queue[1..])
    case Handle => s.(flag := Replay(s.flag, s.taken), handled := s.handled + s.taken, taken := [])
  }

  predicate IsRun(s: State, actions: seq<Action>)
    decreases |actions|
  {
    actions == [] || (Enabled(s, actions[0]) && IsRun(Apply(s, actions[0]), actions[1..]))
  }

  function Final(s: State, actions: seq<Action>): State
    requires IsRun(s, actions)
    decreases |actions|
  {
    if actions == [] then s else Final(Apply(s, actions[0]), actions[1..])
  }

  function Samples(actions: seq<Action>): seq<Sample> {
    if actions == [] then []
    else (if actions[0].Poll? then [actions[0].sample] else []) + Samples(actions[1..])
  }

  // Every event in its order: handled, taken, waiting.
  function AllEvents(s: State): seq<Event> {
    s.handled + s.taken + s.queue
  }

  // Taking an event and handling it moves the oldest one from the queue to the flag.
  lemma TakeThenHandle(s: State)
    requires s.taken == [] && s.queue != []
    ensures Enabled(s, Take) && Enabled(Apply(s, Take), Handle)
    ensures Apply(Apply(s, Take), Handle)
         == s.(queue := s.queue[1..], flag := After(s.flag, s.queue[0]), handled := s.handled + [s.queue[0]])
  {
    var front := s.queue[0];
    assert Apply(s, Take).taken == [front] && [front][1..] == [];
    assert Replay(After(s.flag, front), []) == After(s.flag, front);
    assert Replay(s.flag, [front]) == After(s.flag, front);
  }

  // ---------- Lemmas on lists of events ----------

  lemma {:induction false} ReplayBoth(flag: bool, xs: seq<Event>, ys: seq<Event>)
    ensures Replay(flag, xs + ys) == Replay(Replay(flag, xs), ys)
    decreases |xs|
  {
    if xs == [] {
      assert xs + ys == ys;
    } else {
      assert (xs + ys)[1..] == xs[1..] + ys;
      ReplayBoth(After(flag, xs[0]), xs[1..], ys);
    }
  }

  lemma {:induction false} LoopEventsBoth(xs: seq<Event>, ys: seq<Event>)
    ensures LoopEvents(xs + ys) == LoopEvents(xs) + LoopEvents(ys)
  {
    if xs == [] {
      assert xs + ys == ys;
    } else {
      assert (xs + ys)[1..] == xs[1..] + ys;
      LoopEventsBoth(xs[1..], ys);
    }
  }

  lemma {:induction false} ReplayLoopEvents(flag: bool, events: seq<Event>)
    ensures Replay(flag, LoopEvents(events)) == Replay(flag, events)
    decreases |events|
  {
    if events != [] {
      var first := if events[0].Other? then [] else [events[0]];
      ReplayBoth(flag, first, LoopEvents(events[1..]));
      assert Replay(flag, first) == After(flag, events[0]) by {
        if first != [] { assert first[1..] == []; }
      }
      ReplayLoopEvents(After(flag, events[0]), events[1..]);
    }
  }

  // ---------- What every interleaving keeps ----------

  lemma LoopEdge(last: Sample, curr: Sample)
    ensures LoopEvents(Edge(last, curr)) == Edge(last, curr)
  {
    var edge := Edge(last, curr);
    if edge != [] { assert edge[1..] == []; }
  }

  // One action adds the edge of its sample, if it has one, and moves every other event on in order.
  lemma ApplyKeepsOrder(s: State, a: Action)
    requires Enabled(s, a)
    ensures LoopEvents(AllEvents(Apply(s, a)))
         == LoopEvents(AllEvents(s)) + (if a.Poll? then Edge(s.last, a.sample) else [])
    ensures AllEvents(s) <= AllEvents(Apply(s, a)) && s.handled <= Apply(s, a).handled
    ensures s.flag == Replay(false, s.handled) ==> Apply(s, a).flag == Replay(false, Apply(s, a).handled)
  {
    var next := Apply(s, a);
    match a
    case Poll(sample) =>
      assert AllEvents(next) == AllEvents(s) + Edge(s.last, sample);
      LoopEventsBoth(AllEvents(s), Edge(s.last, sample));
      LoopEdge(s.last, sample);
    case Post(code) =>
      assert AllEvents(next) == AllEvents(s) + [Other(code)];
      LoopEventsBoth(AllEvents(s), [Other(code)]);
      assert LoopEvents([Other(code)]) == [];
    case Take =>
      assert AllEvents(next) == AllEvents(s);
    case Handle =>
      assert AllEvents(next) == AllEvents(s);
      ReplayBoth(false, s.handled, s.taken);
  }

  /** Whatever the samples and however the threads interleave: the loop events, handled, taken or waiting, are the edges of
      the samples in order, and the flag is what the handled ones say. */
  lemma {:induction false} EventsAreEdges(s: State, actions: seq<Action>)
    requires IsRun(s, actions) && s.flag == Replay(false, s.handled)
    ensures var end := Final(s, actions);
            && LoopEvents(AllEvents(end)) == LoopEvents(AllEvents(s)) + Edges(s.last, Samples(actions))
            && end.flag == Replay(false, end.handled)
            && end.last == LastOf(s.last, Samples(actions))
            && s.handled <= end.handled && AllEvents(s) <= AllEvents(end)
    decreases |actions|
  {
    hide Enabled, Edge, AllEvents, LoopEvents, Replay;
    if actions == [] {
      assert Samples(actions) == [];
    } else {
      ApplyKeepsOrder(s, actions[0]);
      var rest := Samples(actions[1..]);
      EventsAreEdges(Apply(s, actions[0]), actions[1..]);
      if actions[0].Poll? {
        assert ([actions[0].sample] + rest)[1..] == rest;
      } else {
        assert Apply(s, actions[0]).last == s.last && Samples(actions) == [] + rest == rest;
      }
    }
  }

  // ---------- Readable samples ----------

  lemma {:induction false} EdgesFollow(last: Sample, samples: seq<Sample>)
    requires Readable(last) && forall x :: x in samples ==> Readable(x)
    ensures Alternates(Present(last), Edges(last, samples))
    ensures Replay(Present(last), Edges(last, samples)) == Present(LastOf(last, samples))
    decreases |samples|
  {
    if samples != [] {
      assert Readable(samples[0]) && forall x :: x in samples[1..] ==> x in samples;
      EdgesFollow(samples[0], samples[1..]);
      var rest := Edges(samples[0], samples[1..]);
      var edge := Edge(last, samples[0]);
      assert edge == [] ==> edge + rest == rest;
      assert edge != [] ==> (edge + rest)[1..] == rest;
    }
  }

  /** Loop presence is faithful: with readable samples, in every interleaving, ON and OFF alternate starting with ON, each
      is handled once and in order, and replaying the events still to come on the flag gives the presence of the last
      sample. */
  lemma PresenceIsFaithful(actions: seq<Action>)
    requires IsRun(INITIAL, actions) && forall x :: x in Samples(actions) ==> Readable(x)
    ensures var s := Final(INITIAL, actions);
            && Alternates(false, LoopEvents(AllEvents(s)))
            && Replay(s.flag, s.taken + s.queue) == Present(s.last) == Present(LastOf(INITIAL.last, Samples(actions)))
            && (s.taken == s.queue == [] ==> s.flag == Present(s.last))
  {
    assert !Present(INITIAL.last) && Replay(false, INITIAL.handled) == false;
    EventsAreEdges(INITIAL, actions);
    EdgesFollow(INITIAL.last, Samples(actions));
    var s := Final(INITIAL, actions);
    assert AllEvents(INITIAL) == [] && LoopEvents([]) == [];
    assert LoopEvents(AllEvents(s)) == [] + Edges(INITIAL.last, Samples(actions)) == Edges(INITIAL.last, Samples(actions));
    ReplayLoopEvents(false, AllEvents(s));
    assert AllEvents(s) == s.handled + (s.taken + s.queue);
    ReplayBoth(false, s.handled, s.taken + s.queue);
  }

  // ---------- Unreadable samples ----------

  // Every change of presence is between two readable samples.
  predicate ChangesSeen(last: Sample, samples: seq<Sample>)
    decreases |samples|
  {
    samples == []
    || ((Present(last) == Present(samples[0]) || (Readable(last) && Readable(samples[0])))
        && ChangesSeen(samples[0], samples[1..]))
  }

  // After each of the samples the flag, once all events are handled, is the presence.
  predicate AlwaysFaithful(flag: bool, last: Sample, samples: seq<Sample>)
    decreases |samples|
  {
    flag == Present(last)
    && (samples == [] || AlwaysFaithful(Replay(flag, Edge(last, samples[0])), samples[0], samples[1..]))
  }

  lemma OneEdge(flag: bool, last: Sample, curr: Sample)
    requires flag == Present(last)
    ensures Replay(flag, Edge(last, curr)) == Present(curr)
       <==> Present(last) == Present(curr) || (Readable(last) && Readable(curr))
  {
    var edge := Edge(last, curr);
    if edge != [] { assert edge[1..] == []; }
  }

  /** With pins that cannot always be read, the flag is right after every sample exactly when each change of presence falls
      between two readable samples. */
  lemma {:induction false} FaithfulExactly(flag: bool, last: Sample, samples: seq<Sample>)
    requires flag == Present(last)
    ensures AlwaysFaithful(flag, last, samples) <==> ChangesSeen(last, samples)
    decreases |samples|
  {
    if samples != [] {
      OneEdge(flag, last, samples[0]);
      var next := Replay(flag, Edge(last, samples[0]));
      if next == Present(samples[0]) { FaithfulExactly(next, samples[0], samples[1..]); }
    }
  }

  // What replaying the events still to come gives.
  function Replayed(s: State): bool {
    Replay(s.flag, s.taken + s.queue)
  }

  // Before each action and at the end, the flag is on its way to the presence of the last sample.
  predicate FaithfulRun(s: State, actions: seq<Action>)
    requires IsRun(s, actions)
    decreases |actions|
  {
    Replayed(s) == Present(s.last) && (actions == [] || FaithfulRun(Apply(s, actions[0]), actions[1..]))
  }

  lemma ApplyReplayed(s: State, a: Action)
    requires Enabled(s, a)
    ensures Replayed(Apply(s, a)) == if a.Poll? then Replay(Replayed(s), Edge(s.last, a.sample)) else Replayed(s)
  {
    var next := Apply(s, a);
    match a
    case Poll(sample) =>
      ReplayBoth(s.flag, s.taken + s.queue, Edge(s.last, sample));
      assert next.taken + next.queue == s.taken + s.queue + Edge(s.last, sample);
    case Post(code) =>
      ReplayBoth(s.flag, s.taken + s.queue, [Other(code)]);
      assert next.taken + next.queue == s.taken + s.queue + [Other(code)];
      assert [Other(code)][1..] == [];
    case Take =>
      assert next.taken + next.queue == s.taken + s.queue;
    case Handle =>
      ReplayBoth(s.flag, s.taken, s.queue);
      assert next.taken + next.queue == s.queue;
  }

  /** The same over every interleaving of the threads. */
  lemma {:induction false} FaithfulRunExactly(s: State, actions: seq<Action>)
    requires IsRun(s, actions) && Replayed(s) == Present(s.last)
    ensures FaithfulRun(s, actions) <==> ChangesSeen(s.last, Samples(actions))
    decreases |actions|
  {
    hide Enabled, Edge, Replayed, Present, Readable;
    if actions == [] {
      assert Samples(actions) == [];
    } else {
      var a, next, rest := actions[0], Apply(s, actions[0]), Samples(actions[1..]);
      ApplyReplayed(s, a);
      if a.Poll? {
        assert Samples(actions) == [a.sample] + rest && ([a.sample] + rest)[1..] == rest;
        OneEdge(Replayed(s), s.last, a.sample);
      } else {
        assert Samples(actions) == [] + rest == rest && next.last == s.last;
      }
      if Replayed(next) == Present(next.last) { FaithfulRunExactly(next, actions[1..]); }
    }
  }
}
