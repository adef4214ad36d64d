/** The ring on 64-bit wrapping counters with masked slots does, step for step and forever, what the
    ring on unbounded counters does. */
module RingWrap {
  import opened Bytes
  import opened RingWords
  import opened RingMachine
  import opened RingSafety

  /** The machine state as the code stores it. */
  function Wrapped(s: State): State {
    s.(tail := s.tail % WORD, freeHead := s.freeHead % WORD, readHead := s.readHead % WORD,
       producer := match s.producer case LoadFree(packet, tail) => LoadFree(packet, tail % WORD) case p => p)
  }

  function WrappedResult(r: Option<State>): Option<State> {
    if r.None? then None else Some(Wrapped(r.value))
  }

  /** The test for a free slot and the choice of the slot. */
  lemma LoadFreeWrapped(s: State, k: nat)
    requires Counters(s) && s.Capacity() == Pow2(k) && k <= 62
    requires s.producer.LoadFree? && s.producer.tail == s.tail
    ensures StepProducer(Wrapping, Wrapped(s)) == WrappedResult(StepProducer(Unbounded, s))
  {
    hide BitAnd, Pow2;
    CapacityFits(k);
    SlotOfWrapped(s.tail, k);
    DistanceOfWrapped(s.tail, s.freeHead);
  }

  lemma ProducerWrapped(s: State, k: nat)
    requires Counters(s) && ProducerInv(s) && s.Capacity() == Pow2(k) && k <= 62
    ensures StepProducer(Wrapping, Wrapped(s)) == WrappedResult(StepProducer(Unbounded, s))
  {
    hide StepProducer, Wrapped, Counters;
    if s.producer.LoadFree? {
      LoadFreeWrapped(s, k);
    } else {
      OtherProducerWrapped(s);
    }
  }

  /** No other producer step looks at a counter, except that submit increments tail. */
  lemma OtherProducerWrapped(s: State)
    requires !s.producer.LoadFree?
    ensures StepProducer(Wrapping, Wrapped(s)) == WrappedResult(StepProducer(Unbounded, s))
  {
    hide SlotOf, Distance;
    IncrementWrapped(s.tail);
  }

  lemma CapacityFits(k: nat)
    requires k <= 62
    ensures Pow2(k) < WORD
  {
    Pow2Monotone(k, 62);
    Pow2Of62();
  }

  lemma ConsumerWrapped(l: Limits, s: State, cancel: bool, k: nat)
    requires Counters(s) && s.Capacity() == Pow2(k) && k <= 62
    ensures StepConsumer(Wrapping, l, Wrapped(s), cancel) == WrappedResult(StepConsumer(Unbounded, l, s, cancel))
  {
    hide StepConsumer, Wrapped, Counters;
    if s.consumer.Pop? || s.consumer.More? {
      LookWrapped(l, s, cancel, k);
    } else {
      OtherConsumerWrapped(l, s, cancel);
    }
  }

  lemma LookFacts(s: State, k: nat)
    requires Counters(s) && s.Capacity() == Pow2(k) && k <= 62
    ensures s.readHead <= s.tail < s.readHead + WORD && s.Capacity() < WORD
  {
    CapacityFits(k);
  }

  /** The steps that look for a packet: the test for an empty ring, and the choice of the slot. */
  lemma LookWrapped(l: Limits, s: State, cancel: bool, k: nat)
    requires Counters(s) && s.Capacity() == Pow2(k) && k <= 62
    requires s.consumer.Pop? || s.consumer.More?
    ensures StepConsumer(Wrapping, l, Wrapped(s), cancel) == WrappedResult(StepConsumer(Unbounded, l, s, cancel))
  {
    LookFacts(s, k);
    hide Take, Pow2, Counters, SlotOf;
    TakeWrapped(s, Delay, k);
    TakeWrapped(s, More, k);
    EqualWhenWrapped(s.readHead, s.tail);
  }

  lemma TakeWrapped(s: State, next: Consumer, k: nat)
    requires s.Capacity() == Pow2(k) && k <= 62
    ensures Take(Wrapping, Wrapped(s), next) == WrappedResult(Take(Unbounded, s, next))
  {
    hide BitAnd, Pow2;
    SlotOfWrapped(s.readHead, k);
    IncrementWrapped(s.readHead);
  }

  /** No other consumer step looks at a counter, except that a release increments freeHead. */
  lemma OtherConsumerWrapped(l: Limits, s: State, cancel: bool)
    requires !s.consumer.Pop? && !s.consumer.More?
    ensures StepConsumer(Wrapping, l, Wrapped(s), cancel) == WrappedResult(StepConsumer(Unbounded, l, s, cancel))
  {
    hide SlotOf, Distance;
    IncrementWrapped(s.freeHead);
  }

  /** One step: the same tests succeed, the same slot is chosen, and the states stay images. */
  lemma ApplyWrapped(l: Limits, s: State, a: Action, k: nat)
    requires Inv(l, s) && s.Capacity() == Pow2(k) && k <= 62
    ensures Apply(Wrapping, l, Wrapped(s), a) == WrappedResult(Apply(Unbounded, l, s, a))
  {
    hide StepProducer, StepConsumer;
    if a.ProducerStep? {
      ProducerWrapped(s, k);
    } else if a.ConsumerStep? {
      ConsumerWrapped(l, s, a.cancel, k);
    }
  }

  lemma CapacityConstant(l: Limits, s: State, a: Action)
    requires Apply(Unbounded, l, s, a).Some?
    ensures Apply(Unbounded, l, s, a).value.Capacity() == s.Capacity()
  {
    hide StepProducer, StepConsumer;
    if a.ProducerStep? {
      ProducerLeaves(s);
    } else if a.ConsumerStep? {
      OtherSizes(l, s, a.cancel);
    }
  }

  /** Every run: with a power-of-two capacity of at most 2^62 the two machines can make the same
      steps and end in corresponding states, however often the counters have wrapped. */
  lemma {:induction false} RunWrapped(l: Limits, s: State, actions: seq<Action>, k: nat)
    requires Inv(l, s) && s.Capacity() == Pow2(k) && k <= 62
    ensures Run(Wrapping, l, Wrapped(s), actions) == WrappedResult(Run(Unbounded, l, s, actions))
    ensures var r := Run(Unbounded, l, s, actions); r.Some? ==> r.value.Capacity() == s.Capacity()
    decreases |actions|
  {
    hide Apply, Inv, Wrapped;
    if |actions| > 0 {
      var init, last := actions[..|actions| - 1], actions[|actions| - 1];
      RunWrapped(l, s, init, k);
      if Run(Unbounded, l, s, init).Some? {
        RunKeepsInv(l, s, init);
        var t := Run(Unbounded, l, s, init).value;
        ApplyWrapped(l, t, last, k);
        if Apply(Unbounded, l, t, last).Some? {
          CapacityConstant(l, t, last);
        }
      }
    }
  }

  /** From the start: newUpstreamRing's capacity is such a power of two, so the code's ring inherits
      everything proved of the unbounded one. */
  lemma RingFromStart(l: Limits, capacity: nat, packetSize: nat, actions: seq<Action>)
    requires IsPowerOfTwo(capacity)
    ensures Run(Wrapping, l, Initial(capacity, packetSize), actions)
         == WrappedResult(Run(Unbounded, l, Initial(capacity, packetSize), actions))
  {
    var k: nat :| k <= 62 && capacity == Pow2(k);
    InitialInv(l, capacity, packetSize);
    RunWrapped(l, Initial(capacity, packetSize), actions, k);
    assert Wrapped(Initial(capacity, packetSize)) == Initial(capacity, packetSize);
  }
}
