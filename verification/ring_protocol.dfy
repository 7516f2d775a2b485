// The same ring between two parties that interrupt each other anywhere: every
// slot write, test, read and index update is a step of its own.
module RingProtocol {

  // What the producer is about to do.  A job is written into the slot field by
  // field, so a slot may be written more than once.
  datatype Producer<T> = Idle | Written(x: T) | Admitted(x: T)

  // What the consumer is about to do.
  datatype Consumer<T> = Waiting | Seen | Taken(x: T)

  datatype State<T> = State(size: nat, data: seq<T>, head: nat, tail: nat,
                            producer: Producer<T>, consumer: Consumer<T>,
                            sent: seq<T>, received: seq<T>)

  datatype Action<T> = Write(x: T) | TestFull | AdvanceHead | TestEmpty | Read | AdvanceTail

  function Next(i: nat, size: nat): nat {
    if i + 1 == size then 0 else i + 1
  }

  predicate Shaped<T>(s: State<T>) {
    2 <= s.size == |s.data| && s.head < s.size && s.tail < s.size
  }

  // One step of either party; a step that is not up changes nothing.
  function Step<T>(s: State<T>, a: Action<T>): (s': State<T>)
    requires Shaped(s)
    ensures Shaped(s')
  {
    match a
    case Write(x) =>
      if s.producer.Admitted? then s
      else s.(data := s.data[s.head := x], producer := Written(x))
    case TestFull =>
      if s.producer.Written? && Next(s.head, s.size) != s.tail then s.(producer := Admitted(s.producer.x))
      else s
    case AdvanceHead =>
      if s.producer.Admitted? then
        s.(head := Next(s.head, s.size), producer := Idle, sent := s.sent + [s.producer.x])
      else s
    case TestEmpty =>
      if s.consumer.Waiting? && s.head != s.tail then s.(consumer := Seen) else s
    case Read =>
      if s.consumer.Seen? then s.(consumer := Taken(s.data[s.tail])) else s
    case AdvanceTail =>
      if s.consumer.Taken? then
        s.(tail := Next(s.tail, s.size), consumer := Waiting, received := s.received + [s.consumer.x])
      else s
  }

  function Unread<T>(s: State<T>): seq<T>
    requires Shaped(s)
  {
    if s.tail <= s.head then s.data[s.tail..s.head] else s.data[s.tail..] + s.data[..s.head]
  }

  ghost predicate Safe<T>(s: State<T>) {
    && Shaped(s)
    && s.sent == s.received + Unread(s)
    && (s.producer.Written? ==> s.data[s.head] == s.producer.x)
    && (s.producer.Admitted? ==> s.data[s.head] == s.producer.x && Next(s.head, s.size) != s.tail)
    && (!s.consumer.Waiting? ==> s.head != s.tail)
    && (s.consumer.Taken? ==> s.consumer.x == s.data[s.tail])
  }

  lemma StepIsSafe<T>(s: State<T>, a: Action<T>)
    requires Safe(s)
    ensures Safe(Step(s, a))
  {
    match a
    case Write(x) => WriteIsSafe(s, x);
    case AdvanceHead => AdvanceHeadIsSafe(s);
    case AdvanceTail => AdvanceTailIsSafe(s);
    case TestFull => TestIsSafe(s, a);
    case TestEmpty => TestIsSafe(s, a);
    case Read => TestIsSafe(s, a);
  }

  // The slot at head is not one of the unread.
  lemma WriteIsSafe<T>(s: State<T>, x: T)
    requires Safe(s)
    ensures Safe(Step(s, Write(x)))
  {
    if !s.producer.Admitted? {
      SlotIsFree(s, x);
      hide Unread;
    }
  }

  lemma SlotIsFree<T>(s: State<T>, x: T)
    requires Shaped(s)
    ensures Unread(s.(data := s.data[s.head := x])) == Unread(s)
  {}

  lemma AdvanceHeadIsSafe<T>(s: State<T>)
    requires Safe(s)
    ensures Safe(Step(s, AdvanceHead))
  {
    if s.producer.Admitted? {
      OneMoreUnread(s);
      hide Unread;
      var x := s.data[s.head];
      assert s.received + Unread(s) + [x] == s.received + (Unread(s) + [x]);
    }
  }

  lemma OneMoreUnread<T>(s: State<T>)
    requires Shaped(s) && Next(s.head, s.size) != s.tail
    ensures Unread(s.(head := Next(s.head, s.size))) == Unread(s) + [s.data[s.head]]
  {}

  lemma AdvanceTailIsSafe<T>(s: State<T>)
    requires Safe(s)
    ensures Safe(Step(s, AdvanceTail))
  {
    if s.consumer.Taken? {
      var s', x := s.(tail := Next(s.tail, s.size)), s.consumer.x;
      OneLessUnread(s);
      OrderOfIndices(s);
      hide Unread;
      assert s.received + ([x] + Unread(s')) == (s.received + [x]) + Unread(s');
    }
  }

  lemma OneLessUnread<T>(s: State<T>)
    requires Shaped(s) && s.head != s.tail
    ensures [s.data[s.tail]] + Unread(s.(tail := Next(s.tail, s.size))) == Unread(s)
  {}

  lemma OrderOfIndices<T>(s: State<T>)
    requires Shaped(s) && s.head != s.tail
    ensures Next(s.head, s.size) != Next(s.tail, s.size)
  {}

  // The others move no data.
  lemma TestIsSafe<T>(s: State<T>, a: Action<T>)
    requires Safe(s) && (a.TestFull? || a.TestEmpty? || a.Read?)
    ensures Safe(Step(s, a))
  {
    var s' := Step(s, a);
    assert Unread(s') == Unread(s);
    hide Unread;
  }

  function Run<T>(s: State<T>, actions: seq<Action<T>>): (s': State<T>)
    requires Shaped(s)
    ensures Shaped(s')
    decreases |actions|
  {
    if actions == [] then s else Run(Step(s, actions[0]), actions[1..])
  }

  lemma {:induction false} RunIsSafe<T>(s: State<T>, actions: seq<Action<T>>)
    requires Safe(s)
    ensures Safe(Run(s, actions))
    decreases |actions|
  {
    if actions != [] {
      StepIsSafe(s, actions[0]);
      RunIsSafe(Step(s, actions[0]), actions[1..]);
    }
  }

  // Whatever the order of steps: what comes out is what went in, in order, and
  // what is in between is exactly what is unread, at most size - 1 elements.
  lemma EveryInterleavingIsFifo<T>(s: State<T>, actions: seq<Action<T>>)
    requires Safe(s)
    ensures var s' := Run(s, actions);
      && s'.received <= s'.sent
      && s'.sent[|s'.received|..] == Unread(s')
      && |s'.sent| - |s'.received| < s'.size
  {
    RunIsSafe(s, actions);
    var s' := Run(s, actions);
    assert s'.sent == s'.received + Unread(s');
  }

  // The number of unread elements, as both parties compute it from the indices.
  lemma UsedIsUnread<T>(s: State<T>)
    requires Safe(s)
    ensures |s.sent| - |s.received| == if s.head >= s.tail then s.head - s.tail else s.head - s.tail + s.size
  {}
}
