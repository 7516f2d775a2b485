// Raster data on time: when the parser delivers bytes, when the laser needs
// them, and when that is too late.
module RasterSupply {
  import opened Arithmetic
  import opened AvrFlags
  import opened Dda

  datatype Event = TimerTick | Delivery

  function Ticks(events: seq<Event>): nat {
    if events == [] then 0 else (if events[0].TimerTick? then 1 else 0) + Ticks(events[1..])
  }

  // Bytes that the parser may be ahead of the laser.
  const ROOM := 63

  // The least number of bytes that holds k values of n bits.
  function Needed(k: nat, n: nat): nat { (n * k + 7) / 8 }

  // The bits of the last of them that are not part of a value yet.
  function BitsLeft(k: nat, n: nat): int { 8 * Needed(k, n) - n * k }

  // steps pulses in total ticks, with values of n bits from size bytes.
  datatype Job = Job(steps: nat, total: nat, n: nat, size: nat)

  // The counter of the pulses, the values shown and the bytes delivered.
  datatype Progress = Progress(ctr: int, shown: nat, fed: nat)

  predicate Fires(e: Event, s: Progress, j: Job) {
    e.TimerTick? && AdvanceCarry(s.ctr, j.steps, j.total).1
  }

  function AfterEvent(e: Event, s: Progress, j: Job): Progress {
    match e
    case TimerTick =>
      var a := AdvanceCarry(s.ctr, j.steps, j.total);
      Progress(a.0, s.shown + Bit(a.1), s.fed)
    case Delivery =>
      if s.fed < j.size && s.fed < Needed(s.shown, j.n) + ROOM then s.(fed := s.fed + 1) else s
  }

  // The laser fires, and the byte its value ends in has not come.
  predicate Starves(e: Event, s: Progress, j: Job) {
    Fires(e, s, j) && s.fed < Needed(s.shown + 1, j.n)
  }

  predicate Late(events: seq<Event>, s: Progress, j: Job) {
    events != [] && (Starves(events[0], s, j) || Late(events[1..], AfterEvent(events[0], s, j), j))
  }

  // A value needs another byte when the bits left are not enough for it.
  lemma NeededForNext(k: nat, n: nat)
    requires 1 <= n <= 8
    ensures 0 <= BitsLeft(k, n) < 8
    ensures Needed(k + 1, n) == Needed(k, n) + if BitsLeft(k, n) < n then 1 else 0
    ensures BitsLeft(k + 1, n) == BitsLeft(k, n) - n + if BitsLeft(k, n) < n then 8 else 0
  {
    assert n * (k + 1) == n * k + n;
    var a := n * k + 7;
    assert a == 8 * (a / 8) + a % 8;
    var left := 7 - a % 8;
    DivMod(a + n, 8, a / 8 + (if left < n then 1 else 0), a % 8 + n - if left < n then 8 else 0);
  }

  // Another value is taken, with so many bytes waiting before and after it.
  lemma OneMoreValue(k: nat, n: nat, given: nat, waiting: nat, waiting': nat)
    requires 1 <= n <= 8 && waiting + Needed(k, n) == given
    requires var starving := BitsLeft(k, n) < n && waiting == 0;
      8 * waiting' + BitsLeft(k + 1, n) + n == 8 * waiting + BitsLeft(k, n) + if starving then 8 else 0
    ensures BitsLeft(k, n) < n && waiting == 0 <==> given < Needed(k + 1, n)
    ensures waiting' + Needed(k + 1, n) == Max(given, Needed(k + 1, n))
  {
    NeededForNext(k, n);
  }

  lemma {:induction false} NeededGrows(k: nat, m: nat, n: nat)
    requires 1 <= n <= 8 && k <= m
    ensures Needed(k, n) <= Needed(m, n)
    decreases m
  {
    if k < m {
      NeededGrows(k, m - 1, n);
      NeededForNext(m - 1, n);
    }
  }

  // ---- On time ----

  // At least one delivery between any two ticks.
  predicate Alternating(events: seq<Event>, delivered: bool) {
    events != [] ==>
      && (events[0].TimerTick? ==> delivered)
      && Alternating(events[1..], events[0].Delivery?)
  }

  // That is enough, at any depth, as long as the laser is not asked for more
  // values than the data are for.
  lemma {:induction false} OneByteATickIsEnough(events: seq<Event>, delivered: bool, s: Progress, j: Job)
    requires Alternating(events, delivered) && 1 <= j.n <= 8
    requires Needed(s.shown + CarrySteps(s.ctr, j.steps, j.total, Ticks(events)), j.n) <= j.size
    requires s.fed >= Min(j.size, Needed(s.shown, j.n) + if delivered then 1 else 0)
    ensures !Late(events, s, j)
  {
    if events != [] {
      var e := events[0];
      NeededForNext(s.shown, j.n);
      if Fires(e, s, j) {
        NeededGrows(s.shown + 1, s.shown + CarrySteps(s.ctr, j.steps, j.total, Ticks(events)), j.n);
      }
      OneByteATickIsEnough(events[1..], e.Delivery?, AfterEvent(e, s, j), j);
    }
  }

  // A whole line that fits the ring, delivered before the first tick.
  lemma {:induction false} AllAtOnceIsEnough(events: seq<Event>, s: Progress, j: Job)
    requires 1 <= j.n <= 8 && s.fed == j.size
    requires Needed(s.shown + CarrySteps(s.ctr, j.steps, j.total, Ticks(events)), j.n) <= j.size
    ensures !Late(events, s, j)
  {
    if events != [] {
      var e := events[0];
      if Fires(e, s, j) {
        NeededGrows(s.shown + 1, s.shown + CarrySteps(s.ctr, j.steps, j.total, Ticks(events)), j.n);
      }
      AllAtOnceIsEnough(events[1..], AfterEvent(e, s, j), j);
    }
  }

  // A byte that comes one tick later is late: a continuous line of two pixels
  // of 8 bits, with the second byte before its tick and after it.
  lemma LateByATick()
    ensures Late([Delivery, TimerTick, TimerTick, Delivery], Progress(Register(-1), 0, 0), Job(2, 2, 8, 2))
    ensures !Late([Delivery, TimerTick, Delivery, TimerTick], Progress(Register(-1), 0, 0), Job(2, 2, 8, 2))
  {}
}
