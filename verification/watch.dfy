/** A bounded watch: the runner subscribes to a stream of change events,
    judges each event in turn, and stops the watch on the first event that
    decides the outcome. The stream is finite; its end stands for the watch
    timing out. */
module Watch {

  /** The judgement on one event: keep watching, or stop with a value. */
  datatype Step<+V> = Continue | Stop(value: V)

  /** How a watch ended: stopped on its `consumed`-th event, or ran out. */
  datatype Scan<+V> = Stopped(value: V, consumed: nat) | Exhausted

  /** Event `i` is the first one that `step` stops on. */
  ghost predicate IsFirstStop<E, V>(events: seq<E>, step: E -> Step<V>, i: int)
  {
    && 0 <= i < |events|
    && step(events[i]).Stop?
    && forall j :: 0 <= j < i ==> step(events[j]).Continue?
  }

  /** Consumes `events` in order until `step` stops on one of them. */
  function Run<E, V(==)>(events: seq<E>, step: E -> Step<V>): (r: Scan<V>)
    ensures r.Stopped? ==>
              && 1 <= r.consumed <= |events|
              && IsFirstStop(events, step, r.consumed - 1)
              && step(events[r.consumed - 1]).value == r.value
    ensures r.Exhausted? <==> forall j :: 0 <= j < |events| ==> step(events[j]).Continue?
    decreases |events|
  {
    if |events| == 0 then Exhausted
    else
      match step(events[0])
      case Stop(v) => Stopped(v, 1)
      case Continue =>
        match Run(events[1..], step)
        case Stopped(v, k) => Stopped(v, k + 1)
        case Exhausted => Exhausted
  }

  /** First match wins: the watch stops exactly on the first deciding event,
      with that event's value, whatever comes after it. */
  lemma FirstStopDecides<E, V>(events: seq<E>, step: E -> Step<V>, i: int)
    requires IsFirstStop(events, step, i)
    ensures Run(events, step) == Stopped(step(events[i]).value, i + 1)
  {
  }

  /** Nothing after the deciding event is examined: any stream that agrees
      with `events` up to and including that event ends the same way. */
  lemma StopIgnoresRest<E, V>(events: seq<E>, other: seq<E>, step: E -> Step<V>)
    requires Run(events, step).Stopped?
    requires Run(events, step).consumed <= |other|
    requires other[..Run(events, step).consumed] == events[..Run(events, step).consumed]
    ensures Run(other, step) == Run(events, step)
  {
    var k := Run(events, step).consumed;
    assert forall j :: 0 <= j < k ==> other[j] == other[..k][j] == events[..k][j] == events[j];
    assert IsFirstStop(other, step, k - 1);
    FirstStopDecides(other, step, k - 1);
  }

  /** An event the watch keeps going on changes nothing but the count of
      events consumed. */
  lemma ContinueIsTransparent<E, V>(e: E, events: seq<E>, step: E -> Step<V>)
    requires step(e).Continue?
    ensures Run([e] + events, step).Exhausted? == Run(events, step).Exhausted?
    ensures Run(events, step).Stopped? ==>
              Run([e] + events, step) == Stopped(Run(events, step).value, Run(events, step).consumed + 1)
  {
  }
}
