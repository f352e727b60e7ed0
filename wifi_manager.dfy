/**
 * The firmware's Wi-Fi reconnect throttle (WiFiManagerCustom.cpp). `millis()` and the
 * connection status are parameters; `unsigned long` is 32 bits on the ESP32, so the
 * subtraction wraps modulo 2^32.
 */
module WiFiThrottle {

  const TwoTo32: int := 0x1_0000_0000
  /** `RECONNECT_INTERVAL`, in milliseconds. */
  const ReconnectInterval: int := 5000

  /** An `unsigned long` value. */
  predicate IsULong(x: int) {
    0 <= x < TwoTo32
  }

  /** `currentMillis - last` in `unsigned long` arithmetic. */
  function ElapsedSince(last: int, currentMillis: int): (d: int)
    requires IsULong(last) && IsULong(currentMillis)
    ensures IsULong(d)
    ensures currentMillis >= last ==> d == currentMillis - last
    ensures currentMillis < last ==> d == currentMillis - last + TwoTo32
  {
    (currentMillis - last) % TwoTo32
  }

  /** Whether a call to `reconnect` makes an attempt. */
  predicate Attempts(connected: bool, last: int, currentMillis: int)
    requires IsULong(last) && IsULong(currentMillis)
  {
    !connected && ElapsedSince(last, currentMillis) >= ReconnectInterval
  }

  /** One call to `reconnect`: the new attempt time. */
  function Step(last: int, connected: bool, currentMillis: int): (next: int)
    requires IsULong(last) && IsULong(currentMillis)
    ensures IsULong(next)
    ensures next == currentMillis || next == last
    ensures connected ==> next == last
    ensures next != last ==> ElapsedSince(last, next) >= ReconnectInterval
  {
    if Attempts(connected, last, currentMillis) then currentMillis else last
  }

  /** A call to `reconnect`: whether the link is up, and what `millis()` returned. */
  datatype Call = Call(connected: bool, millis: int)

  predicate ValidCalls(calls: seq<Call>) {
    forall i :: 0 <= i < |calls| ==> IsULong(calls[i].millis)
  }

  /** The `millis()` values at which a run of calls attempts to reconnect, starting from `last`. */
  function AttemptTimes(last: int, calls: seq<Call>): seq<int>
    requires IsULong(last) && ValidCalls(calls)
    decreases calls
  {
    if calls == [] then []
    else
      var c := calls[0];
      if Attempts(c.connected, last, c.millis) then [c.millis] + AttemptTimes(c.millis, calls[1..])
      else AttemptTimes(last, calls[1..])
  }

  /** Every attempt lies at least the interval after the one before it, and the first after `last`. */
  lemma {:induction false} AttemptsSpacedApart(last: int, calls: seq<Call>)
    requires IsULong(last) && ValidCalls(calls)
    ensures var ts := AttemptTimes(last, calls);
      (forall i :: 0 <= i < |ts| ==> IsULong(ts[i])) &&
      (|ts| > 0 ==> ElapsedSince(last, ts[0]) >= ReconnectInterval) &&
      (forall i :: 0 <= i < |ts| - 1 ==> ElapsedSince(ts[i], ts[i + 1]) >= ReconnectInterval)
    decreases calls
  {
    if calls != [] {
      var c := calls[0];
      assert ValidCalls(calls[1..]);
      if Attempts(c.connected, last, c.millis) {
        AttemptsSpacedApart(c.millis, calls[1..]);
      } else {
        AttemptsSpacedApart(last, calls[1..]);
      }
    }
  }

  /** A connected device never attempts. */
  lemma {:induction false} ConnectedNeverAttempts(last: int, calls: seq<Call>)
    requires IsULong(last) && ValidCalls(calls)
    requires forall i :: 0 <= i < |calls| ==> calls[i].connected
    ensures AttemptTimes(last, calls) == []
  {
    if calls != [] {
      ConnectedNeverAttempts(last, calls[1..]);
    }
  }

  /** Since the last attempt starts at 0, nothing is attempted in the first five seconds after boot. */
  lemma NoAttemptRightAfterBoot(millis: int)
    requires 0 <= millis < ReconnectInterval
    ensures !Attempts(false, 0, millis)
  {
  }

  /** The throttle survives the 49-day wrap of `millis()`: 5000 ms across the wrap is enough. */
  lemma ThrottleAcrossWrap()
    ensures Attempts(false, TwoTo32 - 1000, 4000)
    ensures !Attempts(false, TwoTo32 - 1000, 3999)
  {
  }

  class WiFiManagerCustom {
    var lastReconnectAttempt: int

    ghost predicate Valid()
      reads this
    {
      IsULong(lastReconnectAttempt)
    }

    constructor()
      ensures Valid() && lastReconnectAttempt == 0
    {
      lastReconnectAttempt := 0;
    }

    /** `reconnect`, given `isConnected()` and `millis()`; returns whether it attempted. */
    method Reconnect(connected: bool, currentMillis: int) returns (attempted: bool)
      requires Valid() && IsULong(currentMillis)
      modifies this
      ensures Valid()
      ensures attempted == Attempts(connected, old(lastReconnectAttempt), currentMillis)
      ensures lastReconnectAttempt == Step(old(lastReconnectAttempt), connected, currentMillis)
    {
      attempted := false;
      if !connected {
        var elapsed := (currentMillis - lastReconnectAttempt) % TwoTo32;
        if elapsed >= ReconnectInterval {
          lastReconnectAttempt := currentMillis;
          attempted := true;
        }
      }
    }
  }
}
