/**
 * The command confirmation and retry mechanism of the Aquarea entities
 * (`CommandRetryMixin`): a tracker holds at most one command awaiting
 * confirmation, clears it when a matching state update arrives, and on each
 * timer expiry either re-sends it (at most `MAX_RETRIES` times) or records it
 * as failed.
 *
 * The asyncio task is modelled as the delay of the armed retry timer, the
 * timer expiring as an explicit event, the random jitter and the clocks as
 * parameters, and the retry callback as an opaque identity whose invocation
 * is reported together with whether it raised.
 */
module Retry {
  import opened Wrappers

  const RETRY_TIMEOUT: real := 10.0
  const RETRY_JITTER: real := 2.0
  const MAX_RETRIES: nat := 3

  /** A draw of `random.uniform(-RETRY_JITTER / 2, RETRY_JITTER / 2)`. */
  type Jitter = j: real | -RETRY_JITTER / 2.0 <= j <= RETRY_JITTER / 2.0 witness 0.0

  /** The Python values a command can expect back. */
  datatype PyValue = PyNone | PyBool(b: bool) | PyInt(i: int) | PyFloat(x: real) | PyStr(s: string)

  /** `isinstance(v, (int, float))`; a Python `bool` is an `int`. */
  predicate IsNumeric(v: PyValue) {
    v.PyBool? || v.PyInt? || v.PyFloat?
  }

  /** `float(v)` for a numeric value. */
  function AsReal(v: PyValue): real
    requires IsNumeric(v)
  {
    match v
    case PyBool(b) => if b then 1.0 else 0.0
    case PyInt(i) => i as real
    case PyFloat(x) => x
  }

  /** Python `==`: numbers compare by value across bool/int/float, other kinds only with their own kind. */
  predicate PyEquals(a: PyValue, b: PyValue) {
    if IsNumeric(a) && IsNumeric(b) then AsReal(a) == AsReal(b)
    else a == b
  }

  function Abs(x: real): real {
    if x < 0.0 then -x else x
  }

  /** `_values_match(value1, value2, tolerance)`. */
  function ValuesMatch(value1: PyValue, value2: PyValue, tolerance: Option<real>): bool {
    if tolerance.Some? && IsNumeric(value1) && IsNumeric(value2) then
      Abs(AsReal(value1) - AsReal(value2)) <= tolerance.value
    else PyEquals(value1, value2)
  }

  /**
   * The tolerance widens equality for numbers only: equal values always match
   * (for a non-negative tolerance), numbers within the tolerance match, and a
   * non-numeric value needs exact equality whatever the tolerance.
   */
  lemma ValuesMatchPolicy(a: PyValue, b: PyValue, tolerance: Option<real>)
    ensures (tolerance.None? || tolerance.value >= 0.0) && PyEquals(a, b) ==> ValuesMatch(a, b, tolerance)
    ensures ValuesMatch(a, b, tolerance) == ValuesMatch(b, a, tolerance)
    ensures !(IsNumeric(a) && IsNumeric(b)) ==> (ValuesMatch(a, b, tolerance) <==> a == b)
    ensures tolerance.Some? && IsNumeric(a) && IsNumeric(b) ==>
      (ValuesMatch(a, b, tolerance) <==> AsReal(a) - tolerance.value <= AsReal(b) <= AsReal(a) + tolerance.value)
  {
  }

  /** `_calculate_retry_delay()` for a given draw of the jitter. */
  function CalculateRetryDelay(jitter: Jitter): (delay: real)
    ensures RETRY_TIMEOUT - RETRY_JITTER / 2.0 <= delay <= RETRY_TIMEOUT + RETRY_JITTER / 2.0
    ensures 9.0 <= delay <= 11.0
  {
    RETRY_TIMEOUT + jitter
  }

  /** Identity of a retry callback (an opaque async closure in the source). */
  type CallbackId = nat

  /** A command awaiting confirmation. */
  datatype PendingCommand = PendingCommand(
    expectedValue: PyValue,
    sentAt: real,
    retryCount: nat,
    retryCallback: CallbackId,
    tolerance: Option<real>)

  /**
   * The whole state of a tracker: the pending command, the delay of the armed
   * retry timer (None when no retry task is waiting), and the diagnostics.
   */
  datatype Tracker = Tracker(
    pending: Option<PendingCommand>,
    timer: Option<real>,
    totalRetries: nat,
    failedCommands: nat,
    lastRetryTime: Option<real>)

  /**
   * What holds of every reachable tracker: a timer is armed only for a pending
   * command, with a delay in [9, 11]; a pending command has been retried at
   * most `MAX_RETRIES` times and never more than the total; a last retry time
   * is recorded exactly once some retry happened.
   */
  ghost predicate TrackerInvariant(t: Tracker) {
    && (t.timer.Some? ==> t.pending.Some? && 9.0 <= t.timer.value <= 11.0)
    && (t.pending.Some? ==> t.pending.value.retryCount <= MAX_RETRIES && t.pending.value.retryCount <= t.totalRetries)
    && (t.lastRetryTime.Some? <==> t.totalRetries > 0)
  }

  /** The tracker as `__init__` leaves it. */
  const INITIAL: Tracker := Tracker(None, None, 0, 0, None)

  lemma InitialInvariant()
    ensures TrackerInvariant(INITIAL)
  {
  }

  /** `_cancel_pending_command()`: forget the command and cancel its timer. */
  function CancelPending(t: Tracker): (r: Tracker)
    ensures r.pending.None? && r.timer.None?
    ensures r.totalRetries == t.totalRetries && r.failedCommands == t.failedCommands && r.lastRetryTime == t.lastRetryTime
  {
    t.(pending := None, timer := None)
  }

  /** `register_command(...)`: supersede any pending command, then arm a fresh timer. */
  function Register(t: Tracker, expected: PyValue, callback: CallbackId, tolerance: Option<real>, loopTime: real, jitter: Jitter): (r: Tracker)
    ensures TrackerInvariant(t) ==> TrackerInvariant(r)
  {
    var t1 := if t.pending.Some? then CancelPending(t) else t;
    var t2 := t1.(pending := Some(PendingCommand(expected, loopTime, 0, callback, tolerance)));
    t2.(timer := Some(CalculateRetryDelay(jitter)))
  }

  /** `verify_command_confirmation(received)`. */
  function Verify(t: Tracker, received: PyValue): (r: Tracker)
    ensures TrackerInvariant(t) ==> TrackerInvariant(r)
  {
    if t.pending.None? then t
    else if ValuesMatch(received, t.pending.value.expectedValue, t.pending.value.tolerance) then CancelPending(t)
    else t
  }

  /** Whether the timer expiring now invokes the retry callback. */
  predicate ResendsOnExpiry(t: Tracker) {
    t.timer.Some? && t.pending.Some? && t.pending.value.retryCount < MAX_RETRIES
  }

  /**
   * `_execute_retry` once its sleep is over. `wallClock` is `datetime.now()`,
   * `jitter` the draw for the next timer, `callbackRaises` whether awaiting
   * the retry callback raised (then the error is logged and no timer is armed).
   * Without an armed timer there is no task to run and nothing changes.
   */
  function Expire(t: Tracker, jitter: Jitter, wallClock: real, callbackRaises: bool): (r: Tracker)
    ensures TrackerInvariant(t) ==> TrackerInvariant(r)
  {
    if t.timer.None? then t
    else if t.pending.None? then t.(timer := None)
    else if t.pending.value.retryCount >= MAX_RETRIES then
      CancelPending(t.(failedCommands := t.failedCommands + 1))
    else
      var p := t.pending.value;
      var t1 := t.(pending := Some(p.(retryCount := p.retryCount + 1)),
                   totalRetries := t.totalRetries + 1,
                   lastRetryTime := Some(wallClock));
      if callbackRaises then t1.(timer := None)
      else t1.(timer := Some(CalculateRetryDelay(jitter)))
  }

  // ---------------------------------------------------------------------------
  // Event traces
  // ---------------------------------------------------------------------------

  /** Everything that can happen to a tracker. */
  datatype Event =
    | Registered(expected: PyValue, callback: CallbackId, tolerance: Option<real>, loopTime: real, jitter: Jitter)
    | StateUpdate(received: PyValue)
    | TimerExpired(nextJitter: Jitter, wallClock: real, callbackRaises: bool)
    | Removed

  function Step(t: Tracker, e: Event): (r: Tracker)
    ensures TrackerInvariant(t) ==> TrackerInvariant(r)
  {
    match e
    case Registered(v, cb, tol, lt, j) => Register(t, v, cb, tol, lt, j)
    case StateUpdate(v) => Verify(t, v)
    case TimerExpired(j, w, raises) => Expire(t, j, w, raises)
    case Removed => CancelPending(t)
  }

  /** The tracker after the events, in order. */
  function Run(t: Tracker, events: seq<Event>): Tracker
    decreases |events|
  {
    if |events| == 0 then t else Run(Step(t, events[0]), events[1..])
  }

  /** How many times the retry callback is invoked along the events. */
  function Resends(t: Tracker, events: seq<Event>): nat
    decreases |events|
  {
    if |events| == 0 then 0
    else
      (if events[0].TimerExpired? && ResendsOnExpiry(t) then 1 else 0) + Resends(Step(t, events[0]), events[1..])
  }

  /**
   * Along any events the invariant is kept, the two counters never decrease,
   * and the retry total grows by exactly the number of callback invocations.
   */
  lemma {:induction false} RunKeepsInvariantAndCounters(t: Tracker, events: seq<Event>)
    requires TrackerInvariant(t)
    ensures TrackerInvariant(Run(t, events))
    ensures Run(t, events).totalRetries == t.totalRetries + Resends(t, events)
    ensures Run(t, events).failedCommands >= t.failedCommands
    decreases |events|
  {
    if |events| > 0 {
      var t1 := Step(t, events[0]);
      RunKeepsInvariantAndCounters(t1, events[1..]);
      assert t1.totalRetries == t.totalRetries + (if events[0].TimerExpired? && ResendsOnExpiry(t) then 1 else 0);
    }
  }

  /** Timer expiries whose callback never raises, with no confirmation in between. */
  predicate OnlyQuietExpiries(events: seq<Event>) {
    forall i :: 0 <= i < |events| ==> events[i].TimerExpired? && !events[i].callbackRaises
  }

  /**
   * The retry cap. With a command pending and its timer armed, a run of quiet
   * expiries re-sends it until it has been retried `MAX_RETRIES` times; the
   * next expiry records it as failed exactly once and clears it, and later
   * expiries change nothing.
   */
  lemma {:induction false} RetryCap(t: Tracker, events: seq<Event>)
    requires TrackerInvariant(t) && t.pending.Some? && t.timer.Some?
    requires OnlyQuietExpiries(events)
    ensures var p := t.pending.value;
      var left := MAX_RETRIES - p.retryCount;
      var r := Run(t, events);
      && Resends(t, events) == (if |events| <= left then |events| else left)
      && (|events| <= left ==>
            && r.pending == Some(p.(retryCount := p.retryCount + |events|))
            && r.timer.Some?
            && r.failedCommands == t.failedCommands)
      && (|events| > left ==>
            && r.pending.None? && r.timer.None?
            && r.failedCommands == t.failedCommands + 1)
    decreases |events|
  {
    if |events| > 0 {
      var p := t.pending.value;
      var t1 := Step(t, events[0]);
      assert OnlyQuietExpiries(events[1..]) by {
        forall i | 0 <= i < |events[1..]| ensures events[1..][i].TimerExpired? && !events[1..][i].callbackRaises {
          assert events[1..][i] == events[i + 1];
        }
      }
      if p.retryCount < MAX_RETRIES {
        assert t1.pending == Some(p.(retryCount := p.retryCount + 1)) && t1.timer.Some?;
        RetryCap(t1, events[1..]);
      } else {
        assert t1.pending.None? && t1.timer.None? && t1.failedCommands == t.failedCommands + 1;
        QuietExpiriesIdle(t1, events[1..]);
      }
    }
  }

  /** With no timer armed, timer expiries change nothing. */
  lemma {:induction false} QuietExpiriesIdle(t: Tracker, events: seq<Event>)
    requires t.timer.None?
    requires OnlyQuietExpiries(events)
    ensures Run(t, events) == t && Resends(t, events) == 0
    decreases |events|
  {
    if |events| > 0 {
      assert Step(t, events[0]) == t;
      assert OnlyQuietExpiries(events[1..]) by {
        forall i | 0 <= i < |events[1..]| ensures events[1..][i].TimerExpired? && !events[1..][i].callbackRaises {
          assert events[1..][i] == events[i + 1];
        }
      }
      QuietExpiriesIdle(t, events[1..]);
    }
  }

  /**
   * A command that is never confirmed: after registration and four or more
   * quiet expiries it has been re-sent exactly `MAX_RETRIES` times and counted
   * as failed exactly once.
   */
  lemma NeverConfirmed(t: Tracker, register: Event, expiries: seq<Event>)
    requires TrackerInvariant(t) && register.Registered?
    requires OnlyQuietExpiries(expiries) && |expiries| > MAX_RETRIES
    ensures var r := Run(t, [register] + expiries);
      && Resends(t, [register] + expiries) == MAX_RETRIES
      && r.totalRetries == t.totalRetries + MAX_RETRIES
      && r.failedCommands == t.failedCommands + 1
      && r.pending.None? && r.timer.None?
  {
    var t1 := Step(t, register);
    assert ([register] + expiries)[1..] == expiries;
    RetryCap(t1, expiries);
    RunKeepsInvariantAndCounters(t1, expiries);
  }

  /**
   * Registering always leaves exactly the new command pending, unretried and
   * with a fresh timer, and only that command's value can confirm it.
   */
  lemma RegisterSupersedes(t: Tracker, old_: PyValue, v: PyValue, cb: CallbackId, tol: Option<real>, lt: real, j: Jitter)
    ensures var r := Register(t, v, cb, tol, lt, j);
      && r.pending == Some(PendingCommand(v, lt, 0, cb, tol))
      && r.timer.Some?
      && r.totalRetries == t.totalRetries && r.failedCommands == t.failedCommands
      && (!ValuesMatch(old_, v, tol) ==> Verify(r, old_) == r)
      && ((tol.None? || tol.value >= 0.0) ==> Verify(r, v).pending.None? && Verify(r, v).timer.None?)
  {
    ValuesMatchPolicy(v, v, tol);
  }

  /**
   * Confirmation: with nothing pending a state update is a no-op; a matching
   * value clears the command and its timer; any other value changes nothing.
   */
  lemma ConfirmationClears(t: Tracker, received: PyValue)
    ensures t.pending.None? ==> Verify(t, received) == t
    ensures t.pending.Some? && ValuesMatch(received, t.pending.value.expectedValue, t.pending.value.tolerance) ==>
      Verify(t, received) == t.(pending := None, timer := None)
    ensures t.pending.Some? && !ValuesMatch(received, t.pending.value.expectedValue, t.pending.value.tolerance) ==>
      Verify(t, received) == t
  {
  }

  /**
   * One timer expiry: nothing happens without a pending command; a command
   * retried `MAX_RETRIES` times is failed and cleared; otherwise it is re-sent,
   * both retry counts grow by one, and a new timer is armed unless the
   * callback raised, in which case the command stays pending without a timer.
   */
  lemma ExpiryCases(t: Tracker, j: Jitter, w: real, raises: bool)
    requires t.timer.Some?
    ensures var r := Expire(t, j, w, raises);
      && (t.pending.None? ==> r.pending.None? && r.totalRetries == t.totalRetries && r.failedCommands == t.failedCommands)
      && (t.pending.Some? && t.pending.value.retryCount >= MAX_RETRIES ==>
            r.pending.None? && r.timer.None? && r.failedCommands == t.failedCommands + 1 && r.totalRetries == t.totalRetries)
      && (t.pending.Some? && t.pending.value.retryCount < MAX_RETRIES ==>
            && r.pending == Some(t.pending.value.(retryCount := t.pending.value.retryCount + 1))
            && r.totalRetries == t.totalRetries + 1 && r.failedCommands == t.failedCommands
            && r.lastRetryTime == Some(w)
            && (raises <==> r.timer.None?))
  {
  }

  // ---------------------------------------------------------------------------
  // Diagnostics
  // ---------------------------------------------------------------------------

  /** A value of the diagnostic attribute map. */
  datatype Attr = AInt(n: int) | ABool(b: bool) | AText(s: string) | AValueText(v: PyValue) | ATime(t: real)

  /**
   * `extra_state_attributes`: the parent's attributes (if any) overlaid with
   * the retry diagnostics. `AValueText(v)` stands for `str(v)` and `ATime(t)`
   * for the ISO form of the time.
   */
  function ExtraStateAttributes(t: Tracker, parent: Option<map<string, Attr>>): (attrs: map<string, Attr>)
    ensures "retry_total_retries" in attrs && attrs["retry_total_retries"] == AInt(t.totalRetries)
    ensures "retry_failed_commands" in attrs && attrs["retry_failed_commands"] == AInt(t.failedCommands)
    ensures "retry_pending_command" in attrs && attrs["retry_pending_command"] == ABool(t.pending.Some?)
    ensures t.pending.Some? ==>
      && "retry_pending_value" in attrs && attrs["retry_pending_value"] == AValueText(t.pending.value.expectedValue)
      && "retry_pending_attempts" in attrs && attrs["retry_pending_attempts"] == AInt(t.pending.value.retryCount)
    ensures t.lastRetryTime.Some? ==>
      "retry_last_retry_time" in attrs && attrs["retry_last_retry_time"] == ATime(t.lastRetryTime.value)
    ensures (parent.None? || forall k :: k in parent.value ==> !IsRetryKey(k)) ==>
      && ("retry_pending_value" in attrs <==> t.pending.Some?)
      && ("retry_pending_attempts" in attrs <==> t.pending.Some?)
      && ("retry_last_retry_time" in attrs <==> t.lastRetryTime.Some?)
    ensures parent.Some? ==> forall k :: k in parent.value && !IsRetryKey(k) ==> k in attrs && attrs[k] == parent.value[k]
    ensures forall k :: k in attrs && !IsRetryKey(k) ==> parent.Some? && k in parent.value
  {
    var base := if parent.Some? then parent.value else map[];
    var always := map[
      "retry_total_retries" := AInt(t.totalRetries),
      "retry_failed_commands" := AInt(t.failedCommands),
      "retry_pending_command" := ABool(t.pending.Some?)];
    var timed := if t.lastRetryTime.Some? then always["retry_last_retry_time" := ATime(t.lastRetryTime.value)] else always;
    var retry := if t.pending.Some? then
        timed["retry_pending_value" := AValueText(t.pending.value.expectedValue)]
             ["retry_pending_attempts" := AInt(t.pending.value.retryCount)]
      else timed;
    base + retry
  }

  /** The keys the retry diagnostics may set. */
  predicate IsRetryKey(k: string) {
    k in {"retry_total_retries", "retry_failed_commands", "retry_pending_command",
          "retry_last_retry_time", "retry_pending_value", "retry_pending_attempts"}
  }

  // ---------------------------------------------------------------------------
  // The tracker object an entity holds
  // ---------------------------------------------------------------------------

  /** The retry state of one entity, updated in place as in the mixin. */
  class CommandRetryTracker {
    var pendingCommand: Option<PendingCommand>
    var retryTimer: Option<real>
    var totalRetries: nat
    var failedCommands: nat
    var lastRetryTime: Option<real>

    function State(): Tracker
      reads this
    {
      Tracker(pendingCommand, retryTimer, totalRetries, failedCommands, lastRetryTime)
    }

    ghost predicate Valid()
      reads this
    {
      TrackerInvariant(State())
    }

    constructor ()
      ensures Valid() && State() == INITIAL
    {
      pendingCommand := None;
      retryTimer := None;
      totalRetries := 0;
      failedCommands := 0;
      lastRetryTime := None;
    }

    /** `_cancel_pending_command()`; harmless when nothing is pending. */
    method CancelPendingCommand()
      modifies this
      ensures State() == CancelPending(old(State()))
    {
      pendingCommand := None;
      if retryTimer.Some? {
        retryTimer := None;
      }
    }

    /** `_schedule_retry()`: replace any armed timer by one with a fresh delay. */
    method ScheduleRetry(jitter: Jitter)
      modifies this
      ensures State() == old(State()).(timer := Some(CalculateRetryDelay(jitter)))
    {
      var delay := CalculateRetryDelay(jitter);
      retryTimer := Some(delay);
    }

    /** `register_command(expected_value, retry_callback, tolerance)`. */
    method RegisterCommand(expected: PyValue, callback: CallbackId, tolerance: Option<real>, loopTime: real, jitter: Jitter)
      requires Valid()
      modifies this
      ensures Valid()
      ensures State() == Register(old(State()), expected, callback, tolerance, loopTime, jitter)
    {
      if pendingCommand.Some? {
        CancelPendingCommand();
      }
      pendingCommand := Some(PendingCommand(expected, loopTime, 0, callback, tolerance));
      ScheduleRetry(jitter);
    }

    /** `verify_command_confirmation(received_value)`. */
    method VerifyCommandConfirmation(received: PyValue)
      requires Valid()
      modifies this
      ensures Valid()
      ensures State() == Verify(old(State()), received)
    {
      if pendingCommand.None? {
        return;
      }
      var p := pendingCommand.value;
      if ValuesMatch(received, p.expectedValue, p.tolerance) {
        CancelPendingCommand();
      }
    }

    /**
     * `_execute_retry` after its sleep: `resent` tells whether the retry
     * callback was invoked.
     */
    method ExecuteRetry(nextJitter: Jitter, wallClock: real, callbackRaises: bool) returns (resent: bool)
      modifies this
      ensures old(Valid()) ==> Valid()
      ensures State() == Expire(old(State()), nextJitter, wallClock, callbackRaises)
      ensures resent == ResendsOnExpiry(old(State()))
    {
      resent := false;
      if retryTimer.None? {
        return;
      }
      if pendingCommand.None? {
        retryTimer := None;
        return;
      }
      var p := pendingCommand.value;
      if p.retryCount >= MAX_RETRIES {
        failedCommands := failedCommands + 1;
        CancelPendingCommand();
        return;
      }
      pendingCommand := Some(p.(retryCount := p.retryCount + 1));
      totalRetries := totalRetries + 1;
      lastRetryTime := Some(wallClock);
      resent := true;
      if callbackRaises {
        retryTimer := None;
      } else {
        ScheduleRetry(nextJitter);
      }
    }

    /** `async_will_remove_from_hass()`: always cancels. */
    method WillRemoveFromHass()
      requires Valid()
      modifies this
      ensures Valid()
      ensures State() == CancelPending(old(State()))
    {
      CancelPendingCommand();
    }

    /** `extra_state_attributes`. */
    function Attributes(parent: Option<map<string, Attr>>): map<string, Attr>
      reads this
    {
      ExtraStateAttributes(State(), parent)
    }
  }
}
