/** Key repeat in im.c: the repeat settings handle_repeat_info stores, and the timerfd
    that handle_key arms for a pressed repeating key and disarms for every other event. */
module RepeatTimer {

  const NsPerSec: nat := 1_000_000_000
  const NsPerMs: nat := 1_000_000
  const U32Limit: nat := 0x1_0000_0000

  type U32 = n: nat | n < 0x1_0000_0000

  /** struct timespec and struct itimerspec. */
  datatype TimeSpec = TimeSpec(sec: int, nsec: int)
  datatype ITimerSpec = ITimerSpec(value: TimeSpec, interval: TimeSpec)

  /** The kernel timer behind the timerfd: off, or first expiry and period in nanoseconds. */
  datatype Timer = Disarmed | Armed(firstNs: nat, periodNs: nat)

  /** A timespec timerfd_settime accepts: tv_nsec within [0, 999999999]. */
  predicate Valid(t: TimeSpec)
  {
    t.sec >= 0 && 0 <= t.nsec < NsPerSec
  }

  function Nanos(t: TimeSpec): int
  {
    t.sec * NsPerSec + t.nsec
  }

  /** timerfd_settime as Linux specifies it: a timespec out of range fails with EINVAL and
      leaves the timer as it was; a zero it_value disarms; anything else arms. */
  function SetTime(t: Timer, spec: ITimerSpec): Timer
  {
    if !Valid(spec.value) || !Valid(spec.interval) then t
    else if Nanos(spec.value) == 0 then Disarmed
    else Armed(Nanos(spec.value), Nanos(spec.interval))
  }

  /** The all-zero itimerspec handle_key passes to disarm. */
  const Zero: ITimerSpec := ITimerSpec(TimeSpec(0, 0), TimeSpec(0, 0))

  /** What the session keeps about repeat: the key that repeats, the delay in
      milliseconds and the rate in keys per second, as uint32, and the timer. */
  datatype Repeat = Repeat(key: nat, delay: U32, rate: U32, timer: Timer)

  /** calloc'd start: nothing repeats, no settings yet. */
  const Initial: Repeat := Repeat(0, 0, 0, Disarmed)

  /** The `(uint32_t)` cast of an int32_t. */
  function ToU32(x: int): (u: U32)
    requires -0x8000_0000 <= x < 0x8000_0000
    ensures u % U32Limit == x % U32Limit
    ensures x >= 0 ==> u == x
    ensures x < 0 ==> u >= 0x8000_0000
  {
    if x < 0 then x + U32Limit else x
  }

  /** handle_repeat_info: stores rate and delay through the cast; touches nothing else. */
  function SetInfo(r: Repeat, rate: int, delay: int): (r': Repeat)
    requires -0x8000_0000 <= rate < 0x8000_0000 && -0x8000_0000 <= delay < 0x8000_0000
    ensures r'.rate == ToU32(rate) && r'.delay == ToU32(delay)
    ensures rate >= 0 ==> r'.rate == rate
    ensures delay >= 0 ==> r'.delay == delay
    ensures r'.key == r.key && r'.timer == r.timer
  {
    r.(rate := ToU32(rate), delay := ToU32(delay))
  }

  /** The itimerspec im.c builds to arm the timer, as written: the whole delay goes into
      it_value.tv_nsec and the whole period into it_interval.tv_nsec, seconds left zero.
      The product `delay * 1000000` is taken in 32 bits, so it wraps modulo 2^32. */
  function AsWrittenArmSpec(delay: U32, rate: U32): (spec: ITimerSpec)
    requires rate != 0
    ensures Nanos(spec.interval) == NsPerSec / rate
    ensures Nanos(spec.value) % U32Limit == (delay * NsPerMs) % U32Limit
    ensures delay <= 4294 ==> Nanos(spec.value) == delay * NsPerMs
    ensures delay <= 4294 ==> (Valid(spec.value) && Valid(spec.interval) <==> delay < 1000 && rate > 1)
  {
    ITimerSpec(TimeSpec(0, (delay * NsPerMs) % U32Limit), TimeSpec(0, NsPerSec / rate))
  }

  /** As written, a delay from one second up to 4294 ms, or a rate of one key per second,
      puts a tv_nsec of 10^9 or more into the setting: timerfd_settime rejects it and the
      timer stays as it was, so the held key does not start repeating. */
  lemma AsWrittenArmRejected(t: Timer, delay: U32, rate: U32)
    requires rate != 0
    requires 1000 <= delay <= 4294 || rate == 1
    ensures SetTime(t, AsWrittenArmSpec(delay, rate)) == t
  {
  }

  /** Past 4294 ms the 32-bit product wraps back into range: a delay of 4295 ms arms the
      timer to fire after 32704 ns, so the key starts repeating almost at once. */
  lemma AsWrittenDelayWraps()
    ensures AsWrittenArmSpec(4295, 25).value == TimeSpec(0, 32704)
    ensures SetTime(Disarmed, AsWrittenArmSpec(4295, 25)) == Armed(32704, 40_000_000)
  {
    assert 4295 * NsPerMs == U32Limit + 32704;
  }

  lemma DivModSplit(n: nat, d: nat)
    requires d > 0
    ensures n == (n / d) * d + n % d
    ensures 0 <= n % d < d
  {
  }

  /** Corrected: the same durations, split into whole seconds and the nanoseconds left. */
  function ArmSpec(delay: U32, rate: U32): (spec: ITimerSpec)
    requires rate != 0
    ensures Valid(spec.value) && Valid(spec.interval)
    ensures Nanos(spec.value) == delay * NsPerMs
    ensures Nanos(spec.interval) == NsPerSec / rate
  {
    var period := NsPerSec / rate;
    DivModSplit(delay, 1000);
    DivModSplit(period, NsPerSec);
    assert (delay / 1000) * NsPerSec + (delay % 1000) * NsPerMs == ((delay / 1000) * 1000 + delay % 1000) * NsPerMs;
    ITimerSpec(TimeSpec(delay / 1000, (delay % 1000) * NsPerMs), TimeSpec(period / NsPerSec, period % NsPerSec))
  }

  /** Where the timer setting as written is valid, the corrected setting arms the timer identically. */
  lemma ArmSpecAgrees(t: Timer, delay: U32, rate: U32)
    requires rate > 1 && delay < 1000
    ensures SetTime(t, ArmSpec(delay, rate)) == SetTime(t, AsWrittenArmSpec(delay, rate))
  {
  }

  /** The timer update handle_key makes before routing, as written: a press of a repeating
      key makes it the repeat key and hands the written setting to timerfd_settime; every
      other event disarms. In range, the timer is armed with the stored delay and period,
      and a zero delay is a zero it_value, which disarms; out of range, the timer is left
      as it was. */
  function Update(r: Repeat, keycode: nat, pressed: bool, repeats: bool): (r': Repeat)
    requires pressed && repeats ==> r.rate != 0
    ensures r'.delay == r.delay && r'.rate == r.rate
    ensures pressed && repeats ==> r'.key == keycode
    ensures pressed && repeats && 0 < r.delay < 1000 && r.rate > 1 ==>
      r'.timer == Armed(r.delay * NsPerMs, NsPerSec / r.rate)
    ensures pressed && repeats && r.delay == 0 && r.rate > 1 ==> r'.timer == Disarmed
    ensures pressed && repeats && (1000 <= r.delay <= 4294 || r.rate == 1) ==> r'.timer == r.timer
    ensures pressed && repeats ==>
      r'.timer == r.timer || r'.timer == Disarmed || (r'.timer.Armed? && r'.timer.firstNs < NsPerSec)
    ensures !(pressed && repeats) ==> r' == r.(timer := Disarmed)
  {
    if pressed && repeats then
      var timer := SetTime(r.timer, AsWrittenArmSpec(r.delay, r.rate));
      assert 1000 <= r.delay <= 4294 || r.rate == 1 ==> timer == r.timer by {
        if 1000 <= r.delay <= 4294 || r.rate == 1 {
          AsWrittenArmRejected(r.timer, r.delay, r.rate);
        }
      }
      r.(key := keycode, timer := timer)
    else r.(timer := SetTime(r.timer, Zero))
  }

  /** Corrected: the same update with the split setting, so every delay and rate arms the
      timer with exactly the stored delay and period. */
  function CorrectedUpdate(r: Repeat, keycode: nat, pressed: bool, repeats: bool): (r': Repeat)
    requires pressed && repeats ==> r.rate != 0
    ensures r'.delay == r.delay && r'.rate == r.rate
    ensures pressed && repeats ==> r'.key == keycode
    ensures pressed && repeats && r.delay > 0 ==> r'.timer == Armed(r.delay * NsPerMs, NsPerSec / r.rate)
    ensures pressed && repeats && r.delay == 0 ==> r'.timer == Disarmed
    ensures !(pressed && repeats) ==> r' == r.(timer := Disarmed)
  {
    if pressed && repeats then r.(key := keycode, timer := SetTime(r.timer, ArmSpec(r.delay, r.rate)))
    else r.(timer := SetTime(r.timer, Zero))
  }

  /** Where the written setting is in range, the update as written and the corrected one
      agree. */
  lemma UpdateAgrees(r: Repeat, keycode: nat, pressed: bool, repeats: bool)
    requires r.delay < 1000 && r.rate > 1
    ensures Update(r, keycode, pressed, repeats) == CorrectedUpdate(r, keycode, pressed, repeats)
  {
    ArmSpecAgrees(r.timer, r.delay, r.rate);
  }
}
