/** The widget's module-level state (`isInitialized`, `pollInterval`, `lastState`,
    `currentConfig`), the init guard, `startPolling` and the body of its interval
    callback. The host's interval timers are modelled as a set of live handles. */
module Polling {
  import opened Wrappers
  import opened Tournament
  import opened Generator
  import opened Configuration

  /** A tick reacts when the sample is present and differs structurally from the stored one. */
  predicate Changed(last: Option<State>, sample: Option<State>) {
    sample.Some? && sample != last
  }

  /** The stored snapshot after one tick. */
  function Next(last: Option<State>, sample: Option<State>): (next: Option<State>)
    ensures sample.None? ==> next == last
    ensures next == last || next == sample
    ensures next != last <==> Changed(last, sample)
  {
    if Changed(last, sample) then sample else last
  }

  /** The number of commentary updates a run of ticks triggers. */
  function Updates(last: Option<State>, samples: seq<Option<State>>): nat
    decreases |samples|
  {
    if samples == [] then 0
    else (if Changed(last, samples[0]) then 1 else 0) + Updates(Next(last, samples[0]), samples[1..])
  }

  /** The stored snapshot after a run of ticks. */
  function LastSeen(last: Option<State>, samples: seq<Option<State>>): Option<State>
    decreases |samples|
  {
    if samples == [] then last else LastSeen(Next(last, samples[0]), samples[1..])
  }

  /** The samples with the falsy ones dropped. */
  function PresentOnly(samples: seq<Option<State>>): (r: seq<Option<State>>)
    ensures forall x :: x in r <==> x in samples && x.Some?
  {
    if samples == [] then []
    else (if samples[0].Some? then [samples[0]] else []) + PresentOnly(samples[1..])
  }

  /** Every sample given twice in a row, as when the state is polled faster than it changes. */
  function Stutter(samples: seq<Option<State>>): (r: seq<Option<State>>)
    ensures |r| == 2 * |samples|
  {
    if samples == [] then [] else [samples[0], samples[0]] + Stutter(samples[1..])
  }

  /** Falsy samples are skipped: they neither update nor change the stored snapshot. */
  lemma {:induction false} AbsentSamplesIgnored(last: Option<State>, samples: seq<Option<State>>)
    ensures Updates(last, samples) == Updates(last, PresentOnly(samples))
    ensures LastSeen(last, samples) == LastSeen(last, PresentOnly(samples))
    decreases |samples|
  {
    if samples != [] {
      AbsentSamplesIgnored(Next(last, samples[0]), samples[1..]);
      var rest := PresentOnly(samples[1..]);
      if samples[0].Some? {
        assert PresentOnly(samples) == [samples[0]] + rest;
        assert PresentOnly(samples)[1..] == rest;
      } else {
        assert PresentOnly(samples) == rest;
      }
    }
  }

  /** A repeated sample right after itself never triggers a second update. */
  lemma {:induction false} RepeatedSamplesUpdateOnce(last: Option<State>, samples: seq<Option<State>>)
    ensures Updates(last, Stutter(samples)) == Updates(last, samples)
    ensures LastSeen(last, Stutter(samples)) == LastSeen(last, samples)
    decreases |samples|
  {
    if samples != [] {
      var s := Stutter(samples);
      var next := Next(last, samples[0]);
      assert s[0] == samples[0] && s[1] == samples[0];
      assert s[1..][1..] == Stutter(samples[1..]);
      assert !Changed(next, samples[0]) && Next(next, samples[0]) == next;
      RepeatedSamplesUpdateOnce(next, samples[1..]);
    }
  }

  /** Updates never outnumber the present samples. */
  lemma {:induction false} UpdatesBounded(last: Option<State>, samples: seq<Option<State>>)
    ensures Updates(last, samples) <= |PresentOnly(samples)|
    decreases |samples|
  {
    if samples != [] {
      UpdatesBounded(Next(last, samples[0]), samples[1..]);
      if samples[0].Some? {
        assert PresentOnly(samples) == [samples[0]] + PresentOnly(samples[1..]);
      }
    }
  }

  /** After a run, the stored snapshot is the last present sample, if there was one. */
  lemma {:induction false} LastSeenIsLastPresent(last: Option<State>, samples: seq<Option<State>>)
    ensures PresentOnly(samples) == [] ==> LastSeen(last, samples) == last
    ensures PresentOnly(samples) != [] ==> LastSeen(last, samples) == PresentOnly(samples)[|PresentOnly(samples)| - 1]
    decreases |samples|
  {
    if samples != [] {
      var next := Next(last, samples[0]);
      LastSeenIsLastPresent(next, samples[1..]);
      if samples[0].Some? {
        assert PresentOnly(samples) == [samples[0]] + PresentOnly(samples[1..]);
        assert next == samples[0];
      } else {
        assert PresentOnly(samples) == PresentOnly(samples[1..]);
      }
    }
  }

  class Widget {
    var initialized: bool
    var config: Config
    /** The snapshot of the last sample that triggered an update (`lastState`). */
    var lastState: Option<State>
    /** The handle held in `pollInterval`, if a timer was started. */
    var timer: Option<nat>
    /** The period the current timer was started with. */
    var period: int
    /** The interval timers the host still runs for this widget. */
    var liveTimers: set<nat>
    /** The next handle the host hands out; handles are positive, hence truthy. */
    var nextHandle: nat

    ghost predicate Valid()
      reads this
    {
      1 <= nextHandle &&
      (timer.None? ==> liveTimers == {}) &&
      (timer.Some? ==> 1 <= timer.value < nextHandle && liveTimers == {timer.value}) &&
      (initialized ==> timer.Some?)
    }

    /** The state before initialisation: a copy of the defaults, nothing stored, no timer. */
    constructor ()
      ensures Valid()
      ensures !initialized && config == DefaultConfig && lastState == None
      ensures timer == None && liveTimers == {} && period == 0 && nextHandle == 1
    {
      initialized := false;
      config := DefaultConfig;
      lastState := None;
      timer := None;
      period := 0;
      liveTimers := {};
      nextHandle := 1;
    }

    /** `startPolling`: clear the running timer, if any, then start a new one. */
    method StartPolling(interval: int)
      requires Valid()
      modifies this
      ensures Valid()
      ensures timer == Some(old(nextHandle)) && liveTimers == {old(nextHandle)} && period == interval
      ensures old(timer).Some? ==> old(timer).value !in liveTimers
      ensures nextHandle == old(nextHandle) + 1
      ensures initialized == old(initialized) && config == old(config) && lastState == old(lastState)
    {
      if timer.Some? {
        liveTimers := liveTimers - {timer.value};
      }
      var handle := nextHandle;
      nextHandle := nextHandle + 1;
      liveTimers := liveTimers + {handle};
      timer := Some(handle);
      period := interval;
    }

    /** `initBoxyCommentary`. A repeated call after a successful one changes nothing.
        `hostReady` says whether building the widget's DOM succeeds; when it throws,
        the merged configuration is kept but no timer starts and the widget stays
        uninitialised. */
    method Init(user: Option<Options>, hostReady: bool)
      requires Valid()
      modifies this
      ensures Valid()
      ensures old(initialized) ==> unchanged(this)
      ensures !old(initialized) ==> config == MergeConfig(user) && lastState == old(lastState)
      ensures !old(initialized) && hostReady ==>
        initialized && timer == Some(old(nextHandle)) && liveTimers == {old(nextHandle)} &&
        period == config.pollInterval && nextHandle == old(nextHandle) + 1
      ensures !old(initialized) && !hostReady ==>
        !initialized && timer == old(timer) && liveTimers == old(liveTimers) &&
        period == old(period) && nextHandle == old(nextHandle)
    {
      if initialized {
        return;
      }
      config := MergeConfig(user);
      if !hostReady {
        return;
      }
      StartPolling(config.pollInterval);
      initialized := true;
    }

    /** One firing of the interval callback, given the sampled `window.tournamentState`
        and the fallback draw. It returns the commentary handed to the widget, if any. */
    method Tick(sample: Option<State>, pick: nat) returns (emitted: Option<Commentary>)
      requires Valid() && timer.Some?
      requires ValidPick(config.fallbackComments, pick)
      modifies this`lastState
      ensures Valid()
      ensures lastState == Next(old(lastState), sample)
      ensures emitted.Some? <==> Changed(old(lastState), sample)
      ensures emitted.Some? ==> emitted.value == Generate(sample, config.fallbackComments, pick)
    {
      emitted := None;
      if sample.Some? {
        if sample != lastState {
          lastState := sample;
          emitted := Some(Generate(sample, config.fallbackComments, pick));
        }
      }
    }
  }

  /** However often polling is restarted, at most one timer is live. */
  lemma AtMostOneTimer(w: Widget)
    requires w.Valid()
    ensures |w.liveTimers| <= 1
  {
  }
}
