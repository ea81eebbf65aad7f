/** A monthly rollover of the live request counter. The save at
    vault/counters.go:100-119 never resets the counter, although the reset
    test (vault/counters_test.go:110-119) expects a save in a new month to
    start that month from 0. This module adds that step as a separate
    coordinator around `Core`; `Core.SaveCurrentRequestCounters` itself stays
    as written. */
module Rollover {
  import opened Wrappers
  import opened PeriodKey
  import opened StorageView
  import opened Counters

  class RolloverCoordinator {
    const core: Core
    /** The month of the last save, None before the first one. */
    var activeMonth: Option<Period>

    ghost predicate Valid()
      reads this, core
    {
      core.Valid()
    }

    constructor (core: Core)
      requires core.Valid()
      ensures Valid() && this.core == core && activeMonth == None
    {
      this.core := core;
      activeMonth := None;
    }

    /** Saves the live counter under the month of `now`. The first save adopts
        that month; a save whose month key differs from the last saved one
        first resets the live counter to 0, so the new month's record starts
        from 0. The month becomes the active one whether or not the write
        succeeds. A coordinator starts with no active month, so the first
        save after a restart never resets, even when the month changed after
        the previous process's last save. */
    method Save(now: Period) returns (didReset: bool, r: Outcome<Error>)
      requires Valid()
      modifies this, core
      ensures Valid() && activeMonth == Some(now)
      ensures didReset <==> old(activeMonth).Some? && old(activeMonth).value != now
      ensures core.requests == if didReset then 0 else old(core.requests)
      ensures match old(core.view).Put(Format(now), SavedRecord(core.requests))
              case Ok(w) => r == Pass && core.view == w
              case Err(e) => r == Fail(Storage(e)) && core.view == old(core.view)
    {
      didReset := activeMonth.Some? && Format(activeMonth.value) != Format(now);
      if activeMonth.Some? && Format(activeMonth.value) == Format(now) {
        // one key, one month
        FormatInjective(activeMonth.value, now);
      }
      if didReset {
        core.requests := 0;
      }
      activeMonth := Some(now);
      r := core.SaveCurrentRequestCounters(now);
    }
  }
}
