/**
 The flow meter driver that both programs poll. Its implementation is not part
 of this model: the pour logic reads only `thisPour`, `lastClick`, `enabled` and
 `pours`, and calls `update` and `reset_pour`. The bodies below are the
 behaviour the callers rely on, taken as assumptions:
 - `update(now)` records `now` as the last click and adds the volume of the
   click (a parameter here, since the driver's volume arithmetic is not visible);
 - `reset_pour(counts)` zeroes `thisPour` and, when the pour counts, adds one to
   `pours`.
 */
module Meter {

  /** Milliseconds per second, the driver's `MS_IN_A_SECOND`. */
  const MsInASecond: int := 1000

  /** The driver fields the pour logic reads, as a value. */
  datatype Reading = Reading(thisPour: real, lastClick: int, enabled: bool, pours: nat)

  /** Assumed effect of `update(now)` for a click that adds `poured`. */
  function Clicked(m: Reading, now: int, poured: real): Reading
  {
    m.(thisPour := m.thisPour + poured, lastClick := now)
  }

  /** Assumed effect of `reset_pour(counts)`. */
  function PourReset(m: Reading, counts: bool): Reading
  {
    m.(thisPour := 0.0, pours := if counts then m.pours + 1 else m.pours)
  }

  class FlowMeter {
    var thisPour: real
    var lastClick: int
    var enabled: bool
    var pours: nat

    function State(): Reading
      reads this
    {
      Reading(thisPour, lastClick, enabled, pours)
    }

    /** Assumed start state: nothing poured, capture enabled, clock at `now`. */
    constructor (now: int)
      ensures State() == Reading(0.0, now, true, 0)
    {
      thisPour, lastClick, enabled, pours := 0.0, now, true, 0;
    }

    method Update(now: int, poured: real)
      modifies this
      ensures State() == Clicked(old(State()), now, poured)
    {
      thisPour := thisPour + poured;
      lastClick := now;
    }

    method ResetPour(counts: bool)
      modifies this
      ensures State() == PourReset(old(State()), counts)
      ensures thisPour == 0.0 && lastClick == old(lastClick) && enabled == old(enabled)
    {
      thisPour := 0.0;
      if counts {
        pours := pours + 1;
      }
    }
  }
}
