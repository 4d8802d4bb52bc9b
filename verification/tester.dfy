/**
 `flow_tester.py`: the earlier stand-alone loop over one flow meter. A click is
 passed on only while capture is enabled; each pass of the loop announces a
 pour above 0.23 after 10 s without clicks and zeroes it, then, independently,
 zeroes a pour of at most 0.23 after 2 s without clicks. The meter is written
 directly, not through `reset_pour`, so no pour is ever counted.
 */
module Tester {
  import opened Meter
  import Serve

  datatype Option<T> = None | Some(value: T)

  const MinimumPourSize: real := 0.23
  /** Seconds without clicks before a small pour is dropped. */
  const PourInactivityTime: int := 2
  /** Seconds without clicks before a large pour is announced. */
  const MessageInactivityTime: int := 10

  /** Condition of the first `if`: a large pour after 10 s of inactivity. */
  predicate MessageDue(m: Reading, now: int)
  {
    m.thisPour > MinimumPourSize && now - m.lastClick > MessageInactivityTime * MsInASecond
  }

  /** Condition of the second `if`: a small pour after 2 s of inactivity. */
  predicate ResetDue(m: Reading, now: int)
  {
    m.thisPour <= MinimumPourSize && now - m.lastClick > PourInactivityTime * MsInASecond
  }

  /**
   The meter after one pass of the loop. Only `thisPour` can change, and only
   to 0; each condition that holds zeroes it; within 2 s of the last click
   nothing changes.
   */
  function Iteration(m: Reading, now: int): (r: Reading)
    ensures r == m || r == m.(thisPour := 0.0)
    ensures MessageDue(m, now) ==> r.thisPour == 0.0
    ensures ResetDue(m, now) ==> r.thisPour == 0.0
    ensures !MessageDue(m, now) && !ResetDue(m, now) ==> r == m
    ensures now - m.lastClick <= PourInactivityTime * MsInASecond ==> r == m
  {
    var afterMessage := if MessageDue(m, now) then m.(thisPour := 0.0) else m;
    if ResetDue(afterMessage, now) then afterMessage.(thisPour := 0.0) else afterMessage
  }

  /** The two `if`s are independent: once the first zeroes the pour, the second fires too. */
  lemma MessageThenReset(m: Reading, now: int)
    requires MessageDue(m, now)
    ensures ResetDue(m.(thisPour := 0.0), now)
    ensures Iteration(m, now) == m.(thisPour := 0.0)
  {
  }

  /** A second pass at the same time changes nothing more. */
  lemma IterationIdempotent(m: Reading, now: int)
    ensures Iteration(Iteration(m, now), now) == Iteration(m, now)
  {
  }

  /** The meter after one pass per time in `nows`. */
  function TesterRun(m: Reading, nows: seq<int>): Reading
    decreases |nows|
  {
    if nows == [] then m else TesterRun(Iteration(m, nows[0]), nows[1..])
  }

  /** However many passes run, the click clock, the gate and the pour count are untouched
      and the pour is either as it was or 0. */
  lemma {:induction false} TesterRunFrame(m: Reading, nows: seq<int>)
    ensures TesterRun(m, nows) == m || TesterRun(m, nows) == m.(thisPour := 0.0)
    decreases |nows|
  {
    if nows != [] {
      var m' := Iteration(m, nows[0]);
      TesterRunFrame(m', nows[1..]);
      if m' != m {
        assert m'.(thisPour := 0.0) == m.(thisPour := 0.0);
      }
    }
  }

  /**
   With the same thresholds, the controller of `piserve.py` zeroes a
   non-negative pour exactly when this loop does, and leaves it otherwise.
   */
  lemma AgreesWithPiServe(o: Serve.Options, c: Serve.Controller, now: int)
    requires o.minimumPourSize == MinimumPourSize
    requires o.largePourInactivity == MessageInactivityTime
    requires o.smallPourInactivity == PourInactivityTime
    requires c.meter.thisPour >= 0.0
    ensures Serve.Step(o, c, now).meter.thisPour == Iteration(c.meter, now).thisPour
  {
  }

  /** `doAClick`: the meter is updated only while capture is enabled. */
  method DoAClick(fm: FlowMeter, now: int, poured: real)
    modifies fm
    ensures old(fm.enabled) ==> fm.State() == Clicked(old(fm.State()), now, poured)
    ensures !old(fm.enabled) ==> fm.State() == old(fm.State())
  {
    if fm.enabled == true {
      fm.Update(now, poured);
    }
  }

  /** One pass of the main loop; returns the pour it announces, if any. */
  method LoopIteration(fm: FlowMeter, now: int) returns (message: Option<real>)
    modifies fm
    ensures fm.State() == Iteration(old(fm.State()), now)
    ensures message == if MessageDue(old(fm.State()), now) then Some(old(fm.thisPour)) else None
  {
    message := None;
    if fm.thisPour > MinimumPourSize && now - fm.lastClick > MessageInactivityTime * MsInASecond {
      message := Some(fm.thisPour);
      fm.thisPour := 0.0;
    }
    if fm.thisPour <= MinimumPourSize && now - fm.lastClick > PourInactivityTime * MsInASecond {
      fm.thisPour := 0.0;
    }
  }
}
