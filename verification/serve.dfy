/**
 The pour controller of `piserve.py`: the `PiServe` class, whose run loop polls
 a flow meter and decides, once per pass, whether a large pour or a small pour
 has closed, whether to report progress, or whether to refresh the idle
 display. The clock is the `now` parameter of each operation; the display
 handler is represented by the log `shown` of what it was asked to show.
 */
module Serve {
  import opened Meter

  /** `PiServe.progress_interval`, in milliseconds. */
  const ProgressInterval: int := 500

  /** The options the controller reads; `idleIntervalMs` is `idle_interval * 1000`. */
  datatype Options = Options(
    minimumPourSize: real,
    largePourInactivity: int,
    smallPourInactivity: int,
    idleIntervalMs: int)

  /** Everything one pass of the run loop reads and may change. */
  datatype Controller = Controller(meter: Reading, lastProgress: int, lastIdle: int)

  /** The trigger method one pass of the run loop calls, if any. */
  datatype Trigger = LargePour | SmallPour | Progress | Idle | NoTrigger

  /** A call of the handler, with the meter values that call displays. */
  datatype Shown =
    | ShowLargePour(thisPour: real)
    | ShowSmallPour(thisPour: real)
    | ShowProgress(thisPour: real)
    | ShowIdle(pours: nat)

  /** For the non-negative volumes a meter holds, "poured" means "not zero". */
  predicate HasPoured(thisPour: real)
    ensures thisPour >= 0.0 ==> (HasPoured(thisPour) <==> thisPour != 0.0)
  {
    thisPour > 0.0
  }

  /** With a non-negative minimum, a large pour is a pour. */
  predicate IsLargePour(thisPour: real, minimumPourSize: real)
    ensures minimumPourSize >= 0.0 && IsLargePour(thisPour, minimumPourSize) ==> HasPoured(thisPour)
  {
    thisPour > minimumPourSize
  }

  /** Small is exactly "not large". */
  predicate IsSmallPour(thisPour: real, minimumPourSize: real)
    ensures IsSmallPour(thisPour, minimumPourSize) <==> !IsLargePour(thisPour, minimumPourSize)
  {
    thisPour <= minimumPourSize
  }

  /** Strictly more than `maxDelta` ms: the first time it holds is `lastTime + maxDelta + 1`. */
  predicate TimePassedGreaterThan(now: int, lastTime: int, maxDelta: int)
    ensures TimePassedGreaterThan(now, lastTime, maxDelta) <==> now >= lastTime + maxDelta + 1
  {
    now - lastTime > maxDelta
  }

  /** No click for more than `inactivityTime` seconds, measured in milliseconds. */
  predicate InactiveFor(now: int, lastClick: int, inactivityTime: int)
    ensures InactiveFor(now, lastClick, inactivityTime) <==> now - lastClick > inactivityTime * MsInASecond
    ensures inactivityTime >= 0 && InactiveFor(now, lastClick, inactivityTime) ==> now > lastClick
  {
    TimePassedGreaterThan(now, lastClick, inactivityTime * MsInASecond)
  }

  predicate LargePourClosed(o: Options, m: Reading, now: int)
  {
    IsLargePour(m.thisPour, o.minimumPourSize) && InactiveFor(now, m.lastClick, o.largePourInactivity)
  }

  predicate SmallPourClosed(o: Options, m: Reading, now: int)
  {
    IsSmallPour(m.thisPour, o.minimumPourSize) && InactiveFor(now, m.lastClick, o.smallPourInactivity)
  }

  /**
   The branch one pass of the run loop takes. The four triggers exclude one
   another; closing a pour takes precedence over progress, and the idle refresh
   is reached only when nothing has been poured.
   */
  function Decide(o: Options, c: Controller, now: int): (t: Trigger)
    ensures t == LargePour <==> HasPoured(c.meter.thisPour) && LargePourClosed(o, c.meter, now)
    ensures t == SmallPour <==> HasPoured(c.meter.thisPour) && SmallPourClosed(o, c.meter, now)
    ensures t == Progress <==>
      && HasPoured(c.meter.thisPour)
      && !LargePourClosed(o, c.meter, now)
      && !SmallPourClosed(o, c.meter, now)
      && TimePassedGreaterThan(now, c.lastProgress, ProgressInterval)
    ensures t == Idle <==>
      !HasPoured(c.meter.thisPour) && TimePassedGreaterThan(now, c.lastIdle, o.idleIntervalMs)
  {
    if HasPoured(c.meter.thisPour) then
      if LargePourClosed(o, c.meter, now) then LargePour
      else if SmallPourClosed(o, c.meter, now) then SmallPour
      else if TimePassedGreaterThan(now, c.lastProgress, ProgressInterval) then Progress
      else NoTrigger
    else if TimePassedGreaterThan(now, c.lastIdle, o.idleIntervalMs) then Idle
    else NoTrigger
  }

  /** The state after one pass of the run loop. */
  function Step(o: Options, c: Controller, now: int): Controller
  {
    match Decide(o, c, now)
    case LargePour => c.(meter := PourReset(c.meter, true))
    case SmallPour => c.(meter := PourReset(c.meter, false))
    case Progress => c.(lastProgress := now)
    case Idle => c.(lastIdle := now)
    case NoTrigger => c
  }

  /** What the handler is asked to show when `t` fires in state `c`. */
  function Notices(hasHandler: bool, t: Trigger, c: Controller): seq<Shown>
  {
    if !hasHandler then []
    else match t
      case LargePour => [ShowLargePour(c.meter.thisPour)]
      case SmallPour => [ShowSmallPour(c.meter.thisPour)]
      case Progress => [ShowProgress(c.meter.thisPour)]
      case Idle => [ShowIdle(c.meter.pours)]
      case NoTrigger => []
  }

  /** The state after a click reaches `trigger_click`. */
  function ClickStep(c: Controller, now: int, poured: real): Controller
  {
    if c.meter.enabled then c.(meter := Clicked(c.meter, now, poured)) else c
  }

  /** Large and small are complementary: every pour volume is exactly one of them. */
  lemma LargeSmallComplementary(thisPour: real, minimumPourSize: real)
    ensures IsLargePour(thisPour, minimumPourSize) != IsSmallPour(thisPour, minimumPourSize)
  {
  }

  /** Inactivity is strict: at exactly the threshold no pour closes. */
  lemma AtThresholdNothingCloses(o: Options, c: Controller, now: int)
    ensures now - c.meter.lastClick == o.largePourInactivity * MsInASecond ==> Decide(o, c, now) != LargePour
    ensures now - c.meter.lastClick == o.smallPourInactivity * MsInASecond ==> Decide(o, c, now) != SmallPour
    ensures InactiveFor(now, c.meter.lastClick, o.largePourInactivity)
      <==> now - c.meter.lastClick > o.largePourInactivity * MsInASecond
  {
  }

  /**
   The bookkeeping of one pass: a closing pass zeroes the pour and leaves both
   report clocks; progress moves only `lastProgress`; the idle refresh moves only
   `lastIdle`; no pass touches the click clock or the capture gate.
   */
  lemma StepBookkeeping(o: Options, c: Controller, now: int)
    ensures var r := Step(o, c, now);
      && r.meter.lastClick == c.meter.lastClick
      && r.meter.enabled == c.meter.enabled
      && (Decide(o, c, now) == LargePour ==>
            r == c.(meter := c.meter.(thisPour := 0.0, pours := c.meter.pours + 1)))
      && (Decide(o, c, now) == SmallPour ==> r == c.(meter := c.meter.(thisPour := 0.0)))
      && (Decide(o, c, now) == Progress ==> r == c.(lastProgress := now))
      && (Decide(o, c, now) == Idle ==> r == c.(lastIdle := now))
      && (Decide(o, c, now) == NoTrigger ==> r == c)
  {
  }

  /** An input to the controller: a click of the meter or a pass of the run loop. */
  datatype Event = Click(at: int, poured: real) | TickAt(at: int)

  function Apply(o: Options, c: Controller, e: Event): Controller
  {
    match e
    case Click(at, poured) => ClickStep(c, at, poured)
    case TickAt(at) => Step(o, c, at)
  }

  function Fired(o: Options, c: Controller, e: Event): seq<Trigger>
  {
    match e
    case Click(_, _) => []
    case TickAt(at) => [Decide(o, c, at)]
  }

  /** The state after the events `es`, applied in order. */
  function Run(o: Options, c: Controller, es: seq<Event>): Controller
    decreases |es|
  {
    if es == [] then c else Run(o, Apply(o, c, es[0]), es[1..])
  }

  /** The triggers the passes among `es` fire, in order. */
  function History(o: Options, c: Controller, es: seq<Event>): seq<Trigger>
    decreases |es|
  {
    if es == [] then [] else Fired(o, c, es[0]) + History(o, Apply(o, c, es[0]), es[1..])
  }

  function Count(ts: seq<Trigger>, t: Trigger): nat
  {
    if ts == [] then 0 else (if ts[0] == t then 1 else 0) + Count(ts[1..], t)
  }

  lemma {:induction false} CountAppend(xs: seq<Trigger>, ys: seq<Trigger>, t: Trigger)
    ensures Count(xs + ys, t) == Count(xs, t) + Count(ys, t)
  {
    if xs != [] {
      assert (xs + ys)[1..] == xs[1..] + ys;
      CountAppend(xs[1..], ys, t);
    } else {
      assert xs + ys == ys;
    }
  }

  /** Only a large pour counts: the pour counter grows by the number of large pours fired. */
  lemma {:induction false} RunCountsLargePours(o: Options, c: Controller, es: seq<Event>)
    ensures Run(o, c, es).meter.pours == c.meter.pours + Count(History(o, c, es), LargePour)
    decreases |es|
  {
    if es != [] {
      var c' := Apply(o, c, es[0]);
      RunCountsLargePours(o, c', es[1..]);
      CountAppend(Fired(o, c, es[0]), History(o, c', es[1..]), LargePour);
    }
  }

  /** When every click adds a non-negative volume, the pour volume never goes negative. */
  lemma {:induction false} RunKeepsPourNonNegative(o: Options, c: Controller, es: seq<Event>)
    requires c.meter.thisPour >= 0.0
    requires forall i :: 0 <= i < |es| && es[i].Click? ==> es[i].poured >= 0.0
    ensures Run(o, c, es).meter.thisPour >= 0.0
    decreases |es|
  {
    if es != [] {
      assert es[0].Click? ==> es[0].poured >= 0.0;
      var rest := es[1..];
      forall i | 0 <= i < |rest| && rest[i].Click?
        ensures rest[i].poured >= 0.0
      {
        assert rest[i] == es[i + 1];
      }
      RunKeepsPourNonNegative(o, Apply(o, c, es[0]), rest);
    }
  }

  predicate OnlyTicks(es: seq<Event>)
  {
    forall i :: 0 <= i < |es| ==> es[i].TickAt?
  }

  /** Passes alone never close a pour when nothing has been poured. */
  lemma {:induction false} TicksNeverCloseEmpty(o: Options, c: Controller, es: seq<Event>)
    requires OnlyTicks(es)
    requires !HasPoured(c.meter.thisPour)
    ensures Count(History(o, c, es), LargePour) == 0
    ensures Count(History(o, c, es), SmallPour) == 0
    ensures Run(o, c, es).meter == c.meter
    decreases |es|
  {
    if es != [] {
      assert es[0].TickAt?;
      var c' := Apply(o, c, es[0]);
      assert OnlyTicks(es[1..]) by {
        forall i | 0 <= i < |es[1..]| ensures es[1..][i].TickAt? {
          assert es[1..][i] == es[i + 1];
        }
      }
      TicksNeverCloseEmpty(o, c', es[1..]);
      CountAppend(Fired(o, c, es[0]), History(o, c', es[1..]), LargePour);
      CountAppend(Fired(o, c, es[0]), History(o, c', es[1..]), SmallPour);
    }
  }

  /**
   Without clicks in between, a pour is classified at most once: after a large
   or a small pour closes, no further pass closes anything.
   */
  lemma {:induction false} TicksCloseAtMostOnce(o: Options, c: Controller, es: seq<Event>)
    requires OnlyTicks(es)
    ensures Count(History(o, c, es), LargePour) + Count(History(o, c, es), SmallPour) <= 1
    ensures Run(o, c, es).meter.lastClick == c.meter.lastClick
    ensures Run(o, c, es).meter.thisPour == c.meter.thisPour || Run(o, c, es).meter.thisPour == 0.0
    decreases |es|
  {
    if es != [] {
      assert es[0].TickAt?;
      var c' := Apply(o, c, es[0]);
      assert OnlyTicks(es[1..]) by {
        forall i | 0 <= i < |es[1..]| ensures es[1..][i].TickAt? {
          assert es[1..][i] == es[i + 1];
        }
      }
      var first := Fired(o, c, es[0]);
      CountAppend(first, History(o, c', es[1..]), LargePour);
      CountAppend(first, History(o, c', es[1..]), SmallPour);
      if first == [LargePour] || first == [SmallPour] {
        TicksNeverCloseEmpty(o, c', es[1..]);
      } else {
        TicksCloseAtMostOnce(o, c', es[1..]);
      }
    }
  }

  /** The `PiServe` object: a meter, two report clocks and the handler's log. */
  class PiServe {
    const options: Options
    const hasHandler: bool
    const fm: FlowMeter
    var lastProgress: int
    var lastIdle: int
    var shown: seq<Shown>

    function View(): Controller
      reads this, fm
    {
      Controller(fm.State(), lastProgress, lastIdle)
    }

    /** `__init__` and `setup`: a fresh meter, the progress clock at `now`, one idle trigger. */
    constructor (options: Options, hasHandler: bool, now: int)
      ensures this.options == options && this.hasHandler == hasHandler
      ensures fresh(fm)
      ensures View() == Controller(Reading(0.0, now, true, 0), now, now)
      ensures shown == Notices(hasHandler, Idle, View())
    {
      this.options := options;
      this.hasHandler := hasHandler;
      fm := new FlowMeter(now);
      lastProgress := now;
      shown := [];
      new;
      TriggerIdle(now);
    }

    /** A click reaches the meter only while capture is enabled. */
    method TriggerClick(now: int, poured: real)
      modifies fm
      ensures View() == ClickStep(old(View()), now, poured)
      ensures !old(fm.enabled) ==> fm.State() == old(fm.State())
    {
      if fm.enabled == true {
        fm.Update(now, poured);
      }
    }

    /** The handler sees the pour before it is reset as counting. */
    method TriggerLargePour()
      modifies this, fm
      ensures shown == old(shown) + Notices(hasHandler, LargePour, old(View()))
      ensures View() == old(View()).(meter := PourReset(old(fm.State()), true))
    {
      if hasHandler {
        shown := shown + [ShowLargePour(fm.thisPour)];
      }
      fm.ResetPour(true);
    }

    /** The handler sees the pour before it is reset as not counting. */
    method TriggerSmallPour()
      modifies this, fm
      ensures shown == old(shown) + Notices(hasHandler, SmallPour, old(View()))
      ensures View() == old(View()).(meter := PourReset(old(fm.State()), false))
    {
      if hasHandler {
        shown := shown + [ShowSmallPour(fm.thisPour)];
      }
      fm.ResetPour(false);
    }

    method TriggerProgress(now: int)
      modifies this
      ensures shown == old(shown) + Notices(hasHandler, Progress, old(View()))
      ensures View() == old(View()).(lastProgress := now)
    {
      lastProgress := now;
      if hasHandler {
        shown := shown + [ShowProgress(fm.thisPour)];
      }
    }

    method TriggerIdle(now: int)
      modifies this
      ensures shown == old(shown) + Notices(hasHandler, Idle, old(View()))
      ensures View() == old(View()).(lastIdle := now)
    {
      UpdateIdle(now);
      if hasHandler {
        shown := shown + [ShowIdle(fm.pours)];
      }
    }

    method UpdateIdle(now: int)
      modifies this
      ensures lastIdle == now
      ensures lastProgress == old(lastProgress) && shown == old(shown)
    {
      lastIdle := now;
    }

    /** One pass of the body of `run`. */
    method Tick(now: int) returns (fired: Trigger)
      modifies this, fm
      ensures fired == Decide(options, old(View()), now)
      ensures View() == Step(options, old(View()), now)
      ensures shown == old(shown) + Notices(hasHandler, fired, old(View()))
    {
      if HasPoured(fm.thisPour) {
        if IsLargePour(fm.thisPour, options.minimumPourSize)
          && InactiveFor(now, fm.lastClick, options.largePourInactivity)
        {
          TriggerLargePour();
          fired := LargePour;
        } else if IsSmallPour(fm.thisPour, options.minimumPourSize)
          && InactiveFor(now, fm.lastClick, options.smallPourInactivity)
        {
          TriggerSmallPour();
          fired := SmallPour;
        } else if TimePassedGreaterThan(now, lastProgress, ProgressInterval) {
          TriggerProgress(now);
          fired := Progress;
        } else {
          fired := NoTrigger;
        }
      } else if TimePassedGreaterThan(now, lastIdle, options.idleIntervalMs) {
        TriggerIdle(now);
        fired := Idle;
      } else {
        fired := NoTrigger;
      }
    }
  }
}
