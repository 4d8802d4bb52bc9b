/**
 `LedPulse` of `piserve.py`: a cursor that cycles through a fixed table of six
 bar-graph rows, one row per call of `next`.
 */
module Pulse {

  type Row = seq<int>

  /** `LedPulse.leds`: a pulse that grows from the middle out and back. */
  const Leds: seq<Row> := [
    [0, 0, 0, 0, 0, 0],
    [0, 0, 1, 1, 0, 0],
    [0, 1, 1, 1, 1, 0],
    [1, 1, 1, 1, 1, 1],
    [0, 1, 1, 1, 1, 0],
    [0, 0, 1, 1, 0, 0]
  ]

  /** The cursor after one `next`: one on, back to 0 once it reaches 6. */
  function Advance(iteration: int): int
  {
    if iteration + 1 >= 6 then 0 else iteration + 1
  }

  /** The rows `n` consecutive calls of `next` return, starting at cursor `start`. */
  function Pulses(start: int, n: nat): seq<Row>
    requires 0 <= start < |Leds|
    decreases n
  {
    if n == 0 then [] else [Leds[start]] + Pulses(Advance(start), n - 1)
  }

  /** The `k`-th call from cursor `start` returns row `(start + k) % 6`. */
  lemma {:induction false} PulsesAt(start: int, n: nat)
    requires 0 <= start < |Leds|
    ensures |Pulses(start, n)| == n
    ensures forall k :: 0 <= k < n ==> Pulses(start, n)[k] == Leds[(start + k) % 6]
    decreases n
  {
    if n > 0 {
      var next := Advance(start);
      PulsesAt(next, n - 1);
      forall k | 0 <= k < n
        ensures Pulses(start, n)[k] == Leds[(start + k) % 6]
      {
        if k > 0 {
          assert Pulses(start, n)[k] == Pulses(next, n - 1)[k - 1];
          assert (next + (k - 1)) % 6 == (start + k) % 6;
        }
      }
    }
  }

  /** Period 6: six calls return every row once, rotated to `start`, and the
      cursor is back where it began. */
  lemma PulsesPeriod(start: int)
    requires 0 <= start < |Leds|
    ensures Pulses(start, 6) == Leds[start..] + Leds[..start]
    ensures Advance(Advance(Advance(Advance(Advance(Advance(start)))))) == start
  {
    PulsesAt(start, 6);
    var rotated := Leds[start..] + Leds[..start];
    forall k | 0 <= k < 6
      ensures Pulses(start, 6)[k] == rotated[k]
    {
      if start + k < 6 {
        assert rotated[k] == Leds[start + k];
      } else {
        assert rotated[k] == Leds[start + k - 6];
      }
    }
  }

  class LedPulse {
    var iteration: int

    ghost predicate Valid()
      reads this
    {
      0 <= iteration < |Leds|
    }

    constructor ()
      ensures Valid() && iteration == 0
    {
      iteration := 0;
    }

    /** Returns the row under the cursor and moves the cursor on, wrapping at 6. */
    method Next() returns (ledList: Row)
      requires Valid()
      modifies this
      ensures Valid()
      ensures [ledList] == Pulses(old(iteration), 1)
      ensures iteration == Advance(old(iteration))
    {
      ledList := Leds[iteration];
      iteration := iteration + 1;
      if iteration >= 6 {
        Reset();
      }
    }

    method Reset()
      modifies this
      ensures Valid() && iteration == 0
    {
      iteration := 0;
    }
  }

  /** Six calls of `next` after `reset` return the table in order and leave the cursor at 0. */
  method SixAfterReset(p: LedPulse) returns (rows: seq<Row>)
    modifies p
    ensures rows == Leds
    ensures p.Valid() && p.iteration == 0
  {
    p.Reset();
    rows := [];
    var r := p.Next();
    rows := rows + [r];
    r := p.Next();
    rows := rows + [r];
    r := p.Next();
    rows := rows + [r];
    r := p.Next();
    rows := rows + [r];
    r := p.Next();
    rows := rows + [r];
    r := p.Next();
    rows := rows + [r];
  }
}
