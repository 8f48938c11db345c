/** The recovery heuristics of the capture callback: the missed-frame
    accounting of an IEC 61937 decode session (pareceive.c:735-757) and the
    silence accumulator of the PCM state (pareceive.c:777-789). In the source
    their state lives in function-static variables (`prevextralength`,
    `total_missed_frames`, `silence`); here it is passed in and returned. */
module Accounting {

  /** `total_missed_frames` above this count ends the session. */
  const MissedLimit: nat := 3
  /** `silence` above this many microseconds ends the PCM state. */
  const SilenceLimitUs: nat := 1_000_000

  /** `prevextralength` (capture bytes not yet worth a whole block) and
      `total_missed_frames` (blocks missed in consecutive short cycles). */
  datatype Counters = Counters(carry: nat, missed: nat)

  /** The counters after a cycle, and whether the signal is declared lost. */
  datatype Outcome = Outcome(counters: Counters, lost: bool)

  /** Blocks of `blockSize` bytes the capture side delivered, counting the carry. */
  function BlocksArrived(c: Counters, delivered: nat, blockSize: nat): (blocks: nat)
    requires blockSize > 0
    ensures blocks * blockSize <= delivered + c.carry < (blocks + 1) * blockSize
  {
    (delivered + c.carry) / blockSize
  }

  /** One decode cycle's accounting: `delivered` capture bytes arrived and the
      decoder produced `decoded` frames from blocks of `blockSize` bytes. */
  function MissedStep(c: Counters, delivered: nat, blockSize: nat, decoded: nat): (r: Outcome)
    requires blockSize > 0
    ensures r.counters.carry < blockSize
    ensures r.counters.missed <= MissedLimit
    ensures r.lost ==> r.counters == Counters(0, 0)
    ensures decoded >= BlocksArrived(c, delivered, blockSize) ==> !r.lost && r.counters.missed == 0
    ensures !r.lost && decoded < BlocksArrived(c, delivered, blockSize) ==>
      r.counters.missed == c.missed + (BlocksArrived(c, delivered, blockSize) - decoded)
    ensures r.lost <==> decoded < BlocksArrived(c, delivered, blockSize)
                        && c.missed + (BlocksArrived(c, delivered, blockSize) - decoded) > MissedLimit
  {
    var blocks := BlocksArrived(c, delivered, blockSize);
    var carry := c.carry + delivered - blocks * blockSize;
    var short := blocks - decoded;
    var (carry', short') := if short < 0 then (0, 0) else (carry, short);
    var total := if short' == 0 then 0 else c.missed + short';
    if total > MissedLimit then Outcome(Counters(0, 0), true)
    else Outcome(Counters(carry', total), false)
  }

  /** Capture bytes are conserved: whatever did not make up a whole block is
      carried to the next cycle, unless the decoder ran ahead of the capture. */
  lemma CarryIsRemainder(c: Counters, delivered: nat, blockSize: nat, decoded: nat)
    requires blockSize > 0
    ensures var r := MissedStep(c, delivered, blockSize, decoded);
      !r.lost ==> r.counters.carry == (if decoded <= BlocksArrived(c, delivered, blockSize)
                                       then (c.carry + delivered) % blockSize else 0)
  {
    var x := c.carry + delivered;
    assert x == blockSize * (x / blockSize) + x % blockSize;
  }

  /** Whether the signal is declared lost in one of `cycles`, given as
      (delivered bytes, decoded frames), processed in order. */
  function LostWithin(c: Counters, blockSize: nat, cycles: seq<(nat, nat)>): bool
    requires blockSize > 0
    decreases |cycles|
  {
    if cycles == [] then false
    else
      var r := MissedStep(c, cycles[0].0, blockSize, cycles[0].1);
      r.lost || LostWithin(r.counters, blockSize, cycles[1..])
  }

  /** A starved decoder (no frames while at least a block arrives each cycle)
      loses the signal within four cycles, fewer if misses are already counted. */
  lemma {:induction false} StarvationLosesSignal(c: Counters, blockSize: nat, cycles: seq<(nat, nat)>)
    requires blockSize > 0 && c.missed <= MissedLimit
    requires |cycles| + c.missed > MissedLimit
    requires forall i :: 0 <= i < |cycles| ==> cycles[i].0 >= blockSize && cycles[i].1 == 0
    ensures LostWithin(c, blockSize, cycles)
    decreases |cycles|
  {
    var x := cycles[0].0 + c.carry;
    assert x / blockSize >= 1 by {
      assert x == blockSize * (x / blockSize) + x % blockSize;
    }
    var r := MissedStep(c, cycles[0].0, blockSize, cycles[0].1);
    if !r.lost {
      assert r.counters.missed >= c.missed + 1;
      StarvationLosesSignal(r.counters, blockSize, cycles[1..]);
    }
  }

  // ---------------------------------------------------------------------
  // Silence

  /** The accumulator after a PCM delivery, and whether it ends the PCM state. */
  datatype SilenceStep = SilenceStep(accumulatedUs: nat, expired: bool)

  /** The silence accumulator as written (pareceive.c:777-789): an all-zero
      delivery adds its duration, the state ends once the total passes one
      second, and a delivery that is not silent leaves the total as it was. */
  function SilenceAsWritten(accUs: nat, silent: bool, durationUs: nat): (r: SilenceStep)
    ensures r.expired <==> silent && accUs + durationUs > SilenceLimitUs
    ensures !silent ==> r.accumulatedUs == accUs
    ensures accUs <= SilenceLimitUs ==> r.accumulatedUs <= SilenceLimitUs
  {
    if !silent then SilenceStep(accUs, false)
    else if accUs + durationUs > SilenceLimitUs then SilenceStep(0, true)
    else SilenceStep(accUs + durationUs, false)
  }

  /** The silence accumulator counting contiguous silence only: a delivery that
      is not silent resets it. */
  function SilenceTrack(accUs: nat, silent: bool, durationUs: nat): (r: SilenceStep)
    ensures r.accumulatedUs <= SilenceLimitUs
    ensures r.expired <==> silent && accUs + durationUs > SilenceLimitUs
    ensures r.expired || !silent ==> r.accumulatedUs == 0
  {
    if !silent then SilenceStep(0, false)
    else if accUs + durationUs > SilenceLimitUs then SilenceStep(0, true)
    else SilenceStep(accUs + durationUs, false)
  }

  /** One PCM delivery as the silence logic sees it. */
  datatype Delivery = Delivery(silent: bool, durationUs: nat)

  /** Total duration of the contiguous silent deliveries at the end of a history. */
  function TrailingSilence(h: seq<Delivery>): nat
  {
    if h == [] || !h[|h| - 1].silent then 0
    else TrailingSilence(h[..|h| - 1]) + h[|h| - 1].durationUs
  }

  /** The accumulator after a history of deliveries, starting from zero. */
  function Accumulated(h: seq<Delivery>): nat
  {
    if h == [] then 0
    else SilenceTrack(Accumulated(h[..|h| - 1]), h[|h| - 1].silent, h[|h| - 1].durationUs).accumulatedUs
  }

  /** The as-written accumulator after a history of deliveries, starting from zero. */
  function AccumulatedAsWritten(h: seq<Delivery>): nat
  {
    if h == [] then 0
    else SilenceAsWritten(AccumulatedAsWritten(h[..|h| - 1]), h[|h| - 1].silent, h[|h| - 1].durationUs).accumulatedUs
  }

  /** No silent stretch in the history, up to and including its end, lasted
      longer than the limit. */
  ghost predicate NeverLongSilence(h: seq<Delivery>)
  {
    forall i :: 0 <= i <= |h| ==> TrailingSilence(h[..i]) <= SilenceLimitUs
  }

  /** While no silent stretch has exceeded the limit, the accumulator holds
      exactly the length of the current silent stretch. */
  lemma {:induction false} AccumulatorIsTrailingSilence(h: seq<Delivery>)
    requires NeverLongSilence(h)
    ensures Accumulated(h) == TrailingSilence(h)
  {
    if h != [] {
      var p := h[..|h| - 1];
      assert NeverLongSilence(p) by {
        forall i | 0 <= i <= |p| ensures TrailingSilence(p[..i]) <= SilenceLimitUs {
          assert p[..i] == h[..i];
        }
      }
      AccumulatorIsTrailingSilence(p);
      assert h[..|h|] == h;
    }
  }

  /** The PCM state ends on a delivery exactly when it completes a silent
      stretch longer than the limit. */
  lemma ExpiresOnLongSilence(h: seq<Delivery>, d: Delivery)
    requires NeverLongSilence(h)
    ensures SilenceTrack(Accumulated(h), d.silent, d.durationUs).expired <==> TrailingSilence(h + [d]) > SilenceLimitUs
  {
    AccumulatorIsTrailingSilence(h);
    assert (h + [d])[..|h + [d]| - 1] == h;
  }

  /** 0.6 s of silence, a short burst of sound, then 0.6 s of silence: no silent
      stretch reaches one second, yet the accumulator as written passes it on
      the third delivery, while the corrected one stays at 0.6 s. */
  lemma InterruptedSilenceExpiresAsWritten()
    ensures var h := [Delivery(true, 600_000), Delivery(false, 10_000)];
      var d := Delivery(true, 600_000);
      && NeverLongSilence(h + [d])
      && SilenceAsWritten(AccumulatedAsWritten(h), d.silent, d.durationUs).expired
      && !SilenceTrack(Accumulated(h), d.silent, d.durationUs).expired
  {
    var h := [Delivery(true, 600_000), Delivery(false, 10_000)];
    var d := Delivery(true, 600_000);
    var g := h + [d];
    assert g[..0] == [];
    assert g[..1] == [Delivery(true, 600_000)];
    assert g[..2] == h;
    assert g[..3] == g;
    assert h[..1] == [Delivery(true, 600_000)];
    assert [Delivery(true, 600_000)][..0] == [];
    assert g[..2][..1] == g[..1];
    assert g[..3][..2] == h;
    assert TrailingSilence(g) == 600_000;
    assert NeverLongSilence(g);
    assert AccumulatedAsWritten(h) == 600_000;
    assert Accumulated(h) == 0;
  }
}
