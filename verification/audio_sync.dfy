/** Drift correction of the audio stream when audio is not the master clock:
    the number of samples wanted from a decoded audio frame is nudged by the
    measured audio/master difference, by at most ten percent. */
module AudioSync {
  import opened Decisions
  import opened Wrappers

  /** No correction when the difference is this large (seconds); the
      measurement is taken as a new start instead. */
  const AV_NOSYNC_THRESHOLD: real := 10.0
  /** Measurements needed before the average is trusted. */
  const AV_AUDIO_DIFF_AVG_NB: int := 20
  /** Largest change of the sample count, in percent. */
  const AV_SAMPLE_CORRECTION_PERCENT_MAX: int := 10

  const TWO_TO_32: int := 0x1_0000_0000

  type uint32 = x: int | 0 <= x < 0x1_0000_0000
  type int32 = x: int | -0x8000_0000 <= x < 0x8000_0000

  /** Unsigned 32-bit wrap-around. */
  function U32(x: int): uint32 {
    x % 0x1_0000_0000
  }

  /** Values already in range are left alone by the wrap-around. */
  lemma U32Identity(x: int)
    requires 0 <= x < TWO_TO_32
    ensures U32(x) == x
  {
  }

  /** Reinterpretation of a 32-bit unsigned value as signed (two's complement). */
  function AsInt32(x: uint32): int32 {
    if x < 0x8000_0000 then x else x - 0x1_0000_0000
  }

  /** Clamps `a` into `[lo, hi]`, testing the lower bound first. */
  function Clip(a: int, lo: int, hi: int): (r: int)
    ensures lo <= hi ==> lo <= r <= hi
    ensures lo <= a <= hi ==> r == a
    ensures r == a || r == lo || r == hi
  {
    if a < lo then lo else if a > hi then hi else a
  }

  /** Lower bound of the corrected count, computed in unsigned 32-bit arithmetic. */
  function MinSampleCount(sampleCount: uint32): int32 {
    AsInt32(U32(sampleCount * (100 - AV_SAMPLE_CORRECTION_PERCENT_MAX)) / 100)
  }

  /** Upper bound of the corrected count, computed in unsigned 32-bit arithmetic. */
  function MaxSampleCount(sampleCount: uint32): int32 {
    AsInt32(U32(sampleCount * (100 + AV_SAMPLE_CORRECTION_PERCENT_MAX)) / 100)
  }

  /** Sample count after correction: the unsigned count plus the signed
      correction (wrapped to 32 bits as the source's mixed arithmetic does),
      clamped to ten percent around the count. */
  function CorrectedSampleCount(sampleCount: uint32, correction: int32): (r: int32)
    ensures sampleCount * 110 < TWO_TO_32 ==> sampleCount * 90 / 100 <= r <= sampleCount * 110 / 100
  {
    BoundsWithoutWrap(sampleCount);
    Clip(AsInt32(U32(sampleCount + correction)), MinSampleCount(sampleCount), MaxSampleCount(sampleCount))
  }

  /** Below the overflow of `sampleCount * 110`, the 32-bit bounds are the
      mathematical ones. */
  lemma BoundsWithoutWrap(sampleCount: uint32)
    ensures sampleCount * 110 < TWO_TO_32 ==>
      MinSampleCount(sampleCount) == sampleCount * 90 / 100 && MaxSampleCount(sampleCount) == sampleCount * 110 / 100
  {
    if sampleCount * 110 < TWO_TO_32 {
      assert 100 - AV_SAMPLE_CORRECTION_PERCENT_MAX == 90 && 100 + AV_SAMPLE_CORRECTION_PERCENT_MAX == 110;
      var lo := sampleCount * 90;
      var hi := sampleCount * 110;
      U32Identity(lo);
      U32Identity(hi);
      assert lo / 100 <= hi / 100 < 0x8000_0000;
    }
  }

  /** Below the 32-bit overflow of the bounds, the correction is applied as is
      when it stays within ten percent, and it never changes the direction:
      a positive correction never shortens, a negative one never lengthens. */
  lemma CorrectionExactWithinBounds(sampleCount: uint32, correction: int32)
    requires sampleCount * 110 < TWO_TO_32 && sampleCount + correction < 0x8000_0000
    ensures var r := CorrectedSampleCount(sampleCount, correction);
      && (sampleCount * 90 / 100 <= sampleCount + correction <= sampleCount * 110 / 100 ==> r == sampleCount + correction)
      && (correction >= 0 ==> sampleCount <= r)
      && (correction <= 0 ==> r <= sampleCount)
  {
    var s := sampleCount + correction;
    assert -0x8000_0000 <= s < 0x8000_0000;
    assert AsInt32(U32(s)) == s;
    BoundsWithoutWrap(sampleCount);
  }

  /** A measured difference takes part in the average only when it is known
      and below the no-sync threshold. */
  predicate UsableDiff(diff: Option<real>) {
    diff.Some? && -AV_NOSYNC_THRESHOLD < diff.value < AV_NOSYNC_THRESHOLD
  }

  /** The running weighted sum of audio/master differences. */
  class AudioDiffAverage {
    var avgCount: int
    var diffCum: real
    /** Decay of the weighted sum per measurement. */
    const avgCoef: real
    /** Smallest average difference that is corrected. */
    const diffThreshold: real

    ghost predicate Valid()
      reads this
    {
      0 <= avgCount <= AV_AUDIO_DIFF_AVG_NB
    }

    constructor (avgCoef: real, diffThreshold: real)
      ensures Valid() && avgCount == 0 && diffCum == 0.0
      ensures this.avgCoef == avgCoef && this.diffThreshold == diffThreshold
    {
      this.avgCoef := avgCoef;
      this.diffThreshold := diffThreshold;
      avgCount, diffCum := 0, 0.0;
    }

    /** The sample count to convert from a frame of `sampleCount` samples.
        `master` is the effective master clock, `diff` the audio clock minus
        the master clock (None when either is unknown), and `correction` the
        difference converted to samples, `(int)(diff * sampleRate)`. */
    method SyncronizeAudio(master: SyncType, diff: Option<real>, correction: int32, sampleCount: uint32)
      returns (r: int32)
      requires Valid()
      modifies this
      ensures Valid()
      ensures sampleCount * 110 < TWO_TO_32 ==> sampleCount * 90 / 100 <= r <= sampleCount * 110 / 100
      ensures master == AudioMaster ==> r == AsInt32(sampleCount) && unchanged(this)
      ensures master != AudioMaster && !UsableDiff(diff) ==>
        r == AsInt32(sampleCount) && avgCount == 0 && diffCum == 0.0
      ensures master != AudioMaster && UsableDiff(diff) ==>
        diffCum == diff.value + avgCoef * old(diffCum)
      ensures master != AudioMaster && UsableDiff(diff) && old(avgCount) < AV_AUDIO_DIFF_AVG_NB ==>
        r == AsInt32(sampleCount) && avgCount == old(avgCount) + 1
      ensures master != AudioMaster && UsableDiff(diff) && old(avgCount) == AV_AUDIO_DIFF_AVG_NB ==>
        && avgCount == AV_AUDIO_DIFF_AVG_NB
        && var avgDiff := diffCum * (1.0 - avgCoef);
           r == if avgDiff >= diffThreshold || -avgDiff >= diffThreshold
                then CorrectedSampleCount(sampleCount, correction) else AsInt32(sampleCount)
    {
      r := AsInt32(sampleCount);
      if master != AudioMaster {
        if UsableDiff(diff) {
          diffCum := diff.value + avgCoef * diffCum;
          if avgCount < AV_AUDIO_DIFF_AVG_NB {
            avgCount := avgCount + 1;
          } else {
            var avgDiff := diffCum * (1.0 - avgCoef);
            if avgDiff >= diffThreshold || -avgDiff >= diffThreshold {
              r := CorrectedSampleCount(sampleCount, correction);
            }
          }
        } else {
          avgCount := 0;
          diffCum := 0.0;
        }
      }
    }
  }
}
