/** The bookkeeping of the audio device's pull callback. Converted audio waits
    in a staging buffer (`frameIndex`, `framesRemaining`); the callback first
    drains it into the device's output, then takes the next decoded frame,
    skips it when it belongs to an old epoch, converts it into the staging
    buffer, and so on until the request is met. Without frames it writes
    silence. One audio frame of the device is one element here. */
module AudioCallback {

  /** A decoded audio frame as the callback sees it: its epoch and the samples
      the resampler makes of it (empty when the resampler produced nothing). */
  datatype AudioFrame = AudioFrame(serial: int, samples: seq<int>)

  function Zeros(n: nat): (z: seq<int>)
    ensures |z| == n && forall i :: 0 <= i < n ==> z[i] == 0
  {
    seq(n, _ => 0)
  }

  /** What one callback produces: the frames written, how many times the
      frame queue's read position moved on (one per decoded frame taken,
      stale or not), and what is left in the staging buffer. */
  datatype Drained = Drained(out: seq<int>, used: nat, staged: seq<int>)

  /** Reference definition of a callback that must deliver `need` frames,
      starting with `staged` in the staging buffer, with `frames` readable in
      the frame queue and `serial` the epoch of the stream's packet queue. */
  function Drain(staged: seq<int>, frames: seq<AudioFrame>, serial: int, need: nat): Drained
    decreases |frames|, need
  {
    if need == 0 then Drained([], 0, staged)
    else if staged != [] then
      var k := if need < |staged| then need else |staged|;
      var r := Drain(staged[k..], frames, serial, need - k);
      Drained(staged[..k] + r.out, r.used, r.staged)
    else if frames == [] then Drained(Zeros(need), 0, [])
    else if frames[0].serial != serial then
      var r := Drain([], frames[1..], serial, need);
      Drained(r.out, r.used + 1, r.staged)
    else if frames[0].samples == [] then Drained([], 1, [])
    else
      var r := Drain(frames[0].samples, frames[1..], serial, need);
      Drained(r.out, r.used + 1, r.staged)
  }

  /** The staged-audio step of `Drain`: `k` staged frames are played first. */
  lemma DrainStagedStep(staged: seq<int>, frames: seq<AudioFrame>, serial: int, need: nat, k: nat)
    requires 0 < need && staged != [] && k == (if need < |staged| then need else |staged|)
    ensures var a := Drain(staged, frames, serial, need);
      var b := Drain(staged[k..], frames, serial, need - k);
      a.out == staged[..k] + b.out && a.used == b.used && a.staged == b.staged
  {
  }

  /** A paused player hears silence; the staged audio is overwritten. */
  function CallbackOutcome(staged: seq<int>, frames: seq<AudioFrame>, serial: int, need: nat, isPaused: bool): Drained {
    if isPaused && need > 0 then Drained(Zeros(need), 0, []) else Drain(staged, frames, serial, need)
  }

  /** The audio of the frames of epoch `serial`, in queue order, up to the
      first one that converts to nothing; frames of other epochs contribute
      nothing. */
  function Audible(frames: seq<AudioFrame>, serial: int): seq<int>
    decreases |frames|
  {
    if frames == [] then []
    else if frames[0].serial != serial then Audible(frames[1..], serial)
    else if frames[0].samples == [] then []
    else frames[0].samples + Audible(frames[1..], serial)
  }

  /** Whether a frame of epoch `serial` that converts to nothing is reached. */
  predicate Stalls(frames: seq<AudioFrame>, serial: int)
    decreases |frames|
  {
    if frames == [] then false
    else if frames[0].serial != serial then Stalls(frames[1..], serial)
    else frames[0].samples == [] || Stalls(frames[1..], serial)
  }

  lemma PrefixExtend(a: seq<int>, b: seq<int>, c: seq<int>, c': seq<int>)
    requires a <= b + c && c <= c'
    ensures a <= b + c'
  {
    assert b + c <= b + c';
  }

  /** Everything a callback writes is, in order, the staged audio, then the
      audio of the current epoch's frames, then silence: nothing is skipped,
      repeated or reordered, and no frame of an old epoch is heard. */
  lemma {:induction false} DrainPlaysInOrder(staged: seq<int>, frames: seq<AudioFrame>, serial: int, need: nat)
    ensures Drain(staged, frames, serial, need).out <= staged + Audible(frames, serial) + Zeros(need)
    decreases |frames|, need
  {
    var d := Drain(staged, frames, serial, need);
    var tail := Audible(frames, serial) + Zeros(need);
    if need == 0 {
    } else if staged != [] {
      var k := if need < |staged| then need else |staged|;
      var r := Drain(staged[k..], frames, serial, need - k);
      DrainPlaysInOrder(staged[k..], frames, serial, need - k);
      assert Zeros(need - k) <= Zeros(need);
      PrefixExtend(r.out, staged[k..] + Audible(frames, serial), Zeros(need - k), Zeros(need));
      assert staged[..k] + (staged[k..] + tail) == staged + tail;
      assert r.out <= staged[k..] + tail;
      assert staged[..k] + r.out <= staged[..k] + (staged[k..] + tail);
    } else if frames == [] {
    } else if frames[0].serial != serial {
      DrainPlaysInOrder([], frames[1..], serial, need);
    } else if frames[0].samples == [] {
    } else {
      DrainPlaysInOrder(frames[0].samples, frames[1..], serial, need);
      assert frames[0].samples + Audible(frames[1..], serial) == Audible(frames, serial);
    }
  }

  /** A callback delivers no more than requested, and all of it unless a
      current-epoch frame converts to nothing. */
  lemma {:induction false} DrainLength(staged: seq<int>, frames: seq<AudioFrame>, serial: int, need: nat)
    ensures |Drain(staged, frames, serial, need).out| <= need
    ensures !Stalls(frames, serial) ==> |Drain(staged, frames, serial, need).out| == need
    decreases |frames|, need
  {
    if need == 0 {
    } else if staged != [] {
      var k := if need < |staged| then need else |staged|;
      DrainLength(staged[k..], frames, serial, need - k);
    } else if frames == [] {
    } else if frames[0].serial != serial {
      DrainLength([], frames[1..], serial, need);
    } else if frames[0].samples == [] {
    } else {
      DrainLength(frames[0].samples, frames[1..], serial, need);
    }
  }

  /** Frames taken from the queue are never more than it held. */
  lemma {:induction false} DrainUsesAvailable(staged: seq<int>, frames: seq<AudioFrame>, serial: int, need: nat)
    ensures Drain(staged, frames, serial, need).used <= |frames|
    ensures need == 0 ==> Drain(staged, frames, serial, need) == Drained([], 0, staged)
    decreases |frames|, need
  {
    if need == 0 {
    } else if staged != [] {
      var k := if need < |staged| then need else |staged|;
      DrainUsesAvailable(staged[k..], frames, serial, need - k);
    } else if frames == [] {
    } else if frames[0].serial != serial {
      DrainUsesAvailable([], frames[1..], serial, need);
    } else if frames[0].samples == [] {
    } else {
      DrainUsesAvailable(frames[0].samples, frames[1..], serial, need);
    }
  }

  /** The loop invariant of the callback: `d0` is the whole callback's
      outcome, `out` what has been written so far, and what is still to come
      is the callback's reference definition from the current state. */
  ghost predicate Accounts(d0: Drained, out: seq<int>, consumed: nat, staged: seq<int>,
                           frames: seq<AudioFrame>, serial: int, remaining: nat)
  {
    && consumed <= |frames|
    && var dc := Drain(staged, frames[consumed..], serial, remaining);
       d0.out == out + dc.out && d0.used == consumed + dc.used && d0.staged == dc.staged
  }

  /** `Accounts` survives a step that writes `written` and leaves the
      reference definition's remainder accounted for by the new state. */
  lemma AccountsStep(d0: Drained, out: seq<int>, written: seq<int>, consumed: nat, consumed': nat,
                     staged: seq<int>, staged': seq<int>, frames: seq<AudioFrame>, serial: int,
                     remaining: nat, remaining': nat)
    requires Accounts(d0, out, consumed, staged, frames, serial, remaining)
    requires consumed <= consumed' <= |frames|
    requires var a := Drain(staged, frames[consumed..], serial, remaining);
      var b := Drain(staged', frames[consumed'..], serial, remaining');
      a.out == written + b.out && a.used == (consumed' - consumed) + b.used && a.staged == b.staged
    ensures Accounts(d0, out + written, consumed', staged', frames, serial, remaining')
  {
    assert out + (written + Drain(staged', frames[consumed'..], serial, remaining').out)
      == (out + written) + Drain(staged', frames[consumed'..], serial, remaining').out;
  }

  /** Progress of the callback's loop within a round of unchanged counters:
      taking a frame for conversion, then having staged audio. */
  function Phase(pending: bool, framesRemaining: int): nat {
    if pending then 0 else if framesRemaining == 0 then 2 else 1
  }

  /** The staging buffer of converted audio, with the read position into it. */
  class AudioStaging {
    const buffer: array<int>
    var frameIndex: int
    var framesRemaining: int

    ghost predicate Valid()
      reads this
    {
      0 <= frameIndex && 0 <= framesRemaining && frameIndex + framesRemaining <= buffer.Length
    }

    /** The converted frames not yet delivered. */
    ghost function Staged(): seq<int>
      reads this, buffer
      requires Valid()
    {
      buffer[frameIndex..frameIndex + framesRemaining]
    }

    constructor (maxFrameCount: nat)
      ensures Valid() && fresh(buffer) && buffer.Length == maxFrameCount && Staged() == []
    {
      buffer := new int[maxFrameCount];
      frameIndex, framesRemaining := 0, 0;
    }

    /** Fills the start of the staging buffer with `n` frames of silence and
        makes them the staged audio. */
    method WriteSilenceSamples(n: int)
      requires Valid() && 0 <= n <= buffer.Length
      modifies this, buffer
      ensures Valid() && Staged() == Zeros(n)
    {
      var i := 0;
      while i < n
        modifies buffer
        invariant 0 <= i <= n
        invariant forall j :: 0 <= j < i ==> buffer[j] == 0
      {
        buffer[i] := 0;
        i := i + 1;
      }
      framesRemaining := n;
      frameIndex := 0;
      assert buffer[0..n] == Zeros(n);
    }

    /** Places the converted samples of one frame in the staging buffer. */
    method StageConverted(samples: seq<int>)
      requires Valid() && |samples| <= buffer.Length
      modifies this, buffer
      ensures Valid() && Staged() == samples
    {
      var i := 0;
      while i < |samples|
        modifies buffer
        invariant 0 <= i <= |samples|
        invariant forall j :: 0 <= j < i ==> buffer[j] == samples[j]
      {
        buffer[i] := samples[i];
        i := i + 1;
      }
      frameIndex := 0;
      framesRemaining := |samples|;
      assert buffer[0..|samples|] == samples;
    }

    /** Copies the first `n` staged frames to `output` at `dest` and moves the
        read position past them. */
    method DeliverStaged(output: array<int>, dest: int, n: int)
      requires Valid() && output != buffer
      requires 0 <= n <= framesRemaining && 0 <= dest && dest + n <= output.Length
      modifies this, output
      ensures Valid()
      ensures output[..dest + n] == old(output[..dest]) + old(Staged())[..n]
      ensures output[dest + n..] == old(output[dest + n..])
      ensures Staged() == old(Staged())[n..]
      ensures framesRemaining == old(framesRemaining) - n
    {
      var i := 0;
      while i < n
        modifies output
        invariant 0 <= i <= n
        invariant output[..dest] == old(output[..dest])
        invariant output[dest + i..] == old(output[dest + i..])
        invariant forall j :: dest <= j < dest + i ==> output[j] == buffer[frameIndex + j - dest]
      {
        output[dest + i] := buffer[frameIndex + i];
        i := i + 1;
      }
      assert output[..dest + n] == old(output[..dest]) + old(Staged())[..n];
      frameIndex := frameIndex + n;
      framesRemaining := framesRemaining - n;
    }
    /** The first half of one round of the callback: when paused, silence is
        staged; then as much of the staged audio as still fits is delivered.
        For a playing stream this is the staged-audio step of `Drain`. */
    method DeliverPhase(isPaused: bool, output: array<int>, result: nat, remaining: nat,
                        ghost rest: seq<AudioFrame>, ghost serial: int)
      returns (result': nat, remaining': nat)
      requires Valid() && output != buffer
      requires 0 < remaining <= buffer.Length && result + remaining <= output.Length
      modifies this, buffer, output
      ensures Valid()
      ensures result' + remaining' == result + remaining && remaining' <= remaining
      ensures output[..result] == old(output[..result])
      ensures output[result'..] == old(output[result'..])
      ensures remaining' > 0 ==> framesRemaining == 0 && !isPaused
      ensures remaining' == remaining ==> old(framesRemaining) == 0
      ensures isPaused ==> remaining' == 0 && output[..result'] == old(output[..result]) + Zeros(remaining) && Staged() == []
      ensures !isPaused ==>
        var a := Drain(old(Staged()), rest, serial, remaining);
        var b := Drain(Staged(), rest, serial, remaining');
        a.out == output[result..result'] + b.out && a.used == b.used && a.staged == b.staged
    {
      if isPaused {
        WriteSilenceSamples(remaining);
      }
      result', remaining' := result, remaining;
      if framesRemaining > 0 {
        var framesToRead := if remaining < framesRemaining then remaining else framesRemaining;
        ghost var staged := Staged();
        DrainStagedStep(staged, rest, serial, remaining, framesToRead);
        DeliverStaged(output, result, framesToRead);
        remaining' := remaining - framesToRead;
        result' := result + framesToRead;
        assert output[..result'][..result] == output[..result];
        assert output[result..result'] == staged[..framesToRead];
        assert Staged() == staged[framesToRead..];
      }
    }

    /** The second half of one round, for a playing stream whose staging buffer
        is empty: the frame taken in the previous round is converted (and the
        round ends for good when it yields nothing); otherwise the next frame
        is skipped when stale or taken for conversion, and silence is staged
        when there is none. This is the frame step of `Drain`. */
    method FetchPhase(pending: bool, consumed: nat, frames: seq<AudioFrame>, serial: int, remaining: nat)
      returns (pending': bool, consumed': nat, stop: bool)
      requires Valid() && framesRemaining == 0 && 0 < remaining <= buffer.Length
      requires consumed <= |frames|
      requires forall i :: 0 <= i < |frames| ==> |frames[i].samples| <= buffer.Length
      requires pending ==> consumed < |frames| && frames[consumed].serial == serial
      modifies this, buffer
      ensures Valid() && consumed <= consumed' <= |frames|
      ensures pending' ==> consumed' < |frames| && frames[consumed'].serial == serial && Staged() == []
      ensures !stop ==> consumed' > consumed || (!pending && (pending' || framesRemaining > 0))
      ensures stop ==> Drain([], frames[consumed..], serial, remaining) == Drained([], consumed' - consumed, [])
      ensures stop ==> Staged() == []
      ensures !stop ==>
        var a := Drain([], frames[consumed..], serial, remaining);
        var b := Drain(Staged(), frames[consumed'..], serial, remaining);
        a.out == b.out && a.used == b.used + (consumed' - consumed) && a.staged == b.staged
    {
      assert Staged() == [];
      pending', consumed', stop := pending, consumed, false;
      if pending {
        var f := frames[consumed];
        pending' := false;
        assert frames[consumed..][1..] == frames[consumed + 1..];
        consumed' := consumed + 1;
        if |f.samples| == 0 {
          stop := true;
          return;
        }
        StageConverted(f.samples);
        return;
      }
      if consumed < |frames| {
        if frames[consumed].serial != serial {
          assert frames[consumed..][1..] == frames[consumed + 1..];
          consumed' := consumed + 1;
          return;
        }
        pending' := true;
        frameIndex := 0;
        return;
      }
      WriteSilenceSamples(remaining);
      assert Drain(Zeros(remaining), [], serial, remaining).out == Zeros(remaining);
    }

    /** One round of the callback's loop: the staged-audio step followed by
        the frame step. `done` says the request is complete or stalled. */
    method Round(isPaused: bool, output: array<int>, result: nat, remaining: nat,
                 pending: bool, consumed: nat, frames: seq<AudioFrame>, serial: int, ghost d0: Drained)
      returns (result': nat, remaining': nat, pending': bool, consumed': nat, done: bool)
      requires Valid() && output != buffer
      requires 0 < remaining <= buffer.Length && result + remaining <= output.Length
      requires consumed <= |frames|
      requires forall i :: 0 <= i < |frames| ==> |frames[i].samples| <= buffer.Length
      requires pending ==> !isPaused && consumed < |frames| && frames[consumed].serial == serial && Staged() == []
      requires !isPaused ==> Accounts(d0, output[..result], consumed, Staged(), frames, serial, remaining)
      modifies this, buffer, output
      ensures Valid() && result' + remaining' == result + remaining && remaining' <= remaining
      ensures output[result'..] == old(output[result'..])
      ensures consumed <= consumed' <= |frames|
      ensures pending' ==> consumed' < |frames| && frames[consumed'].serial == serial && Staged() == []
      ensures isPaused ==>
        && done && consumed' == consumed && Staged() == []
        && output[..result'] == old(output[..result]) + Zeros(remaining)
      ensures !isPaused && done ==> d0 == Drained(output[..result'], consumed', Staged())
      ensures !isPaused && !done ==> Accounts(d0, output[..result'], consumed', Staged(), frames, serial, remaining')
      ensures !done ==> 0 < remaining' && !isPaused
      ensures !done && consumed' == consumed && remaining' == remaining ==>
        Phase(pending', framesRemaining) < Phase(pending, old(framesRemaining))
    {
      ghost var rest := frames[consumed..];
      ghost var before := output[..result];
      result', remaining' := DeliverPhase(isPaused, output, result, remaining, rest, serial);
      assert output[..result'] == before + output[result..result'];
      pending', consumed', done := pending, consumed, false;
      if isPaused {
        done := true;
        return;
      }
      AccountsStep(d0, before, output[result..result'], consumed, consumed, old(Staged()), Staged(),
                   frames, serial, remaining, remaining');
      if remaining' == 0 {
        DrainUsesAvailable(Staged(), rest, serial, 0);
        done := true;
        return;
      }
      ghost var out := output[..result'];
      pending', consumed', done := FetchPhase(pending, consumed, frames, serial, remaining');
      if done {
        assert out + [] == out;
      } else {
        AccountsStep(d0, out, [], consumed, consumed', [], Staged(), frames, serial, remaining', remaining');
        assert out + [] == out;
      }
    }

    /** One pull of the audio device for `frameCount` frames into `output`.
        `frames` are the decoded frames readable in the frame queue (after the
        resampler), `serial` the epoch of the stream's packet queue. Returns
        the frames written and how many times the frame queue's read position
        moved on. A frame taken for conversion is always converted within the
        same call, so nothing is carried over between calls but the staged
        audio. */
    method AudioReadCallback(streamValid: bool, isPaused: bool, frameCount: nat, output: array<int>,
                             frames: seq<AudioFrame>, serial: int)
      returns (result: nat, consumed: nat)
      requires Valid() && output != buffer
      requires frameCount <= output.Length && frameCount <= buffer.Length
      requires forall i :: 0 <= i < |frames| ==> |frames[i].samples| <= buffer.Length
      modifies this, buffer, output
      ensures Valid() && result <= frameCount
      ensures output[result..] == old(output[result..])
      ensures !streamValid ==> result == 0 && consumed == 0 && Staged() == old(Staged())
      ensures streamValid ==>
        var d := CallbackOutcome(old(Staged()), frames, serial, frameCount, isPaused);
        result == |d.out| && output[..result] == d.out && consumed == d.used && Staged() == d.staged
    {
      result, consumed := 0, 0;
      if !streamValid {
        return;
      }
      ghost var d0 := CallbackOutcome(Staged(), frames, serial, frameCount, isPaused);
      assert !isPaused ==> Accounts(d0, output[..0], 0, Staged(), frames, serial, frameCount);
      var remaining := frameCount;
      var pending := false;
      while remaining > 0
        invariant Valid()
        invariant 0 <= remaining <= frameCount && result == frameCount - remaining
        invariant output[result..] == old(output[result..])
        invariant 0 <= consumed <= |frames|
        invariant pending ==> !isPaused && consumed < |frames| && frames[consumed].serial == serial && Staged() == []
        invariant isPaused ==> result == 0 && consumed == 0 && Staged() == old(Staged())
        invariant !isPaused ==> Accounts(d0, output[..result], consumed, Staged(), frames, serial, remaining)
        decreases |frames| - consumed, remaining, Phase(pending, framesRemaining)
      {
        var done;
        result, remaining, pending, consumed, done :=
          Round(isPaused, output, result, remaining, pending, consumed, frames, serial, d0);
        if done {
          break;
        }
      }
      if remaining == 0 {
        DrainUsesAvailable(Staged(), frames[consumed..], serial, 0);
      }
    }
  }
}
