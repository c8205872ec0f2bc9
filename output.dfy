/** The audio output of `audio/output.rs`: a bounded FIFO of samples shared between the
    decode thread (producer) and the device callback (consumer), a volume cell and a
    clear flag. The ring buffer is modelled by its contents, oldest sample first. */
module Output {
  import opened Wrappers
  import opened Numeric

  /** `RING_BUFFER_SIZE`: about 250 ms of stereo audio at 48 kHz. */
  const RingBufferSize: nat := 48000 * 2 / 4

  /** What one callback invocation writes into a device buffer of `n` slots when the FIFO
      holds `buffered`: slot `k` is the `k`-th buffered sample times `vol`, or silence once the
      FIFO has run dry. */
  function CallbackOutput(buffered: seq<real>, n: nat, vol: real): (r: seq<real>)
    ensures |r| == n
  {
    seq(n, k => if 0 <= k < |buffered| then buffered[k] * vol else 0.0)
  }

  class AudioOutput {
    /** What the ring buffer holds, oldest first: the producer pushes at the end, the consumer
        pops at the front. */
    var buffer: seq<real>
    /** The linear volume cell the callback reads. */
    var volume: real
    /** Set by `Clear`, consumed by the next callback. */
    var clearFlag: bool
    const sampleRate: nat
    const channels: nat

    ghost predicate Valid()
      reads this
    {
      |buffer| <= RingBufferSize && 0.0 <= volume <= 1.0
    }

    /** The state `AudioOutput::new` sets up once a device and configuration are found. */
    constructor (sampleRate: nat, channels: nat)
      ensures Valid()
      ensures buffer == [] && volume == 1.0 && !clearFlag
      ensures this.sampleRate == sampleRate && this.channels == channels
    {
      buffer := [];
      volume := 1.0;
      clearFlag := false;
      this.sampleRate := sampleRate;
      this.channels := channels;
    }

    /** Pushes samples until the buffer is full; returns how many it pushed. */
    method Write(samples: seq<real>) returns (written: nat)
      requires Valid()
      modifies this`buffer
      ensures Valid()
      ensures written == MinNat(|samples|, RingBufferSize - |old(buffer)|)
      ensures buffer == old(buffer) + samples[..written]
    {
      written := 0;
      while written < |samples|
        invariant written <= |samples|
        invariant buffer == old(buffer) + samples[..written]
        invariant |buffer| <= RingBufferSize
        decreases |samples| - written
      {
        if |buffer| < RingBufferSize {
          buffer := buffer + [samples[written]];
          written := written + 1;
        } else {
          break;
        }
      }
    }

    /** The consumer's `try_pop`. */
    method TryPop() returns (s: Option<real>)
      requires Valid()
      modifies this`buffer
      ensures Valid()
      ensures old(buffer) == [] ==> s == None && buffer == []
      ensures old(buffer) != [] ==> s == Some(old(buffer)[0]) && buffer == old(buffer)[1..]
    {
      if buffer == [] {
        s := None;
      } else {
        s := Some(buffer[0]);
        buffer := buffer[1..];
      }
    }

    /** The abstract consumer running while the producer sleeps: it pops up to `k` samples and
        returns them in the order it popped them. */
    method Drain(k: nat) returns (popped: seq<real>)
      requires Valid()
      modifies this`buffer
      ensures Valid()
      ensures popped == old(buffer)[..MinNat(k, |old(buffer)|)]
      ensures buffer == old(buffer)[MinNat(k, |old(buffer)|)..]
    {
      popped := [];
      var i := 0;
      while i < k && buffer != []
        invariant i <= k && i <= |old(buffer)|
        invariant popped == old(buffer)[..i] && buffer == old(buffer)[i..]
        invariant Valid()
        decreases k - i
      {
        var s := TryPop();
        popped := popped + [s.value];
        i := i + 1;
      }
    }

    /** Writes all of `samples`, sleeping and retrying while the buffer is full. Each retry after a
        full buffer lets the consumer pop `schedule[i]` samples; when the schedule runs out
        before everything is written the method gives up (`complete` is false). `chunks` are the
        pieces each successful `Write` pushed and `played` what the consumer popped meanwhile. */
    method WriteBlocking(samples: seq<real>, schedule: seq<nat>)
      returns (chunks: seq<seq<real>>, played: seq<real>, complete: bool)
      requires Valid()
      modifies this`buffer
      ensures Valid()
      ensures forall j :: 0 <= j < |chunks| ==> chunks[j] != []
      ensures Concat(chunks) <= samples
      ensures complete <==> Concat(chunks) == samples
      ensures old(buffer) + Concat(chunks) == played + buffer
    {
      chunks, played, complete := [], [], false;
      var remaining := samples;
      var i := 0;
      while remaining != []
        invariant i <= |schedule|
        invariant Valid()
        invariant forall j :: 0 <= j < |chunks| ==> chunks[j] != []
        invariant Concat(chunks) + remaining == samples
        invariant old(buffer) + Concat(chunks) == played + buffer
        decreases |schedule| - i, |remaining|
      {
        ghost var before := buffer;
        var written := Write(remaining);
        if written > 0 {
          ConcatAppend(chunks, remaining[..written]);
          assert played + buffer == (played + before) + remaining[..written];
          chunks := chunks + [remaining[..written]];
          remaining := remaining[written..];
        } else if i < |schedule| {
          ghost var before := buffer;
          var popped := Drain(schedule[i]);
          assert popped + buffer == before;
          played := played + popped;
          i := i + 1;
        } else {
          break;
        }
      }
      complete := remaining == [];
      assert Concat(chunks) + remaining == samples;
    }

    /** `vacant_len` of the producer. */
    method AvailableSpace() returns (space: nat)
      requires Valid()
      ensures space + |buffer| == RingBufferSize
    {
      space := RingBufferSize - |buffer|;
    }

    /** Asks the next callback to drop everything buffered. */
    method Clear()
      modifies this`clearFlag
      ensures clearFlag
    {
      clearFlag := true;
    }

    method SetVolume(vol: real)
      requires Valid()
      modifies this`volume
      ensures Valid()
      ensures volume == Clamp(vol, 0.0, 1.0)
    {
      volume := Clamp(vol, 0.0, 1.0);
    }

    method Volume() returns (vol: real)
      requires Valid()
      ensures vol == volume && 0.0 <= vol <= 1.0
    {
      vol := volume;
    }

    /** The body of the output callback for a device buffer of `n` slots: swap the clear flag
        off, drain everything if it was on, then fill every slot from the FIFO (silence on
        underrun), scaled by the volume read at entry. */
    method Callback(n: nat) returns (data: seq<real>)
      requires Valid()
      modifies this`buffer, this`clearFlag
      ensures Valid() && !clearFlag
      ensures var pending := if old(clearFlag) then [] else old(buffer);
        data == CallbackOutput(pending, n, volume) && buffer == pending[MinNat(n, |pending|)..]
      ensures old(clearFlag) ==> buffer == [] && forall k :: 0 <= k < n ==> data[k] == 0.0
    {
      var vol := volume;
      var wasSet := clearFlag;
      clearFlag := false;
      if wasSet {
        DrainAll();
      }
      data := Fill(n, vol);
    }

    /** `while consumer.try_pop().is_some() {}` */
    method DrainAll()
      requires Valid()
      modifies this`buffer
      ensures Valid() && buffer == []
    {
      while buffer != []
        invariant Valid()
        decreases |buffer|
      {
        var _ := TryPop();
      }
    }

    /** Pops one sample per slot, substituting silence once the FIFO is empty. */
    method Fill(n: nat, vol: real) returns (data: seq<real>)
      requires Valid()
      modifies this`buffer
      ensures Valid()
      ensures data == CallbackOutput(old(buffer), n, vol)
      ensures buffer == old(buffer)[MinNat(n, |old(buffer)|)..]
    {
      ghost var pending := buffer;
      data := [];
      var i := 0;
      while i < n
        invariant i <= n && Valid()
        invariant buffer == pending[MinNat(i, |pending|)..]
        invariant |data| == i
        invariant forall k :: 0 <= k < i ==> data[k] == if k < |pending| then pending[k] * vol else 0.0
        decreases n - i
      {
        var s := TryPop();
        data := data + [s.GetOr(0.0) * vol];
        i := i + 1;
      }
      assert forall k :: 0 <= k < n ==> data[k] == CallbackOutput(pending, n, vol)[k];
    }
  }

  /** The samples a sequence of chunks holds, in order. */
  function Concat(chunks: seq<seq<real>>): seq<real>
  {
    if chunks == [] then [] else Concat(chunks[..|chunks| - 1]) + chunks[|chunks| - 1]
  }

  lemma ConcatAppend(chunks: seq<seq<real>>, c: seq<real>)
    ensures Concat(chunks + [c]) == Concat(chunks) + c
  {
    assert (chunks + [c])[..|chunks|] == chunks;
  }
}
