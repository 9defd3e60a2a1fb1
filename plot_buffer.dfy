/** The value buffering of `PlotBuffer`: per channel, a bounded first-in
    first-out buffer of the values received, and the test of whether data has
    arrived for every channel.

    The DOM side of the class (finding the elements, the MutationObserver, the
    attributes it reads) is not modelled: the constructor takes the channel
    names the elements resolved to, and the metadata and value arrays arrive as
    arguments of the methods the mutation handler calls. */
module WicaPlotBuffer {
  import opened Wrappers
  import opened Json5Values

  /** A received channel value; only its `val` field is observed, and JSON
      `null` there means that the channel has no value. */
  datatype ChannelValue = ChannelValue(val: Slot)

  /** `this.valueMap[channelName].push(...)` on a channel the constructor did not
      register throws a TypeError. */
  datatype BufferError = UnknownChannel

  /** The longest suffix of `held + received` that fits in `max` entries: what
      the buffer holds after the pushes and shifts of one update. */
  function Buffered(held: seq<ChannelValue>, received: seq<ChannelValue>, max: nat): seq<ChannelValue> {
    var all := held + received;
    if |all| <= max then all else all[|all| - max..]
  }

  /** `isDataAvailable()`: metadata and values have arrived, there is at least
      one channel, and every channel's most recent value is not null. */
  ghost predicate Ready(metadata: map<string, Slot>, values: map<string, seq<ChannelValue>>) {
    |metadata| > 0 && |values| > 0 &&
    forall ch :: ch in values ==> ChannelReady(values[ch])
  }

  /** A channel is ready when its newest value is not null. */
  predicate ChannelReady(buffer: seq<ChannelValue>) {
    |buffer| > 0 && buffer[|buffer| - 1].val != NullV
  }

  class PlotBuffer {
    const maximumBufferSize: nat
    var metadataMap: map<string, Slot>
    var valueMap: map<string, seq<ChannelValue>>

    /** The part of the constructor that sets up the maps: every channel name
        that one of the elements resolved to gets an empty buffer. */
    constructor (channelNames: seq<string>, maximumBufferSize: nat)
      ensures this.maximumBufferSize == maximumBufferSize
      ensures metadataMap == map[]
      ensures valueMap.Keys == set ch | ch in channelNames
      ensures forall ch :: ch in valueMap ==> valueMap[ch] == []
    {
      this.maximumBufferSize := maximumBufferSize;
      metadataMap := map[];
      var m: map<string, seq<ChannelValue>> := map[];
      for i := 0 to |channelNames|
        invariant m.Keys == set ch | ch in channelNames[..i]
        invariant forall ch :: ch in m ==> m[ch] == []
      {
        assert channelNames[..i + 1] == channelNames[..i] + [channelNames[i]];
        m := m[channelNames[i] := []];
      }
      assert channelNames[..|channelNames|] == channelNames;
      valueMap := m;
    }

    /** `this.metadataMap[channelName] = metadata` in the mutation handler. */
    method SetChannelMetadata(channelName: string, metadata: Slot)
      modifies this
      ensures metadataMap == old(metadataMap)[channelName := metadata]
      ensures valueMap == old(valueMap)
    {
      metadataMap := metadataMap[channelName := metadata];
    }

    /** `updateBufferedChannelValues_`: push every received value, then shift the
        oldest out while the buffer is over the limit. An unregistered channel
        throws before anything changes. */
    method UpdateBufferedChannelValues(channelName: string, received: seq<ChannelValue>) returns (r: Outcome<BufferError>)
      modifies this
      ensures channelName in old(valueMap) ==>
        r == Pass && valueMap == old(valueMap)[channelName := Buffered(old(valueMap)[channelName], received, maximumBufferSize)]
      ensures channelName !in old(valueMap) ==> r == Fail(UnknownChannel) && valueMap == old(valueMap)
      ensures metadataMap == old(metadataMap)
    {
      if channelName !in valueMap {
        return Fail(UnknownChannel);
      }
      var buffer := valueMap[channelName];
      ghost var all := buffer + received;
      for i := 0 to |received|
        invariant buffer == valueMap[channelName] + received[..i]
      {
        assert received[..i + 1] == received[..i] + [received[i]];
        buffer := buffer + [received[i]];
      }
      assert received[..|received|] == received;
      while |buffer| > maximumBufferSize
        invariant |buffer| >= maximumBufferSize || buffer == all
        invariant buffer == all[|all| - |buffer|..]
        decreases |buffer|
      {
        buffer := buffer[1..];
      }
      valueMap := valueMap[channelName := buffer];
      return Pass;
    }

    /** `isDataAvailable()`: the loop over the buffers stops at the first empty
        one or the first whose newest value is null. */
    method IsDataAvailable() returns (r: bool)
      ensures r == Ready(metadataMap, valueMap)
    {
      if |metadataMap| == 0 || |valueMap| == 0 {
        return false;
      }
      var pending := valueMap.Keys;
      while pending != {}
        invariant pending <= valueMap.Keys
        invariant forall ch :: ch in valueMap && ch !in pending ==> ChannelReady(valueMap[ch])
        decreases pending
      {
        var ch :| ch in pending;
        var buffer := valueMap[ch];
        if |buffer| == 0 {
          return false;
        } else if buffer[|buffer| - 1].val == NullV {
          return false;
        }
        pending := pending - {ch};
      }
      return true;
    }
  }

  // ---------------------------------------------------------------- properties

  /** The buffer never holds more than `max` values, is a suffix of the held
      contents followed by the received values in their order, and loses only
      what does not fit. */
  lemma BufferedBounded(held: seq<ChannelValue>, received: seq<ChannelValue>, max: nat)
    ensures |Buffered(held, received, max)| == if |held| + |received| <= max then |held| + |received| else max
    ensures var all := held + received; Buffered(held, received, max) == all[|all| - |Buffered(held, received, max)|..]
  {
  }

  /** While everything fits, nothing is thrown away. */
  lemma BufferedKeepsAll(held: seq<ChannelValue>, received: seq<ChannelValue>, max: nat)
    requires |held| + |received| <= max
    ensures Buffered(held, received, max) == held + received
  {
  }

  /** The received values are kept in full whenever they fit, and always form
      the end of the buffer. */
  lemma BufferedEndsWithReceived(held: seq<ChannelValue>, received: seq<ChannelValue>, max: nat)
    requires |received| <= max
    ensures var b := Buffered(held, received, max);
      |b| >= |received| && b[|b| - |received|..] == received
  {
    var all := held + received;
    var b := Buffered(held, received, max);
    assert all[|all| - |received|..] == received;
    assert b[|b| - |received|..] == all[|all| - |received|..];
  }

  /** Two updates buffer the same values as one update with both batches. */
  lemma BufferedTwice(held: seq<ChannelValue>, first: seq<ChannelValue>, second: seq<ChannelValue>, max: nat)
    ensures Buffered(Buffered(held, first, max), second, max) == Buffered(held, first + second, max)
  {
    var all := held + first + second;
    assert held + (first + second) == all;
    var b := Buffered(held, first, max);
    assert (held + first) + second == all;
    assert b + second == all[|all| - |b| - |second|..] by {
      assert b == (held + first)[|held + first| - |b|..];
      assert (held + first)[|held + first| - |b|..] == all[|all| - |second| - |b|..|all| - |second|];
      assert all[|all| - |b| - |second|..] == all[|all| - |b| - |second|..|all| - |second|] + all[|all| - |second|..];
    }
  }

  /** With a non-zero limit, an update that receives values leaves the channel
      ready exactly when the newest received value is not null. */
  lemma UpdateReadiness(held: seq<ChannelValue>, received: seq<ChannelValue>, max: nat)
    requires max > 0 && |received| > 0
    ensures ChannelReady(Buffered(held, received, max)) <==> received[|received| - 1].val != NullV
  {
    var b := Buffered(held, received, max);
    var all := held + received;
    assert |b| > 0 && b[|b| - 1] == all[|all| - 1] == received[|received| - 1];
  }

  /** An update with no values changes nothing when the buffer already fits. */
  lemma EmptyUpdateKeeps(held: seq<ChannelValue>, max: nat)
    requires |held| <= max
    ensures Buffered(held, [], max) == held
  {
    assert held + [] == held;
  }

  /** Data stays available across an update of a registered channel with a
      non-zero limit, as long as the newest received value is not null; and an
      update that ends with null makes it unavailable. */
  lemma UpdateKeepsReady(metadata: map<string, Slot>, values: map<string, seq<ChannelValue>>, ch: string,
                         received: seq<ChannelValue>, max: nat)
    requires ch in values && max > 0 && |received| > 0
    ensures var after := values[ch := Buffered(values[ch], received, max)];
      Ready(metadata, values) && received[|received| - 1].val != NullV ==> Ready(metadata, after)
    ensures var after := values[ch := Buffered(values[ch], received, max)];
      received[|received| - 1].val == NullV ==> !Ready(metadata, after)
  {
    UpdateReadiness(values[ch], received, max);
    var after := values[ch := Buffered(values[ch], received, max)];
    assert ch in after && after[ch] == Buffered(values[ch], received, max);
  }
}
