/** The network side of a peer: its state, its bandwidths and what the allocator decides for it. */
module PeerNets {
  import opened Numbers
  import opened PeerStates

  const THROTTLE_COUNTER := 7
  const THROTTLE_SCALE := 32

  class PeerNet {
    var state: PeerState
    var incomingBandwidth: uint32
    var outgoingBandwidth: uint32
    var outgoingEpoch: uint32
    var incomingEpoch: uint32
    var throttle: nat
    var throttleLimit: nat
    var throttleCounter: nat

    constructor ()
      ensures state == Disconnected && incomingBandwidth == 0 && outgoingBandwidth == 0
      ensures outgoingEpoch == 0 && incomingEpoch == 0 && throttle == 32 && throttleLimit == 32 && throttleCounter == 0
    {
      state, incomingBandwidth, outgoingBandwidth := Disconnected, 0, 0;
      outgoingEpoch, incomingEpoch, throttle, throttleLimit, throttleCounter := 0, 0, 32, 32, 0;
    }

    method UpdateSegmentThrottleCounter()
      modifies this`throttleCounter
      ensures throttleCounter == (old(throttleCounter) + THROTTLE_COUNTER) % THROTTLE_SCALE
    {
      throttleCounter := throttleCounter + THROTTLE_COUNTER;
      throttleCounter := throttleCounter % THROTTLE_SCALE;
    }
  }
}
