/** The ready-peer counter of one media track. */
module MediaSource {

  class Source {
    const maxPeers: nat
    var numReadyPeer: nat
    var fileIndex: nat

    constructor (maxPeers: nat)
      ensures this.maxPeers == maxPeers && numReadyPeer == 0 && fileIndex == 0
    {
      this.maxPeers := maxPeers;
      numReadyPeer := 0;
      fileIndex := 0;
    }

    method RemotePeerReady()
      modifies this
      ensures numReadyPeer == (if old(numReadyPeer) < maxPeers then old(numReadyPeer) + 1 else old(numReadyPeer))
      ensures fileIndex == old(fileIndex)
    {
      if numReadyPeer < maxPeers {
        numReadyPeer := numReadyPeer + 1;
      }
    }

    method RemotePeerClosed()
      modifies this
      ensures numReadyPeer == (if old(numReadyPeer) > 0 then old(numReadyPeer) - 1 else 0)
      ensures fileIndex == (if old(numReadyPeer) == 1 then 0 else old(fileIndex))
    {
      if numReadyPeer > 0 {
        numReadyPeer := numReadyPeer - 1;
        if numReadyPeer == 0 {
          fileIndex := 0;
        }
      }
    }
  }
}
