/** The in-process byte pipe of `lora_transport.py`. */
module SerialPipe {
  import opened Common
  import opened Bytes

  function Flat<T>(chunks: seq<seq<T>>): seq<T> {
    if chunks == [] then [] else Flat(chunks[..|chunks| - 1]) + chunks[|chunks| - 1]
  }

  lemma {:induction false} FlatConcat<T>(a: seq<seq<T>>, b: seq<seq<T>>)
    ensures Flat(a + b) == Flat(a) + Flat(b)
  {
    if b == [] {
      assert a + b == a;
    } else {
      var n := |b| - 1;
      assert (a + b)[..|a| + n] == a + b[..n];
      FlatConcat(a, b[..n]);
    }
  }

  lemma FlatFirst<T>(chunks: seq<seq<T>>)
    requires chunks != []
    ensures Flat(chunks) == chunks[0] + Flat(chunks[1..])
  {
    assert chunks == [chunks[0]] + chunks[1..];
    FlatConcat([chunks[0]], chunks[1..]);
    assert Flat([chunks[0]]) == chunks[0];
  }

  class Pipe {
    var inbound: seq<seq<Byte>>
    var closed: bool
    var peer: Pipe?

    constructor ()
      ensures inbound == [] && !closed && peer == null
    {
      inbound, closed, peer := [], false, null;
    }

    /** The bytes waiting to be read here, in order. */
    function Contents(): seq<Byte>
      reads this
    {
      Flat(inbound)
    }

    /** None is the OSError of a closed pipe. */
    method Write(data: seq<Byte>) returns (n: Option<nat>)
      modifies peer
      ensures n == if closed then None else if peer == null || old(peer.closed) then Some(0) else Some(|data|)
      ensures peer != null ==> peer.closed == old(peer.closed)
      ensures peer != null ==> peer.peer == old(peer.peer)
      ensures peer != null ==>
                peer.Contents() == (if closed || peer.closed then old(peer.Contents()) else old(peer.Contents()) + data)
    {
      if closed { return None; }
      if peer == null || peer.closed { return Some(0); }
      FlatConcat(peer.inbound, [data]);
      assert Flat([data]) == data;
      peer.inbound := peer.inbound + [data];
      return Some(|data|);
    }

    /** Takes the next n bytes, or as many as there are; all of them when n <= 0. What is left keeps its order. */
    method Read(n: int) returns (data: seq<Byte>)
      modifies `inbound
      ensures closed ==> data == [] && Contents() == old(Contents())
      ensures !closed ==> data + Contents() == old(Contents())
      ensures !closed ==> |data| == if n <= 0 then |old(Contents())| else Min(n, |old(Contents())|)
    {
      if closed || inbound == [] { return []; }
      if n <= 0 {
        data := Flat(inbound);
        inbound := [];
        return;
      }
      data := [];
      while inbound != [] && |data| < n
        invariant |data| <= n
        invariant data + Flat(inbound) == old(Contents())
        decreases n - |data|, |inbound|
      {
        var chunk := inbound[0];
        var need := n - |data|;
        FlatFirst(inbound);
        if |chunk| <= need {
          data := data + chunk;
          inbound := inbound[1..];
        } else {
          data := data + chunk[..need];
          assert chunk == chunk[..need] + chunk[need..];
          ghost var rest := inbound[1..];
          inbound := inbound[0 := chunk[need..]];
          assert inbound[1..] == rest;
          FlatFirst(inbound);
        }
      }
    }
  }
}
