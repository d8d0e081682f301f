/** A byte stream as `recv` hands it over: in non-empty pieces cut anywhere, and then closed. */
module Sockets {
  import opened Bytes

  function Flat(pieces: seq<seq<byte>>): seq<byte> {
    if pieces == [] then [] else pieces[0] + Flat(pieces[1..])
  }

  datatype Received<+T> = Got(value: T) | Closed

  class Socket {
    var pieces: seq<seq<byte>>
    var last: nat // how long the latest piece was

    constructor (pieces: seq<seq<byte>>)
      requires forall p <- pieces :: p != []
      ensures Valid() && this.pieces == pieces && last == 0
    {
      this.pieces, this.last := pieces, 0;
    }

    ghost predicate Valid()
      reads this
    {
      forall p <- pieces :: p != []
    }

    /** Everything the peer sends from here on. */
    ghost function Coming(): seq<byte>
      reads this
    {
      Flat(pieces)
    }

    method Recv() returns (chunk: seq<byte>)
      requires Valid()
      modifies this
      ensures Valid() && last == |chunk|
      ensures chunk + Coming() == old(Coming())
      ensures chunk == [] <==> old(pieces) == []
      ensures chunk != [] ==> chunk == old(pieces)[0] && pieces == old(pieces)[1..]
      ensures |pieces| == if old(pieces) == [] then 0 else |old(pieces)| - 1
    {
      if pieces == [] {
        last := 0;
        return [];
      }
      chunk := pieces[0];
      assert chunk in pieces && forall p <- pieces[1..] :: p in pieces;
      pieces := pieces[1..];
      last := |chunk|;
    }

    /** `while len(buf) < n: buf += s.recv(…)`, giving up when the peer closes. Nothing is asked
        for once there is enough. */
    method Fill(buf: seq<byte>, n: nat) returns (r: Received<seq<byte>>)
      requires Valid()
      modifies this
      ensures Valid()
      ensures r.Got? <==> |buf + old(Coming())| >= n
      ensures r.Got? ==> |r.value| >= n && buf <= r.value && r.value + Coming() == buf + old(Coming())
      ensures r.Got? ==> r.value == buf || |buf| <= |r.value| - last < n
      ensures |buf| >= n ==> pieces == old(pieces) && last == old(last)
      ensures r.Closed? ==> pieces == []
    {
      var have := buf;
      assert |have| >= n ==> |buf + Coming()| >= n;
      while |have| < n
        invariant Valid() && buf <= have && have + Coming() == buf + old(Coming())
        invariant have == buf || |buf| <= |have| - last < n
        invariant have == buf ==> pieces == old(pieces) && last == old(last)
        decreases |pieces|
      {
        var chunk := Recv();
        if chunk == [] {
          assert Coming() == [];
          assert have == buf + old(Coming());
          return Closed;
        }
        assert (have + chunk) + Coming() == have + (chunk + Coming());
        have := have + chunk;
      }
      assert |buf + old(Coming())| == |have| + |Coming()|;
      return Got(have);
    }
  }
}
