/** The client socket of one connection, as `XLLoopHandler` sees it through
    `self.request`: everything the peer sends over the life of the
    connection, how much of it has been read, and everything sent back.
 */
module Sockets {
  import opened XLoper

  class Connection {
    /** The whole byte stream the peer sends before closing. */
    const input: seq<byte>
    /** How many bytes of `input` have been received. */
    var pos: nat
    /** Every byte sent so far, in order. */
    var output: seq<byte>

    predicate Valid()
      reads this
    {
      pos <= |input|
    }

    constructor (input: seq<byte>)
      ensures Valid()
      ensures this.input == input && pos == 0 && output == []
    {
      this.input := input;
      pos := 0;
      output := [];
    }

    /** `recv(n)` read as exactly `n` bytes.  When fewer remain, the rest
        is consumed and the read fails. */
    method Recv(n: nat) returns (r: Result<seq<byte>>)
      requires Valid()
      modifies this
      ensures Valid() && output == old(output)
      ensures old(pos) + n <= |input| ==> r == Ok(input[old(pos)..old(pos) + n]) && pos == old(pos) + n
      ensures |input| < old(pos) + n ==> r == Fail(EndOfStream) && pos == |input|
    {
      if |input| < pos + n {
        pos := |input|;
        return Fail(EndOfStream);
      }
      r := Ok(input[pos..pos + n]);
      pos := pos + n;
    }

    /** `send(bs)`: the bytes go out in full, after everything sent before. */
    method Send(bs: seq<byte>)
      modifies this
      ensures output == old(output) + bs && pos == old(pos)
    {
      output := output + bs;
    }
  }
}
