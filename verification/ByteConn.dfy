/** One end of a byte connection, as the protocol routines use it: blocking exact reads and writes. */
module ByteConn {
  import opened Bytes

  /** What has arrived and not been read, and what has been written. */
  class Conn {
    var input: Bytes
    var output: Bytes

    constructor (input: Bytes)
      ensures this.input == input && output == []
    {
      this.input, output := input, [];
    }

    method Write(data: Bytes)
      modifies this`output
      ensures output == old(output) + data
    {
      output := output + data;
    }

    /** io.ReadFull into a buffer of `n` octets; a short input is an error. */
    method ReadFull(n: nat) returns (data: Option<Bytes>)
      modifies this`input
      ensures n <= |old(input)| ==> data == Some(old(input)[..n]) && input == old(input)[n..]
      ensures n > |old(input)| ==> data == None && input == []
    {
      if n <= |input| {
        data := Some(input[..n]);
        input := input[n..];
      } else {
        data := None;
        input := [];
      }
    }
  }
}
