/** A reader whose answers are given in advance, as the relay's loops see one (proxy/socks5.go). */
module ByteSource {
  import opened Bytes

  /** How much the next Read would return of a large enough buffer, and whether it reports an error. Data
      may come together with an error, as io.Reader allows. */
  datatype ReadStep = ReadStep(size: nat, fails: bool)

  /** How many octets the next Read into `max` octets returns. */
  function Taken(unread: Bytes, script: seq<ReadStep>, max: nat): (n: nat)
    ensures n <= max && n <= |unread|
  {
    if script == [] then 0 else Min(script[0].size, Min(max, |unread|))
  }

  predicate Fails(script: seq<ReadStep>) {
    script == [] || script[0].fails
  }

  /** The octets a peer has sent and will send, and how they come out of Read. A run that ends reads
      finitely often, so the answers are a list; after them comes the end of file. */
  class Source {
    var unread: Bytes
    var script: seq<ReadStep>
    ghost var failed: bool    // whether a Read has reported an error

    method Read(max: nat) returns (data: Bytes, err: bool)
      modifies this
      ensures var n := Taken(old(unread), old(script), max);
              data == old(unread)[..n] && unread == old(unread)[n..]
      ensures data + unread == old(unread)
      ensures err == Fails(old(script)) && failed == (old(failed) || err)
      ensures script == if old(script) == [] then [] else old(script)[1..]
    {
      failed := failed || Fails(script);
      if script == [] {
        return [], true;
      }
      var n := script[0].size;
      if n > max {
        n := max;
      }
      if n > |unread| {
        n := |unread|;
      }
      data, err := unread[..n], script[0].fails;
      unread, script := unread[n..], script[1..];
    }
  }
}
