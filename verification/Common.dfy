/** What the parts of the client share. */
module Common {
  import opened Bytes

  datatype Option<T> = None | Some(value: T)

  datatype PeerId = PeerId(ip: string, port: u16)

  datatype InfoHash = InfoHash(underlying: string)

  lemma Assoc<T>(a: seq<T>, b: seq<T>, c: seq<T>)
    ensures (a + b) + c == a + (b + c)
  {
  }
}
