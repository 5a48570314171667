/** What the other modules share. */
module Common {

  datatype Option<+T> = None | Some(value: T)

  type Byte = b: int | 0 <= b < 256

  /** A line held at one level for some time, in seconds. */
  datatype Seg = Seg(level: bool, span: real)

  lemma Assoc<A>(x: seq<A>, y: seq<A>, z: seq<A>)
    ensures x + y + z == x + (y + z)
  {
  }

  /** A concatenation taken apart at the front. */
  lemma Front<A>(a: seq<A>, b: seq<A>)
    ensures a == [] ==> a + b == b
    ensures a != [] ==> a + b != [] && (a + b)[0] == a[0] && (a + b)[1..] == a[1..] + b
  {
  }
}
