/** How sequences are put together. */
module Sequences {
  lemma {:induction false} Assoc<T>(x: seq<T>, y: seq<T>, z: seq<T>)
    ensures x + y + z == x + (y + z)
  {
  }

  lemma {:induction false} Assoc4<T>(w: seq<T>, x: seq<T>, y: seq<T>, z: seq<T>)
    ensures w + x + y + z == w + (x + y + z)
  {
  }

  lemma {:induction false} Assoc5<T>(v: seq<T>, w: seq<T>, x: seq<T>, y: seq<T>, z: seq<T>)
    ensures v + w + x + y + z == v + (w + x + y + z)
  {
  }

  lemma {:induction false} EmptyBetween<T>(x: seq<T>, y: seq<T>)
    ensures x + [] + y == x + y
  {
  }
}
