/** Datatypes shared by the models of the individual services. */
module Prelude {

  /** A value that may be absent: JavaScript's `null` or `undefined`. */
  datatype Option<+T> = None | Some(value: T)

  /** The value of a call, or the error it throws. */
  datatype Result<+T, +E> = Ok(value: T) | Err(error: E)

  /** The position of an id, or the length of the list when it is not there. */
  function IndexOf(ids: seq<string>, id: string): (i: nat)
    ensures i <= |ids|
    ensures i < |ids| ==> ids[i] == id
    ensures i == |ids| <==> id !in ids
    ensures forall j :: 0 <= j < i ==> ids[j] != id
  {
    if ids == [] then 0 else if ids[0] == id then 0 else 1 + IndexOf(ids[1..], id)
  }

  function Max(a: int, b: int): (m: int)
    ensures m >= a && m >= b && m in {a, b}
  {
    if a < b then b else a
  }

  /** `Math.ceil(n / 1000)` and `Math.floor(n / 1000)`: milliseconds to whole seconds. */
  function CeilSeconds(ms: int): (s: int)
    ensures 1000 * (s - 1) < ms <= 1000 * s
  {
    -((-ms) / 1000)
  }

  function FloorSeconds(ms: int): (s: int)
    ensures 1000 * s <= ms < 1000 * (s + 1)
  {
    ms / 1000
  }

  /** Strings in lexicographic order. */
  predicate LexLeq(a: string, b: string) {
    a == [] || (b != [] && (a[0] < b[0] || (a[0] == b[0] && LexLeq(a[1..], b[1..]))))
  }

  lemma {:induction false} LexOrder(a: string, b: string, c: string)
    ensures LexLeq(a, b) || LexLeq(b, a)
    ensures LexLeq(a, b) && LexLeq(b, a) ==> a == b
    ensures LexLeq(a, b) && LexLeq(b, c) ==> LexLeq(a, c)
  {
    if a != [] && b != [] && c != [] {
      LexOrder(a[1..], b[1..], c[1..]);
    } else if a != [] && b != [] {
      LexOrder(a[1..], b[1..], []);
    }
    if a != [] && b != [] && a[0] == b[0] && a[1..] == b[1..] {
      assert a == [a[0]] + a[1..] == b;
    }
  }
}
