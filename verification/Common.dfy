/** What several modules share: an optional value, machine integers, and facts about
    sequences. */
module Common {

  datatype Option<T> = None | Some(value: T)

  const TWO_TO_32 := 0x1_0000_0000
  const TWO_TO_63 := 0x8000_0000_0000_0000
  const TWO_TO_64 := 0x1_0000_0000_0000_0000
  const INT64_MIN := -0x8000_0000_0000_0000
  const INT64_MAX := 0x7fff_ffff_ffff_ffff

  /** A 64-bit pattern read as a signed integer: the result of wrapping arithmetic. */
  function ToInt64(v: int): int {
    var m := v % TWO_TO_64;
    if m >= TWO_TO_63 then m - TWO_TO_64 else m
  }

  lemma Associative<T>(a: seq<T>, b: seq<T>, c: seq<T>)
    ensures a + b + c == a + (b + c)
  {
  }

  lemma NothingAdded<T>(a: seq<T>)
    ensures a + [] == a && [] + a == a
  {
  }

  function Reversed<T>(s: seq<T>): (r: seq<T>)
    ensures |r| == |s|
  {
    seq(|s|, i requires 0 <= i < |s| => s[|s| - 1 - i])
  }

  lemma ReversedAppend<T>(s: seq<T>, x: T)
    ensures Reversed(s + [x]) == [x] + Reversed(s)
  {
  }

  lemma NothingReversed<T>()
    ensures Reversed<T>([]) == []
  {
  }
}
