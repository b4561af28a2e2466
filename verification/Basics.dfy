/** Machine integers, byte strings and the option type shared by every module. */
module Basics {
  /** guint8 */
  type Byte = x: int | 0 <= x < 0x100

  /** guint16 */
  type Word = x: int | 0 <= x < 0x1_0000

  type Bytes = seq<Byte>

  datatype Option<+T> = None | Some(value: T)

  /** Conversion of a gint64 to guint8, modulo 2^8. */
  function ToByte(i: int): Byte { i % 0x100 }

  /** Conversion of a gint64 to guint16, modulo 2^16. */
  function ToWord(i: int): Word { i % 0x1_0000 }

  /** What is lost is a multiple of the range, and nothing within it. */
  lemma {:induction false} Wraps(i: int)
    ensures (i - ToByte(i)) % 0x100 == 0 && (i - ToWord(i)) % 0x1_0000 == 0
    ensures 0 <= i < 0x100 ==> ToByte(i) == i
    ensures 0 <= i < 0x1_0000 ==> ToWord(i) == i
  {
  }

  /** Whether no value occurs twice. */
  ghost predicate Distinct<T>(s: seq<T>) {
    forall i, j :: 0 <= i < j < |s| ==> s[i] != s[j]
  }

  /** Positions below a bound, each once and in order. */
  ghost predicate Ascending(at: seq<nat>, bound: nat) {
    (forall i, j :: 0 <= i < j < |at| ==> at[i] < at[j]) && forall i :: 0 <= i < |at| ==> at[i] < bound
  }

  /** A part of a sequence is its elements at the positions, in order. */
  ghost predicate IsAt<T>(part: seq<T>, whole: seq<T>, at: seq<nat>) {
    |part| == |at| && Ascending(at, |whole|) && forall i :: 0 <= i < |at| ==> part[i] == whole[at[i]]
  }

  /** A part of all but the last element is a part of the whole, with the last element or without. */
  lemma {:induction false} IsAtOneMore<T>(part: seq<T>, whole: seq<T>, at: seq<nat>)
    requires whole != [] && IsAt(part, whole[..|whole| - 1], at)
    ensures IsAt(part, whole, at)
    ensures IsAt(part + [whole[|whole| - 1]], whole, at + [|whole| - 1])
  {
  }
}
