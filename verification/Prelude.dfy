/** Byte strings as the Go program handles them, and the option type used for results that may be absent. */
module Prelude {

  // A Go byte is a character code below 256. Every statement below holds for all
  // characters, so in particular for the 256 byte values.
  type Byte = char
  type Bytes = seq<Byte>

  datatype Option<+T> = None | Some(value: T)

  const NUL: Byte := '\U{0}'
  const EOT: Byte := '\U{4}'
  const BEL: Byte := '\U{7}'
  const BS: Byte := '\U{8}'
  const LF: Byte := '\n'
  const CR: Byte := '\r'
  const ESC: Byte := '\U{1B}'
  const DEL: Byte := '\U{7F}'

  function Blanks(n: nat): (s: Bytes)
    ensures |s| == n && forall i :: 0 <= i < n ==> s[i] == ' '
  {
    seq(n, i => ' ')
  }

  /** Positions in a sequence of length `n`, in order and each once. */
  predicate Increasing(positions: seq<nat>, n: nat) {
    && (forall i, j :: 0 <= i < j < |positions| ==> positions[i] < positions[j])
    && forall i :: 0 <= i < |positions| ==> positions[i] < n
  }

  lemma OnePositionMore(positions: seq<nat>, n: nat)
    requires Increasing(positions, n)
    ensures Increasing(positions, n + 1) && Increasing(positions + [n], n + 1)
    ensures forall q :: q in positions + [n] <==> q in positions || q == n
    ensures n !in positions
  {
  }

  lemma Associative<T>(a: seq<T>, b: seq<T>, c: seq<T>)
    ensures a + (b + c) == (a + b) + c
  {
  }
}
