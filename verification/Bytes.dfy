/** Bytes and the numbers they stand for. */
module Bytes {
  type Bytes = seq<bv8>

  function Num(b: bv8): (n: nat)
    ensures n < 256
  {
    b as nat
  }

  /** The byte that stands for n, built from its binary digits. */
  function Byte(n: nat): bv8
    requires n < 256
  {
    if n == 0 then 0 else if n % 2 == 1 then (Byte(n / 2) << 1) | 1 else Byte(n / 2) << 1
  }

  lemma Doubled(b: bv8)
    requires Num(b) < 128
    ensures Num(b << 1) == 2 * Num(b) && Num((b << 1) | 1) == 2 * Num(b) + 1
  {
  }

  lemma {:induction false} ByteRoundTrip(n: nat)
    requires n < 256
    ensures Num(Byte(n)) == n
  {
    hide Num;
    if n == 0 {
      NumZero();
    } else {
      ByteRoundTrip(n / 2);
      Doubled(Byte(n / 2));
    }
  }

  lemma NumZero()
    ensures Num(0) == 0
  {
  }

  /** Pieces put together again. */
  function Flatten(pieces: seq<Bytes>): Bytes {
    if pieces == [] then [] else Flatten(pieces[..|pieces| - 1]) + pieces[|pieces| - 1]
  }

  /** Writes data into a buffer. */
  method Copy<T>(buffer: array<T>, at: nat, data: seq<T>)
    requires at + |data| <= buffer.Length
    modifies buffer
    ensures buffer[..at + |data|] == old(buffer[..at]) + data
    ensures forall j | at + |data| <= j < buffer.Length :: buffer[j] == old(buffer[j])
    ensures buffer[..] == old(buffer[..at]) + data + old(buffer[at + |data|..])
  {
    for i := 0 to |data|
      invariant buffer[..at + i] == old(buffer[..at]) + data[..i]
      invariant forall j | at + i <= j < buffer.Length :: buffer[j] == old(buffer[j])
    {
      buffer[at + i] := data[i];
    }
  }
}
