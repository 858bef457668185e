/** Types and functions that several components share. */
module Prelude {

  type byte = b: int | 0 <= b < 256
  type word = w: int | 0 <= w < 0x10000

  datatype Option<T> = None | Some(value: T)

  /** err_t, as far as it is told apart */
  datatype Err = Ok | Mem | Arg | Val | WouldBlock | InProgress | Already | IsConn | Conn | Clsd | Rst | Abrt | Rte
    | Failed(code: int)

  /** lwip_tolower */
  function Lower(b: byte): byte { if 65 <= b <= 90 then b + 32 else b }

  /** Two characters are the same to it exactly if they differ at most in the case of a letter. */
  lemma LowerFoldsCase(a: byte, b: byte)
    ensures Lower(a) == Lower(b) <==> a == b || (65 <= a <= 90 && b == a + 32) || (65 <= b <= 90 && a == b + 32)
  {
  }

  function Min(a: int, b: int): int { if a < b then a else b }

  function Max(a: int, b: int): int { if a < b then b else a }

  /** s with the bytes at position k. */
  function Splice(s: seq<byte>, k: nat, bytes: seq<byte>): seq<byte>
    requires k + |bytes| <= |s|
  {
    s[..k] + bytes + s[k + |bytes|..]
  }

  /** memcpy between objects that do not overlap */
  method Memcpy(a: array<byte>, at: nat, bytes: seq<byte>)
    requires at + |bytes| <= a.Length
    modifies a
    ensures a[..] == Splice(old(a[..]), at, bytes)
  {
    forall k | 0 <= k < |bytes| {
      a[at + k] := bytes[k];
    }
  }
}
