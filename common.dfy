/** Types shared by every part of the model. */
module Common {

  /** One byte of file data or of output (a `char` in the C program). */
  newtype Byte = b: int | 0 <= b < 0x100

  /** A value that may be absent. */
  datatype Option<+T> = None | Some(value: T)

  /** A prefix followed by the slice right after it is the longer prefix. */
  lemma PrefixThenSlice<T>(s: seq<T>, i: nat, j: nat)
    requires i <= j <= |s|
    ensures s[..i] + s[i..j] == s[..j]
  {
  }
}
