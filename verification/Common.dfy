/** Types shared by the models: identifiers, byte strings and their order, and results. */
module Common {

  /** A 32-byte identifier, read as a big-endian number: comparing two of these
      numbers is comparing the two byte arrays. */
  type ID = nat

  type byte = x: int | 0 <= x < 256
  type Bytes = seq<byte>

  datatype Option<+T> = None | Some(value: T)

  datatype Result<+T, +E> = Success(value: T) | Failure(error: E)

  const TWO_64: nat := 0x1_0000_0000_0000_0000

  ghost predicate NoDuplicates<T>(s: seq<T>) {
    forall i, j :: 0 <= i < j < |s| ==> s[i] != s[j]
  }

  /** `bytes.Compare(a, b) == -1`. */
  predicate BytesLess(a: Bytes, b: Bytes) {
    |b| > 0 && (|a| == 0 || a[0] < b[0] || (a[0] == b[0] && BytesLess(a[1..], b[1..])))
  }

  lemma BytesLessIrreflexive(a: Bytes)
    ensures !BytesLess(a, a)
  {
    if |a| > 0 { BytesLessIrreflexive(a[1..]); }
  }

  lemma BytesLessTransitive(a: Bytes, b: Bytes, c: Bytes)
    requires BytesLess(a, b) && BytesLess(b, c)
    ensures BytesLess(a, c)
  {
    if |a| > 0 && a[0] == b[0] == c[0] { BytesLessTransitive(a[1..], b[1..], c[1..]); }
  }

  lemma {:induction false} BytesLessTotal(a: Bytes, b: Bytes)
    ensures BytesLess(a, b) || a == b || BytesLess(b, a)
  {
    if |a| > 0 && |b| > 0 && a[0] == b[0] {
      BytesLessTotal(a[1..], b[1..]);
      assert a == [a[0]] + a[1..] && b == [b[0]] + b[1..];
    }
  }
}
