/** `fix_siemens_norm_EOL`: the byte rewrite that turns every carriage
    return of a Siemens normalisation header into a line feed, so that STIR
    can read it. The same function appears verbatim in
    SIRF_data_preparation/data_utilities.py, lib/data_utilities/__init__.py,
    lib/sirf_exercises/__init__.py and
    src/SIRF_data_preparation/data_preparation_setup.py; it is modelled once.
    Reading and writing the files is not modelled: the method works on the
    `bytearray` in memory. */
module SiemensNorm {

  newtype byte = b: int | 0 <= b < 256

  const CR: byte := 13  // '\r'
  const LF: byte := 10  // '\n'

  function FixByte(b: byte): byte { if b == CR then LF else b }

  /** The rewritten contents, built up from the front. */
  function Fixed(s: seq<byte>): seq<byte>
  {
    if s == [] then [] else Fixed(s[..|s| - 1]) + [FixByte(s[|s| - 1])]
  }

  /** The rewrite keeps the length of the data. */
  lemma {:induction false} FixedLength(s: seq<byte>)
    ensures |Fixed(s)| == |s|
  {
    if s != [] { FixedLength(s[..|s| - 1]); }
  }

  /** Byte 13 becomes 10 and every other byte stays where it was. */
  lemma {:induction false} FixedAt(s: seq<byte>, i: nat)
    requires i < |s|
    ensures |Fixed(s)| == |s|
    ensures Fixed(s)[i] == if s[i] == CR then LF else s[i]
  {
    FixedLength(s);
    if i < |s| - 1 {
      FixedLength(s[..|s| - 1]);
      FixedAt(s[..|s| - 1], i);
    }
  }

  /** No carriage return is left. */
  lemma NoCarriageReturnLeft(s: seq<byte>)
    ensures CR !in Fixed(s)
  {
    FixedLength(s);
    forall i | 0 <= i < |s| ensures Fixed(s)[i] != CR {
      FixedAt(s, i);
    }
  }

  /** Applying the rewrite twice is the same as applying it once. */
  lemma FixedIdempotent(s: seq<byte>)
    ensures Fixed(Fixed(s)) == Fixed(s)
  {
    var t := Fixed(s);
    FixedLength(s);
    FixedLength(t);
    forall i | 0 <= i < |t| ensures Fixed(t)[i] == t[i] {
      FixedAt(t, i);
      FixedAt(s, i);
    }
  }

  /** The `for i in range(len(data))` loop, rewriting `data` in place. */
  method FixSiemensNormEol(data: array<byte>)
    modifies data
    ensures data[..] == Fixed(old(data[..]))
  {
    ghost var orig := data[..];
    for i := 0 to data.Length
      invariant data[..i] == Fixed(orig[..i])
      invariant forall j :: i <= j < data.Length ==> data[j] == orig[j]
    {
      ghost var done := data[..i];
      assert orig[..i + 1][..i] == orig[..i];
      if data[i] == CR {
        data[i] := LF;
      }
      assert data[..i] == done;
      assert data[..i + 1] == done + [FixByte(orig[i])];
    }
    assert data[..] == data[..data.Length];
    assert orig == orig[..data.Length];
  }
}
