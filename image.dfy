/** `write_binary` (helpers/asm.py) as the byte sequence it writes: a header
    of five little-endian `u32` element counts, then every word of `code`,
    `row_index`, `col_index`, `values` and `mem`, each as a little-endian
    `u32`, with no padding. `struct.pack('<I', v)` raises for a `v` outside
    `[0, 2^32)`; that is the `Err` case. `ReadImage` is the reader side of
    the layout the VM loader documents (src/main.c). */
module Image {
  import opened Wrappers
  import Assembler

  type Byte = b: int | 0 <= b < 256

  const WORD_LIMIT: nat := 0x1_0000_0000
  const HEADER_BYTES: nat := 20

  /** `struct.error`: a value that does not fit an unsigned 32-bit field. */
  datatype PackError = OutOfRange(value: int)

  /** The little-endian value of four bytes. */
  function UnpackU32(b: seq<Byte>): (v: nat)
    requires |b| == 4
    ensures v < WORD_LIMIT
  {
    (b[0] as int) + 256 * (b[1] as int) + 0x1_0000 * (b[2] as int) + 0x100_0000 * (b[3] as int)
  }

  /** `struct.pack('<I', v)`. */
  function PackU32(v: int): (r: Result<seq<Byte>, PackError>)
    ensures r.Ok? <==> 0 <= v < WORD_LIMIT
    ensures r.Err? ==> r.error == OutOfRange(v)
    ensures r.Ok? ==> |r.value| == 4
  {
    if 0 <= v < WORD_LIMIT then
      Ok([v % 256, (v / 256) % 256, (v / 0x1_0000) % 256, v / 0x100_0000])
    else Err(OutOfRange(v))
  }

  /** Reading back a packed word gives the word. */
  lemma PackThenUnpack(v: int)
    requires 0 <= v < WORD_LIMIT
    ensures UnpackU32(PackU32(v).value) == v
  {
    var b0, q0 := v % 256, v / 256;
    var b1, q1 := q0 % 256, q0 / 256;
    var b2, b3 := q1 % 256, q1 / 256;
    assert v / 0x1_0000 == q1;
    assert v / 0x100_0000 == b3;
    assert q1 == b2 + 256 * b3;
    assert q0 == b1 + 256 * q1;
    assert v == b0 + 256 * q0;
  }

  /** Packing the value of four bytes gives the bytes back: the encoding is
      a bijection between `[0, 2^32)` and four-byte strings. */
  lemma UnpackThenPack(b: seq<Byte>)
    requires |b| == 4
    ensures PackU32(UnpackU32(b)) == Ok(b)
  {
    var v := UnpackU32(b);
    var b0: int, b1: int, b2: int, b3: int := b[0], b[1], b[2], b[3];
    var q1: int := b2 + 256 * b3;
    var q0: int := b1 + 256 * q1;
    assert v == b0 + 256 * q0;
    assert v % 256 == b0 && v / 256 == q0;
    assert q0 % 256 == b1 && q0 / 256 == q1;
    assert q1 % 256 == b2 && q1 / 256 == b3;
    assert v / 0x1_0000 == q1 by {
      assert v == b0 + 256 * b1 + 0x1_0000 * q1;
    }
    assert v / 0x100_0000 == b3 by {
      assert v == (b0 + 256 * b1 + 0x1_0000 * b2) + 0x100_0000 * b3;
    }
    assert (v / 256) % 256 == b1 && (v / 0x1_0000) % 256 == b2;
    assert 0 <= v < WORD_LIMIT;
    assert PackU32(v).value == [b0, b1, b2, b3];
    assert [b0, b1, b2, b3] == b;
  }

  /** `f.write(struct.pack('<I', word))` for every word of a section, in
      order, stopping at the first word that does not fit. */
  function PackWords(ws: seq<int>): (r: Result<seq<Byte>, PackError>)
    ensures r.Ok? ==> |r.value| == 4 * |ws|
    ensures r.Err? ==> exists k :: 0 <= k < |ws| && r.error == OutOfRange(ws[k]) && !(0 <= ws[k] < WORD_LIMIT)
  {
    if |ws| == 0 then Ok([])
    else
      var front :- PackWords(ws[..|ws| - 1]);
      var last :- PackU32(ws[|ws| - 1]);
      Ok(front + last)
  }

  predicate AllFit(ws: seq<int>) {
    forall k :: 0 <= k < |ws| ==> 0 <= ws[k] < WORD_LIMIT
  }

  /** The words of `n` little-endian `u32` fields at the front of `b`. */
  function UnpackWords(b: seq<Byte>, n: nat): (ws: seq<nat>)
    requires |b| >= 4 * n
    ensures |ws| == n
  {
    if n == 0 then []
    else UnpackWords(b, n - 1) + [UnpackU32(b[4 * (n - 1)..4 * n])]
  }

  lemma {:induction false} UnpackWordsPrefix(b: seq<Byte>, c: seq<Byte>, n: nat)
    requires |b| >= 4 * n
    ensures UnpackWords(b + c, n) == UnpackWords(b, n)
  {
    if n > 0 {
      UnpackWordsPrefix(b, c, n - 1);
      assert (b + c)[4 * (n - 1)..4 * n] == b[4 * (n - 1)..4 * n];
    }
  }

  /** A section packs exactly when every word fits, and reads back as the
      same words. */
  lemma PackWordsRoundTrip(ws: seq<int>)
    ensures PackWords(ws).Ok? <==> AllFit(ws)
    ensures PackWords(ws).Ok? ==> UnpackWords(PackWords(ws).value, |ws|) == ws
  {
    PackWordsFit(ws);
    if PackWords(ws).Ok? {
      PackWordsUnpack(ws);
    }
  }

  lemma {:induction false} PackWordsFit(ws: seq<int>)
    ensures PackWords(ws).Ok? <==> AllFit(ws)
  {
    if |ws| > 0 {
      var n := |ws|;
      PackWordsFit(ws[..n - 1]);
      assert AllFit(ws) <==> AllFit(ws[..n - 1]) && 0 <= ws[n - 1] < WORD_LIMIT;
    }
  }

  lemma {:induction false} PackWordsUnpack(ws: seq<int>)
    requires PackWords(ws).Ok?
    ensures UnpackWords(PackWords(ws).value, |ws|) == ws
  {
    if |ws| > 0 {
      var n := |ws|;
      var front := ws[..n - 1];
      var fb := PackWords(front).value;
      var lb := PackU32(ws[n - 1]).value;
      var b := fb + lb;
      assert PackWords(ws).value == b;
      assert UnpackWords(b, n - 1) == front by {
        UnpackWordsPrefix(fb, lb, n - 1);
        PackWordsUnpack(front);
      }
      assert UnpackU32(b[4 * (n - 1)..4 * n]) == ws[n - 1] by {
        assert b[4 * (n - 1)..4 * n] == lb;
        PackThenUnpack(ws[n - 1]);
      }
      assert front + [ws[n - 1]] == ws;
    }
  }

  /** The five element counts, in header order. */
  function Counts(a: Assembler.Assembly): seq<nat> {
    [|a.code|, |a.rowIndex|, |a.colIndex|, |a.values|, |a.mem|]
  }

  /** `write_binary(filename, code, data, mem)`: the bytes written to the
      file, or the `struct.error` that stops it. */
  function WriteBinary(a: Assembler.Assembly): Result<seq<Byte>, PackError> {
    var header :- PackWords(Counts(a));
    var code :- PackWords(a.code);
    var rows :- PackWords(a.rowIndex);
    var cols :- PackWords(a.colIndex);
    var vals :- PackWords(a.values);
    var mem :- PackWords(a.mem);
    Ok(header + code + rows + cols + vals + mem)
  }

  /** `n` words off the front of `b`, and the bytes after them. */
  function TakeWords(b: seq<Byte>, n: nat): (r: Option<(seq<nat>, seq<Byte>)>)
    ensures r.Some? <==> |b| >= 4 * n
    ensures r.Some? ==> |r.value.0| == n && r.value.1 == b[4 * n..]
  {
    if |b| < 4 * n then None else Some((UnpackWords(b[..4 * n], n), b[4 * n..]))
  }

  /** What the loader reads: five counts, then as many words per section as
      its count says; `None` when the bytes run out. */
  function ReadImage(b: seq<Byte>): Option<Assembler.Assembly> {
    if |b| < HEADER_BYTES then None
    else
      var counts := UnpackWords(b[..HEADER_BYTES], 5);
      var code :- TakeWords(b[HEADER_BYTES..], counts[0]);
      var rows :- TakeWords(code.1, counts[1]);
      var cols :- TakeWords(rows.1, counts[2]);
      var vals :- TakeWords(cols.1, counts[3]);
      var mem :- TakeWords(vals.1, counts[4]);
      Some(Assembler.Assembly(code.0, rows.0, cols.0, vals.0, mem.0))
  }

  /** A packed section is read back off the front of whatever follows it. */
  lemma TakePacked(ws: seq<int>, rest: seq<Byte>)
    requires PackWords(ws).Ok?
    ensures TakeWords(PackWords(ws).value + rest, |ws|) == Some((ws, rest))
  {
    var p := PackWords(ws).value;
    PackWordsRoundTrip(ws);
    assert (p + rest)[..4 * |ws|] == p;
    assert (p + rest)[4 * |ws|..] == rest;
  }

  /** Every section fits `u32` words, and so does every count. */
  predicate Writable(a: Assembler.Assembly) {
    AllFit(Counts(a)) && AllFit(a.code) && AllFit(a.rowIndex) && AllFit(a.colIndex)
    && AllFit(a.values) && AllFit(a.mem)
  }

  /** `write_binary` completes exactly when every count and every word fits
      in 32 bits; it then writes 20 header bytes and four bytes per element. */
  lemma WriteBinaryOutcome(a: Assembler.Assembly)
    ensures WriteBinary(a).Ok? <==> Writable(a)
    ensures WriteBinary(a).Ok? ==>
      |WriteBinary(a).value| == HEADER_BYTES + 4 * (|a.code| + |a.rowIndex| + |a.colIndex| + |a.values| + |a.mem|)
  {
    PackWordsRoundTrip(Counts(a));
    PackWordsRoundTrip(a.code);
    PackWordsRoundTrip(a.rowIndex);
    PackWordsRoundTrip(a.colIndex);
    PackWordsRoundTrip(a.values);
    PackWordsRoundTrip(a.mem);
  }

  /** The header holds the five counts and each section sits where the
      counts before it say, so the loader reads back what was written. */
  lemma ImageRoundTrip(a: Assembler.Assembly)
    requires WriteBinary(a).Ok?
    ensures ReadImage(WriteBinary(a).value) == Some(a)
  {
    var h, c, r, i, v, m :=
      PackWords(Counts(a)).value, PackWords(a.code).value, PackWords(a.rowIndex).value,
      PackWords(a.colIndex).value, PackWords(a.values).value, PackWords(a.mem).value;
    var b := WriteBinary(a).value;
    assert b == h + (c + (r + (i + (v + (m + [])))));
    PackWordsRoundTrip(Counts(a));
    assert |h| == HEADER_BYTES;
    assert b[..HEADER_BYTES] == h && b[HEADER_BYTES..] == c + (r + (i + (v + (m + []))));
    TakePacked(a.code, r + (i + (v + (m + []))));
    TakePacked(a.rowIndex, i + (v + (m + [])));
    TakePacked(a.colIndex, v + (m + []));
    TakePacked(a.values, m + []);
    TakePacked(a.mem, []);
  }
}
