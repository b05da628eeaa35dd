/**
 * The light-field header: a fixed-order record at the start of the
 * bitstream holding the geometry and the global coding parameters,
 * read by `decoder::decode_header`.
 */
module Header {
  import opened Bytes
  import opened Wrappers

  /** The twelve header fields, in stream order. */
  datatype Header = Header(
    numberOfViews: int32,
    numberOfRows: int32,
    numberOfColumns: int32,
    minimumDepth: uint16,
    colorspaceCode: byte,
    maxh: int32,
    ncSparse: byte,
    ncMerge: byte,
    spB: byte,
    ncColorRef: byte,
    nSegIterations: byte,
    useDeflate: byte)

  /**
   * A successful parse: the fields, the colorspace name the decoder keeps
   * afterwards, the stream after the header, and the running byte counter
   * `n_bytes_prediction` after the header's reads, each read counted at
   * its own width.
   */
  datatype Parsed = Parsed(header: Header, colorspace: string, rest: seq<byte>, counter: int)

  datatype HeaderError =
    | Truncated           // fewer bytes than one header
    | DeflateWithoutGzip  // deflate flag set but no gzip path configured: the decoder quits

  /** Bytes each field occupies in the stream (the `sizeof` passed to fread). */
  const FieldWidths: seq<nat> := [4, 4, 4, 2, 1, 4, 1, 1, 1, 1, 1, 1]

  /** The `sizeof` each read multiplies into the byte counter; maxh's is 1, not 4. */
  const CountedWidthsAsWritten: seq<nat> := [4, 4, 4, 2, 1, 1, 1, 1, 1, 1, 1, 1]

  const HeaderSize := 25

  function Sum(s: seq<nat>): nat
  {
    if |s| == 0 then 0 else s[0] + Sum(s[1..])
  }

  /**
   * Name kept for the colorspace: enumerator 0 is RGB, 1 is YCbCr, and any
   * other value leaves the previously held name in place.
   */
  function ColorspaceName(code: byte, prior: string): (r: string)
    ensures ColorspaceCode(r) == (if code <= 1 then Some(code) else ColorspaceCode(prior))
    ensures code > 1 ==> r == prior
  {
    if code == 0 then "RGB" else if code == 1 then "YCbCr" else prior
  }

  /** The enumerator that names a colorspace, if the name is one of the two. */
  function ColorspaceCode(name: string): Option<byte>
  {
    if name == "RGB" then Some(0) else if name == "YCbCr" then Some(1) else None
  }

  /** The header as the encoder writes it. */
  function Encode(h: Header): (s: seq<byte>)
    ensures |s| == HeaderSize
  {
    EncodeI32(h.numberOfViews) + EncodeI32(h.numberOfRows) + EncodeI32(h.numberOfColumns)
      + EncodeU16(h.minimumDepth) + [h.colorspaceCode] + EncodeI32(h.maxh)
      + [h.ncSparse, h.ncMerge, h.spB, h.ncColorRef, h.nSegIterations, h.useDeflate]
  }

  /** Field extraction from exactly one header's worth of bytes. */
  function Decode(s: seq<byte>): Header
    requires |s| == HeaderSize
  {
    Header(
      DecodeI32(s[0..4]), DecodeI32(s[4..8]), DecodeI32(s[8..12]),
      DecodeU16(s[12..14]), s[14], DecodeI32(s[15..19]),
      s[19], s[20], s[21], s[22], s[23], s[24])
  }

  /**
   * decode_header over a byte stream: `prior` is the colorspace name held
   * before the call, `gzipPath` the configured gzip tool, `counter` the
   * byte counter on entry.
   */
  function Parse(bytes: seq<byte>, prior: string, gzipPath: string, counter: int): (r: Result<Parsed, HeaderError>)
    ensures r == Err(Truncated) <==> |bytes| < HeaderSize
    ensures r == Err(DeflateWithoutGzip) <==>
      |bytes| >= HeaderSize && bytes[HeaderSize - 1] != 0 && |gzipPath| == 0
    ensures r.Ok? ==> Encode(r.value.header) == bytes[..HeaderSize]
    ensures r.Ok? ==> r.value.rest == bytes[HeaderSize..] && |r.value.rest| == |bytes| - HeaderSize
    ensures r.Ok? ==> r.value.colorspace == ColorspaceName(r.value.header.colorspaceCode, prior)
    ensures r.Ok? ==> r.value.counter - counter == |bytes| - |r.value.rest|
  {
    if |bytes| < HeaderSize then
      Err(Truncated)
    else
      var h := Decode(bytes[..HeaderSize]);
      if h.useDeflate != 0 && |gzipPath| == 0 then
        Err(DeflateWithoutGzip)
      else
        EncodeDecode(bytes[..HeaderSize]);
        FieldWidthsFillHeader();
        Ok(Parsed(h, ColorspaceName(h.colorspaceCode, prior), bytes[HeaderSize..],
                  counter + Sum(FieldWidths)))
  }

  lemma EncodeDecode(s: seq<byte>)
    requires |s| == HeaderSize
    ensures Encode(Decode(s)) == s
  {
    I32Encode(s[0..4]);
    I32Encode(s[4..8]);
    I32Encode(s[8..12]);
    U16Encode(s[12..14]);
    I32Encode(s[15..19]);
    assert s == s[0..4] + s[4..8] + s[8..12] + s[12..14] + [s[14]] + s[15..19]
      + [s[19], s[20], s[21], s[22], s[23], s[24]];
  }

  lemma DecodeEncode(h: Header)
    ensures Decode(Encode(h)) == h
  {
  }

  /**
   * Round trip: an encoded header followed by anything parses back to the
   * same fields and leaves exactly the following bytes, unless the deflate
   * flag is set without a gzip path.
   */
  lemma ParseEncode(h: Header, rest: seq<byte>, prior: string, gzipPath: string, counter: int)
    requires h.useDeflate == 0 || |gzipPath| > 0
    ensures Parse(Encode(h) + rest, prior, gzipPath, counter)
         == Ok(Parsed(h, ColorspaceName(h.colorspaceCode, prior), rest, counter + HeaderSize))
  {
    var bytes := Encode(h) + rest;
    assert bytes[..HeaderSize] == Encode(h);
    assert bytes[HeaderSize..] == rest;
    DecodeEncode(h);
    FieldWidthsFillHeader();
    assert Parse(bytes, prior, gzipPath, counter)
        == Ok(Parsed(h, ColorspaceName(h.colorspaceCode, prior), bytes[HeaderSize..], counter + Sum(FieldWidths)));
  }

  /** A set deflate flag with no gzip path is fatal whatever else the header says. */
  lemma DeflateNeedsGzip(h: Header, rest: seq<byte>, prior: string, counter: int)
    requires h.useDeflate != 0
    ensures Parse(Encode(h) + rest, prior, "", counter) == Err(DeflateWithoutGzip)
  {
  }

  /** The fields laid end to end fill the header exactly. */
  lemma FieldWidthsFillHeader()
    ensures Sum(FieldWidths) == HeaderSize
  {
  }

  /** The counter after the header's reads as decode_header writes them. */
  function CounterAsWritten(counter: int): int
  {
    counter + Sum(CountedWidthsAsWritten)
  }

  /**
   * As written, the counter advances by 22 for a 25-byte header: the
   * int32 `maxh` read is multiplied by `sizeof(uint8_t)`, and every other
   * read is counted at its own width.
   */
  lemma CounterMiscountsMaxh(counter: int)
    ensures CounterAsWritten(counter) == counter + HeaderSize - 3
    ensures CountedWidthsAsWritten == FieldWidths[5 := 1] && FieldWidths[5] == 4
  {
    AsWrittenSum();
    AsWrittenWidths();
  }

  lemma AsWrittenSum()
    ensures Sum(CountedWidthsAsWritten) == 22
  {
  }

  lemma AsWrittenWidths()
    ensures CountedWidthsAsWritten == FieldWidths[5 := 1] && FieldWidths[5] == 4
  {
  }

  /**
   * The two halves of the counter finding side by side: on any header that
   * parses, the corrected counter runs 3 ahead of the one the code keeps.
   */
  lemma ParseCounterAheadOfAsWritten(h: Header, rest: seq<byte>, prior: string, gzipPath: string, counter: int)
    requires h.useDeflate == 0 || |gzipPath| > 0
    ensures Parse(Encode(h) + rest, prior, gzipPath, counter).Ok?
    ensures Parse(Encode(h) + rest, prior, gzipPath, counter).value.counter == CounterAsWritten(counter) + 3
  {
    ParseEncode(h, rest, prior, gzipPath, counter);
    CounterMiscountsMaxh(counter);
  }
}
