/** The two directions together: whatever compress_data makes of a text, decompress_data turns back into it. */
module HuffmanCodec {
  import opened Bits
  import opened HuffmanTree
  import opened HuffmanDictionary
  import opened HuffmanCompress
  import opened HuffmanDecompress

  /** A stream decompress_data is meant for: raw, or written with some tree. */
  ghost predicate IsStream(stream: seq<Byte>, data: seq<Byte>) {
    IsRaw(stream, data) || exists t :: IsCoded(stream, t, data)
  }

  /** A stream means one text only. */
  lemma StreamUnique(stream: seq<Byte>, data: seq<Byte>, text: seq<Byte>)
    requires IsStream(stream, data) && IsStream(stream, text)
    ensures data == text
  {
    if IsRaw(stream, data) {
      if !IsRaw(stream, text) {
        var t :| IsCoded(stream, t, text);
        CodedFirstByte(stream, t, text);
      } else {
        assert stream[1..] == data && stream[1..] == text;
      }
    } else {
      var t :| IsCoded(stream, t, data);
      CodedFirstByte(stream, t, data);
      var u :| IsCoded(stream, u, text);
      CodedUnique(stream, t, data, u, text);
    }
  }

  /** Every stream meets the decoder's precondition. */
  lemma StreamAccepted(stream: seq<Byte>, data: seq<Byte>)
    requires IsStream(stream, data)
    ensures stream != [] && (stream[0] >= COMPRESSED_FLAG ==> exists t, text :: IsCoded(stream, t, text))
  {
    if !IsRaw(stream, data) {
      var t :| IsCoded(stream, t, data);
      CodedFirstByte(stream, t, data);
    }
  }

  /** Compressing never costs more than one byte. */
  lemma AtMostOneByteMore(stream: seq<Byte>, t: Tree, data: seq<Byte>)
    requires IsStreamFor(stream, t, data)
    ensures IsStream(stream, data) && |stream| <= |data| + 1
  {
  }

  /** compress_data followed by decompress_data. */
  method CompressThenDecompress(data: seq<Byte>) returns (back: array?<Byte>)
    requires |data| <= INT_MAX && !OverlongRun(data)
    ensures data == [] ==> back == null
    ensures data != [] ==> back != null && back[..] == data
  {
    hide IsCoded, IsRaw, IsStreamFor;
    var stream := Compress(data);
    if stream == null {
      back := Decompress([]);
    } else {
      ghost var t :| IsStreamFor(stream[..], t, data);
      AtMostOneByteMore(stream[..], t, data);
      StreamAccepted(stream[..], data);
      back := Decompress(stream[..]);
    }
  }
}
