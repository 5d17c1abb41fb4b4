/**
 * `compression.ts`: gzip, then base64, for what the app keeps in storage. The
 * gzip streams, `btoa`/`atob` and the text codecs are foreign calls and enter
 * as parameters; the buffer assembly around them is modelled here.
 */
module Compression {
  import opened Wrappers

  newtype byte = x: int | 0 <= x < 256

  /** The chunks' lengths summed left to right, as the `reduce` does. */
  function TotalLength(chunks: seq<seq<byte>>): nat
    decreases |chunks|
  {
    if chunks == [] then 0 else TotalLength(chunks[..|chunks| - 1]) + |chunks[|chunks| - 1]|
  }

  /** The chunks one after another. */
  function Flatten(chunks: seq<seq<byte>>): seq<byte>
    decreases |chunks|
  {
    if chunks == [] then [] else Flatten(chunks[..|chunks| - 1]) + chunks[|chunks| - 1]
  }

  lemma {:induction false} FlattenLength(chunks: seq<seq<byte>>)
    ensures |Flatten(chunks)| == TotalLength(chunks)
    decreases |chunks|
  {
    if chunks != [] {
      FlattenLength(chunks[..|chunks| - 1]);
    }
  }

  /** The length of the first `k` chunks is at most the length of all of them. */
  lemma {:induction false} PrefixLength(chunks: seq<seq<byte>>, k: nat)
    requires k <= |chunks|
    ensures TotalLength(chunks[..k]) <= TotalLength(chunks)
    decreases |chunks|
  {
    if k < |chunks| {
      var front := chunks[..|chunks| - 1];
      assert chunks[..k] == front[..k];
      PrefixLength(front, k);
    } else {
      assert chunks[..k] == chunks;
    }
  }

  /**
   * `target.set(chunk, offset)`: the chunk is written from `offset` on, and
   * every byte before and after it is kept.
   */
  method CopyInto(target: array<byte>, chunk: seq<byte>, offset: nat)
    requires offset + |chunk| <= target.Length
    modifies target
    ensures target[..offset] == old(target[..offset])
    ensures target[offset..offset + |chunk|] == chunk
    ensures target[offset + |chunk|..] == old(target[offset + |chunk|..])
  {
    for j := 0 to |chunk|
      invariant target[..offset] == old(target[..offset])
      invariant target[offset..offset + j] == chunk[..j]
      invariant target[offset + j..] == old(target[offset + j..])
    {
      target[offset + j] := chunk[j];
      assert target[offset..offset + j + 1] == target[offset..offset + j] + [chunk[j]];
      assert chunk[..j + 1] == chunk[..j] + [chunk[j]];
    }
  }

  /**
   * The buffer assembly of `compressData` and `decompressData`: a buffer as long
   * as all chunks together, and a copy loop whose `offset` is always the length
   * of the chunks copied so far.
   */
  method CombineChunks(chunks: seq<seq<byte>>) returns (combined: array<byte>)
    ensures fresh(combined)
    ensures combined.Length == TotalLength(chunks)
    ensures combined[..] == Flatten(chunks)
  {
    combined := new byte[TotalLength(chunks)](_ => 0);
    var offset := 0;
    for k := 0 to |chunks|
      invariant offset == TotalLength(chunks[..k])
      invariant offset <= combined.Length
      invariant combined[..offset] == Flatten(chunks[..k])
    {
      var chunk := chunks[k];
      assert chunks[..k + 1][..k] == chunks[..k];
      PrefixLength(chunks, k + 1);
      CopyInto(combined, chunk, offset);
      assert combined[..offset + |chunk|] == combined[..offset] + combined[offset..offset + |chunk|];
      offset := offset + |chunk|;
    }
    assert chunks[..|chunks|] == chunks;
    FlattenLength(chunks);
  }

  // ---- Binary strings ----

  /** `String.fromCharCode(...bytes)`: one character per byte, with the byte as its code. */
  function BinaryString(bytes: seq<byte>): (s: string)
    ensures |s| == |bytes| && forall i :: 0 <= i < |s| ==> s[i] as int == bytes[i] as int
  {
    seq(|bytes|, i requires 0 <= i < |bytes| => bytes[i] as int as char)
  }

  /** Storing a character code into a `Uint8Array` keeps it modulo 256. */
  function ToUint8(c: char): byte {
    (c as int % 256) as byte
  }

  predicate IsBinary(s: string) {
    forall i :: 0 <= i < |s| ==> s[i] as int < 256
  }

  /** The bytes the decode loop of `decompressData` writes. */
  function BinaryBytes(s: string): (bytes: seq<byte>)
    ensures |bytes| == |s|
    ensures IsBinary(s) ==> forall i :: 0 <= i < |s| ==> bytes[i] as int == s[i] as int
  {
    seq(|s|, i requires 0 <= i < |s| => ToUint8(s[i]))
  }

  /** Bytes written as a binary string and read back are the same bytes. */
  lemma BinaryRoundTrip(bytes: seq<byte>)
    ensures IsBinary(BinaryString(bytes))
    ensures BinaryBytes(BinaryString(bytes)) == bytes
  {
  }

  /** The loop over the characters of `atob`'s result, one byte each. */
  method DecodeBinaryString(binary: string) returns (bytes: array<byte>)
    ensures fresh(bytes)
    ensures bytes[..] == BinaryBytes(binary)
  {
    bytes := new byte[|binary|](_ => 0);
    for i := 0 to |binary|
      invariant bytes[..i] == BinaryBytes(binary)[..i]
    {
      bytes[i] := ToUint8(binary[i]);
    }
  }

  // ---- The stored-data check ----

  predicate IsBase64Char(c: char) {
    ('A' <= c <= 'Z') || ('a' <= c <= 'z') || ('0' <= c <= '9') || c == '+' || c == '/' || c == '='
  }

  /** The end of the run of base64 characters starting at `i`. */
  function Base64RunEnd(s: string, i: nat): (j: nat)
    requires i <= |s|
    ensures i <= j <= |s|
    decreases |s| - i
  {
    if i == |s| || !IsBase64Char(s[i]) then i else Base64RunEnd(s, i + 1)
  }

  /** `/^[A-Za-z0-9+/=]+$/.test(data)`: a non-empty run of base64 characters from start to end. */
  predicate IsCompressedData(data: string) {
    |data| > 0 && Base64RunEnd(data, 0) == |data|
  }

  lemma {:induction false} RunEndSpec(s: string, i: nat)
    requires i <= |s|
    ensures Base64RunEnd(s, i) == |s| <==> forall k :: i <= k < |s| ==> IsBase64Char(s[k])
    decreases |s| - i
  {
    if i < |s| && IsBase64Char(s[i]) {
      RunEndSpec(s, i + 1);
    }
  }

  lemma IsCompressedDataSpec(data: string)
    ensures IsCompressedData(data) <==> |data| > 0 && forall k :: 0 <= k < |data| ==> IsBase64Char(data[k])
  {
    RunEndSpec(data, 0);
  }

  // ---- Compression and decompression ----

  /**
   * `compressData`, with `encode` for `TextEncoder`, `gzip` for the compression
   * stream's chunks (`None` when it fails) and `btoa` for base64 encoding
   * (`None` when it throws).
   */
  function Compressed(data: string, encode: string -> seq<byte>, gzip: seq<byte> -> Option<seq<seq<byte>>>,
                      btoa: string -> Option<string>): string
  {
    match gzip(encode(data))
    case None => data
    case Some(chunks) =>
      match btoa(BinaryString(Flatten(chunks)))
      case None => data
      case Some(encoded) => encoded
  }

  /**
   * `decompressData`, with `atob` for base64 decoding (`None` when it throws),
   * `gunzip` for the decompression stream's chunks and `decode` for `TextDecoder`.
   */
  function Decompressed(stored: string, atob: string -> Option<string>, gunzip: seq<byte> -> Option<seq<seq<byte>>>,
                        decode: seq<byte> -> string): string
  {
    match atob(stored)
    case None => stored
    case Some(binary) =>
      match gunzip(BinaryBytes(binary))
      case None => stored
      case Some(chunks) => decode(Flatten(chunks))
  }

  method CompressData(data: string, encode: string -> seq<byte>, gzip: seq<byte> -> Option<seq<seq<byte>>>,
                      btoa: string -> Option<string>) returns (r: string)
    ensures r == Compressed(data, encode, gzip, btoa)
    ensures gzip(encode(data)).None? ==> r == data
  {
    var compressed := gzip(encode(data));
    if compressed.None? {
      return data;
    }
    var combined := CombineChunks(compressed.value);
    var encoded := btoa(BinaryString(combined[..]));
    if encoded.None? {
      return data;
    }
    r := encoded.value;
  }

  method DecompressData(stored: string, atob: string -> Option<string>, gunzip: seq<byte> -> Option<seq<seq<byte>>>,
                        decode: seq<byte> -> string) returns (r: string)
    ensures r == Decompressed(stored, atob, gunzip, decode)
    ensures atob(stored).None? ==> r == stored
  {
    var binary := atob(stored);
    if binary.None? {
      return stored;
    }
    var bytes := DecodeBinaryString(binary.value);
    var decompressed := gunzip(bytes[..]);
    if decompressed.None? {
      return stored;
    }
    var combined := CombineChunks(decompressed.value);
    r := decode(combined[..]);
  }

  /**
   * Stored data reads back as it was written, provided base64 and gzip invert
   * each other on it and the text codec round-trips.
   */
  lemma RoundTrip(data: string, encode: string -> seq<byte>, decode: seq<byte> -> string,
                  gzip: seq<byte> -> Option<seq<seq<byte>>>, gunzip: seq<byte> -> Option<seq<seq<byte>>>,
                  btoa: string -> Option<string>, atob: string -> Option<string>,
                  zipped: seq<seq<byte>>, stored: string, unzipped: seq<seq<byte>>)
    requires gzip(encode(data)) == Some(zipped)
    requires btoa(BinaryString(Flatten(zipped))) == Some(stored)
    requires atob(stored) == Some(BinaryString(Flatten(zipped)))
    requires gunzip(Flatten(zipped)) == Some(unzipped) && Flatten(unzipped) == encode(data)
    requires decode(encode(data)) == data
    ensures Decompressed(Compressed(data, encode, gzip, btoa), atob, gunzip, decode) == data
  {
    BinaryRoundTrip(Flatten(zipped));
  }
}
