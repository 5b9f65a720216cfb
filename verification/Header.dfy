/** `tgdcfs/crypto/header.py`: the 60-byte header in front of every encrypted file. */
module Header {
  import opened Bytes
  import opened Cipher

  const HEADER_SIZE: nat := 60
  const BODY_SIZE: nat := 44
  const HEADER_MAC_SIZE: nat := 16
  const FILE_SALT_SIZE: nat := 32
  const HEADER_VERSION: nat := 1
  const MAX_CHUNK_SIZE: nat := 16 * 1024 * 1024
  const MAGIC: bytes := [0x54, 0x47, 0x46, 0x53]

  datatype Algorithm = AES_256_GCM

  datatype FileHeader = FileHeader(version: nat, algorithm: Algorithm, chunkSize: nat, salt: bytes) {
    /** The field widths the wire format can hold. */
    predicate Packable() {
      version < 0x1_0000 && chunkSize < 0x1_0000_0000 && |salt| == FILE_SALT_SIZE
    }
  }

  function Body(h: FileHeader): (r: bytes)
    requires h.Packable()
    ensures |r| == BODY_SIZE
  {
    Pow256At8();
    MAGIC + ToBE(h.version, 2) + ToBE(1, 2) + ToBE(h.chunkSize, 4) + h.salt
  }

  function Tag(suite: Suite, key: bytes, body: bytes): bytes {
    Take(suite.mac(key, body), HEADER_MAC_SIZE)
  }

  function Serialize(suite: Suite, h: FileHeader, key: bytes): bytes
    requires h.Packable()
  {
    Body(h) + Tag(suite, key, Body(h))
  }

  function Parse(raw: bytes): Result<FileHeader> {
    if |raw| < HEADER_SIZE then Err
    else
      var version, algo, chunkSize := FromBE(raw[4..6]), FromBE(raw[6..8]), FromBE(raw[8..12]);
      if raw[..4] != MAGIC then Err
      else if version != HEADER_VERSION then Err
      else if algo != 1 then Err
      else if chunkSize == 0 || chunkSize > MAX_CHUNK_SIZE then Err
      else Ok(FileHeader(version, AES_256_GCM, chunkSize, raw[12..BODY_SIZE]))
  }

  predicate Verify(suite: Suite, raw: bytes, key: bytes) {
    |raw| >= HEADER_SIZE && raw[BODY_SIZE..HEADER_SIZE] == Tag(suite, key, raw[..BODY_SIZE])
  }

  lemma BodyFields(h: FileHeader, raw: bytes)
    requires h.Packable() && |raw| >= BODY_SIZE && raw[..BODY_SIZE] == Body(h)
    ensures raw[..4] == MAGIC && raw[12..BODY_SIZE] == h.salt
    ensures FromBE(raw[4..6]) == h.version && FromBE(raw[6..8]) == 1 && FromBE(raw[8..12]) == h.chunkSize
  {
    var b := Body(h);
    Pow256At8();
    FromToBE(h.version, 2);
    FromToBE(1, 2);
    FromToBE(h.chunkSize, 4);
    assert raw[..4] == b[..4] && raw[4..6] == b[4..6] && raw[6..8] == b[6..8];
    assert raw[8..12] == b[8..12] && raw[12..BODY_SIZE] == b[12..];
    assert b[4..6] == ToBE(h.version, 2) && b[6..8] == ToBE(1, 2) && b[8..12] == ToBE(h.chunkSize, 4);
  }

  /** Writing and reading back gives the same header exactly when the parser accepts its
      version and chunk size: the writer accepts chunk sizes the parser refuses. */
  lemma ParseSerialize(suite: Suite, h: FileHeader, key: bytes)
    requires suite.Lawful() && h.Packable()
    ensures |Serialize(suite, h, key)| == HEADER_SIZE
    ensures Parse(Serialize(suite, h, key)) == Ok(h)
       <==> h.version == HEADER_VERSION && 0 < h.chunkSize <= MAX_CHUNK_SIZE
    ensures Verify(suite, Serialize(suite, h, key), key)
  {
    var raw := Serialize(suite, h, key);
    assert raw[..BODY_SIZE] == Body(h) && raw[BODY_SIZE..HEADER_SIZE] == Tag(suite, key, Body(h));
    BodyFields(h, raw);
    assert h.algorithm.AES_256_GCM?;
  }

  /** The concrete family that does not come back: 17 MiB chunks are written, then refused. */
  lemma OversizedChunkIsWrittenButRefused(suite: Suite, salt: bytes, key: bytes)
    requires suite.Lawful() && |salt| == FILE_SALT_SIZE
    ensures Parse(Serialize(suite, FileHeader(1, AES_256_GCM, 17 * 1024 * 1024, salt), key)) == Err
  {
    var h := FileHeader(1, AES_256_GCM, 17 * 1024 * 1024, salt);
    var raw := Serialize(suite, h, key);
    assert raw[..BODY_SIZE] == Body(h);
    BodyFields(h, raw);
  }

  /** A parsed and verified header is byte for byte the serialization of what was parsed. */
  lemma VerifiedIffSerialized(suite: Suite, raw: bytes, h: FileHeader, key: bytes)
    requires suite.Lawful() && |raw| == HEADER_SIZE && Parse(raw) == Ok(h)
    ensures h.Packable() && (Verify(suite, raw, key) <==> raw == Serialize(suite, h, key))
  {
    Pow256At8();
    ToFromBE(raw[4..6]);
    ToFromBE(raw[6..8]);
    ToFromBE(raw[8..12]);
    assert raw[..BODY_SIZE] == raw[..4] + raw[4..6] + raw[6..8] + raw[8..12] + raw[12..BODY_SIZE];
    assert raw[..BODY_SIZE] == Body(h);
    assert raw == raw[..BODY_SIZE] + raw[BODY_SIZE..HEADER_SIZE];
    var s := Serialize(suite, h, key);
    assert s[BODY_SIZE..] == Tag(suite, key, Body(h));
  }
}
