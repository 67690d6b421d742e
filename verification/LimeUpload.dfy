/**
 * Chunking of an encrypted upload: `lime_im_encryption_engine_process_uploading_file_cb` of
 * coreapi/lime.c. AES-GCM on a file wants every chunk but the last to be a multiple of 16 octets.
 */
module LimeUpload {
  import opened Bytes

  const BLOCK := 16

  /** The size actually encrypted; a file size of zero means it was never set, and disables rounding. */
  function EncryptedSize(fileSize: nat, offset: nat, size: nat): (r: nat)
    ensures r <= size
    ensures fileSize != 0 && offset + size < fileSize ==> r % BLOCK == 0 && size - r < BLOCK
    ensures fileSize == 0 || offset + size >= fileSize ==> r == size
  {
    if fileSize != 0 && offset + size < fileSize then size - size % BLOCK else size
  }

  /** What the transfer layer may offer: at least one block, or all that is left. */
  predicate AcceptableOffer(fileSize: nat, offset: nat, size: nat) {
    offset + size <= fileSize && (size >= BLOCK || (size > 0 && offset + size == fileSize))
  }

  /** Within the file, an offer makes progress if and only if it is acceptable. */
  lemma ProgressIffAcceptable(fileSize: nat, offset: nat, size: nat)
    requires offset + size <= fileSize
    ensures EncryptedSize(fileSize, offset, size) > 0 <==> AcceptableOffer(fileSize, offset, size)
  {
    if size < BLOCK {
      assert size % BLOCK == size;
    }
  }

  function Concat(chunks: seq<Blob>): Blob {
    if chunks == [] then [] else Concat(chunks[..|chunks| - 1]) + chunks[|chunks| - 1]
  }

  lemma ConcatAppend(chunks: seq<Blob>, c: Blob)
    ensures Concat(chunks + [c]) == Concat(chunks) + c
  {
    assert (chunks + [c])[..|chunks|] == chunks;
  }

  /** The callback, called once per chunk. */
  method ProcessUploadingFile(fileSize: nat, offset: nat, size: nat) returns (size': nat)
    requires fileSize != 0 ==> offset + size <= fileSize
    ensures size' == EncryptedSize(fileSize, offset, size) <= size
    ensures fileSize != 0 && offset + size < fileSize ==> size' % BLOCK == 0 && size - size' < BLOCK
    ensures fileSize == 0 || offset + size == fileSize ==> size' == size
  {
    size' := size;
    if fileSize != 0 && offset + size < fileSize {
      size' := size' - size' % BLOCK;
    }
  }

  /**
   * The whole upload, the caller resuming at offset plus size with whatever `offer` gives there. The
   * encrypted chunks tile the file: nothing is lost or sent twice, every chunk but the last is a multiple
   * of 16, none is empty, and the upload ends.
   */
  method Upload(file: Blob, offer: nat -> nat) returns (chunks: seq<Blob>)
    requires forall o: nat | o < |file| :: AcceptableOffer(|file|, o, offer(o))
    ensures Concat(chunks) == file
    ensures forall i | 0 <= i < |chunks| :: |chunks[i]| > 0 && (i < |chunks| - 1 ==> |chunks[i]| % BLOCK == 0)
    ensures |chunks| <= |file| / BLOCK + 1
  {
    chunks := [];
    var offset := 0;
    while offset < |file|
      invariant offset <= |file| && Concat(chunks) == file[..offset]
      invariant forall i | 0 <= i < |chunks| :: |chunks[i]| > 0
      invariant forall i | 0 <= i < |chunks| && (i < |chunks| - 1 || offset < |file|) :: |chunks[i]| % BLOCK == 0
      invariant offset < |file| ==> BLOCK * |chunks| <= offset
      invariant offset == |file| ==> |chunks| <= |file| / BLOCK + 1
    {
      var size := ProcessUploadingFile(|file|, offset, offer(offset));
      ProgressIffAcceptable(|file|, offset, offer(offset));
      var chunk := file[offset..offset + size];
      ConcatAppend(chunks, chunk);
      assert file[..offset + size] == file[..offset] + chunk;
      chunks := chunks + [chunk];
      offset := offset + size;
    }
    assert file[..offset] == file;
  }
}
