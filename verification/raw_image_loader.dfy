/**
 * `LruBucket.RawImageLoader`: a loader that reads a whole image file into a byte buffer it
 * keeps between loads, growing the buffer only when a file does not fit and otherwise
 * zeroing the part past the file, then hands the file's bytes to the decoder.
 */
module RawImage {
  import opened Wrappers

  type Byte = bv8

  /** The largest length `(int) raf.length()` keeps as it is. */
  const MAX_INT: int := 0x7fff_ffff

  class RawImageLoader {
    /** `mRawData`: null until the first non-empty file. */
    var rawData: array?<Byte>
    /** `mLength`: the length of the last file read. */
    var length: int

    constructor()
      ensures rawData == null && length == 0
    {
      rawData := null;
      length := 0;
    }

    /**
     * `load`: an empty file gives no bitmap and a length of 0. Otherwise the buffer is
     * replaced by one of exactly the file's length if it is missing or too short, and kept
     * with everything past the file zeroed if it is long enough; the decoder is given the
     * first `length` bytes of the buffer, which are the file.
     */
    method Load(file: seq<Byte>) returns (decoded: Option<seq<Byte>>)
      requires |file| <= MAX_INT
      modifies this, rawData
      ensures file == [] ==> decoded.None? && length == 0 && rawData == old(rawData)
      ensures file == [] && old(rawData) != null ==> rawData[..] == old(rawData[..])
      ensures file != [] ==> length == |file| && rawData != null && rawData.Length >= length
      ensures file != [] ==> decoded == Some(file) && rawData[..length] == file
      ensures file != [] && (old(rawData) == null || old(rawData).Length < |file|) ==>
        fresh(rawData) && rawData.Length == |file|
      ensures file != [] && old(rawData) != null && old(rawData).Length >= |file| ==>
        rawData == old(rawData) && forall i | length <= i < rawData.Length :: rawData[i] == 0
    {
      if |file| <= 0 {
        length := 0;
        return None;
      }
      length := |file|;
      if rawData == null || rawData.Length < length {
        rawData := new Byte[length];
      } else {
        forall i | length <= i < rawData.Length {
          rawData[i] := 0;
        }
      }
      forall i | 0 <= i < length {
        rawData[i] := file[i];
      }
      assert rawData[..length] == file;
      decoded := Some(rawData[..length]);
    }
  }
}
