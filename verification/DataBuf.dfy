/** The buffer that holds the bytes of a TCP stream until they are taken. */
module DataBuf {
  import opened Basics

  const MAX_CACHE_LEN := 8 * 1024
  const GROWTH := 2048

  class DataCacheBuf {
    var bytes: array<byte>
    var length: nat

    ghost predicate Valid()
      reads this
    {
      length <= bytes.Length
    }

    ghost function Contents(): seq<byte>
      requires Valid()
      reads this, bytes
    {
      bytes[..length]
    }

    constructor ()
      ensures Valid() && Contents() == [] && fresh(bytes)
    {
      bytes := new byte[MAX_CACHE_LEN];
      length := 0;
    }

    /** Pushed bytes come last; a buffer that is too small is replaced by a larger one. */
    method PushData(data: seq<byte>)
      requires Valid()
      modifies this, bytes
      ensures Valid() && Contents() == old(Contents()) + data
      ensures bytes == old(bytes) || fresh(bytes)
    {
      if length + |data| > bytes.Length {
        var temp := new byte[length + |data| + GROWTH];
        forall k | 0 <= k < length {
          temp[k] := bytes[k];
        }
        forall k | 0 <= k < |data| {
          temp[length + k] := data[k];
        }
        length := length + |data|;
        bytes := temp;
        return;
      }
      forall k | 0 <= k < |data| {
        bytes[length + k] := data[k];
      }
      length := length + |data|;
    }

    /** Popped bytes go from the front; the others move down. */
    method PopData(len: nat)
      requires Valid() && len <= length
      modifies this`length, bytes
      ensures Valid() && Contents() == old(Contents())[len..]
    {
      forall k | 0 <= k < length - len {
        bytes[k] := bytes[len + k];
      }
      length := length - len;
    }
  }
}
