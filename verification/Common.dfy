/**
 What several of the daemons share: optional values, bytes, and 16-bit numbers in
 network order (stream_putw and stream_getw, DO_HTONS and DO_NTOHS).
 */
module Common {

  datatype Option<+T> = None | Some(value: T)

  type Byte = n: int | 0 <= n < 256

  type U16 = n: int | 0 <= n < 0x1_0000

  function PutWord(w: U16): (b: seq<Byte>)
    ensures |b| == 2
  {
    [w / 256, w % 256]
  }

  function GetWord(b: seq<Byte>): U16
    requires |b| == 2
  {
    256 * (b[0] as int) + (b[1] as int)
  }

  lemma {:induction false} WordRoundTrip(w: U16, b: seq<Byte>)
    requires |b| == 2
    ensures GetWord(PutWord(w)) == w
    ensures PutWord(GetWord(b)) == b
  {
  }
}
