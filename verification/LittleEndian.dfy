/** Little-endian integers. */
module LittleEndian {
  import opened Basics

  function LeBytes(k: nat, v: nat): (r: Bytes)
    ensures |r| == k
  {
    if k == 0 then [] else [v % 256] + LeBytes(k - 1, v / 256)
  }

  function LeValue(data: Bytes): nat {
    if data == [] then 0 else (data[0] as int) + 256 * LeValue(data[1..])
  }

  function Limit(k: nat): nat {
    if k == 0 then 1 else 256 * Limit(k - 1)
  }

  lemma {:induction false} LeRoundTrip(k: nat, v: nat)
    requires v < Limit(k)
    ensures LeValue(LeBytes(k, v)) == v
  {
    if k > 0 {
      LeRoundTrip(k - 1, v / 256);
    }
  }
}
