/** The size ceiling of the spool and what has been admitted against it. */
module Quota {
  import opened Types

  const GIB := 1024 * 1024 * 1024
  const MAX_INT64 := 0x7fff_ffff_ffff_ffff

  /** The admission test of quotaLedger.reserve. */
  predicate Admits(maxBytes: int, occupied: int, reserved: int, n: int) {
    !(maxBytes > 0 && occupied + reserved + n > maxBytes)
  }

  class QuotaLedger {
    var maxBytes: int
    var reserved: int

    constructor ()
      ensures maxBytes == 0 && reserved == 0
    {
      maxBytes, reserved := 0, 0;
    }

    method Reserve(n: int, occupied: int) returns (ok: bool)
      modifies this`reserved
      ensures ok <==> Admits(maxBytes, occupied, old(reserved), n)
      ensures ok <==> maxBytes <= 0 || occupied + old(reserved) + n <= maxBytes
      ensures reserved == if ok then old(reserved) + n else old(reserved)
    {
      if maxBytes > 0 && occupied + reserved + n > maxBytes {
        return false;
      }
      reserved := reserved + n;
      return true;
    }

    method Release(n: int)
      modifies this`reserved
      ensures reserved == old(reserved) - n
    {
      reserved := reserved - n;
    }

    /** The product is clamped rather than allowed to wrap into "no quota". */
    method Set(maxGB: int)
      modifies this`maxBytes
      ensures 0 <= maxBytes <= MAX_INT64
      ensures maxBytes == 0 <==> maxGB <= 0
      ensures maxGB > 0 ==> maxBytes == Min(maxGB * GIB, MAX_INT64)
    {
      if maxGB <= 0 {
        maxBytes := 0;
      } else if maxGB > MAX_INT64 / GIB {
        maxBytes := MAX_INT64;
      } else {
        maxBytes := maxGB * GIB;
      }
    }
  }
}
