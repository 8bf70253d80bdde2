// Sizes in bytes (include/constants.h, include/utils.h).
module Units {
  const BLOCK_BYTES: nat := 32768

  function RoundUp(size: nat, multiple: nat): nat
    requires multiple > 0
  {
    (size + multiple - 1) / multiple * multiple
  }

  // 2^n
  function Power(n: nat): (p: nat)
    ensures p > 0
  {
    if n == 0 then 1 else 2 * Power(n - 1)
  }
}
