/** The search for the largest MTU that the device takes. */
module Mtu {
  import opened Base

  const LOWEST: nat := 1400
  const BEYOND: nat := 65536

  /** Every size below an accepted one is accepted. */
  ghost predicate DownwardClosed(accepts: nat -> bool) {
    forall a: nat, b: nat :: a <= b && accepts(b) ==> accepts(a)
  }

  /**
   `nic-mtu = max`.  The loop asks the device at most 16 times and ends between an accepted size and a
   refused one; if acceptance is downward closed that is the largest accepted size.
   */
  method FindMaximum(accepts: nat -> bool) returns (mtu: nat, probes: nat)
    ensures LOWEST <= mtu < BEYOND && probes <= 16
    ensures mtu == LOWEST || accepts(mtu)
    ensures mtu == BEYOND - 1 || !accepts(mtu + 1)
    ensures DownwardClosed(accepts) && accepts(LOWEST) ==>
      accepts(mtu) && forall m :: mtu < m < BEYOND ==> !accepts(m)
  {
    var min, max := LOWEST, BEYOND;
    probes := 0;
    assert Power2(16) == 65536 by { assert Power2(8) == 256; }
    while min != max - 1
      invariant LOWEST <= min < max <= BEYOND
      invariant min == LOWEST || accepts(min)
      invariant max == BEYOND || !accepts(max)
      invariant probes <= 16 && max - min <= Power2(16 - probes)
      decreases max - min
    {
      var m := (min + max) / 2;
      assert probes < 16;
      probes := probes + 1;
      if !accepts(m) { max := m; } else { min := m; }
    }
    mtu := min;
  }
}
