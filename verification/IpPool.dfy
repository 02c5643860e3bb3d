/** The cyclic allocator of bridge addresses (cmd/aetheria-agent/network.go:30-48). */
module IpPool {
  import opened Text

  newtype uint8 = x: int | 0 <= x < 256

  const BRIDGE_SUBNET := "10.42.0"
  const POOL_SIZE := 253

  /** The address handed out by call number k, counting from 0. */
  function Address(k: nat): string {
    BRIDGE_SUBNET + "." + Decimal(2 + k % POOL_SIZE)
  }

  /** Go's ++ on a uint8. */
  function Increment(x: uint8): uint8 {
    if x == 255 then 0 else x + 1
  }

  class Allocator {
    var nextIP: uint8
    ghost var calls: nat

    ghost predicate Valid()
      reads this
    {
      nextIP as int == 2 + calls % POOL_SIZE
    }

    constructor ()
      ensures Valid() && calls == 0
    {
      nextIP, calls := 2, 0;
    }

    /** allocateIP. The increment never wraps: it stays below 256. */
    method Allocate() returns (ip: string)
      requires Valid()
      modifies this
      ensures Valid() && calls == old(calls) + 1
      ensures ip == Address(old(calls))
      ensures 2 <= old(nextIP) <= 254 && Increment(old(nextIP)) == old(nextIP) + 1
    {
      ip := BRIDGE_SUBNET + "." + Decimal(nextIP as nat);
      nextIP := Increment(nextIP);
      if nextIP > 254 {
        nextIP := 2;
      }
      calls := calls + 1;
    }
  }

  /** Every address is one of 10.42.0.2 to 10.42.0.254: neither the network's, nor the bridge's,
      nor the broadcast address; and each of them has its turn. */
  lemma AddressOfCallIff(k: nat, host: nat)
    ensures Address(k) == "10.42.0." + Decimal(host) <==> 2 <= host <= 254 && k % 253 == host - 2
  {
    var prefix := "10.42.0.";
    assert prefix == BRIDGE_SUBNET + ".";
    var h := 2 + k % POOL_SIZE;
    assert Address(k)[|prefix|..] == Decimal(h);
    if Address(k) == prefix + Decimal(host) {
      assert (prefix + Decimal(host))[|prefix|..] == Decimal(host);
      DecimalInjective(h, host);
    }
  }

  /** Two calls return the same address exactly when a multiple of 253 lies between them. */
  lemma SameAddressIff(j: nat, k: nat)
    ensures Address(j) == Address(k) <==> j % 253 == k % 253
  {
    if Address(j) == Address(k) {
      var prefix := BRIDGE_SUBNET + ".";
      assert Address(j)[|prefix|..] == Decimal(2 + j % POOL_SIZE);
      assert Address(k)[|prefix|..] == Decimal(2 + k % POOL_SIZE);
      DecimalInjective(2 + j % POOL_SIZE, 2 + k % POOL_SIZE);
    }
  }

  /** Any 253 consecutive calls return distinct addresses. */
  lemma WindowDistinct(j: nat, k: nat)
    requires j < k < j + 253
    ensures Address(j) != Address(k)
  {
    SameAddressIff(j, k);
  }
}
