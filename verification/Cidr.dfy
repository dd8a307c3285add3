/** Turning an address range of a remap ACL into a network: the mask loop of makeACL. An address
    is a number of `width` bits, 32 or 128. */
module Cidr {

  // The number without its last `n` bits, and with `n` zero bits appended.
  function ShiftRight(a: nat, n: nat): nat {
    if n == 0 then a else ShiftRight(a, n - 1) / 2
  }

  function ShiftLeft(a: nat, n: nat): nat {
    if n == 0 then a else ShiftLeft(a, n - 1) * 2
  }

  // A network mask that keeps the first `bits` of `width` bits and clears the others.
  datatype Mask = Mask(bits: nat, width: nat) {
    predicate Valid() { bits <= width }

    function Apply(a: nat): nat
      requires Valid()
    {
      ShiftLeft(ShiftRight(a, width - bits), width - bits)
    }
  }

  predicate IsAddress(a: nat, width: nat) {
    ShiftRight(a, width) == 0
  }

  // A network contains an address that masks to its own masked address.
  datatype Net = Net(ip: nat, mask: Mask) {
    predicate Contains(a: nat)
      requires mask.Valid()
    {
      mask.Apply(a) == mask.Apply(ip)
    }
  }

  predicate Between(a: nat, x: nat, b: nat) {
    a <= x <= b || b <= x <= a
  }

  // ---------- masks and prefixes ----------

  lemma {:induction false} LeftInjective(a: nat, b: nat, n: nat)
    requires ShiftLeft(a, n) == ShiftLeft(b, n)
    ensures a == b
  {
    if n > 0 {
      LeftInjective(a, b, n - 1);
    }
  }

  lemma {:induction false} RightMonotone(a: nat, b: nat, n: nat)
    requires a <= b
    ensures ShiftRight(a, n) <= ShiftRight(b, n)
  {
    if n > 0 {
      RightMonotone(a, b, n - 1);
    }
  }

  // Numbers that agree without their last `n` bits agree without their last `m >= n` bits.
  lemma {:induction false} RightCoarser(a: nat, b: nat, n: nat, m: nat)
    requires n <= m && ShiftRight(a, n) == ShiftRight(b, n)
    ensures ShiftRight(a, m) == ShiftRight(b, m)
  {
    if n < m {
      RightCoarser(a, b, n, m - 1);
    }
  }

  // Masked addresses are equal exactly when the addresses agree on the kept bits.
  lemma SameMasked(m: Mask, a: nat, b: nat)
    requires m.Valid()
    ensures m.Apply(a) == m.Apply(b) <==> ShiftRight(a, m.width - m.bits) == ShiftRight(b, m.width - m.bits)
  {
    if m.Apply(a) == m.Apply(b) {
      LeftInjective(ShiftRight(a, m.width - m.bits), ShiftRight(b, m.width - m.bits), m.width - m.bits);
    }
  }

  // Masking keeps the first bits and clears the rest, so it can be repeated.
  lemma {:induction false} RightLeft(a: nat, n: nat)
    ensures ShiftRight(ShiftLeft(a, n), n) == a
  {
    if n > 0 {
      RightOfDouble(ShiftLeft(a, n - 1), n);
      RightLeft(a, n - 1);
    }
  }

  lemma {:induction false} RightOfDouble(a: nat, n: nat)
    requires n > 0
    ensures ShiftRight(a * 2, n) == ShiftRight(a, n - 1)
  {
    if n > 1 {
      RightOfDouble(a, n - 1);
    }
  }

  lemma MaskedInNet(m: Mask, a: nat)
    requires m.Valid()
    ensures Net(m.Apply(a), m).Contains(a)
  {
    RightLeft(ShiftRight(a, m.width - m.bits), m.width - m.bits);
  }

  // A network is a range: it contains every address between two of its own.
  lemma NetConvex(n: Net, a: nat, x: nat, b: nat)
    requires n.mask.Valid() && n.Contains(a) && n.Contains(b) && Between(a, x, b)
    ensures n.Contains(x)
  {
    var clear := n.mask.width - n.mask.bits;
    SameMasked(n.mask, a, b);
    SameMasked(n.mask, a, x);
    RightMonotone(if a <= b then a else b, x, clear);
    RightMonotone(x, if a <= b then b else a, clear);
  }

  // ---------- the loop ----------

  /** The network for a range: it contains both ends and all addresses between them, and every
      network with both ends contains it, so no longer prefix would do. */
  method CoveringNet(width: nat, start: nat, end: nat) returns (net: Net)
    requires IsAddress(start, width) && IsAddress(end, width)
    ensures net.mask.Valid() && net.mask.width == width && net.mask.Apply(net.ip) == net.ip
    ensures forall x | Between(start, x, end) :: net.Contains(x)
    ensures forall other: Net | other.mask.Valid() && other.mask.width == width && other.Contains(start) && other.Contains(end) ::
      other.mask.bits <= net.mask.bits && forall x | net.Contains(x) :: other.Contains(x)
  {
    var mask := Mask(width, width);
    while mask.Apply(start) != mask.Apply(end)
      invariant mask.Valid() && mask.width == width
      invariant forall m: Mask | m.Valid() && m.width == width && mask.bits < m.bits :: m.Apply(start) != m.Apply(end)
      decreases mask.bits
    {
      assert mask.bits > 0;    // with no bits kept, both addresses mask to zero
      mask := Mask(mask.bits - 1, width);
    }
    net := Net(mask.Apply(start), mask);
    MaskedInNet(mask, start);
    forall x | Between(start, x, end) ensures net.Contains(x) {
      NetConvex(net, start, x, end);
    }
    forall other: Net | other.mask.Valid() && other.mask.width == width && other.Contains(start) && other.Contains(end)
      ensures other.mask.bits <= net.mask.bits && forall x | net.Contains(x) :: other.Contains(x)
    {
      forall x | net.Contains(x) ensures other.Contains(x) {
        NetNested(net, other, start, x);
      }
    }
  }

  // Of two networks that share an address, the one with the longer prefix lies inside the other.
  lemma NetNested(inner: Net, outer: Net, a: nat, x: nat)
    requires inner.mask.Valid() && outer.mask.Valid() && inner.mask.width == outer.mask.width
    requires outer.mask.bits <= inner.mask.bits && inner.Contains(a) && outer.Contains(a) && inner.Contains(x)
    ensures outer.Contains(x)
  {
    SameMasked(inner.mask, a, x);
    RightCoarser(a, x, inner.mask.width - inner.mask.bits, outer.mask.width - outer.mask.bits);
  }
}
