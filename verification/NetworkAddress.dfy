/** QNetworkAddress.calculate: the addresses of a network counted through octet by octet. */
module NetworkAddress {

  const ALL_ONES := 0xffff_ffff

  // ---- masks

  function And(x: nat, y: nat): (r: nat)
    ensures r <= y
    decreases x
  {
    if x == 0 || y == 0 then 0 else 2 * And(x / 2, y / 2) + (if x % 2 == 1 && y % 2 == 1 then 1 else 0)
  }

  function Or(x: nat, y: nat): nat
    decreases x
  {
    if x == 0 then y else if y == 0 then x
    else 2 * Or(x / 2, y / 2) + (if x % 2 == 1 || y % 2 == 1 then 1 else 0)
  }

  /** n ones. */
  function Ones(n: nat): nat
  {
    if n == 0 then 0 else 2 * Ones(n - 1) + 1
  }

  lemma {:induction false} AndZero(x: nat)
    ensures And(x, 0) == 0 && And(0, x) == 0 && Or(x, 0) == x && Or(0, x) == x
  {}

  /** The network and the bits the mask leaves free have no bit in common. */
  lemma {:induction false} FreeBits(ip: nat, mask: nat, n: nat)
    requires mask <= Ones(n)
    ensures Or(And(ip, mask), Ones(n) - mask) == And(ip, mask) + (Ones(n) - mask)
    decreases n
  {
    var a, f := And(ip, mask), Ones(n) - mask;
    if a == 0 || f == 0 {
      AndZero(a);
      AndZero(f);
    } else {
      FreeBits(ip / 2, mask / 2, n - 1);
      HalfFree(mask, n);
      HalfAnd(ip, mask);
    }
  }

  lemma HalfFree(mask: nat, n: nat)
    requires 0 < n && mask <= Ones(n)
    ensures (Ones(n) - mask) / 2 == Ones(n - 1) - mask / 2 && (Ones(n) - mask) % 2 == 1 - mask % 2
  {}

  lemma HalfAnd(x: nat, y: nat)
    ensures And(x, y) / 2 == And(x / 2, y / 2) && And(x, y) % 2 == (if x % 2 == 1 && y % 2 == 1 then 1 else 0)
  {}

  lemma ThirtyTwoOnes()
    ensures Ones(32) == ALL_ONES
  {
    assert Ones(8) == 255;
    assert Ones(16) == 0xffff;
    assert Ones(24) == 0xff_ffff;
  }

  // ---- octets

  datatype Address = Address(n1: nat, n2: nat, n3: nat, n4: nat)

  predicate Octets(a: Address)
  {
    a.n1 <= 255 && a.n2 <= 255 && a.n3 <= 255 && a.n4 <= 255
  }

  function Value(a: Address): nat
  {
    0x100_0000 * a.n1 + 0x1_0000 * a.n2 + 0x100 * a.n3 + a.n4
  }

  /** inet_ntoa, read back. */
  function Dotted(v: nat): (a: Address)
    requires v <= ALL_ONES
    ensures Octets(a) && Value(a) == v
  {
    var high, low := v / 0x1_0000, v % 0x1_0000;
    Address(high / 0x100, high % 0x100, low / 0x100, low % 0x100)
  }

  /** The lowest octet, and what is above it. */
  lemma LowOctet(x: nat, u: nat, y: nat, v: nat)
    requires u <= 255 && v <= 255 && 0x100 * x + u == 0x100 * y + v
    ensures x == y && u == v
  {}

  lemma ValueIsOne(a: Address, b: Address)
    requires Octets(a) && Octets(b)
    ensures Value(a) == Value(b) <==> a == b
  {
    if Value(a) == Value(b) {
      var two, two' := 0x100 * a.n1 + a.n2, 0x100 * b.n1 + b.n2;
      var three, three' := 0x100 * two + a.n3, 0x100 * two' + b.n3;
      LowOctet(three, a.n4, three', b.n4);
      LowOctet(two, a.n3, two', b.n3);
      LowOctet(a.n1, a.n2, b.n1, b.n2);
    }
  }

  /** One up, with carries. */
  method Next(a: Address) returns (n1: nat, n2: nat, n3: nat, n4: nat)
    requires Octets(a) && Value(a) < ALL_ONES
    ensures var b := Address(n1, n2, n3, n4); Octets(b) && Value(b) == Value(a) + 1
  {
    n1, n2, n3, n4 := a.n1, a.n2, a.n3, a.n4;
    n4 := n4 + 1;
    if n4 > 255 {
      n4 := 0;
      n3 := n3 + 1;
    }
    if n3 > 255 {
      n3 := 0;
      n2 := n2 + 1;
    }
    if n2 > 255 {
      n2 := 0;
      n1 := n1 + 1;
    }
  }

  /** calculate: for any address and any mask, whether or not its ones come first, the loop ends, and lists the
      network number and every address after it up to the one before the broadcast address. */
  method Calculate(ip: nat, netmask: nat)
    returns (networkNumber: Address, broadcast: Address, allAddresses: seq<Address>)
    requires ip <= ALL_ONES && netmask <= ALL_ONES
    ensures Octets(networkNumber) && Value(networkNumber) == And(ip, netmask)
    ensures Octets(broadcast) && Value(broadcast) == Or(And(ip, netmask), ALL_ONES - netmask)
    ensures |allAddresses| == ALL_ONES - netmask == Value(broadcast) - Value(networkNumber)
    ensures forall k :: 0 <= k < |allAddresses| ==>
              Octets(allAddresses[k]) && Value(allAddresses[k]) == Value(networkNumber) + k
  {
    hide And, Or, Value;
    ThirtyTwoOnes();
    FreeBits(ip, netmask, 32);
    networkNumber := Dotted(And(ip, netmask));
    broadcast := Dotted(Or(And(ip, netmask), ALL_ONES - netmask));
    var addr := networkNumber;
    allAddresses := [];
    while addr != broadcast
      invariant Octets(addr) && Value(addr) == Value(networkNumber) + |allAddresses| <= Value(broadcast)
      invariant forall k :: 0 <= k < |allAddresses| ==>
                  Octets(allAddresses[k]) && Value(allAddresses[k]) == Value(networkNumber) + k
      decreases Value(broadcast) - Value(addr)
    {
      ValueIsOne(addr, broadcast);
      allAddresses := allAddresses + [addr];
      var n1, n2, n3, n4 := Next(addr);
      addr := Address(n1, n2, n3, n4);
    }
  }
}
