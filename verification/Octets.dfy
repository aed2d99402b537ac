/** Bytes as machine words, and their number values. */
module Octets {

  type Octet = bv8

  function ToOctet(n: int): Octet
    requires 0 <= n < 256
  {
    n as bv8
  }

  function ToInt(b: Octet): (n: int)
    ensures 0 <= n < 256
  {
    b as int
  }

  lemma NextOctet(b: Octet)
    requires b != 255
    ensures ToInt(b + 1) == ToInt(b) + 1
  {
  }

  lemma IntBack(b: Octet)
    ensures ToOctet(ToInt(b)) == b
  {
  }

  lemma ZeroOctet()
    ensures ToInt(ToOctet(0)) == 0
  {
  }

  lemma LastOctet(b: Octet)
    ensures ToInt(b) == 255 <==> b == 255
  {
  }

  lemma {:induction false} OctetBack(n: int)
    requires 0 <= n < 256
    ensures ToInt(ToOctet(n)) == n
    decreases n
  {
    hide ToInt, ToOctet;
    if n == 0 {
      ZeroOctet();
    } else {
      OctetBack(n - 1);
      var b := ToOctet(n - 1);
      LastOctet(b);
      NextOctet(b);
      IntBack(b + 1);
    }
  }
}
