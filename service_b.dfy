/** `ServiceBImpl`: Java `int` products, one of them over a `soma` supplied by
    a ServiceA collaborator that the bean holds in a field. */
module Examples {
  import opened Wrappers

  const MODULUS: int := 0x1_0000_0000

  /** Java's 32-bit `int`. */
  newtype Int32 = x: int | -0x8000_0000 <= x < 0x8000_0000

  /** Two's-complement narrowing: the `int` congruent to x modulo 2^32, which
      is x itself when x fits. */
  function Wrap(x: int): (r: Int32)
    ensures (r as int - x) % MODULUS == 0
    ensures -0x8000_0000 <= x < 0x8000_0000 ==> r as int == x
  {
    var m := (x + 0x8000_0000) % MODULUS;
    assert x + 0x8000_0000 == (x + 0x8000_0000) / MODULUS * MODULUS + m;
    (m - 0x8000_0000) as Int32
  }

  /** `multiplicar`: Java `num1 * num2`, the exact product when it fits in an
      `int` and otherwise the product wrapped around modulo 2^32. */
  function Multiplicar(num1: Int32, num2: Int32): (r: Int32)
    ensures (r as int - num1 as int * num2 as int) % MODULUS == 0
    ensures -0x8000_0000 <= num1 as int * num2 as int < 0x8000_0000 ==> r as int == num1 as int * num2 as int
  {
    Wrap(num1 as int * num2 as int)
  }

  /** ServiceA's `soma`, whose implementation is not part of this model. */
  type Soma = (Int32, Int32) -> Int32

  class ServiceBImpl {
    /** The ServiceA collaborator; `None` is a null reference. */
    var serviceA: Option<Soma>

    constructor ()
      ensures serviceA == None
    {
      serviceA := None;
    }

    function GetServiceA(): Option<Soma>
      reads this
    {
      serviceA
    }

    method SetServiceA(servicioA: Option<Soma>)
      modifies this
      ensures GetServiceA() == servicioA
    {
      serviceA := servicioA;
    }

    /** `calculoMultiplicar`: `soma(num1, num2) * multiplicador` in `int`
        arithmetic; `None` is the NullPointerException raised when no ServiceA
        is set. */
    function CalculoMultiplicar(num1: Int32, num2: Int32, multiplicador: Int32): (r: Option<Int32>)
      reads this
      ensures r.None? <==> serviceA.None?
      ensures serviceA.Some? ==>
                var sum := serviceA.value(num1, num2) as int;
                && (r.value as int - sum * multiplicador as int) % MODULUS == 0
                && (-0x8000_0000 <= sum * multiplicador as int < 0x8000_0000 ==> r.value as int == sum * multiplicador as int)
    {
      match serviceA
      case None => None
      case Some(soma) => Some(Multiplicar(soma(num1, num2), multiplicador))
    }
  }

  /** `multiplicar(2, 3)` is 6. */
  lemma MultiplicarTwoThree()
    ensures Multiplicar(2, 3) == 6
  {
  }

  /** With `soma(2, 3)` stubbed to 5, `calculoMultiplicar(2, 3, 2)` is 10. */
  lemma CalculoWithStubbedSoma(b: ServiceBImpl, soma: Soma)
    requires b.serviceA == Some(soma) && soma(2, 3) == 5
    ensures b.CalculoMultiplicar(2, 3, 2) == Some(10)
  {
  }

  /** A product that overflows wraps around: 65536 * 65536 is 0 in `int`. */
  lemma MultiplicarWraps()
    ensures Multiplicar(0x1_0000, 0x1_0000) == 0
  {
  }
}
