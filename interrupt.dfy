/** The Raspberry Pi interrupt numbers the kernel handles (lib/pi/src/interrupt.rs):
  * their IRQ numbers, the conversion back from a number, and which bit of which
  * 32-bit pending/enable register belongs to each. */
module Interrupt {
  import opened Common

  datatype Interrupt = Timer1 | Timer3 | Usb | Gpio0 | Gpio1 | Gpio2 | Gpio3 | Uart

  /** The IRQ number of each interrupt (its discriminant). */
  function Number(i: Interrupt): (n: nat)
  {
    match i
    case Timer1 => 1
    case Timer3 => 3
    case Usb => 9
    case Gpio0 => 49
    case Gpio1 => 50
    case Gpio2 => 51
    case Gpio3 => 52
    case Uart => 57
  }

  predicate IsIrq(n: nat)
  {
    n in {1, 3, 9, 49, 50, 51, 52, 57}
  }

  /** `From<usize> for Interrupt`; any other number panics. */
  function FromIrq(n: nat): (i: Interrupt)
    requires IsIrq(n)
  {
    match n
    case 1 => Timer1
    case 3 => Timer3
    case 9 => Usb
    case 49 => Gpio0
    case 50 => Gpio1
    case 51 => Gpio2
    case 52 => Gpio3
    case 57 => Uart
  }

  /** Number and conversion are inverse: the listed numbers are exactly the
    * interrupts' numbers. */
  lemma FromIrqInvertsNumber(i: Interrupt, n: nat)
    ensures IsIrq(Number(i)) && FromIrq(Number(i)) == i
    ensures IsIrq(n) ==> Number(FromIrq(n)) == n
  {
  }

  const MAX: nat := 8

  /** `Interrupt::iter`. */
  const All: seq<Interrupt> := [Timer1, Timer3, Usb, Gpio0, Gpio1, Gpio2, Gpio3, Uart]

  /** `iter` yields MAX interrupts, each exactly once, in increasing IRQ order. */
  lemma AllListsEachOnce(i: Interrupt)
    ensures |All| == MAX && i in All
    ensures forall j, k :: 0 <= j < k < |All| ==> Number(All[j]) < Number(All[k])
  {
  }

  /** `register`: the register index and the bit mask of the interrupt. */
  function Register(i: Interrupt): (r: (nat, nat))
    ensures r.0 <= 1
    ensures exists k :: 0 <= k < 32 && r.1 == Pow2(k)
  {
    var v := Number(i);
    (v / 32, Pow2(v % 32))
  }

  /** The register bit locates the interrupt: index × 32 + bit position is the
    * IRQ number, and no two interrupts share a bit. */
  lemma RegisterLocates(a: Interrupt, b: Interrupt, k: nat)
    requires Register(a).1 == Pow2(k)
    ensures Register(a).0 * 32 + k == Number(a)
    ensures Register(a) == Register(b) ==> a == b
  {
    Pow2Injective(k, Number(a) % 32);
    if Register(a) == Register(b) {
      Pow2Injective(Number(a) % 32, Number(b) % 32);
      assert Number(a) == Number(b);
    }
  }
}
