/** Decoding of the exception syndrome register ESR_ELx (kernel/src/traps/syndrome.rs)
  * after the Arm Architecture Reference Manual for Armv8-A, section D1.10.4:
  * bits 31..26 hold the exception class (EC), bit 25 the instruction length and
  * bits 24..0 the instruction-specific syndrome (ISS).  For aborts, ISS bits 5..0
  * are the fault status code and bit 6 is "write not read". */
module Syndrome {
  import opened Common

  // ---------------------------------------------------------------------------
  // Fault status codes

  datatype FaultStatusCode =
    | AddressSizeFault0 | AddressSizeFault1 | AddressSizeFault2 | AddressSizeFault3
    | TranslationFault0 | TranslationFault1 | TranslationFault2 | TranslationFault3
    | AccessFlagFault1 | AccessFlagFault2 | AccessFlagFault3
    | PermissionFault1 | PermissionFault2 | PermissionFault3
    | SynchronousExternalAbortNotOnTranslationWalk
    | SynchronousParityOrEccNotOnTranslationWalk
    | SynchronousExternalAbortOnTranslationWalk0 | SynchronousExternalAbortOnTranslationWalk1
    | SynchronousExternalAbortOnTranslationWalk2 | SynchronousExternalAbortOnTranslationWalk3
    | SynchronousParityOrEccOnTranslationWalk0 | SynchronousParityOrEccOnTranslationWalk1
    | SynchronousParityOrEccOnTranslationWalk2 | SynchronousParityOrEccOnTranslationWalk3
    | AlignmentFault | TlbConflictAbort | UnsupportedAtomicHardwareUpdate | LockdownFault
    | UnsupportedExclusiveOrAtomicAccess | SectionDomainFault | PageDomainFault
    | UnknownCode(code: u32)

  /** `From<u32> for FaultStatusCode`: decode bits 5..0. */
  function FaultStatusCodeFrom(value: u32): (f: FaultStatusCode)
  {
    match value % 64
    case 0x00 => AddressSizeFault0
    case 0x01 => AddressSizeFault1
    case 0x02 => AddressSizeFault2
    case 0x03 => AddressSizeFault3
    case 0x04 => TranslationFault0
    case 0x05 => TranslationFault1
    case 0x06 => TranslationFault2
    case 0x07 => TranslationFault3
    case 0x09 => AccessFlagFault1
    case 0x0A => AccessFlagFault2
    case 0x0B => AccessFlagFault3
    case 0x0D => PermissionFault1
    case 0x0E => PermissionFault2
    case 0x0F => PermissionFault3
    case 0x10 => SynchronousExternalAbortNotOnTranslationWalk
    case 0x18 => SynchronousParityOrEccNotOnTranslationWalk
    case 0x14 => SynchronousExternalAbortOnTranslationWalk0
    case 0x15 => SynchronousExternalAbortOnTranslationWalk1
    case 0x16 => SynchronousExternalAbortOnTranslationWalk2
    case 0x17 => SynchronousExternalAbortOnTranslationWalk3
    case 0x1C => SynchronousParityOrEccOnTranslationWalk0
    case 0x1D => SynchronousParityOrEccOnTranslationWalk1
    case 0x1E => SynchronousParityOrEccOnTranslationWalk2
    case 0x1F => SynchronousParityOrEccOnTranslationWalk3
    case 0x21 => AlignmentFault
    case 0x30 => TlbConflictAbort
    case 0x31 => UnsupportedAtomicHardwareUpdate
    case 0x34 => LockdownFault
    case 0x35 => UnsupportedExclusiveOrAtomicAccess
    case 0x3D => SectionDomainFault
    case 0x3E => PageDomainFault
    case v => UnknownCode(v)
  }

  /** The six-bit encoding of each named fault status code in the Arm manual. */
  function StatusCodeBits(f: FaultStatusCode): (v: nat)
    requires !f.UnknownCode?
  {
    match f
    case AddressSizeFault0 => 0x00
    case AddressSizeFault1 => 0x01
    case AddressSizeFault2 => 0x02
    case AddressSizeFault3 => 0x03
    case TranslationFault0 => 0x04
    case TranslationFault1 => 0x05
    case TranslationFault2 => 0x06
    case TranslationFault3 => 0x07
    case AccessFlagFault1 => 0x09
    case AccessFlagFault2 => 0x0A
    case AccessFlagFault3 => 0x0B
    case PermissionFault1 => 0x0D
    case PermissionFault2 => 0x0E
    case PermissionFault3 => 0x0F
    case SynchronousExternalAbortNotOnTranslationWalk => 0x10
    case SynchronousParityOrEccNotOnTranslationWalk => 0x18
    case SynchronousExternalAbortOnTranslationWalk0 => 0x14
    case SynchronousExternalAbortOnTranslationWalk1 => 0x15
    case SynchronousExternalAbortOnTranslationWalk2 => 0x16
    case SynchronousExternalAbortOnTranslationWalk3 => 0x17
    case SynchronousParityOrEccOnTranslationWalk0 => 0x1C
    case SynchronousParityOrEccOnTranslationWalk1 => 0x1D
    case SynchronousParityOrEccOnTranslationWalk2 => 0x1E
    case SynchronousParityOrEccOnTranslationWalk3 => 0x1F
    case AlignmentFault => 0x21
    case TlbConflictAbort => 0x30
    case UnsupportedAtomicHardwareUpdate => 0x31
    case LockdownFault => 0x34
    case UnsupportedExclusiveOrAtomicAccess => 0x35
    case SectionDomainFault => 0x3D
    case PageDomainFault => 0x3E
  }

  /** The decoder reads only bits 5..0: a named code decodes from exactly its
    * encoding, and anything else is `Unknown` carrying those six bits. */
  lemma FaultStatusCodeRoundTrip(f: FaultStatusCode, value: u32)
    ensures !f.UnknownCode? ==> StatusCodeBits(f) < 64 && FaultStatusCodeFrom(StatusCodeBits(f)) == f
    ensures FaultStatusCodeFrom(value) == FaultStatusCodeFrom(value % 64)
    ensures match FaultStatusCodeFrom(value)
      case UnknownCode(v) => v == value % 64 && v < 64
      case g => StatusCodeBits(g) == value % 64
  {
    if !f.UnknownCode? {
      NamedCodeDecodes(f);
    }
    DecodeReadsLowBits(value);
    DecodeShape(value);
  }

  lemma NamedCodeDecodes(f: FaultStatusCode)
    requires !f.UnknownCode?
    ensures StatusCodeBits(f) < 64 && FaultStatusCodeFrom(StatusCodeBits(f)) == f
  {
  }

  lemma DecodeReadsLowBits(value: u32)
    ensures FaultStatusCodeFrom(value) == FaultStatusCodeFrom(value % 64)
  {
  }

  lemma DecodeShape(value: u32)
    ensures match FaultStatusCodeFrom(value)
      case UnknownCode(v) => v == value % 64 && v < 64
      case g => StatusCodeBits(g) == value % 64
  {
  }

  // ---------------------------------------------------------------------------
  // Fault groups

  datatype Fault = AddressSize | Translation | AccessFlag | Permission | Alignment | TlbConflict | OtherFault(code: byte)

  /** `From<u32> for Fault`, as written: the last two arms are the decimal numbers
    * 100001 and 110000, not the binary codes 0b100001 and 0b110000. */
  function FaultFrom(val: u32): (f: Fault)
  {
    if val <= 3 then AddressSize
    else if 4 <= val <= 7 then Translation
    else if 9 <= val <= 11 then AccessFlag
    else if 13 <= val <= 15 then Permission
    else if val == 100001 then Alignment
    else if val == 110000 then TlbConflict
    else OtherFault(val % 256)
  }

  /** `From<u32> for Fault` with the binary literals evidently intended. */
  function FaultFromFixed(val: u32): (f: Fault)
  {
    if val <= 3 then AddressSize
    else if 4 <= val <= 7 then Translation
    else if 9 <= val <= 11 then AccessFlag
    else if 13 <= val <= 15 then Permission
    else if val == 0x21 then Alignment
    else if val == 0x30 then TlbConflict
    else OtherFault(val % 256)
  }

  /** The fault group a fault status code belongs to, read off the Arm manual's table. */
  function Group(f: FaultStatusCode, raw: u32): Fault
  {
    match f
    case AddressSizeFault0 => AddressSize
    case AddressSizeFault1 => AddressSize
    case AddressSizeFault2 => AddressSize
    case AddressSizeFault3 => AddressSize
    case TranslationFault0 => Translation
    case TranslationFault1 => Translation
    case TranslationFault2 => Translation
    case TranslationFault3 => Translation
    case AccessFlagFault1 => AccessFlag
    case AccessFlagFault2 => AccessFlag
    case AccessFlagFault3 => AccessFlag
    case PermissionFault1 => Permission
    case PermissionFault2 => Permission
    case PermissionFault3 => Permission
    case AlignmentFault => Alignment
    case TlbConflictAbort => TlbConflict
    case _ => OtherFault(raw % 256)
  }

  /** On six-bit codes the corrected `Fault::from` is exactly the grouping of the
    * fault status codes. */
  lemma FaultFromFixedGroupsStatusCodes(val: u32)
    requires val < 64
    ensures FaultFromFixed(val) == Group(FaultStatusCodeFrom(val), val)
  {
  }

  /** As written, the alignment and TLB-conflict codes fall through to `Other`,
    * where the fault status code decoder recognises them. */
  lemma FaultFromMissesAlignment()
    ensures FaultFrom(0x21) == OtherFault(0x21) && FaultStatusCodeFrom(0x21) == AlignmentFault
    ensures FaultFrom(0x30) == OtherFault(0x30) && FaultStatusCodeFrom(0x30) == TlbConflictAbort
    ensures FaultFromFixed(0x21) == Alignment && FaultFromFixed(0x30) == TlbConflict
  {
  }

  // ---------------------------------------------------------------------------
  // Syndromes

  datatype AbortData = AbortData(write: bool, faultStatusCode: FaultStatusCode)

  /** `From<u32> for AbortData`: bit 6 is WnR, bits 5..0 the fault status code. */
  function AbortDataFrom(value: u32): (a: AbortData)
  {
    AbortData(Bit(value, 6) == 1, FaultStatusCodeFrom(value))
  }

  datatype Syndrome =
    | UnknownReason | WfiWfe | SimdFp | IllegalExecutionState
    | Svc(svc: u16) | Hvc(hvc: u16) | Smc(smc: u16) | MsrMrsSystem
    | InstructionAbort(iabort: AbortData) | PcAlignmentFault | DataAbort(dabort: AbortData)
    | SpAlignmentFault | TrappedFpu | SError | Breakpoint | Step | Watchpoint
    | Brk(comment: u16) | Other(esr: u32)

  /** `esr >> 26`. */
  function ExceptionClass(esr: u32): (ec: nat)
    ensures ec < 64
  {
    esr / 0x400_0000
  }

  /** `esr & ((1 << 25) - 1)`. */
  function InstructionSyndrome(esr: u32): (iss: u32)
    ensures iss < 0x200_0000
  {
    esr % 0x200_0000
  }

  /** `From<u32> for Syndrome`. */
  function SyndromeFrom(esr: u32): (s: Syndrome)
  {
    var ec := ExceptionClass(esr);
    var iss := InstructionSyndrome(esr);
    if ec == 0x00 then UnknownReason
    else if ec == 0x01 then WfiWfe
    else if ec == 0x07 then SimdFp
    else if ec == 0x0E then IllegalExecutionState
    else if ec == 0x15 then Svc(iss % 0x1_0000)
    else if ec == 0x16 then Hvc(iss % 0x1_0000)
    else if ec == 0x17 then Smc(iss % 0x1_0000)
    else if ec == 0x18 then MsrMrsSystem
    else if 0x20 <= ec <= 0x21 then InstructionAbort(AbortDataFrom(iss))
    else if ec == 0x22 then PcAlignmentFault
    else if 0x24 <= ec <= 0x25 then DataAbort(AbortDataFrom(iss))
    else if ec == 0x26 then SpAlignmentFault
    else if 0x28 <= ec <= 0x2C then TrappedFpu
    else if ec == 0x2F then SError
    else if 0x30 <= ec <= 0x31 then Breakpoint
    else if 0x32 <= ec <= 0x33 then Step
    else if 0x34 <= ec <= 0x35 then Watchpoint
    else if ec == 0x3C then Brk(esr % 0x1_0000)
    else Other(esr)
  }

  /** The exception classes the decoder names. */
  predicate KnownClass(ec: nat)
  {
    ec in {0x00, 0x01, 0x07, 0x0E, 0x15, 0x16, 0x17, 0x18, 0x20, 0x21, 0x22, 0x24, 0x25, 0x26,
           0x28, 0x29, 0x2A, 0x2B, 0x2C, 0x2F, 0x30, 0x31, 0x32, 0x33, 0x34, 0x35, 0x3C}
  }

  /** The register value with exception class `ec`, length bit `il` and syndrome `iss`
    * (the layout of section D1.10.4). */
  function Esr(ec: nat, il: nat, iss: nat): (esr: u32)
    requires ec < 64 && il < 2 && iss < 0x200_0000
  {
    ec * 0x400_0000 + il * 0x200_0000 + iss
  }

  /** The field extractors invert the layout. */
  lemma EsrFields(ec: nat, il: nat, iss: nat)
    requires ec < 64 && il < 2 && iss < 0x200_0000
    ensures ExceptionClass(Esr(ec, il, iss)) == ec && InstructionSyndrome(Esr(ec, il, iss)) == iss
  {
    var esr := Esr(ec, il, iss);
    assert esr == (ec * 2 + il) * 0x200_0000 + iss;
    assert esr % 0x200_0000 == iss;
    assert esr == ec * 0x400_0000 + (il * 0x200_0000 + iss);
  }

  /** What a syndrome carries: a supervisor call carries the low 16 bits of the
    * ISS, an abort the ISS's fault data, a BRK the low 16 bits of the register,
    * and an unnamed class the whole register. */
  lemma SyndromePayloads(ec: nat, il: nat, iss: nat)
    requires ec < 64 && il < 2 && iss < 0x200_0000
    ensures ec == 0x15 ==> SyndromeFrom(Esr(ec, il, iss)) == Svc(iss % 0x1_0000)
    ensures ec in {0x20, 0x21} ==> SyndromeFrom(Esr(ec, il, iss)) == InstructionAbort(AbortDataFrom(iss))
    ensures ec in {0x24, 0x25} ==> SyndromeFrom(Esr(ec, il, iss)) == DataAbort(AbortDataFrom(iss))
    ensures ec == 0x3C ==> SyndromeFrom(Esr(ec, il, iss)) == Brk(iss % 0x1_0000)
    ensures !KnownClass(ec) <==> SyndromeFrom(Esr(ec, il, iss)) == Other(Esr(ec, il, iss))
  {
    EsrFields(ec, il, iss);
    var esr := Esr(ec, il, iss);
    assert esr == (ec * 0x400 + il * 0x200) * 0x1_0000 + iss;
    assert esr % 0x1_0000 == iss % 0x1_0000 by {
      assert iss == (iss / 0x1_0000) * 0x1_0000 + iss % 0x1_0000;
      assert esr == (ec * 0x400 + il * 0x200 + iss / 0x1_0000) * 0x1_0000 + iss % 0x1_0000;
    }
  }

  /** The write flag is ISS bit 6 and the fault status code is ISS bits 5..0,
    * independent of each other. */
  lemma AbortDataFields(wnr: nat, fsc: nat, rest: nat)
    requires wnr < 2 && fsc < 64 && rest < 0x4_0000
    ensures AbortDataFrom(rest * 128 + wnr * 64 + fsc).write == (wnr == 1)
    ensures AbortDataFrom(rest * 128 + wnr * 64 + fsc).faultStatusCode == FaultStatusCodeFrom(fsc)
  {
    var v := rest * 128 + wnr * 64 + fsc;
    var high := rest * 2 + wnr;
    assert v == high * 64 + fsc;
    DivModUnique(high, fsc, 64);
    DivModUnique(rest, wnr, 2);
    assert Pow2(6) == 64;
    assert Bit(v, 6) == high % 2;
    FaultStatusCodeRoundTrip(UnknownCode(0), v);
  }
}
