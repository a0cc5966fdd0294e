/** The system-call interface shared by the kernel and user programs
  * (lib/kernel_api/src/lib.rs): the numbered `OsError` codes returned to user
  * space, the translation of I/O errors into them, and the system-call numbers. */
module KernelApi {
  import Common
  import Io

  datatype OsError =
    | Unknown | Ok
    | NoEntry | NoMemory | NoVmSpace | NoAccess | BadAddress | FileExists | InvalidArgument
    | IoError | IoErrorEof | IoErrorInvalidData | IoErrorInvalidInput | IoErrorTimedOut
    | InvalidSocket | IllegalSocketOperation

  /** The explicit discriminant of each variant (`OsError as u64`). */
  function Code(e: OsError): (n: Common.u64)
  {
    match e
    case Unknown => 0
    case Ok => 1
    case NoEntry => 10
    case NoMemory => 20
    case NoVmSpace => 30
    case NoAccess => 40
    case BadAddress => 50
    case FileExists => 60
    case InvalidArgument => 70
    case IoError => 101
    case IoErrorEof => 102
    case IoErrorInvalidData => 103
    case IoErrorInvalidInput => 104
    case IoErrorTimedOut => 105
    case InvalidSocket => 200
    case IllegalSocketOperation => 201
  }

  /** `From<u64> for OsError`, as written: there is no arm for 105. */
  function FromCode(n: Common.u64): (e: OsError)
  {
    match n
    case 1 => Ok
    case 10 => NoEntry
    case 20 => NoMemory
    case 30 => NoVmSpace
    case 40 => NoAccess
    case 50 => BadAddress
    case 60 => FileExists
    case 70 => InvalidArgument
    case 101 => IoError
    case 102 => IoErrorEof
    case 103 => IoErrorInvalidData
    case 104 => IoErrorInvalidInput
    case 200 => InvalidSocket
    case 201 => IllegalSocketOperation
    case _ => Unknown
  }

  /** `From<u64> for OsError` with the arm for 105 that the enum calls for. */
  function FromCodeFixed(n: Common.u64): (e: OsError)
  {
    if n == 105 then IoErrorTimedOut else FromCode(n)
  }

  /** Decoding a discriminant gives its variant back, for every variant but
    * `IoErrorTimedOut`; and every number that decodes to a known error is
    * that error's discriminant. */
  lemma FromCodeInvertsCode(e: OsError, n: Common.u64)
    ensures e != IoErrorTimedOut ==> FromCode(Code(e)) == e
    ensures FromCode(n) != Unknown ==> Code(FromCode(n)) == n
  {
  }

  /** The code a user program receives for a timed-out I/O operation reads back as `Unknown`. */
  lemma TimedOutIsLost()
    ensures Code(IoErrorTimedOut) == 105 && FromCode(105) == Unknown
  {
  }

  /** With the corrected conversion, code and decoding are inverse on every variant. */
  lemma FromCodeFixedInvertsCode(e: OsError, n: Common.u64)
    ensures FromCodeFixed(Code(e)) == e
    ensures FromCodeFixed(n) != Unknown ==> Code(FromCodeFixed(n)) == n
    ensures FromCodeFixed(n) == Unknown <==> forall v: OsError :: v != Unknown ==> Code(v) != n
  {
    if FromCodeFixed(n) == Unknown {
      forall v: OsError | v != Unknown
        ensures Code(v) != n
      {
        assert FromCodeFixed(Code(v)) == v;
      }
    } else {
      assert Code(FromCodeFixed(n)) == n;
    }
  }

  /** `From<io::Error> for OsError`. */
  function FromIoError(kind: Io.ErrorKind): (e: OsError)
  {
    match kind
    case UnexpectedEof => IoErrorEof
    case InvalidData => IoErrorInvalidData
    case InvalidInput => IoErrorInvalidInput
    case TimedOut => IoErrorTimedOut
    case NotFound => NoEntry
    case _ => IoError
  }

  /** Every I/O error becomes one of the I/O codes (or `NoEntry`), and only the
    * five named kinds get a code other than the generic `IoError`. */
  lemma FromIoErrorRange(kind: Io.ErrorKind)
    ensures FromIoError(kind) in {IoError, IoErrorEof, IoErrorInvalidData, IoErrorInvalidInput, IoErrorTimedOut, NoEntry}
    ensures FromIoError(kind) != IoError <==> kind in {Io.UnexpectedEof, Io.InvalidData, Io.InvalidInput, Io.TimedOut, Io.NotFound}
    ensures 100 < Code(FromIoError(kind)) < 106 || FromIoError(kind) == NoEntry
  {
  }

  datatype Syscall = Sleep | Time | Exit | Open | Read | Write | GetPid | Sbrk | UnknownCall

  /** The explicit discriminant of each system call (`Unknown` is 256). */
  function SyscallNumber(s: Syscall): (n: nat)
  {
    match s
    case Sleep => 0
    case Time => 1
    case Exit => 2
    case Open => 3
    case Read => 4
    case Write => 5
    case GetPid => 6
    case Sbrk => 7
    case UnknownCall => 256
  }

  /** `From<u16> for Syscall`. */
  function SyscallFrom(value: Common.u16): (s: Syscall)
  {
    match value
    case 0 => Sleep
    case 1 => Time
    case 2 => Exit
    case 3 => Open
    case 4 => Read
    case 5 => Write
    case 6 => GetPid
    case 7 => Sbrk
    case _ => UnknownCall
  }

  /** Numbers 0 to 7 name the eight calls and decode back to themselves; every
    * other number is the unknown call. */
  lemma SyscallFromInvertsNumber(s: Syscall, value: Common.u16)
    ensures s != UnknownCall ==> SyscallNumber(s) < 8 && SyscallFrom(SyscallNumber(s)) == s
    ensures SyscallFrom(value) == UnknownCall <==> value >= 8
    ensures value < 8 ==> SyscallNumber(SyscallFrom(value)) == value
  {
  }
}
