/** Last-level page-table entries (kernel/src/memory/entry.rs): the
  * permission pair AP/XN, the copy-on-write mark and the output address.
  *
  * The raw descriptor is a record of its named fields; which bits each
  * field occupies belongs to the aarch64 crate, which is not part of this
  * model.  The field encodings used here follow the AArch64 stage 1
  * descriptor format: AP[2:1] = 0b01 for read/write at EL1 and EL0, 0b11
  * for read-only at both; XN = 1 forbids execution; a clear software COW
  * bit means the page is owned. */
module PageEntry {
  import opened Common

  /** `PAGE_ALIGN`: pages are 64 KiB. */
  const PageAlign: nat := 16

  const KernRw: nat := 0
  const UserRw: nat := 1
  const KernRo: nat := 2
  const UserRo: nat := 3

  const Ex: nat := 0
  const Nx: nat := 1

  const Own: nat := 0
  const Cow: nat := 1

  /** `PagePermissions`. */
  datatype Perm = RW | RO | RWX | RX

  predicate Writable(p: Perm) { p == RW || p == RWX }

  predicate Executable(p: Perm) { p == RWX || p == RX }

  /** `RawL3Entry`, one value per field. */
  datatype RawEntry = RawEntry(
    addr: nat, af: nat, sh: nat, ap: nat, attr: nat,
    kind: nat, valid: nat, xn: nat, cow: nat)

  /** `L3Entry::empty`: every field zero. */
  function EmptyEntry(): (r: RawEntry)
    ensures !IsValid(r) && !IsCow(r) && Address(r) == 0
  {
    RawEntry(0, 0, 0, 0, 0, 0, 0, 0, 0)
  }

  /** `is_valid`. */
  predicate IsValid(e: RawEntry)
  {
    e.valid > 0
  }

  /** `address`: the ADDR field shifted left by `PAGE_ALIGN`.  The result is
    * always page aligned and gives back the field. */
  function Address(e: RawEntry): (r: nat)
    ensures r % Pow2(PageAlign) == 0 && r / Pow2(PageAlign) == e.addr
  {
    MulDivCancel(e.addr, Pow2(PageAlign));
    e.addr * Pow2(PageAlign)
  }

  /** `permissions`; `None` stands for the panic on any other AP/XN pair. */
  function Permissions(e: RawEntry): (r: Option<Perm>)
    ensures r.Some? <==> (e.ap == UserRw || e.ap == UserRo) && (e.xn == Nx || e.xn == Ex)
  {
    if e.ap == UserRw && e.xn == Nx then Some(RW)
    else if e.ap == UserRo && e.xn == Nx then Some(RO)
    else if e.ap == UserRw && e.xn == Ex then Some(RWX)
    else if e.ap == UserRo && e.xn == Ex then Some(RX)
    else None
  }

  /** `set_permissions`: AP from the write right, XN from the execute right. */
  function WithPermissions(e: RawEntry, p: Perm): (r: RawEntry)
  {
    var ap := if Writable(p) then UserRw else UserRo;
    var xn := if Executable(p) then Ex else Nx;
    e.(ap := ap, xn := xn)
  }

  /** `set_cow`. */
  function WithCow(e: RawEntry, cow: bool): (r: RawEntry)
  {
    e.(cow := if cow then Cow else Own)
  }

  /** `is_cow`. */
  predicate IsCow(e: RawEntry)
  {
    e.cow > 0
  }

  /** Setting permissions and reading them back gives the same permissions. */
  lemma PermissionsRoundTrip(e: RawEntry, p: Perm)
    ensures Permissions(WithPermissions(e, p)) == Some(p)
  {
  }

  /** The AP field records the write right and the XN field the execute
    * right; no other field changes. */
  lemma WithPermissionsFields(e: RawEntry, p: Perm)
    ensures WithPermissions(e, p).ap == UserRw <==> Writable(p)
    ensures WithPermissions(e, p).ap == UserRo <==> !Writable(p)
    ensures WithPermissions(e, p).xn == Ex <==> Executable(p)
    ensures WithPermissions(e, p).xn == Nx <==> !Executable(p)
    ensures WithPermissions(e, p) == e.(ap := WithPermissions(e, p).ap, xn := WithPermissions(e, p).xn)
  {
  }

  /** The other direction of the round trip: an entry whose permissions
    * decode is left as it is by setting those permissions again. */
  lemma PermissionsRestore(e: RawEntry)
    requires Permissions(e).Some?
    ensures WithPermissions(e, Permissions(e).value) == e
  {
  }

  /** A fresh entry holds the kernel read/write encoding, so asking for its
    * user permissions panics. */
  lemma EmptyHasNoPermissions()
    ensures Permissions(EmptyEntry()).None?
  {
  }

  /** The copy-on-write mark reads back as written and touches nothing else;
    * permissions and the mark are independent. */
  lemma CowRoundTrip(e: RawEntry, cow: bool, p: Perm)
    ensures IsCow(WithCow(e, cow)) == cow
    ensures WithCow(e, cow) == e.(cow := WithCow(e, cow).cow)
    ensures Permissions(WithCow(e, cow)) == Permissions(e)
    ensures IsCow(WithPermissions(e, p)) == IsCow(e)
    ensures Address(WithCow(e, cow)) == Address(e) && Address(WithPermissions(e, p)) == Address(e)
  {
  }

  /** Two entries with different ADDR fields map different pages. */
  lemma AddressInjective(e: RawEntry, f: RawEntry)
    requires Address(e) == Address(f)
    ensures e.addr == f.addr
  {
  }

  /** `L3Entry`, a wrapper around a raw entry that its setters update. */
  class L3Entry {
    var raw: RawEntry

    constructor Empty()
      ensures raw == EmptyEntry()
    {
      raw := EmptyEntry();
    }

    constructor FromRaw(v: RawEntry)
      ensures raw == v
    {
      raw := v;
    }

    method SetPermissions(p: Perm)
      modifies this
      ensures raw == WithPermissions(old(raw), p)
      ensures Permissions(raw) == Some(p)
    {
      var ap := if Writable(p) then UserRw else UserRo;
      raw := raw.(ap := ap);
      var xn := if Executable(p) then Ex else Nx;
      raw := raw.(xn := xn);
    }

    method SetCow(cow: bool)
      modifies this
      ensures raw == WithCow(old(raw), cow)
      ensures IsCow(raw) == cow
    {
      if cow {
        raw := raw.(cow := Cow);
      } else {
        raw := raw.(cow := Own);
      }
    }
  }

  /** `PageTableEntry`: an owned entry, or a shared copy-on-write one with
    * its reference count. */
  datatype PageTableEntry = Owned(entry: RawEntry) | CopyOnWrite(entry: RawEntry, refs: nat)
}
